# Code Snippet Playground — a verified model of the snippet core

Code Snippet Playground is a browser app for keeping code snippets. Each snippet has a name, an optional description, code, key terms, an optional language and a fingerprint of its code. This project models the part of the app that decides what is stored. That part has three pieces:

- **Text utilities** (`src/utils/normalize.ts`):
  - `normalizeCode` gives a code text its canonical form;
  - `hashNormalizedCode` computes the 32-bit FNV-1a fingerprint of that form;
  - `detectLanguage` guesses a language;
  - `formatKeyTerms` turns the comma-separated key-term text into a tag list;
  - `buildSnippet` and `updateSnippet` assemble records whose fingerprint matches their code;
  - `checkDuplicate` finds the snippets a candidate collides with, by name or by content.
- **The snippet collection** (`src/hooks/useSnippets.ts`):
  - `search` filters the collection;
  - `save` validates a payload, builds or updates a candidate, reports conflicts, and otherwise prepends the candidate or replaces it in place;
  - `forceSave` stores the candidate despite conflicts;
  - `remove` drops a snippet by id;
  - `allLanguages` lists the languages in use.
- **The language chips** (`src/components/LanguageStats.tsx`):
  - a count of snippets per language, sorted by count and then by name;
  - the click that toggles the language filter.

## Project layout

One Dafny module per component:

- `Common`: `Option` and `Result`.
- `Text`: JavaScript `trim`, `trimEnd`, `split`, `join`, `toLowerCase` and `includes`, plus the `\s` and `\w` character classes.
- `Seqs`: `filter`, `find` and the first-index de-duplication idiom.
- `Normalizer`, `Fingerprint`, `LanguageHeuristic`, `KeyTerms`: the text utilities.
- `Types`: `src/types.ts`.
- `Records`: `buildSnippet`, `updateSnippet` and `checkDuplicate`.
- `Store`: `useSnippets`.
- `LanguageStats`: the chips.

## How the model is built

- **Loops become methods.** Three source functions change local state in loops:
  - `normalizeCode` shifts and pops lines;
  - `hashNormalizedCode` updates `hash` in a `for` loop;
  - the chip tally fills a `Map` in a `for` loop.

  Each is a method with that loop, proved against a function that states its result.
- **The collection is a class.** The React state is the `snippets` field of `Store.SnippetStore`. Its `Save`, `ForceSave` and `Remove` methods replace the field.
  - Each method's postcondition ties the new field and the result to the functions `Saving`, `ForceSaving` and `Without`.
  - Lemmas about those functions state what the source promises.
- **Outside inputs are parameters.** `nanoid()` and the clock readings are passed in. `buildSnippet` reads the clock twice, so it gets two readings.
- **Errors are values.** The two errors `save` throws become `Err` values of a `Result`.

Three behaviours of the code a reader might not expect, which the model keeps:

- **Timestamps:** `buildSnippet` reads the clock twice (`src/utils/normalize.ts:58-59`), so `createdAt` and `updatedAt` need not be equal.
- **Merged fields:** `updateSnippet` spreads the whole patch, so a patch may replace `id` and `createdAt` too.
- **Hash input:** the hash reads UTF-16 code units, not code points.

## Model

| member | source | states |
|---|---|---|
| Text.Trim | src/utils/normalize.ts:4 | `code.trim()` is empty exactly when the text is all ECMAScript whitespace; otherwise it starts and ends with a non-whitespace character |
| Text.TrimIsSlice | src/utils/normalize.ts:4 | `trim` only removes a whitespace prefix and a whitespace suffix: the result is a slice of the text between them |
| Text.TrimChars | src/hooks/useSnippets.ts:117 | every character of a trimmed text is a character of the text |
| Text.TrimIdempotent | src/hooks/useSnippets.ts:165 | trimming twice is trimming once |
| Text.TrimOfTrimmed | src/utils/normalize.ts:4 | a text whose ends are not whitespace is its own trim |
| Text.TrimIgnoresPadding | src/utils/normalize.ts:4 | whitespace added around a text does not change its trim |
| Text.TrimEnd | src/utils/normalize.ts:9 | `line.replace(/\s+$/u, '')` is a prefix of the line, what it drops is all whitespace, and it does not end in whitespace |
| Text.TrimEndOfTrimmed | src/utils/normalize.ts:9 | a line that does not end in whitespace is unchanged by it |
| Text.TrimEndOfPadded | src/utils/normalize.ts:9 | whitespace after a line that does not end in whitespace is exactly what the replacement removes |
| Text.Split | src/utils/normalize.ts:8 | `split('\n')` yields at least one piece, and no piece holds the separator |
| Text.JoinSplit | src/utils/normalize.ts:13 | joining the pieces of a split with the same separator gives the text back |
| Text.SplitJoin | src/utils/normalize.ts:13 | splitting a join of separator-free pieces gives the pieces back |
| Text.JoinFirst | src/utils/normalize.ts:13 | `join` begins with the first part when that part is not empty |
| Text.JoinLast | src/utils/normalize.ts:13 | `join` ends with the last part when that part is not empty |
| Text.Lower | src/utils/normalize.ts:27 | `toLowerCase` keeps the length and lower-cases each ASCII letter in place |
| Text.ContainsSlice | src/hooks/useSnippets.ts:108 | `includes` finds every slice of the text |
| Text.ContainsIff | src/hooks/useSnippets.ts:108 | `includes` holds exactly when the text occurs at some index |
| Text.ContainsAt | src/hooks/useSnippets.ts:108 | `includes` finds only what is there: a contained text occurs at some position; with `ContainsSlice` this is both directions of "occurs at some index" |
| Text.LowerIdempotent | src/hooks/useSnippets.ts:104 | lower-casing twice is lower-casing once |
| Seqs.Filter | src/hooks/useSnippets.ts:105 | `filter` keeps only elements of the list that pass the test |
| Seqs.FilterKeeps | src/hooks/useSnippets.ts:105 | `filter` loses no element that passes the test |
| Seqs.FilterMultiplicity | src/hooks/useSnippets.ts:105 | `filter` keeps every copy of an element that passes: its number of occurrences is unchanged |
| Seqs.FilterIsSubsequence | src/hooks/useSnippets.ts:105 | `filter` keeps the relative order |
| Seqs.Dedup | src/utils/normalize.ts:43 | the `indexOf` filter leaves no duplicates and only values of the list |
| Seqs.DedupIsFirstOccurrences | src/utils/normalize.ts:43 | that filter, read literally as keeping position `i` when `indexOf` finds it first at `i`, equals `Dedup` |
| Seqs.DedupKeeps | src/utils/normalize.ts:43 | no value is lost by de-duplication |
| Seqs.DedupFirstSeenOrder | src/utils/normalize.ts:43 | values come out in first-seen order |
| Seqs.DedupOfDistinct | src/utils/normalize.ts:43 | a list without duplicates is unchanged |
| Seqs.FindFirst | src/utils/normalize.ts:76-81 | `find` returns nothing exactly when no element passes, and otherwise the first element that passes |
| Normalizer.NormalizeCode | src/utils/normalize.ts:3-14 | the method with the shift and pop loops returns the normal form `Normalize(code)` |
| Normalizer.NormalizeEmptyIff | src/utils/normalize.ts:4-5 | the normal form is `""` exactly when the input is empty or all whitespace |
| Normalizer.NormalizeBlankExample | src/utils/normalize.test.ts:10-12 | `"   "` normalises to `""` |
| Normalizer.NormalizeExample | src/utils/normalize.test.ts:5-8 | `"\n  const x = 1;   \n\n"` normalises to `"const x = 1;"` |
| Normalizer.NormalizeKeepsAllLines | src/utils/normalize.ts:11-12 | the shift and pop loops never remove a line, because after `trim` the first and last lines are not empty |
| Normalizer.LinesOfTrimmed | src/utils/normalize.ts:7-9 | the lines of a trimmed, non-empty text hold no line break and do not end in whitespace; the first and last are not empty |
| Normalizer.NormalizeEdges | src/utils/normalize.ts:4-13 | the normal form neither starts nor ends with whitespace |
| Normalizer.NormalizeShape | src/utils/normalize.ts:7-13 | the lines of the normal form are exactly the lines of the trimmed input with trailing whitespace removed, so indentation is kept |
| Normalizer.NormalizeLineEnds | src/utils/normalize.ts:9-12 | no line of the normal form ends in whitespace, and its first and last lines are not empty |
| Normalizer.JoinedLines | src/utils/normalize.ts:13 | joining the lines of a trimmed text gives a text with the same lines and no whitespace at its ends |
| Normalizer.NormalizeIdempotent | src/utils/normalize.ts:3-14 | normalising a normal form changes nothing |
| Normalizer.NormalFormIsTrimmed | src/utils/normalize.ts:3-14 | a normal form is its own trim |
| Normalizer.NormalizeIgnoresPadding | src/utils/normalize.ts:4 | whitespace around the whole text does not change the normal form |
| Normalizer.NormalizeOfTrimmed | src/hooks/useSnippets.ts:165 | normalising the trimmed text gives the same normal form |
| Normalizer.NormalizePaddedLine | src/utils/normalize.ts:3-14 | one padded line normalises to the line |
| Normalizer.NormalizeTwoLines | src/utils/normalize.ts:7-13 | of two lines, the first loses its trailing whitespace and the two are joined with `\n` |
| Normalizer.LineEndSpaceExample | src/utils/normalize.ts:3-14 | `"a  \nb"` and `"a\nb"` both normalise to `"a\nb"` |
| Fingerprint.HashNormalizedCode | src/utils/normalize.ts:16-24 | the loop over the UTF-16 code units with 32-bit multiplication returns `FingerprintOf`, the FNV-1a hash in hex |
| Fingerprint.SourceHashNormalizedCode | src/utils/normalize.ts:16-24 | the loop as written, with a signed XOR value and a double product, returns `SourceFingerprintOf` |
| Fingerprint.FingerprintOf | src/utils/normalize.ts:23 | the fingerprint is 1 to 8 lower-case hex digits, has no leading zero, and denotes the 32-bit hash |
| Fingerprint.FingerprintsEqualIff | src/utils/normalize.ts:23 | two fingerprints are equal exactly when the 32-bit hashes are equal |
| Fingerprint.ToHexRoundTrip | src/utils/normalize.ts:23 | reading back `toString(16)` gives the number |
| Fingerprint.ToHex | src/utils/normalize.ts:23 | `toString(16)` gives lower-case hex digits with no leading zero |
| Fingerprint.WordHexLength | src/utils/normalize.ts:23 | a 32-bit value has at most 8 hex digits |
| Fingerprint.FingerprintOfEmpty | src/utils/normalize.ts:18 | the empty text gives `"811c9dc5"` |
| Fingerprint.CodeUnits | src/utils/normalize.ts:20 | `charCodeAt` reads the character itself below U+10000; above it, a high surrogate in D800..DBFF and a low one in DC00..DFFF that together give the character back |
| Fingerprint.ToInt32 | src/utils/normalize.ts:20 | `^=` leaves a signed 32-bit value congruent to the unsigned one |
| Fingerprint.Ulp | src/utils/normalize.ts:21 | the spacing of doubles is 1 below 2^53 and, above it, between 2^-52 and 2^-53 of the value |
| Fingerprint.RoundToDouble | src/utils/normalize.ts:21 | the double product is exact below 2^53; above it, the result is a multiple of the spacing with a significand of at most 53 bits, within half a spacing of the exact product, and even on a tie |
| Fingerprint.SourceStepExact | src/utils/normalize.ts:20-21 | where the double product is exact, the source's step is the FNV-1a step |
| Fingerprint.SourceStepExactWhenSmall | src/utils/normalize.ts:20-21 | a step whose signed XOR value is below 2^28 in magnitude is exact |
| Fingerprint.SourceHashDiffers | src/utils/normalize.ts:21 | for the text `"b"` the loop as written gives `e70c2de4`, where FNV-1a gives `e70c2de5` |
| LanguageHeuristic.DetectLanguage | src/utils/normalize.ts:26-36 | the result is nothing exactly when no test matches; otherwise it is the language of the first test in the fixed order that matches |
| LanguageHeuristic.PatternKeywords | src/utils/normalize.ts:28-34 | each pattern that matches contains its keyword |
| LanguageHeuristic.DetectedKeywords | src/utils/normalize.ts:26-36 | every detected language is backed by a keyword of its test in the text |
| LanguageHeuristic.CppBeforeJavaScript | src/utils/normalize.ts:28-29 | a text with both `std::` and `=>` is C++ |
| LanguageHeuristic.NoCppMarker | src/utils/normalize.ts:28 | a text lacking the characters of the C++ markers fails the C++ test |
| LanguageHeuristic.NoJavaScriptMarker | src/utils/normalize.ts:29-30 | a text lacking the characters of the JavaScript markers fails the JavaScript test |
| LanguageHeuristic.PythonExample | src/utils/normalize.ts:31 | `def foo(): pass` is Python |
| LanguageHeuristic.SqlExample | src/utils/normalize.ts:33 | `SELECT id FROM users` is SQL |
| LanguageHeuristic.SqlIsCaseSensitive | src/utils/normalize.ts:33 | the lower-case query is not SQL |
| LanguageHeuristic.ImportReactIgnoresCase | src/utils/normalize.ts:27-30 | `IMPORT React` is JavaScript, because that test runs on the lower-cased text |
| LanguageHeuristic.IncludeExample | src/utils/normalize.ts:28 | `#include <stdio.h>` is C++ |
| LanguageHeuristic.IncludeNeedsLineStart | src/utils/normalize.ts:28 | for every text: when each `#` follows a non-whitespace character on its own line, `^\s*#include…` under the `m` flag does not match |
| LanguageHeuristic.IncludeMidLineExample | src/utils/normalize.ts:28 | `int x; #include <a.h>` has no `#include` directive |
| LanguageHeuristic.UndetectedExample | src/utils/normalize.ts:35 | `hello` matches no test, so no language is detected |
| KeyTerms.FormatKeyTerms | src/utils/normalize.ts:38-44 | every term is non-empty, trimmed and comma-free; no term repeats; each is the trim of a comma-separated piece |
| KeyTerms.PiecesKept | src/utils/normalize.ts:38-44 | the trim of every non-blank piece is a term |
| KeyTerms.FormatKeyTermsOrder | src/utils/normalize.ts:43 | terms come out in first-typed order |
| KeyTerms.FormatEmpty | src/hooks/useSnippets.ts:126 | the empty text has no terms |
| KeyTerms.KeyTermsExample | src/utils/normalize.ts:38-44 | `a, a, b ,` gives the terms `a` and `b` |
| KeyTerms.FormatJoinedTerms | src/utils/normalize.ts:38-44 | formatting the comma-join of distinct clean terms returns those terms |
| KeyTerms.FormatKeyTermsIdempotent | src/utils/normalize.ts:38-44 | formatting the comma-join of a result again returns the same list |
| Records.HashOf | src/utils/normalize.ts:54-57 | a stored fingerprint is 1 to 8 hex digits and denotes the FNV-1a hash of the normal form of the code |
| Records.HashIgnoresPadding | src/utils/normalize.ts:54-57 | whitespace around the code does not change its fingerprint |
| Records.LineEndSpaceSameHash | src/utils/normalize.ts:54-57 | `"a  \nb"` and `"a\nb"` get the same fingerprint |
| Records.BuildSnippet | src/utils/normalize.ts:46-61 | the record carries the draft's fields, a fingerprint consistent with its code and the two clock readings |
| Records.UpdateSnippet | src/utils/normalize.ts:63-70 | each property in the patch replaces the snippet's and every other is kept; `updatedAt` is the clock reading; the fingerprint is recomputed from the resulting code |
| Records.UpdateWithNoChanges | src/utils/normalize.ts:63-70 | an empty patch changes only `updatedAt` of a consistent snippet |
| Records.UpdateIgnoresDerivedFields | src/utils/normalize.ts:64-68 | a fingerprint or `updatedAt` in the patch has no effect |
| Records.UpdatePaddedCodeSameHash | src/utils/normalize.ts:63-70 | replacing the code by itself with whitespace around it keeps the fingerprint |
| Records.CheckDuplicate | src/utils/normalize.ts:72-83 | `byName` is absent exactly when no other snippet has the name up to ASCII case, and otherwise it is the first such snippet; likewise `byContent` for the fingerprint |
| Records.NoConflictWithItself | src/utils/normalize.ts:77-80 | no conflict has the candidate's id |
| Records.CheckDuplicateByNameExample | src/utils/normalize.test.ts:38-41 | `alpha` collides by name with `Alpha` |
| Records.CheckDuplicateByContentExample | src/utils/normalize.test.ts:43-46 | `Beta` with fingerprint `hash-a` collides by content and not by name |
| Store.TrimmedWarning | src/hooks/useSnippets.ts:119 | a name with whitespace around it raises the warning; a trimmed name with code already in normal form does not |
| Store.ChosenLanguage | src/hooks/useSnippets.ts:125 | a non-empty given language is kept; otherwise the language is a detected one; the result is never empty (that the fallback is `detectLanguage` of the normalised code is stated by `PreparedFields`) |
| Store.TrimmedDescription | src/hooks/useSnippets.ts:131 | the description is absent exactly when there is none or it is blank; otherwise it is the trimmed description, which is not empty |
| Store.BaseOf | src/hooks/useSnippets.ts:128-135 | `base` takes the payload id or the fresh one, the trimmed name, the normalised code, each in its own normal form, and distinct key terms |
| Store.Prepare | src/hooks/useSnippets.ts:116-142 | `save` throws for an empty trimmed name or code exactly when one is blank, and for an unknown id exactly when an edit names an id no snippet has; a candidate's fingerprint is consistent |
| Store.PreparedFields | src/hooks/useSnippets.ts:117-135 | the candidate has the trimmed non-empty name, the normalised non-empty code, clean distinct key terms, the chosen language, which without a given language is `detectLanguage` of the candidate's own normalised code, and the trimmed description |
| Store.PreparedStamps | src/hooks/useSnippets.ts:128-142 | a new snippet takes the payload id or the fresh one and both clock readings; an edit keeps its id and a stored creation time and takes the first reading |
| Store.Saving | src/hooks/useSnippets.ts:116-162 | errors and conflicts leave the collection as it was; a stored candidate collides with nothing and is persisted; `wasNew` and `trimmedWarning` are as the source computes them |
| Store.SnippetStore.Save | src/hooks/useSnippets.ts:116-162 | the method's result and new collection are those of `Saving`, and a consistent collection stays consistent |
| Store.ReplaceById | src/hooks/useSnippets.ts:155-157 | the `map` keeps the length and replaces exactly the snippets with the id |
| Store.Persist | src/hooks/useSnippets.ts:154-159 | an edit keeps the length; a new snippet goes in front of the unchanged list; nothing but the candidate is added |
| Store.SavedCollection | src/hooks/useSnippets.ts:154-159 | a new snippet goes in front of the unchanged others; an edit keeps the length, replaces the entries with its id and keeps all others in order |
| Store.SavedHasNoClash | src/hooks/useSnippets.ts:144-152 | a stored snippet shares neither name (up to ASCII case) nor fingerprint with any other snippet |
| Store.NameClashBlocks | src/hooks/useSnippets.ts:144-152 | a new snippet whose trimmed name matches a stored name is not stored and `byName` is reported |
| Store.PaddedCopyConflicts | src/hooks/useSnippets.ts:144-152 | a new snippet whose code is a stored code with whitespace around it is not stored and `byContent` is reported |
| Store.SaveKeepsIdsDistinct | src/hooks/useSnippets.ts:154-159 | saving keeps ids distinct when a new snippet's id is not taken |
| Store.TrimmedWarningIgnoresPadding | src/hooks/useSnippets.ts:119 | whitespace around the whole code does not change `trimmedWarning` |
| Store.NoWarningForNormalCode | src/hooks/useSnippets.ts:119 | a trimmed name and normalised code raise no warning, whatever whitespace surrounds the code |
| Store.Tidied | src/hooks/useSnippets.ts:165 | the payload `forceSave` hands to `save` has its name and code trimmed, the same trimmed name and normal form, and its other fields unchanged |
| Store.TidiedPrepare | src/hooks/useSnippets.ts:165 | trimming name and code before `save` changes neither its errors nor its candidate, apart from the fresh id and clock |
| Store.ForceSaving | src/hooks/useSnippets.ts:164-193 | `forceSave` fails exactly when `save` fails, with the same error, and then leaves the collection as it was; when `save` of the trimmed payload reports no conflicts its outcome is returned as it is; otherwise the candidate rebuilt from the payload with the second id and clock is stored and returned without a warning, with `wasNew == !payload.id` |
| Store.SnippetStore.ForceSave | src/hooks/useSnippets.ts:164-193 | the method's result and new collection are those of `ForceSaving`, and consistency is kept |
| Store.ForceSaveResult | src/hooks/useSnippets.ts:166-192 | `forceSave` drops `trimmedWarning` exactly when `save` reported conflicts; otherwise the warning is about the code alone |
| Store.Without | src/hooks/useSnippets.ts:195-197 | `remove` leaves no snippet with the id and keeps the others in order |
| Store.WithoutAbsentId | src/hooks/useSnippets.ts:195-197 | removing an id no snippet has changes nothing |
| Store.WithoutKeeps | src/hooks/useSnippets.ts:195-197 | every snippet with another id is kept, as many times as it occurs |
| Store.SnippetStore.Remove | src/hooks/useSnippets.ts:195-197 | the new collection is `Without` of the old one, and consistency is kept |
| Store.SnippetStore.Search | src/hooks/useSnippets.ts:103-114 | the result is an order-preserving subsequence of the collection, and every element matches term and language |
| Store.SearchFinds | src/hooks/useSnippets.ts:103-114 | every matching snippet is found, as many times as it occurs |
| Store.Matches | src/hooks/useSnippets.ts:105-112 | a snippet that matches the term and has the filter's language matches; with a non-empty language filter only snippets of that language match |
| Store.MatchesTerm | src/hooks/useSnippets.ts:106-110 | an empty term matches every snippet, and so does the snippet's own name in any letter case |
| Store.MatchesTermIff | src/hooks/useSnippets.ts:104-110 | the whole rule, both directions: a snippet matches exactly when the term is empty or the lower-cased term occurs in the lower-cased name, description (absent counts as empty) or some key term |
| Store.MatchesTermIgnoresCase | src/hooks/useSnippets.ts:104 | lower-casing the term first changes nothing |
| Store.SearchEverything | src/hooks/useSnippets.ts:107-111 | an empty term and no language filter find every snippet |
| Store.SnippetStore.AllLanguages | src/hooks/useSnippets.ts:199-205 | each language is listed once, is not empty, and is used by a snippet |
| Store.AllLanguagesComplete | src/hooks/useSnippets.ts:199-205 | every non-empty language of a snippet is listed |
| Store.AllLanguagesFirstSeen | src/hooks/useSnippets.ts:203 | languages are listed in first-use order |
| Store.LanguagesOf | src/hooks/useSnippets.ts:200-202 | the mapped and filtered languages are non-empty |
| LanguageStats.Stats | src/components/LanguageStats.tsx:11-22 | the method with the tally loop and the sort returns chips that are sorted, name only used languages with their counts, and cover every used language |
| LanguageStats.Tally | src/components/LanguageStats.tsx:12-18 | the loop's `Map` holds each used language, in insertion order, with its number of occurrences; empty and missing languages are skipped |
| LanguageStats.CountOne | src/components/LanguageStats.tsx:15-17 | one step of `map.set`/`count += 1` keeps that invariant |
| LanguageStats.Entries | src/components/LanguageStats.tsx:19-20 | the entries list the keys in insertion order with their counts |
| LanguageStats.SortStats | src/components/LanguageStats.tsx:21 | sorting yields a sorted permutation of the entries |
| LanguageStats.InsertSorted | src/components/LanguageStats.tsx:21 | inserting an entry of a new language keeps a list sorted |
| LanguageStats.LocaleCompare | src/components/LanguageStats.tsx:21 | the name comparison is in -1..1 and is zero exactly for equal names |
| LanguageStats.Compare | src/components/LanguageStats.tsx:21 | the comparator is zero exactly for equal chips, puts the larger count first, and compares names only when counts are equal |
| LanguageStats.BeforeAsymmetric | src/components/LanguageStats.tsx:21 | the comparator is irreflexive and asymmetric |
| LanguageStats.BeforeTransitive | src/components/LanguageStats.tsx:21 | the comparator is transitive |
| LanguageStats.BeforeTotal | src/components/LanguageStats.tsx:21 | chips of different languages are ordered one way or the other |
| LanguageStats.StatsFacts | src/components/LanguageStats.tsx:12-24 | each language appears once with a count of at least 1; the counts add up to the number of snippets with a language; there are no chips exactly when no snippet has a language |
| LanguageStats.StatsUnique | src/components/LanguageStats.tsx:19-21 | any two lists meeting the chip promise are equal, so the result does not depend on the sort algorithm |
| LanguageStats.CountOfIsMultiplicity | src/components/LanguageStats.tsx:15-17 | the count of a language is its number of occurrences in the language list |
| LanguageStats.OneActiveChip | src/components/LanguageStats.tsx:29 | at most one chip is active, and the filter's chip is present when some snippet uses that language |
| LanguageStats.Selected | src/App.tsx:199 | `languageFilter \|\| undefined` is absent exactly for the empty filter and otherwise is the filter |
| LanguageStats.NextFilter | src/components/LanguageStats.tsx:42 | clicking the active chip yields `''`, and clicking another chip yields its language |
| LanguageStats.ClickTwice | src/components/LanguageStats.tsx:29-42 | two clicks on one chip leave no filter when it was not selected and select it again when it was |

## Left out

- Storage and start-up (`src/hooks/useSnippets.ts:32-101`) are outside the model: loading from `localStorage`, legacy-key migration, the `JSON.parse` fallback, the seed snippets and write-back on every change. The constructor takes the loaded collection as it is.
- `nanoid()` and `new Date().toISOString()` are parameters: the fresh ids and the clock readings. Nothing is assumed about them, except that `Store.SaveKeepsIdsDistinct` needs a fresh id that is not taken.
- React scheduling is outside the model. `setSnippets((prev) => ...)` is modelled as a direct update of the collection that `save` read. A stale closure, where `prev` differs from `snippets`, is not captured.
- The UI is outside the model: `src/App.tsx`, the form, modal, editor and card components, and the theme. The rendering of the chips is left out too; only the filter value they receive and emit is modelled.
- `src/components/TagInput.tsx` repeats `formatKeyTerms`. It is not part of this model.
- Regular expressions are not run by an engine. Each pattern of `detectLanguage` is a predicate stating when the expression finds a match. `\s` is the ECMAScript whitespace set and `\w` is ASCII word characters.
- Text.Lower: lower-cases ASCII letters only. JavaScript `toLowerCase` also maps other scripts, so this affects `search`, `checkDuplicate` and the `import react` test for non-ASCII text.
- LanguageStats.LocaleCompare: compares names code point by code point, not by locale collation. Sorting, uniqueness and toggling hold for any strict total order, and this is one.
- LanguageStats.SortStats: the sort is modelled as insertion sort, not the engine's algorithm. `LanguageStats.StatsUnique` shows that any correct sort gives the same chips.
- Strings are sequences of Unicode scalar values, so a lone UTF-16 surrogate cannot be represented. `Fingerprint.CodeUnits` encodes each character as one code unit or a surrogate pair.
- Fingerprint.HashNormalizedCode: models the 32-bit FNV-1a hash that the code's comment names. Every record's `normalizedHash` uses it. The code as written rounds large products to doubles. That behaviour is modelled separately as `Fingerprint.SourceHashNormalizedCode`, and the two are compared under "Findings".
- `SaveResult` has optional fields in the source. Here it is a datatype with two cases: stored (with `wasNew`) or conflicted. `trimmedWarning` is an `Option`.
- A `Partial<Snippet>` is a `Records.Patch`. Each property is absent or present, and an optional property may be present with the value `undefined`.
- An empty `payload.id` counts as no id for `payload.id ?` tests, while `payload.id ?? nanoid()` keeps the empty string. The model follows both expressions as written.

## Findings

| source | as written | input that shows it | evidently intended | confidence | as-written member | corrected member |
|---|---|---|---|---|---|---|
| src/utils/normalize.ts:21 | `hash = (hash * 0x01000193) >>> 0` multiplies a signed 32-bit value by the prime as a double. Products beyond 2^53 are rounded before `>>> 0` keeps the low 32 bits. | the text `"b"`: the XOR gives -2128831065, and the product -35716716523934235 is rounded to -35716716523934236, giving `e70c2de4` instead of FNV-1a's `e70c2de5` | exact 32-bit FNV-1a, which the comment on line 17 names; corrected code: `hash = Math.imul(hash, 0x01000193) >>> 0` | not executed | Fingerprint.SourceHashDiffers | Fingerprint.HashNormalizedCode |
