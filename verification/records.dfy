/** `buildSnippet`, `updateSnippet` and `checkDuplicate` (src/utils/normalize.ts): assembling
    snippet records so that their fingerprint always matches their code, and finding the
    snippets a candidate collides with. The clock is a parameter. */
module Records {
  import opened Common
  import opened Text
  import opened Seqs
  import opened Normalizer
  import opened Fingerprint
  import opened Types

  /** The fields `buildSnippet` receives; everything but the fingerprint and the timestamps. */
  datatype Draft = Draft(
    id: string,
    name: string,
    description: Option<string>,
    code: string,
    keyTerms: seq<string>,
    language: Option<string>)

  /** A `Partial<Snippet>` as `updateSnippet` spreads it: `None` is a property the object does
      not have, `Some(v)` one it has. For the optional properties a present property may hold
      `undefined`, hence `Some(None)`. */
  datatype Patch = Patch(
    id: Option<string>,
    name: Option<string>,
    description: Option<Option<string>>,
    code: Option<string>,
    keyTerms: Option<seq<string>>,
    language: Option<Option<string>>,
    normalizedHash: Option<string>,
    createdAt: Option<string>,
    updatedAt: Option<string>)

  /** The patch that has no properties. */
  const NoChanges := Patch(None, None, None, None, None, None, None, None, None)

  /** The fingerprint stored for a code text: the FNV-1a hash of its normal form, in hex. */
  function HashOf(code: string): (h: string)
    ensures 1 <= |h| <= 8 && IsLowerHex(h)
    ensures FromHex(h) == Fnv(Utf16(Normalize(code)))
  {
    FingerprintOf(Normalize(code))
  }

  /** Whitespace around a code text does not change its fingerprint. */
  lemma HashIgnoresPadding(pad1: string, code: string, pad2: string)
    requires AllSpace(pad1) && AllSpace(pad2)
    ensures HashOf(pad1 + code + pad2) == HashOf(code)
  {
    NormalizeIgnoresPadding(pad1, code, pad2);
  }

  /** Code that differs only by whitespace at the end of a line has the same fingerprint. */
  lemma LineEndSpaceSameHash()
    ensures HashOf("a  \nb") == HashOf("a\nb")
  {
    LineEndSpaceExample();
  }

  /** A snippet's fingerprint matches its code. */
  predicate HashConsistent(s: Snippet) {
    s.normalizedHash == HashOf(s.code)
  }

  /** `buildSnippet(partial)`: the draft's fields, the fingerprint of its code, and the two
      clock readings it takes for `createdAt` and `updatedAt`. */
  function BuildSnippet(d: Draft, createdAt: string, updatedAt: string): (s: Snippet)
    ensures HashConsistent(s)
    ensures s.id == d.id && s.name == d.name && s.description == d.description && s.code == d.code
    ensures s.keyTerms == d.keyTerms && s.language == d.language
    ensures s.createdAt == createdAt && s.updatedAt == updatedAt
  {
    Snippet(d.id, d.name, d.description, d.code, d.keyTerms, d.language, HashOf(d.code), createdAt, updatedAt)
  }

  /** `{ ...snippet, ...updates }` for one property: a property the patch has wins. */
  function Over<T>(patched: Option<T>, current: T): T {
    if patched.Some? then patched.value else current
  }

  /** `updateSnippet(snippet, updates)`: every property the patch has replaces the snippet's,
      every other is kept, `updatedAt` is the clock reading whatever the patch says, and the
      fingerprint is recomputed from the resulting code whatever either record says. */
  function UpdateSnippet(s: Snippet, u: Patch, now: string): (r: Snippet)
    ensures HashConsistent(r)
    ensures r.updatedAt == now
    ensures r.id == Over(u.id, s.id) && r.name == Over(u.name, s.name)
    ensures r.description == Over(u.description, s.description) && r.code == Over(u.code, s.code)
    ensures r.keyTerms == Over(u.keyTerms, s.keyTerms) && r.language == Over(u.language, s.language)
    ensures r.createdAt == Over(u.createdAt, s.createdAt)
  {
    var code := Over(u.code, s.code);
    Snippet(Over(u.id, s.id), Over(u.name, s.name), Over(u.description, s.description), code,
            Over(u.keyTerms, s.keyTerms), Over(u.language, s.language), HashOf(code),
            Over(u.createdAt, s.createdAt), now)
  }

  /** An empty patch changes only `updatedAt` of a snippet whose fingerprint is current. */
  lemma UpdateWithNoChanges(s: Snippet, now: string)
    requires HashConsistent(s)
    ensures UpdateSnippet(s, NoChanges, now) == s.(updatedAt := now)
  {
  }

  /** A fingerprint or `updatedAt` in the patch has no effect: both are always recomputed. */
  lemma UpdateIgnoresDerivedFields(s: Snippet, u: Patch, now: string)
    ensures UpdateSnippet(s, u, now) == UpdateSnippet(s, u.(normalizedHash := None, updatedAt := None), now)
  {
  }

  /** A patch that replaces only the code by the same code with whitespace around it yields the
      same fingerprint. */
  lemma UpdatePaddedCodeSameHash(s: Snippet, pad1: string, pad2: string, now: string)
    requires AllSpace(pad1) && AllSpace(pad2)
    ensures UpdateSnippet(s, NoChanges.(code := Some(pad1 + s.code + pad2)), now).normalizedHash
            == UpdateSnippet(s, NoChanges, now).normalizedHash
  {
    HashIgnoresPadding(pad1, s.code, pad2);
  }

  /** The candidate `checkDuplicate` compares: its id (absent for a new snippet), its name and
      its fingerprint. */
  datatype Probe = Probe(id: Option<string>, name: string, normalizedHash: string)

  /** `s.id !== candidate.id`: a snippet is never in conflict with the candidate's own id. */
  predicate IsOther(s: Snippet, c: Probe) {
    c.id != Some(s.id)
  }

  /** The `byName` test: the same name up to letter case, and another snippet. */
  predicate NameClash(s: Snippet, c: Probe) {
    Lower(s.name) == Lower(c.name) && IsOther(s, c)
  }

  /** The `byContent` test: the same fingerprint, and another snippet. */
  predicate ContentClash(s: Snippet, c: Probe) {
    s.normalizedHash == c.normalizedHash && IsOther(s, c)
  }

  /** `checkDuplicate(snippets, candidate)`: `byName` is the first snippet whose name matches
      the candidate's ignoring letter case, `byContent` the first with the same fingerprint; each
      is absent when no snippet qualifies, and neither has the candidate's id. */
  function CheckDuplicate(snippets: seq<Snippet>, c: Probe): (r: DuplicateConflicts)
    ensures r.byName.None? <==> forall i :: 0 <= i < |snippets| ==> !NameClash(snippets[i], c)
    ensures r.byName.Some? ==>
              exists i :: 0 <= i < |snippets| && snippets[i] == r.byName.value && NameClash(snippets[i], c) &&
                          forall j :: 0 <= j < i ==> !NameClash(snippets[j], c)
    ensures r.byContent.None? <==> forall i :: 0 <= i < |snippets| ==> !ContentClash(snippets[i], c)
    ensures r.byContent.Some? ==>
              exists i :: 0 <= i < |snippets| && snippets[i] == r.byContent.value && ContentClash(snippets[i], c) &&
                          forall j :: 0 <= j < i ==> !ContentClash(snippets[j], c)
  {
    DuplicateConflicts(FindFirst(snippets, s => NameClash(s, c)), FindFirst(snippets, s => ContentClash(s, c)))
  }

  /** A conflict never names the candidate itself: editing a snippet without changing its name
      or code does not collide with the stored copy. */
  lemma NoConflictWithItself(snippets: seq<Snippet>, c: Probe)
    ensures var r := CheckDuplicate(snippets, c);
            (r.byName.Some? ==> c.id != Some(r.byName.value.id)) &&
            (r.byContent.Some? ==> c.id != Some(r.byContent.value.id))
  {
  }

  /** The `Alpha` snippet of src/utils/normalize.test.ts (id `1`, fingerprint `hash-a`). */
  function Alpha(): Snippet {
    Snippet("1", "Alpha", Some(""), "a", [], Some("js"), "hash-a", "", "")
  }

  /** A new snippet named `alpha` collides by name with `Alpha`. */
  lemma CheckDuplicateByNameExample()
    ensures CheckDuplicate([Alpha()], Probe(None, "alpha", "x")).byName == Some(Alpha())
  {
    assert Lower("Alpha") == "alpha";
    assert Lower("alpha") == "alpha";
    assert NameClash(Alpha(), Probe(None, "alpha", "x"));
  }

  /** A new snippet named `Beta` with the fingerprint `hash-a` collides by content with
      `Alpha`, and not by name. */
  lemma CheckDuplicateByContentExample()
    ensures var r := CheckDuplicate([Alpha()], Probe(None, "Beta", "hash-a"));
            r.byContent == Some(Alpha()) && r.byName.None?
  {
    assert Lower("Alpha")[0] == 'a' && Lower("Beta")[0] == 'b';
    assert !NameClash(Alpha(), Probe(None, "Beta", "hash-a"));
  }
}
