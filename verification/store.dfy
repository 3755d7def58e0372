/** The snippet collection of `useSnippets` (src/hooks/useSnippets.ts): searching it, saving
    into it with validation and duplicate gating, saving despite conflicts, removing from it and
    listing its languages. The React state becomes the `snippets` field of a `SnippetStore`;
    `nanoid()` and the clock readings are parameters. */
module Store {
  import opened Common
  import opened Text
  import opened Seqs
  import opened Normalizer
  import opened LanguageHeuristic
  import opened KeyTerms
  import opened Types
  import opened Records

  /** What the snippet form submits. `id` is present when an existing snippet is edited. */
  datatype SavePayload = SavePayload(
    id: Option<string>,
    name: string,
    description: Option<string>,
    code: string,
    keyTermsRaw: Option<string>,
    language: Option<string>)

  /** The two errors `save` throws. */
  datatype SaveError =
    | MissingNameOrCode   // "Name and snippet code are required"
    | NotFoundForUpdate   // "Snippet not found for update"

  /** What `save` and `forceSave` return: the stored snippet, or the conflicts that kept it
      from being stored. `forceSave`'s forced result has no `trimmedWarning`. */
  datatype SaveResult =
    | Saved(snippet: Snippet, trimmedWarning: Option<bool>, wasNew: bool)
    | Conflicted(conflicts: DuplicateConflicts, trimmedWarning: Option<bool>)

  /** Two readings of the clock: `buildSnippet` takes both, `updateSnippet` only the first. */
  datatype Clock = Clock(first: string, second: string)

  /** The result of a call together with the collection it leaves behind. */
  datatype Outcome = Outcome(result: Result<SaveResult, SaveError>, after: seq<Snippet>)

  /** `payload.id` is truthy: an edit of an existing snippet. An empty id counts as absent
      here, although `payload.id ?? nanoid()` keeps it. */
  predicate HasId(p: SavePayload) {
    p.id.Some? && p.id.value != ""
  }

  /** `hadTrimWarning`: trimming changed the name, or normalising changed more than the
      whitespace around the code. */
  function TrimmedWarning(p: SavePayload): (w: bool)
    ensures Trim(p.name) != p.name ==> w
    ensures Trim(p.name) == p.name && Normalize(p.code) == p.code ==> !w
  {
    NormalFormIsTrimmed(p.code);
    Trim(p.name) != p.name || Normalize(p.code) != Trim(p.code)
  }

  /** `payload.language || detectLanguage(codeNormalized)` */
  function ChosenLanguage(p: SavePayload): (r: Option<string>)
    ensures r.Some? ==> r.value != ""
    ensures p.language.Some? && p.language.value != "" ==> r == p.language
    ensures (p.language.None? || p.language.value == "") && r.Some? ==> r.value in Languages
  {
    if p.language.Some? && p.language.value != "" then p.language else DetectLanguage(Normalize(p.code))
  }

  /** `payload.description?.trim() || undefined` */
  function TrimmedDescription(p: SavePayload): (r: Option<string>)
    ensures r.Some? ==> r.value != ""
    ensures r.None? <==> p.description.None? || AllSpace(p.description.value)
    ensures r.Some? ==> p.description.Some? && r.value == Trim(p.description.value)
  {
    if p.description.Some? && Trim(p.description.value) != "" then Some(Trim(p.description.value)) else None
  }

  /** `base`: the fields `save` assembles from the payload. `freshId` is what `nanoid()` would
      return; it is used only when the payload has no id at all. */
  function BaseOf(p: SavePayload, freshId: string): (d: Draft)
    ensures d.id == (if p.id.Some? then p.id.value else freshId)
    ensures d.name == Trim(p.name) && Trim(d.name) == d.name
    ensures d.code == Normalize(p.code) && Normalize(d.code) == d.code
    ensures NoDup(d.keyTerms)
  {
    TrimIdempotent(p.name);
    NormalizeIdempotent(p.code);
    Draft(p.id.GetOr(freshId), Trim(p.name), TrimmedDescription(p), Normalize(p.code),
          FormatKeyTerms(p.keyTermsRaw.GetOr("")), ChosenLanguage(p))
  }

  /** `base` as the `updates` of `updateSnippet`: all six of its properties are present, so an
      absent description or language clears the stored one. */
  function ChangesFrom(d: Draft): Patch {
    Patch(Some(d.id), Some(d.name), Some(d.description), Some(d.code), Some(d.keyTerms), Some(d.language),
          None, None, None)
  }

  /** `snippets.find((s) => s.id === id)` */
  function Existing(xs: seq<Snippet>, id: string): Option<Snippet> {
    FindFirst(xs, (s: Snippet) => s.id == id)
  }

  /** The candidate `save` builds, or the error it throws before building it: an empty name or
      code after trimming, or an id no stored snippet has. A candidate's fingerprint is that of
      its code. */
  function Prepare(xs: seq<Snippet>, p: SavePayload, freshId: string, clock: Clock): (r: Result<Snippet, SaveError>)
    ensures r == Err(MissingNameOrCode) <==> AllSpace(p.name) || AllSpace(p.code)
    ensures r == Err(NotFoundForUpdate) <==>
              !AllSpace(p.name) && !AllSpace(p.code) && HasId(p) &&
              forall i :: 0 <= i < |xs| ==> xs[i].id != p.id.value
    ensures r.Ok? ==> HashConsistent(r.value)
  {
    NormalizeEmptyIff(p.code);
    if Trim(p.name) == "" || Normalize(p.code) == "" then Err(MissingNameOrCode)
    else
      var base := BaseOf(p, freshId);
      if !HasId(p) then Ok(BuildSnippet(base, clock.first, clock.second))
      else
        match Existing(xs, p.id.value)
        case None => Err(NotFoundForUpdate)
        case Some(e) => Ok(UpdateSnippet(e, ChangesFrom(base), clock.first))
  }

  /** The fields of a candidate: the trimmed name, which is not empty, the normalised code, which
      is not empty and is its own normal form, clean distinct key terms, the chosen language and
      the trimmed description. */
  lemma PreparedFields(xs: seq<Snippet>, p: SavePayload, freshId: string, clock: Clock)
    requires Prepare(xs, p, freshId, clock).Ok?
    ensures var c := Prepare(xs, p, freshId, clock).value;
            && c.name == Trim(p.name) && c.name != "" && Trim(c.name) == c.name
            && c.code == Normalize(p.code) && c.code != "" && Normalize(c.code) == c.code
            && c.keyTerms == FormatKeyTerms(p.keyTermsRaw.GetOr("")) && NoDup(c.keyTerms)
            && c.language == ChosenLanguage(p)
            && ((p.language.None? || p.language.value == "") ==> c.language == DetectLanguage(c.code))
            && c.description == TrimmedDescription(p)
  {
    PreparedFromBase(xs, p, freshId, clock);
    BaseShape(p, freshId);
  }

  /** A candidate carries the fields of `base`. */
  lemma PreparedFromBase(xs: seq<Snippet>, p: SavePayload, freshId: string, clock: Clock)
    requires Prepare(xs, p, freshId, clock).Ok?
    ensures var c := Prepare(xs, p, freshId, clock).value; var d := BaseOf(p, freshId);
            c.name == d.name && c.code == d.code && c.keyTerms == d.keyTerms &&
            c.language == d.language && c.description == d.description
  {
  }

  /** The `base` of a payload that passes validation. */
  lemma BaseShape(p: SavePayload, freshId: string)
    requires Trim(p.name) != "" && Normalize(p.code) != ""
    ensures var d := BaseOf(p, freshId);
            d.name != "" && Trim(d.name) == d.name && Normalize(d.code) == d.code && NoDup(d.keyTerms)
  {
    NormalizeIdempotent(p.code);
    TrimIdempotent(p.name);
  }

  /** A new snippet takes the payload's id, or the fresh one when there is none, and both clock
      readings. An edited snippet keeps its id and the creation time of the first stored snippet
      with that id, and takes the first clock reading as its update time. */
  lemma PreparedStamps(xs: seq<Snippet>, p: SavePayload, freshId: string, clock: Clock)
    requires Prepare(xs, p, freshId, clock).Ok?
    ensures var c := Prepare(xs, p, freshId, clock).value;
            !HasId(p) ==> c.id == p.id.GetOr(freshId) && c.createdAt == clock.first && c.updatedAt == clock.second
    ensures var c := Prepare(xs, p, freshId, clock).value;
            HasId(p) ==>
              && c.id == p.id.value && c.updatedAt == clock.first
              && exists i :: 0 <= i < |xs| && xs[i].id == p.id.value && c.createdAt == xs[i].createdAt
  {
  }

  /** What `checkDuplicate` is asked about a candidate. */
  function ProbeOf(p: SavePayload, c: Snippet): Probe {
    Probe(p.id, c.name, c.normalizedHash)
  }

  /** `prev.map((s) => (s.id === id ? candidate : s))` */
  function ReplaceById(xs: seq<Snippet>, id: string, c: Snippet): (r: seq<Snippet>)
    ensures |r| == |xs|
    ensures forall i :: 0 <= i < |xs| ==> r[i] == (if xs[i].id == id then c else xs[i])
  {
    seq(|xs|, i requires 0 <= i < |xs| => if xs[i].id == id then c else xs[i])
  }

  /** The `setSnippets` update of a successful save: an edit replaces, in place, every snippet
      with the payload's id; a new snippet goes to the front. */
  function Persist(xs: seq<Snippet>, p: SavePayload, c: Snippet): (r: seq<Snippet>)
    ensures HasId(p) ==> |r| == |xs|
    ensures !HasId(p) ==> |r| == |xs| + 1 && r[0] == c && r[1..] == xs
    ensures forall i :: 0 <= i < |r| ==> r[i] == c || r[i] in xs
  {
    if HasId(p) then ReplaceById(xs, p.id.value, c) else [c] + xs
  }

  /** `save(payload)`: the errors of `Prepare` leave the collection as it is; so does a
      candidate that collides by name or by content with another snippet, and the conflicts are
      returned; otherwise the candidate is stored and returned. */
  function Saving(xs: seq<Snippet>, p: SavePayload, freshId: string, clock: Clock): (o: Outcome)
    ensures o.result.Err? <==> Prepare(xs, p, freshId, clock).Err?
    ensures o.result.Err? ==> o.result.error == Prepare(xs, p, freshId, clock).error
    ensures !(o.result.Ok? && o.result.value.Saved?) ==> o.after == xs
    ensures o.result.Ok? && o.result.value.Conflicted? ==>
              var c := Prepare(xs, p, freshId, clock).value;
              o.result.value.conflicts == CheckDuplicate(xs, ProbeOf(p, c)) && o.result.value.conflicts.Any()
    ensures o.result.Ok? && o.result.value.Saved? ==>
              var c := o.result.value.snippet;
              && Prepare(xs, p, freshId, clock) == Ok(c)
              && !CheckDuplicate(xs, ProbeOf(p, c)).Any()
              && o.after == Persist(xs, p, c)
              && o.result.value.wasNew == !HasId(p)
    ensures o.result.Ok? ==> o.result.value.trimmedWarning == Some(TrimmedWarning(p))
  {
    match Prepare(xs, p, freshId, clock)
    case Err(e) => Outcome(Err(e), xs)
    case Ok(c) =>
      var conflicts := CheckDuplicate(xs, ProbeOf(p, c));
      if conflicts.Any() then Outcome(Ok(Conflicted(conflicts, Some(TrimmedWarning(p)))), xs)
      else Outcome(Ok(Saved(c, Some(TrimmedWarning(p)), !HasId(p))), Persist(xs, p, c))
  }

  /** The payload `forceSave` hands to `save`: name and code trimmed. */
  function Tidied(p: SavePayload): (q: SavePayload)
    ensures q.id == p.id && q.description == p.description && q.keyTermsRaw == p.keyTermsRaw && q.language == p.language
    ensures Trim(q.name) == q.name && Trim(q.code) == q.code
    ensures Trim(q.name) == Trim(p.name) && Normalize(q.code) == Normalize(p.code)
  {
    TidiedTrims(p);
    p.(name := Trim(p.name), code := Trim(p.code))
  }

  lemma TidiedTrims(p: SavePayload)
    ensures Trim(Trim(p.name)) == Trim(p.name) && Trim(Trim(p.code)) == Trim(p.code)
    ensures Normalize(Trim(p.code)) == Normalize(p.code)
  {
    TrimIdempotent(p.name);
    TrimIdempotent(p.code);
    NormalizeOfTrimmed(p.code);
  }

  /** Trimming name and code first changes neither the errors nor the candidate of `save`,
      except for the fresh id and the clock readings. */
  lemma TidiedPrepare(xs: seq<Snippet>, p: SavePayload, id1: string, id2: string, c1: Clock, c2: Clock)
    ensures Prepare(xs, Tidied(p), id1, c1).Err? <==> Prepare(xs, p, id2, c2).Err?
    ensures Prepare(xs, Tidied(p), id1, c1).Err? ==> Prepare(xs, Tidied(p), id1, c1) == Prepare(xs, p, id2, c2)
    ensures HasId(p) && c1.first == c2.first ==> Prepare(xs, Tidied(p), id1, c1) == Prepare(xs, p, id2, c2)
  {
    TidiedSame(xs, p, id1, c1);
    PrepareStamps(xs, p, id1, id2, c1, c2);
  }

  /** `save` treats the tidied payload exactly as the payload. */
  lemma TidiedSame(xs: seq<Snippet>, p: SavePayload, freshId: string, clock: Clock)
    ensures Prepare(xs, Tidied(p), freshId, clock) == Prepare(xs, p, freshId, clock)
  {
    TidiedBase(p, freshId);
  }

  /** Whether `save` fails, and how, depends neither on the fresh id nor on the clock; an edit
      depends on the clock only through its first reading. */
  lemma PrepareStamps(xs: seq<Snippet>, p: SavePayload, id1: string, id2: string, c1: Clock, c2: Clock)
    ensures Prepare(xs, p, id1, c1).Err? <==> Prepare(xs, p, id2, c2).Err?
    ensures Prepare(xs, p, id1, c1).Err? ==> Prepare(xs, p, id1, c1) == Prepare(xs, p, id2, c2)
    ensures HasId(p) && c1.first == c2.first ==> Prepare(xs, p, id1, c1) == Prepare(xs, p, id2, c2)
  {
  }

  /** `save` builds the same `base` from the tidied payload. */
  lemma TidiedBase(p: SavePayload, freshId: string)
    ensures BaseOf(Tidied(p), freshId) == BaseOf(p, freshId)
  {
    BaseOfCongruent(Tidied(p), p, freshId);
  }

  /** `base` depends on the name and the code only through their trimmed and normalised forms. */
  lemma BaseOfCongruent(p: SavePayload, q: SavePayload, freshId: string)
    requires p.id == q.id && p.description == q.description && p.keyTermsRaw == q.keyTermsRaw && p.language == q.language
    requires Trim(p.name) == Trim(q.name) && Normalize(p.code) == Normalize(q.code)
    ensures BaseOf(p, freshId) == BaseOf(q, freshId)
  {
  }

  /** `forceSave(payload)`: `save` of the tidied payload, whose errors propagate and whose
      result is returned as it is unless it reports conflicts; then the candidate is rebuilt
      from the payload, with a second fresh id and new clock readings, and stored anyway. */
  function ForceSaving(xs: seq<Snippet>, p: SavePayload, innerId: string, forcedId: string,
                       innerClock: Clock, forcedClock: Clock): (o: Outcome)
    ensures o.result.Err? <==> Prepare(xs, p, forcedId, forcedClock).Err?
    ensures o.result.Err? ==> o.result == Saving(xs, p, forcedId, forcedClock).result
    ensures o.result.Ok? ==> o.result.value.Saved?
    ensures o.result.Ok? ==> o.after == Persist(xs, p, o.result.value.snippet)
    ensures o.result.Ok? ==> o.result.value.wasNew == !HasId(p)
    ensures o.result.Err? ==> o.after == xs
    ensures var inner := Saving(xs, Tidied(p), innerId, innerClock);
            !(inner.result.Ok? && inner.result.value.Conflicted?) ==> o == inner
    ensures var inner := Saving(xs, Tidied(p), innerId, innerClock);
            inner.result.Ok? && inner.result.value.Conflicted? ==>
              o.result == Ok(Saved(Prepare(xs, p, forcedId, forcedClock).value, None, !HasId(p)))
  {
    TidiedPrepare(xs, p, innerId, forcedId, innerClock, forcedClock);
    var inner := Saving(xs, Tidied(p), innerId, innerClock);
    if inner.result.Ok? && inner.result.value.Conflicted? then
      var c := Prepare(xs, p, forcedId, forcedClock).value;
      Outcome(Ok(Saved(c, None, !HasId(p))), Persist(xs, p, c))
    else inner
  }

  /** `prev.filter((s) => s.id !== id)`: no snippet with that id is left, the others stay in
      their order, and an id no snippet has changes nothing. */
  function Without(xs: seq<Snippet>, id: string): (r: seq<Snippet>)
    ensures forall i :: 0 <= i < |r| ==> r[i].id != id && r[i] in xs
    ensures IsSubsequence(r, xs)
  {
    FilterIsSubsequence(xs, (s: Snippet) => s.id != id);
    Filter(xs, (s: Snippet) => s.id != id)
  }

  /** Removing an id no snippet has changes nothing. */
  lemma WithoutAbsentId(xs: seq<Snippet>, id: string)
    requires forall i :: 0 <= i < |xs| ==> xs[i].id != id
    ensures Without(xs, id) == xs
  {
    FilterAll(xs, (s: Snippet) => s.id != id);
  }

  /** Removing keeps every snippet with another id. */
  lemma WithoutKeeps(xs: seq<Snippet>, id: string, s: Snippet)
    requires s in xs && s.id != id
    ensures s in Without(xs, id)
    ensures multiset(Without(xs, id))[s] == multiset(xs)[s]
  {
    FilterKeeps(xs, (s: Snippet) => s.id != id, s);
    FilterMultiplicity(xs, (s: Snippet) => s.id != id, s);
  }

  /** `Boolean(s.language)`: a snippet with a language that is not empty. */
  predicate HasLanguage(s: Snippet) {
    s.language.Some? && s.language.value != ""
  }

  /** `snippets.map((s) => s.language).filter(Boolean)`: the non-empty languages, in order and
      with repetitions. */
  function LanguagesOf(xs: seq<Snippet>): (r: seq<string>)
    ensures |r| <= |xs|
    ensures forall i :: 0 <= i < |r| ==> r[i] != ""
  {
    if xs == [] then []
    else (if HasLanguage(xs[0]) then [xs[0].language.value] else []) + LanguagesOf(xs[1..])
  }

  /** Every listed language is the language of some snippet. */
  lemma {:induction false} ListedLanguageIsUsed(xs: seq<Snippet>, l: string)
    requires l in LanguagesOf(xs)
    ensures exists j :: 0 <= j < |xs| && xs[j].language == Some(l)
  {
    if !(HasLanguage(xs[0]) && xs[0].language.value == l) {
      ListedLanguageIsUsed(xs[1..], l);
      var j :| 0 <= j < |xs[1..]| && xs[1..][j].language == Some(l);
      assert xs[j + 1].language == Some(l);
    }
  }

  /** Every non-empty language of a snippet is listed. */
  lemma {:induction false} UsedLanguageIsListed(xs: seq<Snippet>, j: nat)
    requires j < |xs| && HasLanguage(xs[j])
    ensures xs[j].language.value in LanguagesOf(xs)
  {
    if j > 0 {
      UsedLanguageIsListed(xs[1..], j - 1);
    }
  }

  /** The React state of `useSnippets`: the collection, replaced as a whole by every change. */
  class SnippetStore {
    var snippets: seq<Snippet>

    /** Every stored fingerprint matches its code. */
    predicate Consistent()
      reads this
    {
      forall i :: 0 <= i < |snippets| ==> HashConsistent(snippets[i])
    }

    /** The collection as loaded. */
    constructor(initial: seq<Snippet>)
      ensures snippets == initial
    {
      snippets := initial;
    }

    /** `search(term, language)`: the snippets, in their order, whose name, description or one
        of whose key terms contains the term ignoring letter case (any snippet, for an empty
        term), and whose language is the given one (any language, when none or `''` is
        given). */
    function Search(term: string, language: Option<string>): (r: seq<Snippet>)
      reads this
      ensures IsSubsequence(r, snippets)
      ensures forall i :: 0 <= i < |r| ==> r[i] in snippets && Matches(r[i], term, language)
    {
      FilterIsSubsequence(snippets, (s: Snippet) => Matches(s, term, language));
      Filter(snippets, (s: Snippet) => Matches(s, term, language))
    }

    /** `allLanguages`: every non-empty language of a snippet, once each. */
    function AllLanguages(): (r: seq<string>)
      reads this
      ensures NoDup(r)
      ensures forall i :: 0 <= i < |r| ==> r[i] != "" && r[i] in LanguagesOf(snippets)
    {
      DedupAll(LanguagesOf(snippets), l => l != "");
      Dedup(LanguagesOf(snippets))
    }

    /** `save(payload)`, step by step: trim and normalise, reject an empty name or code, build
        or update the candidate, return the conflicts if there are any, and otherwise store the
        candidate. The collection stays consistent. */
    method Save(payload: SavePayload, freshId: string, clock: Clock) returns (r: Result<SaveResult, SaveError>)
      modifies this
      ensures Outcome(r, snippets) == Saving(old(snippets), payload, freshId, clock)
      ensures old(Consistent()) ==> Consistent()
    {
      var nameTrimmed := Trim(payload.name);
      var codeNormalized := NormalizeCode(payload.code);
      var hadTrimWarning := nameTrimmed != payload.name || codeNormalized != Trim(payload.code);
      if nameTrimmed == "" || codeNormalized == "" {
        return Err(MissingNameOrCode);
      }
      var base := BaseOf(payload, freshId);
      var candidate;
      if HasId(payload) {
        var existing := Existing(snippets, payload.id.value);
        if existing.None? {
          return Err(NotFoundForUpdate);
        }
        candidate := UpdateSnippet(existing.value, ChangesFrom(base), clock.first);
      } else {
        candidate := BuildSnippet(base, clock.first, clock.second);
      }
      var conflicts := CheckDuplicate(snippets, Probe(payload.id, candidate.name, candidate.normalizedHash));
      if conflicts.Any() {
        return Ok(Conflicted(conflicts, Some(hadTrimWarning)));
      }
      if Consistent() {
        PersistAll(snippets, payload, candidate, HashConsistent);
      }
      snippets := Persist(snippets, payload, candidate);
      r := Ok(Saved(candidate, Some(hadTrimWarning), !HasId(payload)));
    }

    /** `forceSave(payload)`: `save` with name and code trimmed; when that reports conflicts,
        the candidate is rebuilt with a second fresh id and stored regardless. */
    method ForceSave(payload: SavePayload, innerId: string, forcedId: string, innerClock: Clock, forcedClock: Clock)
      returns (r: Result<SaveResult, SaveError>)
      modifies this
      ensures Outcome(r, snippets) == ForceSaving(old(snippets), payload, innerId, forcedId, innerClock, forcedClock)
      ensures old(Consistent()) ==> Consistent()
    {
      TidiedPrepare(snippets, payload, innerId, forcedId, innerClock, forcedClock);
      r := Save(Tidied(payload), innerId, innerClock);
      if r.Ok? && r.value.Conflicted? {
        var base := BaseOf(payload, forcedId);
        var candidate;
        if HasId(payload) {
          var existing := Existing(snippets, payload.id.value);
          candidate := UpdateSnippet(existing.value, ChangesFrom(base), forcedClock.first);
        } else {
          candidate := BuildSnippet(base, forcedClock.first, forcedClock.second);
        }
        if Consistent() {
          PersistAll(snippets, payload, candidate, HashConsistent);
        }
        snippets := Persist(snippets, payload, candidate);
        r := Ok(Saved(candidate, None, !HasId(payload)));
      }
    }

    /** `remove(id)` */
    method Remove(id: string)
      modifies this
      ensures snippets == Without(old(snippets), id)
      ensures old(Consistent()) ==> Consistent()
    {
      snippets := Without(snippets, id);
    }
  }

  /** The `search` test for one snippet. */
  function Matches(s: Snippet, term: string, language: Option<string>): (b: bool)
    ensures b ==> MatchesTerm(s, term)
    ensures b && language.Some? && language.value != "" ==> s.language == language
    ensures MatchesTerm(s, term) && (language.None? || language.value == "" || language == s.language) ==> b
  {
    MatchesTerm(s, term) && (language.None? || language.value == "" || s.language == language)
  }

  /** `matchesTerm`: an empty term, or the lower-cased term inside the lower-cased name,
      description or one of the key terms. */
  function MatchesTerm(s: Snippet, term: string): (b: bool)
    ensures term == "" ==> b
    ensures Lower(term) == Lower(s.name) ==> b
  {
    var t := Lower(term);
    ContainsSlice(Lower(s.name), 0, |s.name|);
    assert Lower(s.name)[0..|s.name|] == Lower(s.name);
    || term == ""
    || Contains(Lower(s.name), t)
    || Contains(Lower(s.description.GetOr("")), t)
    || exists k :: 0 <= k < |s.keyTerms| && Contains(Lower(s.keyTerms[k]), t)
  }

  /** The whole `matchesTerm` rule: a snippet matches exactly when the term is empty or the
      lower-cased term occurs in the lower-cased name, description or one of the key terms. */
  lemma MatchesTermIff(s: Snippet, term: string)
    ensures MatchesTerm(s, term) <==>
              || term == ""
              || OccursIn(Lower(s.name), Lower(term))
              || OccursIn(Lower(s.description.GetOr("")), Lower(term))
              || exists k :: 0 <= k < |s.keyTerms| && OccursIn(Lower(s.keyTerms[k]), Lower(term))
  {
    ContainsIff(Lower(s.name), Lower(term));
    ContainsIff(Lower(s.description.GetOr("")), Lower(term));
    forall k | 0 <= k < |s.keyTerms|
      ensures Contains(Lower(s.keyTerms[k]), Lower(term)) <==> OccursIn(Lower(s.keyTerms[k]), Lower(term))
    {
      ContainsIff(Lower(s.keyTerms[k]), Lower(term));
    }
  }

  /** `search` ignores letter case in the term: the term is lower-cased before it is looked
      for. */
  lemma MatchesTermIgnoresCase(s: Snippet, term: string)
    ensures MatchesTerm(s, Lower(term)) == MatchesTerm(s, term)
  {
    LowerIdempotent(term);
  }

  /** Storing a candidate keeps a property that the candidate and every stored snippet have. */
  lemma PersistAll(xs: seq<Snippet>, p: SavePayload, c: Snippet, P: Snippet -> bool)
    requires P(c) && forall i :: 0 <= i < |xs| ==> P(xs[i])
    ensures forall i :: 0 <= i < |Persist(xs, p, c)| ==> P(Persist(xs, p, c)[i])
  {
    if !HasId(p) {
      assert forall i :: 1 <= i < |[c] + xs| ==> ([c] + xs)[i] == xs[i - 1];
    }
  }

  /** No two snippets share an id. */
  predicate DistinctIds(xs: seq<Snippet>) {
    forall i, j :: 0 <= i < j < |xs| ==> xs[i].id != xs[j].id
  }

  /** Saving never makes two snippets share an id, provided that a new snippet's id is not
      already taken: an edit keeps the id in place, and a new snippet brings its own. */
  lemma SaveKeepsIdsDistinct(xs: seq<Snippet>, p: SavePayload, freshId: string, clock: Clock)
    requires DistinctIds(xs)
    requires !HasId(p) ==> forall i :: 0 <= i < |xs| ==> xs[i].id != p.id.GetOr(freshId)
    ensures DistinctIds(Saving(xs, p, freshId, clock).after)
  {
    var o := Saving(xs, p, freshId, clock);
    if o.result.Ok? && o.result.value.Saved? {
      var c := o.result.value.snippet;
      PreparedStamps(xs, p, freshId, clock);
      PersistKeepsIdsDistinct(xs, p, c);
    }
  }

  /** Storing a candidate that carries the payload's id, or a new id, keeps ids distinct. */
  lemma PersistKeepsIdsDistinct(xs: seq<Snippet>, p: SavePayload, c: Snippet)
    requires DistinctIds(xs)
    requires HasId(p) ==> c.id == p.id.value
    requires !HasId(p) ==> forall i :: 0 <= i < |xs| ==> xs[i].id != c.id
    ensures DistinctIds(Persist(xs, p, c))
  {
    var r := Persist(xs, p, c);
    if HasId(p) {
      assert forall i :: 0 <= i < |xs| ==> r[i].id == xs[i].id;
    } else {
      assert forall i :: 1 <= i < |r| ==> r[i] == xs[i - 1];
    }
  }

  /** A successful edit leaves every snippet with another id as it was, in its order. */
  lemma {:induction false} ReplaceKeepsOthers(xs: seq<Snippet>, id: string, c: Snippet)
    requires c.id == id
    ensures Without(ReplaceById(xs, id, c), id) == Without(xs, id)
  {
    if xs != [] {
      ReplaceKeepsOthers(xs[1..], id, c);
      assert ReplaceById(xs, id, c)[1..] == ReplaceById(xs[1..], id, c);
    }
  }

  /** What a successful save stores: a new snippet goes in front of all the others, which are
      kept as they were; an edit keeps the length and leaves every snippet with another id as it
      was, in its order. */
  lemma SavedCollection(xs: seq<Snippet>, p: SavePayload, freshId: string, clock: Clock)
    requires Saving(xs, p, freshId, clock).result.Ok? && Saving(xs, p, freshId, clock).result.value.Saved?
    ensures var o := Saving(xs, p, freshId, clock); var c := o.result.value.snippet;
            !HasId(p) ==> |o.after| == |xs| + 1 && o.after[0] == c && o.after[1..] == xs
    ensures var o := Saving(xs, p, freshId, clock); var c := o.result.value.snippet;
            HasId(p) ==>
              && |o.after| == |xs|
              && c.id == p.id.value
              && Without(o.after, p.id.value) == Without(xs, p.id.value)
              && forall i :: 0 <= i < |xs| ==> o.after[i] == (if xs[i].id == p.id.value then c else xs[i])
  {
    var o := Saving(xs, p, freshId, clock);
    var c := o.result.value.snippet;
    PreparedStamps(xs, p, freshId, clock);
    if HasId(p) {
      ReplaceKeepsOthers(xs, p.id.value, c);
    } else {
      assert ([c] + xs)[1..] == xs;
    }
  }

  /** A saved snippet collides with no other snippet, by name or by content. */
  lemma SavedHasNoClash(xs: seq<Snippet>, p: SavePayload, freshId: string, clock: Clock, i: nat)
    requires Saving(xs, p, freshId, clock).result.Ok? && Saving(xs, p, freshId, clock).result.value.Saved?
    requires i < |xs| && p.id != Some(xs[i].id)
    ensures var c := Saving(xs, p, freshId, clock).result.value.snippet;
            Lower(xs[i].name) != Lower(c.name) && xs[i].normalizedHash != c.normalizedHash
  {
    var c := Saving(xs, p, freshId, clock).result.value.snippet;
    var conflicts := CheckDuplicate(xs, ProbeOf(p, c));
    assert !NameClash(xs[i], ProbeOf(p, c));
    assert !ContentClash(xs[i], ProbeOf(p, c));
  }

  /** A new snippet whose trimmed name matches a stored name, ignoring letter case, is not
      stored: `save` reports the name conflict. */
  lemma NameClashBlocks(xs: seq<Snippet>, p: SavePayload, freshId: string, clock: Clock, k: nat)
    requires k < |xs| && Lower(xs[k].name) == Lower(Trim(p.name))
    requires p.id.None? && !AllSpace(p.name) && !AllSpace(p.code)
    ensures var o := Saving(xs, p, freshId, clock);
            o.result.Ok? && o.result.value.Conflicted? && o.result.value.conflicts.byName.Some? && o.after == xs
  {
    PreparedFields(xs, p, freshId, clock);
    var c := Prepare(xs, p, freshId, clock).value;
    assert NameClash(xs[k], ProbeOf(p, c));
  }

  /** A new snippet whose code is a stored snippet's code with whitespace around it is not
      stored: both normalise to the same text, so `save` reports the content conflict. */
  lemma PaddedCopyConflicts(xs: seq<Snippet>, p: SavePayload, freshId: string, clock: Clock, k: nat,
                            w1: string, w2: string)
    requires k < |xs| && HashConsistent(xs[k]) && !AllSpace(xs[k].code)
    requires AllSpace(w1) && AllSpace(w2) && p.code == w1 + xs[k].code + w2
    requires p.id.None? && !AllSpace(p.name)
    ensures var o := Saving(xs, p, freshId, clock);
            o.result.Ok? && o.result.value.Conflicted? && o.result.value.conflicts.byContent.Some? && o.after == xs
  {
    NormalizeIgnoresPadding(w1, xs[k].code, w2);
    NormalizeEmptyIff(xs[k].code);
    NormalizeEmptyIff(p.code);
    PaddedCopyHash(xs, p, freshId, clock, k, w1, w2);
    var c := Prepare(xs, p, freshId, clock).value;
    assert ContentClash(xs[k], ProbeOf(p, c));
  }

  /** The candidate of a padded copy has the stored snippet's fingerprint. */
  lemma PaddedCopyHash(xs: seq<Snippet>, p: SavePayload, freshId: string, clock: Clock, k: nat,
                       w1: string, w2: string)
    requires k < |xs| && HashConsistent(xs[k])
    requires AllSpace(w1) && AllSpace(w2) && p.code == w1 + xs[k].code + w2
    requires Prepare(xs, p, freshId, clock).Ok?
    ensures Prepare(xs, p, freshId, clock).value.normalizedHash == xs[k].normalizedHash
  {
    var c := Prepare(xs, p, freshId, clock).value;
    PreparedFields(xs, p, freshId, clock);
    assert c.normalizedHash == HashOf(c.code);
    HashIgnoresPadding(w1, xs[k].code, w2);
    NormalizeIdempotent(p.code);
  }

  /** Whitespace around the whole code text never changes `trimmedWarning`. */
  lemma TrimmedWarningIgnoresPadding(p: SavePayload, w1: string, w2: string)
    requires AllSpace(w1) && AllSpace(w2)
    ensures TrimmedWarning(p.(code := w1 + p.code + w2)) == TrimmedWarning(p)
  {
    NormalizeIgnoresPadding(w1, p.code, w2);
    TrimIgnoresPadding(w1, p.code, w2);
  }

  /** A trimmed name and code in normal form raise no warning, whatever whitespace surrounds the
      code. */
  lemma NoWarningForNormalCode(p: SavePayload, w1: string, w2: string)
    requires Trim(p.name) == p.name && Normalize(p.code) == p.code
    requires AllSpace(w1) && AllSpace(w2)
    ensures !TrimmedWarning(p.(code := w1 + p.code + w2))
  {
    TrimmedWarningIgnoresPadding(p, w1, w2);
    NormalFormIsTrimmed(p.code);
  }

  /** The warning `forceSave` passes on when `save` stored the snippet is about the code alone:
      a name with whitespace around it was trimmed before `save` saw it. */
  lemma ForceSaveWarning(p: SavePayload)
    ensures TrimmedWarning(Tidied(p)) == (Normalize(p.code) != Trim(p.code))
  {
    TrimIdempotent(p.name);
    TrimIdempotent(p.code);
    NormalizeOfTrimmed(p.code);
  }

  /** `forceSave` reports a `trimmedWarning` exactly when `save` stored the snippet, and then it
      says whether normalising changed more than the whitespace around the code. */
  lemma ForceSaveResult(xs: seq<Snippet>, p: SavePayload, innerId: string, forcedId: string,
                        innerClock: Clock, forcedClock: Clock)
    requires ForceSaving(xs, p, innerId, forcedId, innerClock, forcedClock).result.Ok?
    ensures var o := ForceSaving(xs, p, innerId, forcedId, innerClock, forcedClock);
            var inner := Saving(xs, Tidied(p), innerId, innerClock);
            && (o.result.value.trimmedWarning.None? <==> inner.result.value.Conflicted?)
            && (o.result.value.trimmedWarning.Some? ==> o.result.value.trimmedWarning.value == (Normalize(p.code) != Trim(p.code)))
  {
    ForceSaveWarning(p);
  }

  /** An empty search term and no language filter find every snippet. */
  lemma SearchEverything(store: SnippetStore, language: Option<string>)
    requires language.None? || language.value == ""
    ensures store.Search("", language) == store.snippets
  {
    FilterAll(store.snippets, (s: Snippet) => Matches(s, "", language));
  }

  /** Every snippet that matches is found. */
  lemma SearchFinds(store: SnippetStore, term: string, language: Option<string>, i: nat)
    requires i < |store.snippets| && Matches(store.snippets[i], term, language)
    ensures store.snippets[i] in store.Search(term, language)
    ensures multiset(store.Search(term, language))[store.snippets[i]] == multiset(store.snippets)[store.snippets[i]]
  {
    FilterKeeps(store.snippets, (s: Snippet) => Matches(s, term, language), store.snippets[i]);
    FilterMultiplicity(store.snippets, (s: Snippet) => Matches(s, term, language), store.snippets[i]);
  }

  /** Every non-empty language of a snippet is listed by `allLanguages`. */
  lemma AllLanguagesComplete(store: SnippetStore, j: nat)
    requires j < |store.snippets| && HasLanguage(store.snippets[j])
    ensures store.snippets[j].language.value in store.AllLanguages()
  {
    UsedLanguageIsListed(store.snippets, j);
    DedupKeeps(LanguagesOf(store.snippets), store.snippets[j].language.value);
  }

  /** `allLanguages` lists languages in the order in which snippets first use them. */
  lemma AllLanguagesFirstSeen(store: SnippetStore)
    ensures var r := store.AllLanguages(); var ls := LanguagesOf(store.snippets);
            forall i, j :: 0 <= i < j < |r| ==> IndexOf(ls, r[i]) < IndexOf(ls, r[j])
  {
    DedupFirstSeenOrder(LanguagesOf(store.snippets));
  }
}
