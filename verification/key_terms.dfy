/** `formatKeyTerms` (src/utils/normalize.ts): the tag list of a snippet, read from the
    comma-separated text the user typed. */
module KeyTerms {
  import opened Text
  import opened Seqs

  /** `.map((term) => term.trim())` */
  function TrimAll(pieces: seq<string>): (r: seq<string>)
    ensures |r| == |pieces|
    ensures forall i :: 0 <= i < |r| ==> r[i] == Trim(pieces[i])
  {
    seq(|pieces|, i requires 0 <= i < |pieces| => Trim(pieces[i]))
  }

  /** `.filter((term) => term.length)`: an empty term is falsy. */
  predicate NonEmpty(term: string) {
    |term| > 0
  }

  /** The trimmed, non-empty pieces of the text between commas, duplicates still in. */
  function Terms(raw: string): seq<string> {
    Filter(TrimAll(Split(raw, ',')), NonEmpty)
  }

  /** A term as `formatKeyTerms` leaves it: not empty, trimmed, and without a comma. */
  predicate IsCleanTerm(t: string) {
    t != "" && Trim(t) == t && ',' !in t
  }

  /** `formatKeyTerms(raw)`: every term is non-empty, trimmed and free of commas, no term
      occurs twice, and every term is the trim of a comma-separated piece of `raw`. */
  function FormatKeyTerms(raw: string): (r: seq<string>)
    ensures forall i :: 0 <= i < |r| ==> IsCleanTerm(r[i])
    ensures NoDup(r)
    ensures forall i :: 0 <= i < |r| ==> r[i] in TrimAll(Split(raw, ','))
  {
    TermsAreClean(raw);
    DedupAll(Terms(raw), IsCleanTerm);
    TermsArePieces(raw);
    Dedup(Terms(raw))
  }

  /** Every term, before duplicates go, is clean. */
  lemma TermsAreClean(raw: string)
    ensures forall i :: 0 <= i < |Terms(raw)| ==> IsCleanTerm(Terms(raw)[i])
  {
    forall i | 0 <= i < |Terms(raw)|
      ensures IsCleanTerm(Terms(raw)[i])
    {
      TermIsClean(raw, i);
    }
  }

  lemma TermIsClean(raw: string, i: nat)
    requires i < |Terms(raw)|
    ensures IsCleanTerm(Terms(raw)[i])
  {
    var pieces := Split(raw, ',');
    var trimmed := TrimAll(pieces);
    var t := Terms(raw)[i];
    assert t in trimmed && NonEmpty(t);
    var j :| 0 <= j < |trimmed| && trimmed[j] == t;
    TrimmedPiece(pieces[j]);
  }

  /** Every term after `Dedup` is the trim of a piece. */
  lemma TermsArePieces(raw: string)
    ensures forall i :: 0 <= i < |Dedup(Terms(raw))| ==> Dedup(Terms(raw))[i] in TrimAll(Split(raw, ','))
  {
    var trimmed := TrimAll(Split(raw, ','));
    DedupAll(Terms(raw), t => t in trimmed);
  }

  /** No term is lost: the trim of every comma-separated piece that is not blank is a term. */
  lemma PiecesKept(raw: string, j: nat)
    requires j < |Split(raw, ',')| && !AllSpace(Split(raw, ',')[j])
    ensures Trim(Split(raw, ',')[j]) in FormatKeyTerms(raw)
  {
    var trimmed := TrimAll(Split(raw, ','));
    FilterKeeps(trimmed, NonEmpty, trimmed[j]);
    DedupKeeps(Terms(raw), trimmed[j]);
  }

  /** The trim of a piece without commas is its own trim and has no commas. */
  lemma TrimmedPiece(p: string)
    requires ',' !in p
    ensures Trim(Trim(p)) == Trim(p) && ',' !in Trim(p)
  {
    TrimIdempotent(p);
    TrimChars(p);
  }

  /** Terms come out in the order in which they are first typed. The first clause only exposes
      that the result is the de-duplicated list of trimmed pieces; the second states the order. */
  lemma FormatKeyTermsOrder(raw: string)
    ensures FormatKeyTerms(raw) == Dedup(Terms(raw))
    ensures var r := FormatKeyTerms(raw);
            forall i, j :: 0 <= i < j < |r| ==> IndexOf(Terms(raw), r[i]) < IndexOf(Terms(raw), r[j])
  {
    DedupFirstSeenOrder(Terms(raw));
  }

  /** A blank text has no terms. */
  lemma FormatEmpty()
    ensures FormatKeyTerms("") == []
  {
    assert Split("", ',') == [""];
    assert TrimAll([""]) == [""];
  }

  /** `a, a, b ,` gives the tags `a` and `b`: spaces around terms go, the repeated `a` and the
      empty piece after the last comma are dropped. */
  lemma KeyTermsExample()
    ensures FormatKeyTerms("a, a, b ,") == ["a", "b"]
  {
    KeyTermsExamplePieces();
    KeyTermsExampleTrimmed();
    KeyTermsExampleFiltered();
    KeyTermsExampleDeduplicated();
  }

  /** The comma-separated pieces of `a, a, b ,`. */
  lemma KeyTermsExamplePieces()
    ensures Split("a, a, b ,", ',') == ["a", " a", " b ", ""]
  {
    SplitStep("a, a, b ,", "a", " a, b ,");
    LaterPieces();
  }

  lemma LaterPieces()
    ensures Split(" a, b ,", ',') == [" a", " b ", ""]
  {
    SplitStep(" a, b ,", " a", " b ,");
    SplitStep(" b ,", " b ", "");
  }

  /** Splitting at the first comma. */
  lemma SplitStep(s: string, a: string, b: string)
    requires ',' !in a && s == a + [','] + b
    ensures Split(s, ',') == [a] + Split(b, ',')
  {
    SplitAtSeparator(a, ',', b);
  }

  /** The empty pieces go. */
  lemma KeyTermsExampleFiltered()
    ensures Filter(["a", "a", "b", ""], NonEmpty) == ["a", "a", "b"]
  {
    var trimmed := ["a", "a", "b", ""];
    assert Filter(trimmed[3..], NonEmpty) == [];
    assert Filter(trimmed[2..], NonEmpty) == ["b"];
  }

  /** The repeated term goes. */
  lemma KeyTermsExampleDeduplicated()
    ensures Dedup(["a", "a", "b"]) == ["a", "b"]
  {
    var terms := ["a", "a", "b"];
    assert terms[..2][..1] == ["a"] && terms[..2] == ["a", "a"];
    assert Dedup(terms[..2][..1]) == ["a"];
    assert Dedup(terms[..2]) == ["a"];
  }

  /** Those pieces, trimmed. */
  lemma KeyTermsExampleTrimmed()
    ensures TrimAll(["a", " a", " b ", ""]) == ["a", "a", "b", ""]
  {
    assert " a" == " " + "a" + "" && " b " == " " + "b" + " ";
    TrimIgnoresPadding(" ", "a", "");
    TrimIgnoresPadding(" ", "b", " ");
    TrimOfTrimmed("a");
    TrimOfTrimmed("b");
    TrimOfTrimmed("");
  }

  /** A list of distinct clean terms is what formatting its comma-join gives back. */
  lemma FormatJoinedTerms(terms: seq<string>)
    requires |terms| >= 1 && NoDup(terms)
    requires forall i :: 0 <= i < |terms| ==> IsCleanTerm(terms[i])
    ensures FormatKeyTerms(Join(terms, ',')) == terms
  {
    SplitJoin(terms, ',');
    TrimAllOfTrimmed(terms);
    FilterAll(terms, NonEmpty);
    DedupOfDistinct(terms);
  }

  lemma TrimAllOfTrimmed(terms: seq<string>)
    requires forall i :: 0 <= i < |terms| ==> IsCleanTerm(terms[i])
    ensures TrimAll(terms) == terms
  {
  }

  /** Formatting the comma-joined terms again gives the same terms: the form's round trip
      through the `keyTermsRaw` text is stable. */
  lemma FormatKeyTermsIdempotent(raw: string)
    ensures FormatKeyTerms(Join(FormatKeyTerms(raw), ',')) == FormatKeyTerms(raw)
  {
    var r := FormatKeyTerms(raw);
    if r == [] {
      FormatEmpty();
    } else {
      FormatJoinedTerms(r);
    }
  }
}
