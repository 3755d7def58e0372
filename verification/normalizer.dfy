/** `normalizeCode` (src/utils/normalize.ts): the canonical form of a code text that
    duplicate detection compares and that the store keeps. */
module Normalizer {
  import opened Text

  /** `.map((line) => line.replace(/\s+$/u, ''))` */
  function TrimLineEnds(lines: seq<string>): seq<string> {
    seq(|lines|, i requires 0 <= i < |lines| => TrimEnd(lines[i]))
  }

  /** The lines of a trimmed text, each without its trailing whitespace. */
  function Lines(trimmed: string): seq<string> {
    TrimLineEnds(Split(trimmed, '\n'))
  }

  /** What the `lines.shift()` loop leaves: the lines from the first non-empty one on. */
  function DropLeadingEmpty(lines: seq<string>): seq<string> {
    if lines != [] && lines[0] == "" then DropLeadingEmpty(lines[1..]) else lines
  }

  /** What the `lines.pop()` loop leaves: the lines up to the last non-empty one. */
  function DropTrailingEmpty(lines: seq<string>): seq<string> {
    if lines != [] && lines[|lines| - 1] == "" then DropTrailingEmpty(lines[..|lines| - 1]) else lines
  }

  /** The value `normalizeCode(code)` returns: trim the text, give up on an empty result,
      strip each line's trailing whitespace, drop empty edge lines, join with `\n`. */
  function Normalize(code: string): string {
    var trimmed := Trim(code);
    if trimmed == "" then "" else Join(DropTrailingEmpty(DropLeadingEmpty(Lines(trimmed))), '\n')
  }

  /** `normalizeCode`, with its two loops that shift empty lines off the front and pop them
      off the back of the line list. */
  method NormalizeCode(code: string) returns (normalized: string)
    ensures normalized == Normalize(code)
  {
    var trimmed := Trim(code);
    if trimmed == "" {
      return "";
    }
    var lines := Lines(trimmed);
    ghost var split := lines;
    while |lines| > 0 && |lines[0]| == 0
      invariant DropLeadingEmpty(lines) == DropLeadingEmpty(split)
    {
      lines := lines[1..];
    }
    ghost var shifted := lines;
    while |lines| > 0 && |lines[|lines| - 1]| == 0
      invariant DropTrailingEmpty(lines) == DropTrailingEmpty(shifted)
    {
      lines := lines[..|lines| - 1];
    }
    normalized := Join(lines, '\n');
  }

  /** The lines of a trimmed, non-empty text: none holds a line break, none ends in whitespace,
      the first and the last are not empty, and the text's first character starts the first. */
  lemma LinesOfTrimmed(t: string)
    requires t != [] && !IsSpace(t[0]) && !IsSpace(t[|t| - 1])
    ensures var ls := Lines(t);
            && |ls| >= 1
            && ls[0] != [] && ls[0][0] == t[0]
            && ls[|ls| - 1] != []
            && forall i :: 0 <= i < |ls| ==> '\n' !in ls[i] && (ls[i] == [] || !IsSpace(ls[i][|ls[i]| - 1]))
  {
    var ps := Split(t, '\n');
    var ls := Lines(t);
    SplitFirstPiece(t, '\n');
    assert ls[0] == TrimEnd(ps[0]);
    SplitLastPiece(t, '\n');
    var last := ps[|ps| - 1];
    assert ls[|ls| - 1] == TrimEnd(last) == last;
    forall i | 0 <= i < |ls|
      ensures '\n' !in ls[i]
    {
      assert ls[i] == ps[i][..|ls[i]|];
    }
  }

  /** The shift and pop loops never remove a line: after `trim`, the first and the last line
      are never empty. */
  lemma NormalizeKeepsAllLines(code: string)
    requires Trim(code) != ""
    ensures Normalize(code) == Join(Lines(Trim(code)), '\n')
  {
    LinesOfTrimmed(Trim(code));
  }

  /** `normalizeCode` returns `""` exactly when the input is empty or all whitespace. */
  lemma NormalizeEmptyIff(code: string)
    ensures Normalize(code) == "" <==> AllSpace(code)
  {
    var t := Trim(code);
    if t != "" {
      LinesOfTrimmed(t);
      NormalizeKeepsAllLines(code);
      JoinFirst(Lines(t), '\n');
    }
  }

  /** A normalised text neither starts nor ends with whitespace. */
  lemma NormalizeEdges(code: string)
    ensures var r := Normalize(code);
            r == "" || (!IsSpace(r[0]) && !IsSpace(r[|r| - 1]))
  {
    var t := Trim(code);
    if t != "" {
      NormalizeKeepsAllLines(code);
      JoinedLines(t);
    }
  }

  /** The lines of a normalised text are exactly the lines of the trimmed input with their
      trailing whitespace removed, so indentation is kept. */
  lemma NormalizeShape(code: string)
    ensures var r := Normalize(code);
            r != "" ==> Split(r, '\n') == Lines(Trim(code))
  {
    var t := Trim(code);
    if t != "" {
      NormalizeKeepsAllLines(code);
      JoinedLines(t);
    }
  }

  /** No line of a normalised text ends in whitespace, and its first and last lines are not
      empty. */
  lemma NormalizeLineEnds(code: string)
    ensures var r := Normalize(code); var ls := Lines(Trim(code));
            r != "" ==>
              && ls[0] != "" && ls[|ls| - 1] != ""
              && forall i :: 0 <= i < |ls| ==> ls[i] == "" || !IsSpace(ls[i][|ls[i]| - 1])
  {
    var t := Trim(code);
    if t != "" {
      JoinedLines(t);
    }
  }

  /** Joining the lines of a trimmed, non-empty text gives a text with the same lines, which
      neither starts nor ends with whitespace, and whose first and last lines are not empty and
      whose lines do not end in whitespace. */
  lemma JoinedLines(t: string)
    requires t != [] && !IsSpace(t[0]) && !IsSpace(t[|t| - 1])
    ensures var r := Join(Lines(t), '\n');
            && r != "" && !IsSpace(r[0]) && !IsSpace(r[|r| - 1])
            && Split(r, '\n') == Lines(t)
    ensures var ls := Lines(t);
            && ls[0] != "" && ls[|ls| - 1] != ""
            && forall i :: 0 <= i < |ls| ==> ls[i] == "" || !IsSpace(ls[i][|ls[i]| - 1])
  {
    var ls := Lines(t);
    LinesOfTrimmed(t);
    JoinFirst(ls, '\n');
    JoinLast(ls, '\n');
    SplitJoin(ls, '\n');
  }

  /** `normalizeCode` is idempotent. */
  lemma NormalizeIdempotent(code: string)
    ensures Normalize(Normalize(code)) == Normalize(code)
  {
    var r := Normalize(code);
    var t := Trim(code);
    if t != "" {
      NormalizeKeepsAllLines(code);
      JoinedLines(t);
      TrimOfTrimmed(r);
      LineEndsAlreadyTrimmed(Lines(t));
      NormalizeKeepsAllLines(r);
    }
  }

  /** Lines that do not end in whitespace lose nothing to `trimEnd`. */
  lemma LineEndsAlreadyTrimmed(ls: seq<string>)
    requires forall i :: 0 <= i < |ls| ==> ls[i] == "" || !IsSpace(ls[i][|ls[i]| - 1])
    ensures TrimLineEnds(ls) == ls
  {
    forall i | 0 <= i < |ls|
      ensures TrimEnd(ls[i]) == ls[i]
    {
      TrimEndOfTrimmed(ls[i]);
    }
  }

  /** A normal form is its own trim. */
  lemma NormalFormIsTrimmed(code: string)
    ensures Trim(Normalize(code)) == Normalize(code)
  {
    NormalizeEdges(code);
    TrimOfTrimmed(Normalize(code));
  }

  /** Whitespace around the whole text does not change the normal form. */
  lemma NormalizeIgnoresPadding(w1: string, code: string, w2: string)
    requires AllSpace(w1) && AllSpace(w2)
    ensures Normalize(w1 + code + w2) == Normalize(code)
  {
    TrimIgnoresPadding(w1, code, w2);
  }

  /** Normalising the trimmed text gives the same result as normalising the text. */
  lemma NormalizeOfTrimmed(code: string)
    ensures Normalize(Trim(code)) == Normalize(code)
  {
    TrimIdempotent(code);
  }

  /** A single line that neither starts nor ends with whitespace, padded with whitespace,
      normalises to the line. */
  lemma NormalizePaddedLine(w1: string, t: string, w2: string)
    requires AllSpace(w1) && AllSpace(w2)
    requires t != [] && '\n' !in t && !IsSpace(t[0]) && !IsSpace(t[|t| - 1])
    ensures Normalize(w1 + t + w2) == t
  {
    NormalizeIgnoresPadding(w1, t, w2);
    TrimOfTrimmed(t);
    NormalizeKeepsAllLines(t);
    SplitWithoutSeparator(t, '\n');
    assert Lines(t) == [t];
  }

  /** Two lines of code: the first loses its trailing whitespace, so code that differs only by
      whitespace at the end of a line has one normal form. */
  lemma NormalizeTwoLines(l1: string, l2: string)
    requires l1 != [] && l2 != [] && '\n' !in l1 && '\n' !in l2
    requires !IsSpace(l1[0]) && !IsSpace(l2[|l2| - 1])
    ensures Normalize(l1 + "\n" + l2) == TrimEnd(l1) + "\n" + l2
  {
    var t := l1 + "\n" + l2;
    TrimOfTrimmed(t);
    SplitAtSeparator(l1, '\n', l2);
    SplitWithoutSeparator(l2, '\n');
    TrimEndOfTrimmed(l2);
    var ls := Lines(t);
    assert ls == [TrimEnd(l1), l2];
    assert TrimEnd(l1) != [];
    assert Join(ls, '\n') == TrimEnd(l1) + "\n" + Join([l2], '\n');
  }

  /** `"a  \nb"` and `"a\nb"` have the same normal form, `"a\nb"`. */
  lemma LineEndSpaceExample()
    ensures Normalize("a  \nb") == Normalize("a\nb") == "a\nb"
  {
    assert "a  \nb" == "a  " + "\n" + "b";
    assert "a\nb" == "a" + "\n" + "b";
    assert "a  " == "a" + "  ";
    TrimEndOfPadded("a", "  ");
    TrimEndOfTrimmed("a");
    NormalizeTwoLines("a  ", "b");
    NormalizeTwoLines("a", "b");
  }

  /** The text of the first example of src/utils/normalize.test.ts is one line of code
      between whitespace. */
  lemma ExampleIsPaddedLine(code: string)
    requires code == "\n  const x = 1;   \n\n"
    ensures code == code[..3] + code[3..15] + code[15..]
    ensures AllSpace(code[..3]) && AllSpace(code[15..])
    ensures code[3..15] == "const x = 1;"
    ensures '\n' !in code[3..15] && !IsSpace(code[3]) && !IsSpace(code[14])
  {
  }

  /** The first example of src/utils/normalize.test.ts: edge blank lines, indentation of the
      only line and its trailing spaces all go. */
  lemma NormalizeExample()
    ensures Normalize("\n  const x = 1;   \n\n") == "const x = 1;"
  {
    var code := "\n  const x = 1;   \n\n";
    ExampleIsPaddedLine(code);
    NormalizePaddedLine(code[..3], code[3..15], code[15..]);
  }

  /** The second example of src/utils/normalize.test.ts: whitespace-only code is no code. */
  lemma NormalizeBlankExample()
    ensures Normalize("   ") == ""
  {
    NormalizeEmptyIff("   ");
  }
}
