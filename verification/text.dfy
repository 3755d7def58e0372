/** The JavaScript string operations the snippet core relies on: `trim`, `trimEnd`,
    `split`/`join` on one separator character, `toLowerCase` (ASCII letters only) and
    `includes`, together with the character classes `\s` and `\w` of its regular expressions. */
module Text {

  /** An ECMAScript LineTerminator: what `.` in a regular expression does not match and what
      the `m` flag treats as the end of a line. */
  predicate IsLineTerminator(c: char) {
    c == '\n' || c == '\r' || c == '\U{2028}' || c == '\U{2029}'
  }

  /** An ECMAScript WhiteSpace or LineTerminator character: exactly what `String.prototype.trim`
      removes and what `\s` matches. */
  predicate IsSpace(c: char) {
    || IsLineTerminator(c)
    || c == '\t' || c == '\U{000B}' || c == '\U{000C}' || c == ' '
    || c == '\U{00A0}' || c == '\U{1680}' || ('\U{2000}' <= c <= '\U{200A}')
    || c == '\U{202F}' || c == '\U{205F}' || c == '\U{3000}' || c == '\U{FEFF}'
  }

  /** `\w` in a regular expression without the `i` flag: ASCII letters, digits and `_`. */
  predicate IsWordChar(c: char) {
    ('a' <= c <= 'z') || ('A' <= c <= 'Z') || ('0' <= c <= '9') || c == '_'
  }

  predicate AllSpace(s: string) {
    forall i :: 0 <= i < |s| ==> IsSpace(s[i])
  }

  /** `s.trimEnd()`, and `s.replace(/\s+$/u, '')`: the prefix left after the trailing
      whitespace run. */
  function TrimEnd(s: string): (r: string)
    ensures |r| <= |s| && r == s[..|r|]
    ensures AllSpace(s[|r|..])
    ensures r == [] || !IsSpace(r[|r| - 1])
  {
    var e := EndOfText(s, |s|);
    assert forall k :: 0 <= k < |s| - e ==> s[e..][k] == s[e + k];
    s[..e]
  }

  /** A text that does not end in whitespace is its own `trimEnd`. */
  lemma TrimEndOfTrimmed(s: string)
    requires s == [] || !IsSpace(s[|s| - 1])
    ensures TrimEnd(s) == s
  {
    assert s[..|s|] == s;
  }

  /** Trailing whitespace after a text that does not end in whitespace is what `trimEnd`
      removes, and all it removes. */
  lemma TrimEndOfPadded(t: string, w: string)
    requires AllSpace(w) && (t == [] || !IsSpace(t[|t| - 1]))
    ensures TrimEnd(t + w) == t
  {
    var s := t + w;
    assert forall i :: |t| <= i < |s| ==> s[i] == w[i - |t|];
    EndOfTextSkips(s, |t|, |s|);
    assert s[..|t|] == t;
  }

  /** A run of whitespace before `j` does not move where the text ends. */
  lemma {:induction false} EndOfTextSkips(s: string, k: nat, j: nat)
    requires k <= j <= |s| && forall i :: k <= i < j ==> IsSpace(s[i])
    ensures EndOfText(s, j) == EndOfText(s, k)
    decreases j
  {
    if j > k {
      EndOfTextSkips(s, k, j - 1);
    }
  }

  /** Where `s[..j]` ends once its trailing whitespace is dropped. */
  function EndOfText(s: string, j: nat): (e: nat)
    requires j <= |s|
    ensures e <= j
    ensures forall k :: e <= k < j ==> IsSpace(s[k])
    ensures e == 0 || !IsSpace(s[e - 1])
  {
    if j > 0 && IsSpace(s[j - 1]) then EndOfText(s, j - 1) else j
  }

  /** `s.trim()`: leading and trailing whitespace removed. Nothing is left exactly when the
      text is all whitespace; otherwise the result starts and ends with a character that is
      not whitespace. */
  function Trim(s: string): (r: string)
    ensures r == [] <==> AllSpace(s)
    ensures r == [] || (!IsSpace(r[0]) && !IsSpace(r[|r| - 1]))
  {
    TrimRangeFacts(s, 0, |s|);
    TrimRange(s, 0, |s|)
  }

  /** The trim of the stretch of `s` from position `i` up to `j`: whitespace is peeled off the
      front, then off the back. */
  function TrimRange(s: string, i: nat, j: nat): string
    requires i <= j <= |s|
    decreases j - i
  {
    if i < j && IsSpace(s[i]) then TrimRange(s, i + 1, j)
    else if i < j && IsSpace(s[j - 1]) then TrimRange(s, i, j - 1)
    else s[i..j]
  }

  /** Nothing is left of a stretch exactly when it is all whitespace; otherwise what is left
      starts and ends with a character that is not whitespace. */
  lemma TrimRangeFacts(s: string, i: nat, j: nat)
    requires i <= j <= |s|
    ensures TrimRange(s, i, j) == [] <==> forall k :: i <= k < j ==> IsSpace(s[k])
    ensures var r := TrimRange(s, i, j); r == [] || (!IsSpace(r[0]) && !IsSpace(r[|r| - 1]))
  {
    var a, b := TrimRangeBounds(s, i, j);
    if a < b {
      assert !IsSpace(s[a]);
    }
  }

  /** `trim` removes only whitespace, and only at the ends: the result is the stretch of the
      text between a whitespace prefix and a whitespace suffix. */
  lemma TrimIsSlice(s: string)
    ensures exists a, b :: 0 <= a <= b <= |s| && Trim(s) == s[a..b] &&
              (forall k :: 0 <= k < a ==> IsSpace(s[k])) && (forall k :: b <= k < |s| ==> IsSpace(s[k]))
  {
    var a, b := TrimRangeBounds(s, 0, |s|);
  }

  /** The ends `a` and `b` of what `TrimRange(s, i, j)` keeps. */
  lemma {:induction false} TrimRangeBounds(s: string, i: nat, j: nat) returns (a: nat, b: nat)
    requires i <= j <= |s|
    ensures i <= a <= b <= j && TrimRange(s, i, j) == s[a..b]
    ensures forall k :: i <= k < a ==> IsSpace(s[k])
    ensures forall k :: b <= k < j ==> IsSpace(s[k])
    ensures a == b || (!IsSpace(s[a]) && !IsSpace(s[b - 1]))
    decreases j - i
  {
    if i < j && IsSpace(s[i]) {
      a, b := TrimRangeBounds(s, i + 1, j);
    } else if i < j && IsSpace(s[j - 1]) {
      a, b := TrimRangeBounds(s, i, j - 1);
    } else {
      a, b := i, j;
    }
  }

  /** `trim` only removes characters: every character of the result is one of the text's. */
  lemma TrimChars(s: string)
    ensures forall i :: 0 <= i < |Trim(s)| ==> Trim(s)[i] in s
  {
    TrimIsSlice(s);
    var a, b :| 0 <= a <= b <= |s| && Trim(s) == s[a..b];
    forall i | 0 <= i < |Trim(s)|
      ensures Trim(s)[i] in s
    {
      assert Trim(s)[i] == s[a + i];
    }
  }

  /** A text whose ends are not whitespace is its own trim. */
  lemma TrimOfTrimmed(s: string)
    requires s == [] || (!IsSpace(s[0]) && !IsSpace(s[|s| - 1]))
    ensures Trim(s) == s
  {
    assert s[0..|s|] == s;
  }

  /** `trim` is idempotent. */
  lemma TrimIdempotent(s: string)
    ensures Trim(Trim(s)) == Trim(s)
  {
    var t := Trim(s);
    TrimOfTrimmed(t);
  }

  /** Whitespace at the front of a stretch makes no difference to its trim. */
  lemma {:induction false} TrimRangeSkipsFront(s: string, i: nat, k: nat, j: nat)
    requires i <= k <= j <= |s|
    requires forall m :: i <= m < k ==> IsSpace(s[m])
    ensures TrimRange(s, i, j) == TrimRange(s, k, j)
    decreases k - i
  {
    if i < k {
      TrimRangeSkipsFront(s, i + 1, k, j);
    }
  }

  /** Whitespace at the back of a stretch makes no difference to its trim. */
  lemma {:induction false} TrimRangeSkipsBack(s: string, i: nat, k: nat, j: nat)
    requires i <= k <= j <= |s|
    requires forall m :: k <= m < j ==> IsSpace(s[m])
    ensures TrimRange(s, i, j) == TrimRange(s, i, k)
    decreases j - i
  {
    if k < j {
      if IsSpace(s[i]) {
        if i < k {
          TrimRangeSkipsBack(s, i + 1, k, j);
        } else {
          TrimRangeFacts(s, i, j);
          TrimRangeFacts(s, i, i);
        }
      } else {
        TrimRangeSkipsBack(s, i, k, j - 1);
      }
    }
  }

  /** The trim of a stretch does not depend on what surrounds it: where `x` holds a copy
      of `s` from position `d` on, the two stretches trim alike. */
  lemma {:induction false} TrimRangeShifts(x: string, d: nat, s: string, i: nat, j: nat)
    requires i <= j <= |s| && d + |s| <= |x| && x[d..d + |s|] == s
    ensures TrimRange(x, d + i, d + j) == TrimRange(s, i, j)
    decreases j - i
  {
    if i < j {
      CharOfCopy(x, d, s, i);
      CharOfCopy(x, d, s, j - 1);
    }
    if i < j && IsSpace(s[i]) {
      TrimRangeShifts(x, d, s, i + 1, j);
      assert TrimRange(x, d + i, d + j) == TrimRange(x, d + i + 1, d + j);
    } else if i < j && IsSpace(s[j - 1]) {
      TrimRangeShifts(x, d, s, i, j - 1);
      assert TrimRange(x, d + i, d + j) == TrimRange(x, d + i, d + j - 1);
    } else {
      SliceOfCopy(x, d, s, i, j);
    }
  }

  lemma CharOfCopy(x: string, d: nat, s: string, k: nat)
    requires k < |s| && d + |s| <= |x| && x[d..d + |s|] == s
    ensures x[d + k] == s[k]
  {
    assert s[k] == x[d..d + |s|][k];
  }

  lemma SliceOfCopy(x: string, d: nat, s: string, i: nat, j: nat)
    requires i <= j <= |s| && d + |s| <= |x| && x[d..d + |s|] == s
    ensures x[d + i..d + j] == s[i..j]
  {
    forall k | 0 <= k < j - i
      ensures x[d + i..d + j][k] == s[i..j][k]
    {
      assert s[i + k] == x[d..d + |s|][i + k];
    }
  }

  /** Whitespace around the whole text does not change its trim. */
  lemma TrimIgnoresPadding(w1: string, s: string, w2: string)
    requires AllSpace(w1) && AllSpace(w2)
    ensures Trim(w1 + s + w2) == Trim(s)
  {
    var x := w1 + s + w2;
    var a, b, n := |w1|, |w1| + |s|, |x|;
    assert TrimRange(x, 0, n) == TrimRange(x, a, n) by {
      PaddedFront(w1, s, w2);
      TrimRangeSkipsFront(x, 0, a, n);
    }
    assert TrimRange(x, a, n) == TrimRange(x, a, b) by {
      PaddedBack(w1, s, w2);
      TrimRangeSkipsBack(x, a, b, n);
    }
    assert TrimRange(x, a, b) == Trim(s) by {
      assert x[a..b] == s;
      TrimOfCopy(x, a, s);
    }
  }

  lemma PaddedFront(w1: string, s: string, w2: string)
    requires AllSpace(w1)
    ensures var x := w1 + s + w2; forall m :: 0 <= m < |w1| ==> IsSpace(x[m])
  {
    var x := w1 + s + w2;
    forall m | 0 <= m < |w1|
      ensures IsSpace(x[m])
    {
      assert x[m] == w1[m];
    }
  }

  lemma PaddedBack(w1: string, s: string, w2: string)
    requires AllSpace(w2)
    ensures var x := w1 + s + w2; forall m :: |w1| + |s| <= m < |x| ==> IsSpace(x[m])
  {
    var x := w1 + s + w2;
    forall m | |w1| + |s| <= m < |x|
      ensures IsSpace(x[m])
    {
      assert x[m] == w2[m - |w1| - |s|];
    }
  }

  /** The stretch of `x` that holds a copy of `s` trims as `s` does. */
  lemma TrimOfCopy(x: string, d: nat, s: string)
    requires d + |s| <= |x| && x[d..d + |s|] == s
    ensures TrimRange(x, d, d + |s|) == Trim(s)
  {
    TrimRangeShifts(x, d, s, 0, |s|);
    assert d + 0 == d;
  }

  /** `s.split(sep)` for a one-character separator: the pieces between separators, at least one. */
  function Split(s: string, sep: char): (r: seq<string>)
    ensures |r| >= 1
    ensures forall i :: 0 <= i < |r| ==> sep !in r[i]
  {
    if s == [] then [""]
    else
      var rest := Split(s[1..], sep);
      if s[0] == sep then [""] + rest else [[s[0]] + rest[0]] + rest[1..]
  }

  /** `parts.join(sep)` for a one-character separator. */
  function Join(parts: seq<string>, sep: char): string {
    if |parts| == 0 then ""
    else if |parts| == 1 then parts[0]
    else parts[0] + [sep] + Join(parts[1..], sep)
  }

  /** Splitting and joining on the same separator gives back the text. */
  lemma {:induction false} JoinSplit(s: string, sep: char)
    ensures Join(Split(s, sep), sep) == s
  {
    if s != [] {
      var rest := Split(s[1..], sep);
      JoinSplit(s[1..], sep);
      if s[0] != sep && |rest| > 1 {
        assert Join(rest, sep) == rest[0] + [sep] + Join(rest[1..], sep);
      }
    }
  }

  /** A piece without the separator splits to itself. */
  lemma {:induction false} SplitWithoutSeparator(a: string, sep: char)
    requires sep !in a
    ensures Split(a, sep) == [a]
  {
    if a != [] {
      SplitWithoutSeparator(a[1..], sep);
      assert a[0] != sep;
      assert a == [a[0]] + a[1..];
    }
  }

  /** Splitting a piece followed by a separator starts a new piece after it. */
  lemma {:induction false} SplitAtSeparator(a: string, sep: char, b: string)
    requires sep !in a
    ensures Split(a + [sep] + b, sep) == [a] + Split(b, sep)
  {
    if a == [] {
      assert a + [sep] + b == [sep] + b;
      assert ([sep] + b)[1..] == b;
    } else {
      assert (a + [sep] + b)[1..] == a[1..] + [sep] + b;
      SplitAtSeparator(a[1..], sep, b);
      assert a == [a[0]] + a[1..];
    }
  }

  /** Joining pieces that contain no separator and splitting again gives back the pieces. */
  lemma {:induction false} SplitJoin(parts: seq<string>, sep: char)
    requires |parts| >= 1
    requires forall i :: 0 <= i < |parts| ==> sep !in parts[i]
    ensures Split(Join(parts, sep), sep) == parts
  {
    if |parts| == 1 {
      SplitWithoutSeparator(parts[0], sep);
    } else {
      SplitJoin(parts[1..], sep);
      SplitAtSeparator(parts[0], sep, Join(parts[1..], sep));
      assert parts == [parts[0]] + parts[1..];
    }
  }

  /** The first piece of a split begins with the text's first character unless that is the
      separator. */
  lemma SplitFirstPiece(s: string, sep: char)
    requires s != [] && s[0] != sep
    ensures Split(s, sep)[0] != [] && Split(s, sep)[0][0] == s[0]
  {
  }

  /** The last piece of a split ends with the text's last character unless that is the
      separator. */
  lemma {:induction false} SplitLastPiece(s: string, sep: char)
    requires s != [] && s[|s| - 1] != sep
    ensures var r := Split(s, sep); r[|r| - 1] != [] && r[|r| - 1][|r[|r| - 1]| - 1] == s[|s| - 1]
  {
    if |s| > 1 {
      assert s[1..][|s| - 2] == s[|s| - 1];
      SplitLastPiece(s[1..], sep);
    }
  }

  /** The joined text begins with the first part when that part is not empty. */
  lemma JoinFirst(parts: seq<string>, sep: char)
    requires |parts| >= 1 && parts[0] != []
    ensures Join(parts, sep) != [] && Join(parts, sep)[0] == parts[0][0]
  {
  }

  /** The joined text ends with the last part when that part is not empty. */
  lemma {:induction false} JoinLast(parts: seq<string>, sep: char)
    requires |parts| >= 1 && parts[|parts| - 1] != []
    ensures var j := Join(parts, sep); var l := parts[|parts| - 1];
            j != [] && j[|j| - 1] == l[|l| - 1]
  {
    if |parts| > 1 {
      JoinLast(parts[1..], sep);
    }
  }

  /** `c.toLowerCase()` for ASCII letters; other characters are kept. */
  function LowerChar(c: char): (r: char)
    ensures 'A' <= c <= 'Z' ==> 'a' <= r <= 'z'
    ensures !('A' <= c <= 'Z') ==> r == c
  {
    if 'A' <= c <= 'Z' then (c as int + 32) as char else c
  }

  /** `s.toLowerCase()`, letter by letter. */
  function Lower(s: string): (r: string)
    ensures |r| == |s|
    ensures forall i :: 0 <= i < |s| ==> r[i] == LowerChar(s[i])
  {
    if s == [] then [] else [LowerChar(s[0])] + Lower(s[1..])
  }

  /** Lower-casing twice is lower-casing once. */
  lemma LowerIdempotent(s: string)
    ensures Lower(Lower(s)) == Lower(s)
  {
    var l := Lower(s);
    forall i | 0 <= i < |s|
      ensures Lower(l)[i] == l[i]
    {
      assert l[i] == LowerChar(s[i]);
    }
  }

  /** `s.startsWith(prefix)`. */
  predicate StartsWith(s: string, prefix: string) {
    |prefix| <= |s| && s[..|prefix|] == prefix
  }

  /** `s.includes(t)`: `t` occurs at some position of `s`. */
  predicate Contains(s: string, t: string)
    decreases |s|
  {
    StartsWith(s, t) || (s != [] && Contains(s[1..], t))
  }

  /** `t` occurs in `s` starting at position `i`. */
  predicate OccursAt(s: string, t: string, i: nat) {
    i + |t| <= |s| && s[i..i + |t|] == t
  }

  /** `t` occurs somewhere in `s`: the meaning `includes` is specified by. */
  ghost predicate OccursIn(s: string, t: string) {
    exists i: nat :: OccursAt(s, t, i)
  }

  /** `includes` finds every occurrence: a text contains each of its slices. */
  lemma {:induction false} ContainsSlice(s: string, i: nat, j: nat)
    requires i <= j <= |s|
    ensures Contains(s, s[i..j])
  {
    if i > 0 {
      assert s[1..][i - 1..j - 1] == s[i..j];
      ContainsSlice(s[1..], i - 1, j - 1);
    }
  }

  /** `includes` finds nothing that is not there: a contained text occurs at some position. */
  lemma {:induction false} ContainsAt(s: string, t: string) returns (i: nat)
    requires Contains(s, t)
    ensures i + |t| <= |s| && s[i..i + |t|] == t
    decreases |s|
  {
    if StartsWith(s, t) {
      i := 0;
    } else {
      var j := ContainsAt(s[1..], t);
      i := j + 1;
      assert s[1..][j..j + |t|] == s[i..i + |t|];
    }
  }

  /** `s.includes(t)` holds exactly when `t` occurs in `s`. */
  lemma ContainsIff(s: string, t: string)
    ensures Contains(s, t) <==> OccursIn(s, t)
  {
    if Contains(s, t) {
      var i := ContainsAt(s, t);
      assert OccursAt(s, t, i);
    }
    if OccursIn(s, t) {
      var i: nat :| OccursAt(s, t, i);
      ContainsSlice(s, i, i + |t|);
    }
  }

  /** Every character of a text that `s` contains is a character of `s`. */
  lemma {:induction false} ContainsChars(s: string, t: string)
    requires Contains(s, t)
    ensures forall k :: 0 <= k < |t| ==> t[k] in s
  {
    if !StartsWith(s, t) {
      ContainsChars(s[1..], t);
      forall k | 0 <= k < |t|
        ensures t[k] in s
      {
        var i :| 0 <= i < |s[1..]| && s[1..][i] == t[k];
        assert s[i + 1] == t[k];
      }
    } else {
      forall k | 0 <= k < |t|
        ensures t[k] in s
      {
        assert s[k] == t[k];
      }
    }
  }

  /** The end of the run of whitespace that starts at `i`. */
  function SkipSpaces(s: string, i: nat): (j: nat)
    requires i <= |s|
    ensures i <= j <= |s| && (j == |s| || !IsSpace(s[j]))
    ensures forall k :: i <= k < j ==> IsSpace(s[k])
    decreases |s| - i
  {
    if i < |s| && IsSpace(s[i]) then SkipSpaces(s, i + 1) else i
  }

  /** The end of the run of word characters that starts at `i`. */
  function SkipWord(s: string, i: nat): (j: nat)
    requires i <= |s|
    ensures i <= j <= |s| && (j == |s| || !IsWordChar(s[j]))
    ensures forall k :: i <= k < j ==> IsWordChar(s[k])
    decreases |s| - i
  {
    if i < |s| && IsWordChar(s[i]) then SkipWord(s, i + 1) else i
  }
}
