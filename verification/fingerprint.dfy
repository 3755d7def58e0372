/** `hashNormalizedCode` (src/utils/normalize.ts): a 32-bit FNV-1a fingerprint of a text's
    UTF-16 code units, written as lower-case hexadecimal without zero padding. Arithmetic is
    exact modulo 2^32. */
module Fingerprint {

  /** An unsigned 32-bit value, what `>>> 0` leaves. */
  type Word = x: int | 0 <= x < 0x1_0000_0000

  /** The value the hash starts from. */
  const OffsetBasis: Word := 0x811c9dc5

  /** The multiplier of every step. */
  const Prime: Word := 0x01000193

  /** A UTF-16 code unit, what `charCodeAt` returns. */
  type CodeUnit = x: int | 0 <= x < 0x1_0000

  /** The UTF-16 code units of one character, what `charCodeAt` reads: a character above
      U+FFFF is a surrogate pair, a high surrogate then a low one, which together give the
      character back. */
  function CodeUnits(c: char): (units: seq<CodeUnit>)
    ensures 1 <= |units| <= 2
    ensures c as int < 0x1_0000 ==> units == [c as int]
    ensures c as int >= 0x1_0000 ==>
              && |units| == 2
              && 0xD800 <= units[0] < 0xDC00 <= units[1] < 0xE000
              && (units[0] as int - 0xD800) * 0x400 + (units[1] as int - 0xDC00) + 0x1_0000 == c as int
  {
    var v := c as int;
    assert v < 0x11_0000;
    if v < 0x1_0000 then [v]
    else [0xD800 + (v - 0x1_0000) / 0x400, 0xDC00 + (v - 0x1_0000) % 0x400]
  }

  /** The UTF-16 code units of a text, in order. */
  function Utf16(s: string): seq<CodeUnit> {
    if s == [] then [] else CodeUnits(s[0]) + Utf16(s[1..])
  }

  /** `hash ^= unit`, read back as an unsigned 32-bit value. */
  function Xor(hash: Word, unit: CodeUnit): Word {
    ((hash as bv32) ^ (unit as bv32)) as int
  }

  /** ECMAScript ToInt32 of a 32-bit value: what the left operand of the `*` in the loop holds
      after `^=`, which yields a signed 32-bit integer. */
  function ToInt32(w: Word): (x: int)
    ensures -0x8000_0000 <= x < 0x8000_0000
    ensures (x - w) % 0x1_0000_0000 == 0
  {
    if w < 0x8000_0000 then w else w - 0x1_0000_0000
  }

  /** ECMAScript ToUint32 of an integral number, what `>>> 0` computes. */
  function ToUint32(v: int): Word {
    v % 0x1_0000_0000
  }

  /** 2^53: every integer below it in magnitude is a double. */
  const TwoTo53: int := 0x20_0000_0000_0000

  /** The spacing of the doubles around a non-negative integer: 1 below 2^53, and twice as
      wide in each binade above. */
  function Ulp(a: nat): (u: nat)
    ensures u >= 1
    ensures a < TwoTo53 ==> u == 1
    ensures a < TwoTo53 * u
    ensures a >= TwoTo53 ==> TwoTo53 * u <= 2 * a
  {
    if a < TwoTo53 then 1 else 2 * Ulp(a / 2)
  }

  /** The double nearest to a non-negative integer, ties to the even significand, as
      IEEE 754 rounds the exact product of two numbers. */
  function RoundToDouble(a: nat): (r: nat)
    ensures a < TwoTo53 ==> r == a
    ensures r % Ulp(a) == 0 && r / Ulp(a) <= TwoTo53
    ensures 2 * (r - a) <= Ulp(a) && 2 * (a - r) <= Ulp(a)
    ensures 2 * (r - a) == Ulp(a) || 2 * (a - r) == Ulp(a) ==> (r / Ulp(a)) % 2 == 0
  {
    var u := Ulp(a);
    var q := a / u;
    var rem := a % u;
    var r := if 2 * rem < u || (2 * rem == u && q % 2 == 0) then q * u else q * u + u;
    RoundFacts(a, u, q, rem, r);
    r
  }

  /** The rounded value is a multiple of the spacing with a significand of at most 53 bits,
      within half a spacing of `a`, and even on a tie. */
  lemma RoundFacts(a: nat, u: nat, q: nat, rem: nat, r: nat)
    requires u == Ulp(a) && q == a / u && rem == a % u
    requires r == if 2 * rem < u || (2 * rem == u && q % 2 == 0) then q * u else q * u + u
    ensures a < TwoTo53 ==> r == a
    ensures r % u == 0 && r / u <= TwoTo53
    ensures 2 * (r - a) <= u && 2 * (a - r) <= u
    ensures 2 * (r - a) == u || 2 * (a - r) == u ==> (r / u) % 2 == 0
  {
    DivMod(a, u);
    SignificandFits(a, q, u);
    if 2 * rem < u || (2 * rem == u && q % 2 == 0) {
      RoundedDown(a, u, q, rem);
    } else {
      RoundedUp(a, u, q, rem);
    }
  }

  /** Rounding down to `q * u`. */
  lemma RoundedDown(a: nat, u: nat, q: nat, rem: nat)
    requires u >= 1 && a == q * u + rem && 0 <= rem < u && q < TwoTo53
    requires 2 * rem < u || (2 * rem == u && q % 2 == 0)
    ensures var r := q * u;
            && r % u == 0 && r / u <= TwoTo53
            && 2 * (r - a) <= u && 2 * (a - r) <= u
            && (2 * (r - a) == u || 2 * (a - r) == u ==> (r / u) % 2 == 0)
  {
    Multiple(q, u);
  }

  /** Rounding up to `q * u + u`. */
  lemma RoundedUp(a: nat, u: nat, q: nat, rem: nat)
    requires u >= 1 && a == q * u + rem && 0 <= rem < u && q < TwoTo53
    requires !(2 * rem < u || (2 * rem == u && q % 2 == 0))
    ensures var r := q * u + u;
            && r % u == 0 && r / u <= TwoTo53
            && 2 * (r - a) <= u && 2 * (a - r) <= u
            && (2 * (r - a) == u || 2 * (a - r) == u ==> (r / u) % 2 == 0)
  {
    Multiple(q + 1, u);
    assert q * u + u == (q + 1) * u;
  }

  /** Multiplying by a positive number keeps the sign and does not shrink the magnitude. */
  lemma MulMono(x: int, u: int)
    requires u >= 1
    ensures x >= 1 ==> x * u >= u
    ensures x <= -1 ==> x * u <= -u
  {
  }

  /** A whole multiple of `u` divides by `u` exactly. */
  lemma Multiple(k: nat, u: nat)
    requires u >= 1
    ensures (k * u) % u == 0 && (k * u) / u == k
  {
    var d := (k * u) / u;
    var m := (k * u) % u;
    DivMod(k * u, u);
    assert (k - d) * u == m;
    MulMono(k - d, u);
  }

  /** The quotient of `a` by its spacing has at most 53 bits: it is a double's significand. */
  lemma SignificandFits(a: nat, q: nat, u: nat)
    requires u >= 1 && a < TwoTo53 * u && q * u <= a
    ensures q < TwoTo53
  {
    MulMono(q - TwoTo53 + 1, u);
  }

  /** Euclidean division: `a` is `a / u` whole multiples of `u` and the remainder. */
  lemma DivMod(a: nat, u: nat)
    requires u >= 1
    ensures a == (a / u) * u + a % u && 0 <= a % u < u
    ensures u == 1 ==> a / u == a && a % u == 0
  {
  }

  /** The double that JavaScript's `x * y` yields for two integers. */
  function DoubleProduct(x: int, y: int): (r: int)
    ensures -TwoTo53 < x * y < TwoTo53 ==> r == x * y
  {
    if x * y >= 0 then RoundToDouble(x * y) else 0 - RoundToDouble(-(x * y))
  }

  /** One iteration of the loop as the source writes it: `hash ^= c` gives a signed 32-bit
      integer, `hash * 0x01000193` is a double product, which is rounded once it passes 2^53,
      and `>>> 0` keeps the low 32 bits of what is left. */
  function SourceStep(hash: Word, unit: CodeUnit): Word {
    ToUint32(DoubleProduct(ToInt32(Xor(hash, unit)), Prime))
  }

  /** The hash the source's loop leaves after consuming `units`. */
  function SourceFnv(units: seq<CodeUnit>): Word {
    if units == [] then OffsetBasis
    else SourceStep(SourceFnv(units[..|units| - 1]), units[|units| - 1])
  }

  /** One FNV-1a step: XOR the code unit in, then multiply by the prime modulo 2^32. */
  function Step(hash: Word, unit: CodeUnit): Word {
    (Xor(hash, unit) * Prime) % 0x1_0000_0000
  }

  /** The 32-bit FNV-1a hash of `units`, one step per code unit from the left. */
  function Fnv(units: seq<CodeUnit>): Word {
    if units == [] then OffsetBasis else Step(Fnv(units[..|units| - 1]), units[|units| - 1])
  }

  /** Where the double product is exact, the source's step is the FNV-1a step: reading the XOR
      as a signed integer does not change the product modulo 2^32. */
  lemma SourceStepExact(hash: Word, unit: CodeUnit)
    requires -TwoTo53 < ToInt32(Xor(hash, unit)) * Prime < TwoTo53
    ensures SourceStep(hash, unit) == Step(hash, unit)
  {
    var w := Xor(hash, unit);
    var x := ToInt32(w);
    if w >= 0x8000_0000 {
      assert x * Prime == w * Prime - 0x1_0000_0000 * Prime;
      ModShift(w * Prime, Prime);
    }
  }

  /** Adding whole multiples of 2^32 leaves the low 32 bits alone. */
  lemma ModShift(a: int, k: int)
    ensures (a - 0x1_0000_0000 * k) % 0x1_0000_0000 == a % 0x1_0000_0000
  {
  }

  /** A step whose signed XOR value is below 2^28 in magnitude is exact. */
  lemma SourceStepExactWhenSmall(hash: Word, unit: CodeUnit)
    requires -0x1000_0000 < ToInt32(Xor(hash, unit)) < 0x1000_0000
    ensures SourceStep(hash, unit) == Step(hash, unit)
  {
    var x := ToInt32(Xor(hash, unit));
    if x >= 0 {
      assert x * Prime <= 0x1000_0000 * Prime;
    } else {
      assert -x * Prime <= 0x1000_0000 * Prime;
    }
    SourceStepExact(hash, unit);
  }

  predicate IsLowerHexDigit(c: char) {
    '0' <= c <= '9' || 'a' <= c <= 'f'
  }

  predicate IsLowerHex(s: string) {
    forall i :: 0 <= i < |s| ==> IsLowerHexDigit(s[i])
  }

  /** The lower-case hexadecimal digit of a value below 16. */
  function HexDigit(d: nat): (c: char)
    requires d < 16
    ensures IsLowerHexDigit(c)
  {
    if d < 10 then ('0' as int + d) as char else ('a' as int + d - 10) as char
  }

  /** The value of a lower-case hexadecimal digit; it inverts `HexDigit`. */
  function DigitValue(c: char): (d: nat)
    requires IsLowerHexDigit(c)
    ensures d < 16 && HexDigit(d) == c
  {
    if c <= '9' then c as int - '0' as int else c as int - 'a' as int + 10
  }

  /** `n.toString(16)`: lower-case hexadecimal, most significant digit first, no zero padding. */
  function ToHex(n: nat): (r: string)
    ensures 1 <= |r| && IsLowerHex(r)
    ensures |r| > 1 ==> r[0] != '0'
    decreases n
  {
    if n < 16 then [HexDigit(n)] else ToHex(n / 16) + [HexDigit(n % 16)]
  }

  /** The number a lower-case hexadecimal text denotes. */
  function FromHex(s: string): nat
    requires IsLowerHex(s)
  {
    if s == [] then 0 else FromHex(s[..|s| - 1]) * 16 + DigitValue(s[|s| - 1])
  }

  /** Reading back the hexadecimal text gives the number: `toString(16)` loses nothing. */
  lemma {:induction false} ToHexRoundTrip(n: nat)
    ensures FromHex(ToHex(n)) == n
    decreases n
  {
    if n >= 16 {
      ToHexRoundTrip(n / 16);
      var r := ToHex(n);
      assert r[..|r| - 1] == ToHex(n / 16);
    }
  }

  function Pow16(k: nat): nat {
    if k == 0 then 1 else 16 * Pow16(k - 1)
  }

  /** A number below 16^k has at most k hexadecimal digits. */
  lemma {:induction false} ToHexLength(n: nat, k: nat)
    requires 1 <= k && n < Pow16(k)
    ensures |ToHex(n)| <= k
    decreases n
  {
    if n >= 16 {
      assert k >= 2;
      assert n / 16 < Pow16(k - 1);
      ToHexLength(n / 16, k - 1);
    }
  }

  /** A 32-bit value has 1 to 8 hexadecimal digits. */
  lemma WordHexLength(w: Word)
    ensures |ToHex(w)| <= 8
  {
    assert Pow16(8) == 0x1_0000_0000;
    ToHexLength(w, 8);
  }

  /** The FNV-1a fingerprint of a text: 1 to 8 lower-case hexadecimal digits, without a leading
      zero unless it is the single digit `0`. */
  function FingerprintOf(s: string): (r: string)
    ensures 1 <= |r| <= 8 && IsLowerHex(r)
    ensures |r| > 1 ==> r[0] != '0'
    ensures FromHex(r) == Fnv(Utf16(s))
  {
    var hash := Fnv(Utf16(s));
    WordHexLength(hash);
    ToHexRoundTrip(hash);
    ToHex(hash)
  }

  /** The fingerprint the source's loop, with its double product, returns for a text. */
  function SourceFingerprintOf(s: string): (r: string)
    ensures 1 <= |r| <= 8 && IsLowerHex(r)
    ensures FromHex(r) == SourceFnv(Utf16(s))
  {
    var hash := SourceFnv(Utf16(s));
    WordHexLength(hash);
    ToHexRoundTrip(hash);
    ToHex(hash)
  }

  /** `hashNormalizedCode` as written: the `for` loop whose `hash * 0x01000193` is a double
      product, then `toString(16)`. */
  method SourceHashNormalizedCode(normalized: string) returns (h: string)
    ensures h == SourceFingerprintOf(normalized)
  {
    var units := Utf16(normalized);
    var hash := OffsetBasis;
    for i := 0 to |units|
      invariant hash == SourceFnv(units[..i])
    {
      assert units[..i + 1][..i] == units[..i];
      var signed := ToInt32(Xor(hash, units[i]));
      hash := ToUint32(DoubleProduct(signed, Prime));
    }
    assert units[..|units|] == units;
    h := ToHex(hash);
  }

  /** `hashNormalizedCode` with the 32-bit multiplication that FNV-1a prescribes, what
      `Math.imul(hash, 0x01000193) >>> 0` computes: the loop over the code units, then
      `toString(16)`. */
  method HashNormalizedCode(normalized: string) returns (h: string)
    ensures h == FingerprintOf(normalized)
  {
    var units := Utf16(normalized);
    var hash := OffsetBasis;
    for i := 0 to |units|
      invariant hash == Fnv(units[..i])
    {
      assert units[..i + 1][..i] == units[..i];
      hash := (Xor(hash, units[i]) * Prime) % 0x1_0000_0000;
    }
    assert units[..|units|] == units;
    h := ToHex(hash);
  }

  /** Two texts have the same fingerprint exactly when their 32-bit hashes are equal: the
      hexadecimal rendering neither merges nor splits hash values. */
  lemma FingerprintsEqualIff(a: string, b: string)
    ensures FingerprintOf(a) == FingerprintOf(b) <==> Fnv(Utf16(a)) == Fnv(Utf16(b))
  {
    ToHexRoundTrip(Fnv(Utf16(a)));
    ToHexRoundTrip(Fnv(Utf16(b)));
  }

  /** The source's loop is not FNV-1a: for the text `"b"` the XOR gives the odd signed value
      -2128831065, whose product with the prime lies between 2^54 and 2^55 in magnitude and is
      rounded to a multiple of 4, so the source yields `e70c2de4` where FNV-1a gives `e70c2de5`. */
  lemma SourceHashDiffers(units: seq<CodeUnit>)
    requires units == Utf16("b")
    ensures SourceFnv(units) == 0xe70c2de4
    ensures Fnv(units) == 0xe70c2de5
  {
    assert units == [0x62];
    SourceFnvOnB(units);
    FnvOnB(units);
  }

  lemma SourceFnvOnB(units: seq<CodeUnit>)
    requires units == [0x62]
    ensures SourceFnv(units) == 0xe70c2de4
  {
    assert units[..0] == [];
    SourceStepOnB();
  }

  lemma FnvOnB(units: seq<CodeUnit>)
    requires units == [0x62]
    ensures Fnv(units) == 0xe70c2de5
  {
    assert units[..0] == [];
    StepOnB();
  }

  /** The rounding in the source's first step for the text `"b"`. */
  lemma SourceStepOnB()
    ensures SourceStep(0x811c9dc5, 0x62) == 0xe70c2de4
  {
    var w := Xor(0x811c9dc5, 0x62);
    assert w == 0x811c9da7;
    var x := ToInt32(w);
    assert x == -2128831065;
    assert x * Prime == -35716716523934235;
    RoundOnB(35716716523934235);
    assert DoubleProduct(x, Prime) == -35716716523934236;
  }

  lemma RoundOnB(a: nat)
    requires a == 35716716523934235
    ensures RoundToDouble(a) == 35716716523934236
  {
    assert Ulp(a / 2 / 2) == 1;
    assert Ulp(a) == 4;
    DivMod(a, 4);
    assert a / 4 == 8929179130983558 && a % 4 == 3;
  }

  /** The exact FNV-1a first step for the text `"b"`. */
  lemma StepOnB()
    ensures Step(0x811c9dc5, 0x62) == 0xe70c2de5
  {
    assert Xor(0x811c9dc5, 0x62) == 0x811c9da7;
    var p := 0x811c9da7 * Prime;
    assert p == 36342608385813989;
    assert p == 8461672 * 0x1_0000_0000 + 0xe70c2de5;
  }

  /** The empty text hashes to the offset basis, `"811c9dc5"`. */
  lemma FingerprintOfEmpty()
    ensures FingerprintOf("") == "811c9dc5"
  {
    assert Utf16("") == [];
    assert Fnv([]) == 0x811c9dc5;
    assert ToHex(0x8) == "8";
    assert ToHex(0x81) == "81";
    assert ToHex(0x811) == "811";
    assert ToHex(0x811c) == "811c";
    assert ToHex(0x811c9) == "811c9";
    assert ToHex(0x811c9d) == "811c9d";
    assert ToHex(0x811c9dc) == "811c9dc";
    assert ToHex(0x811c9dc5) == "811c9dc5";
  }
}
