/**
 * IEEE 754 numbers as bit patterns: which doubles a single represents exactly.
 * EncodeValue picks the short MMS form when float64(float32(v)) == v.
 */
module Floats {
  import opened Bytes
  import opened Powers

  type bits32 = b: int | 0 <= b < 0x1_0000_0000
  type bits64 = b: int | 0 <= b < 0x1_0000_0000_0000_0000

  const TWO22 := 0x40_0000
  const TWO23 := 0x80_0000
  const TWO29 := 0x2000_0000
  const TWO31 := 0x8000_0000
  const TWO52 := 0x10_0000_0000_0000
  const TWO63 := 0x8000_0000_0000_0000

  lemma Pow2Of52()
    ensures Pow2(22) == TWO22 && Pow2(23) == TWO23 && Pow2(52) == TWO52
  {
    assert Pow2(10) == 1024;
    Pow2Split(10, 10);
    assert Pow2(22) == 2 * Pow2(21) == 4 * Pow2(20);
    Pow2Split(20, 20);
    Pow2Split(40, 10);
    assert Pow2(52) == 2 * Pow2(51) == 4 * Pow2(50);
  }

  /** Position of the highest one bit. */
  function TopBit(m: nat): (k: nat)
    requires m > 0
  {
    if m == 1 then 0 else 1 + TopBit(m / 2)
  }

  lemma {:induction false} TopBitBounds(m: nat)
    requires m > 0
    ensures Pow2(TopBit(m)) <= m < 2 * Pow2(TopBit(m))
  {
    if m > 1 {
      TopBitBounds(m / 2);
    }
  }

  lemma {:induction false} TopBitUnique(m: nat, k: nat)
    requires Pow2(k) <= m < 2 * Pow2(k)
    ensures TopBit(m) == k
  {
    if k > 0 {
      TopBitUnique(m / 2, k - 1);
    }
  }

  lemma TopBitBelow23(m: nat)
    requires 0 < m < TWO23
    ensures TopBit(m) <= 22
  {
    TopBitBounds(m);
    Pow2Of52();
    if TopBit(m) >= 23 {
      Pow2Monotone(23, TopBit(m));
    }
  }

  /** A pattern split into sign, exponent and mantissa. */
  datatype Fields = Fields(sign: nat, exponent: nat, mantissa: nat)

  function Fields32(b: bits32): Fields {
    Fields(b / TWO31, b / TWO23 % 256, b % TWO23)
  }

  function Fields64(b: bits64): Fields {
    Fields(b / TWO63, b / TWO52 % 2048, b % TWO52)
  }

  predicate Fit32(f: Fields) {
    f.sign < 2 && f.exponent < 256 && f.mantissa < TWO23
  }

  predicate Fit64(f: Fields) {
    f.sign < 2 && f.exponent < 2048 && f.mantissa < TWO52
  }

  function Pack32(f: Fields): bits32
    requires Fit32(f)
  {
    f.sign * TWO31 + f.exponent * TWO23 + f.mantissa
  }

  function Pack64(f: Fields): bits64
    requires Fit64(f)
  {
    f.sign * TWO63 + f.exponent * TWO52 + f.mantissa
  }

  lemma FieldsOfPack(f: Fields)
    ensures Fit32(f) ==> Fields32(Pack32(f)) == f
    ensures Fit64(f) ==> Fields64(Pack64(f)) == f
  {
  }

  lemma PackOfFields(b: bits32, c: bits64)
    ensures Fit32(Fields32(b)) && Pack32(Fields32(b)) == b
    ensures Fit64(Fields64(c)) && Pack64(Fields64(c)) == c
  {
  }

  predicate IsNaN32(f: Fields) {
    f.exponent == 255 && f.mantissa != 0
  }

  /** `m` without its top bit, moved up so that this bit would be bit 52. */
  function Normalised(m: nat, k: nat): nat
    requires Pow2(k) <= m && k <= 52
  {
    (m - Pow2(k)) * Pow2(52 - k)
  }

  /** The conversion float64(f) on fields; a signalling NaN becomes quiet. */
  function WidenFields(f: Fields): Fields
    requires Fit32(f)
  {
    if f.exponent == 255 then
      Fields(f.sign, 2047, if f.mantissa == 0 then 0
                           else (if f.mantissa < TWO22 then f.mantissa + TWO22 else f.mantissa) * TWO29)
    else if f.exponent > 0 then Fields(f.sign, f.exponent + 896, f.mantissa * TWO29)
    else if f.mantissa == 0 then Fields(f.sign, 0, 0)
    else
      var k := TopBit(f.mantissa);
      TopBitBounds(f.mantissa);
      TopBitBelow23(f.mantissa);
      Fields(f.sign, 874 + k, Normalised(f.mantissa, k))
  }

  /** float32(v) when float64(float32(v)) == v, on fields. */
  function NarrowFields(f: Fields): Option<Fields> {
    if f.exponent == 2047 then if f.mantissa == 0 then Some(Fields(f.sign, 255, 0)) else None
    else if f.exponent == 0 then if f.mantissa == 0 then Some(Fields(f.sign, 0, 0)) else None
    else if 897 <= f.exponent <= 1150 then
      if f.mantissa % TWO29 == 0 then Some(Fields(f.sign, f.exponent - 896, f.mantissa / TWO29)) else None
    else if 874 <= f.exponent < 897 then
      var k := f.exponent - 874;
      if f.mantissa % Pow2(52 - k) == 0 then Some(Fields(f.sign, 0, Pow2(k) + f.mantissa / Pow2(52 - k))) else None
    else None
  }

  lemma QuotientBound(m: nat, q: nat, a: nat, d: nat)
    requires d > 0 && m == q * d
    ensures m < a * d <==> q < a
  {
  }

  lemma SubnormalMantissa(k: nat, q: nat)
    requires k <= 22 && q < Pow2(k)
    ensures var d := Pow2(52 - k); q * d < TWO52 && q * d % d == 0 && q * d / d == q
  {
    var d := Pow2(52 - k);
    ScaledQuotient(q, d);
    QuotientBound(q * d, q, Pow2(k), d);
    Pow2Split(k, 52 - k);
    Pow2Of52();
  }

  lemma SubnormalWidens(s: nat, m: nat)
    requires s < 2 && 0 < m < TWO23
    ensures var w := WidenFields(Fields(s, 0, m)); Fit64(w) && NarrowFields(w) == Some(Fields(s, 0, m))
  {
    var k := TopBit(m);
    TopBitBounds(m);
    TopBitBelow23(m);
    SubnormalMantissa(k, m - Pow2(k));
  }

  lemma SubnormalNarrows(f: Fields)
    requires Fit64(f) && 874 <= f.exponent < 897 && NarrowFields(f).Some?
    ensures var n := NarrowFields(f).value; Fit32(n) && 0 < n.mantissa && WidenFields(n) == f
  {
    var k := f.exponent - 874;
    var d := Pow2(52 - k);
    var q := f.mantissa / d;
    assert f.mantissa == q * d + f.mantissa % d;
    Pow2Split(k, 52 - k);
    Pow2Of52();
    QuotientBound(f.mantissa, q, Pow2(k), d);
    Pow2Monotone(k, 22);
    TopBitUnique(Pow2(k) + q, k);
  }

  lemma NarrowInvertsWiden(f: Fields)
    requires Fit32(f) && !IsNaN32(f)
    ensures Fit64(WidenFields(f)) && NarrowFields(WidenFields(f)) == Some(f)
  {
    if f.exponent == 0 && f.mantissa != 0 {
      SubnormalWidens(f.sign, f.mantissa);
    }
  }

  lemma WidenInvertsNarrow(f: Fields)
    requires Fit64(f) && NarrowFields(f).Some?
    ensures var n := NarrowFields(f).value; Fit32(n) && !IsNaN32(n) && WidenFields(n) == f
  {
    if 874 <= f.exponent < 897 {
      SubnormalNarrows(f);
    }
  }

  lemma WidenedFits(f: Fields)
    requires Fit32(f)
    ensures Fit64(WidenFields(f))
  {
    if !IsNaN32(f) {
      NarrowInvertsWiden(f);
    }
  }

  function Widen(b: bits32): bits64 {
    PackOfFields(b, 0);
    WidenedFits(Fields32(b));
    Pack64(WidenFields(Fields32(b)))
  }

  function Narrow(b: bits64): Option<bits32> {
    PackOfFields(0, b);
    match NarrowFields(Fields64(b))
    case None => None
    case Some(n) =>
      WidenInvertsNarrow(Fields64(b));
      Some(Pack32(n))
  }

  /** Narrow finds exactly the single, other than a NaN, whose value is the double's. */
  lemma NarrowExact(b: bits64, s: bits32)
    ensures Narrow(b) == Some(s) <==> Widen(s) == b && !IsNaN32(Fields32(s))
  {
    PackOfFields(s, b);
    var f := Fields64(b);
    if Narrow(b) == Some(s) {
      WidenInvertsNarrow(f);
      FieldsOfPack(NarrowFields(f).value);
    }
    if Widen(s) == b && !IsNaN32(Fields32(s)) {
      NarrowInvertsWiden(Fields32(s));
      FieldsOfPack(WidenFields(Fields32(s)));
    }
  }

  // ---- The number a pattern denotes ----

  /** Magnitudes of finite numbers are counted in units of 2^-1074, the smallest positive double. */
  datatype Number = NaN | Infinite(sign: nat) | Finite(sign: nat, units: nat)

  function Bias(width: nat): nat
    requires width > 0
  {
    Pow2(width - 1) - 1
  }

  /** The units of 2^-1074 in the smallest positive number with this many exponent and mantissa bits, as a power of 2. */
  function Scale(width: nat, mantissaBits: nat): int
    requires width > 0
  {
    1075 - Bias(width) - mantissaBits
  }

  /** IEEE 754, section 3.4: sign, biased exponent, trailing mantissa. */
  function Denoted(sign: nat, exponent: nat, mantissa: nat, width: nat, mantissaBits: nat): Number
    requires width > 0 && Scale(width, mantissaBits) >= 0
  {
    var unit := Pow2(Scale(width, mantissaBits));
    if exponent == Pow2(width) - 1 then if mantissa == 0 then Infinite(sign) else NaN
    else if exponent == 0 then Finite(sign, mantissa * unit)
    else Finite(sign, (Pow2(mantissaBits) + mantissa) * Pow2(exponent - 1) * unit)
  }

  /** `n` without its low `k` bits, and these. */
  function HighBits(n: nat, k: nat): nat {
    QuotientIsNat(n, Pow2(k));
    n / Pow2(k)
  }

  function LowBits(n: nat, k: nat): nat {
    QuotientIsNat(n, Pow2(k));
    n % Pow2(k)
  }

  /** A reader that is told the width of the exponent, for a pattern of `total` bits. */
  function NumberOf(pattern: nat, total: nat, width: nat): Option<Number> {
    if width == 0 || total < width + 1 || Scale(width, total - width - 1) < 0 then None
    else
      var mantissaBits := total - width - 1;
      Some(Denoted(HighBits(pattern, total - 1), LowBits(HighBits(pattern, mantissaBits), width),
                   LowBits(pattern, mantissaBits), width, mantissaBits))
  }

  lemma Widths()
    ensures Pow2(7) == 128 && Pow2(8) == 256 && Pow2(10) == 1024 && Pow2(11) == 2048
    ensures Pow2(31) == TWO31 && Pow2(63) == TWO63
    ensures Bias(8) == 127 && Bias(11) == 1023
    ensures Scale(8, 23) == 925 && Scale(11, 52) == 0
  {
    assert Pow2(7) == 128;
    assert Pow2(10) == 1024;
    Pow2Of52();
    Pow2Split(23, 8);
    Pow2Split(52, 11);
  }

  lemma SingleDenotes(b: bits32)
    ensures var f := Fields32(b);
            NumberOf(b, 32, 8) == Some(Denoted(f.sign, f.exponent, f.mantissa, 8, 23))
  {
    hide Pow2;
    hide Denoted;
    Widths();
    Pow2Of52();
  }

  lemma DoubleDenotes(b: bits64)
    ensures var f := Fields64(b);
            NumberOf(b, 64, 11) == Some(Denoted(f.sign, f.exponent, f.mantissa, 11, 52))
  {
    hide Pow2;
    hide Denoted;
    Widths();
    Pow2Of52();
  }

  /** Rearranging products of powers. */
  lemma ScaledProduct(m: nat, a: nat, b: nat, c: nat, d: nat)
    requires a + b == c + d
    ensures m * Pow2(a) * Pow2(b) == m * Pow2(c) * Pow2(d)
  {
    hide Pow2;
    Pow2Split(a, b);
    Pow2Split(c, d);
    Associate(m, Pow2(a), Pow2(b));
    Associate(m, Pow2(c), Pow2(d));
  }

  lemma Associate(m: nat, x: nat, y: nat)
    ensures m * x * y == m * (x * y)
  {
  }

  lemma NormalKeeps(exponent: nat, mantissa: nat)
    requires exponent > 0
    ensures (Pow2(23) + mantissa) * Pow2(exponent - 1) * Pow2(925)
         == (Pow2(52) + mantissa * TWO29) * Pow2(exponent + 895) * Pow2(0)
  {
    hide Pow2;
    var n := Pow2(23) + mantissa;
    Pow2Split(23, 29);
    assert Pow2(29) == TWO29 by {
      TwentyNine();
    }
    assert Pow2(52) + mantissa * TWO29 == n * Pow2(29);
    ScaledProduct(n, 29, exponent + 895, exponent - 1, 925);
    assert Pow2(0) == 1 by {
      ZeroPower();
    }
  }

  lemma ZeroPower()
    ensures Pow2(0) == 1
  {
  }

  lemma TwentyNine()
    ensures Pow2(29) == TWO29
  {
    Pow2Split(10, 10);
    Pow2Split(20, 9);
    assert Pow2(9) == 512 && Pow2(10) == 1024;
  }

  lemma SubnormalKeeps(m: nat, k: nat)
    requires k <= 22 && Pow2(k) <= m
    ensures m * Pow2(925) == (Pow2(52) + (m - Pow2(k)) * Pow2(52 - k)) * Pow2(873 + k) * Pow2(0)
  {
    hide Pow2;
    Pow2Split(k, 52 - k);
    assert Pow2(52) + (m - Pow2(k)) * Pow2(52 - k) == m * Pow2(52 - k) by {
      Distribute(m - Pow2(k), Pow2(k), Pow2(52 - k));
    }
    ScaledProduct(m, 52 - k, 873 + k, 925, 0);
    ZeroPower();
  }

  lemma Distribute(a: nat, b: nat, x: nat)
    ensures b * x + a * x == (a + b) * x
  {
  }

  lemma WidenedDenotes(f: Fields)
    requires Fit32(f)
    ensures var w := WidenFields(f);
            Denoted(w.sign, w.exponent, w.mantissa, 11, 52) == Denoted(f.sign, f.exponent, f.mantissa, 8, 23)
  {
    hide Pow2;
    hide Scale;
    Widths();
    ZeroPower();
    if f.exponent == 255 {
    } else if f.exponent > 0 {
      NormalKeeps(f.exponent, f.mantissa);
    } else if f.mantissa > 0 {
      var k := TopBit(f.mantissa);
      TopBitBounds(f.mantissa);
      TopBitBelow23(f.mantissa);
      SubnormalKeeps(f.mantissa, k);
    }
  }

  /** Widening changes the pattern, not the number. */
  lemma WidenKeepsNumber(s: bits32)
    ensures NumberOf(Widen(s), 64, 11) == NumberOf(s, 32, 8)
  {
    hide Pow2;
    hide Denoted;
    hide NumberOf;
    hide WidenFields;
    PackOfFields(s, 0);
    var f := Fields32(s);
    WidenedFits(f);
    FieldsOfPack(WidenFields(f));
    SingleDenotes(s);
    DoubleDenotes(Widen(s));
    WidenedDenotes(f);
  }
}
