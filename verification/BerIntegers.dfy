/**
 * INTEGER contents of ITU-T X.690, section 8.3: the shortest two's-complement octets,
 * the Go encoders that produce them and the decoders that read them.
 */
module BerIntegers {
  import opened Bytes

  const TWO63: int := 0x8000_0000_0000_0000
  const TWO64: int := 0x1_0000_0000_0000_0000

  type int64 = v: int | -0x8000_0000_0000_0000 <= v < 0x8000_0000_0000_0000
  type uint64 = v: int | 0 <= v < 0x1_0000_0000_0000_0000
  type uint32 = v: int | 0 <= v < 0x1_0000_0000
  type uint16 = v: int | 0 <= v < 0x1_0000

  /** Two's-complement wrap-around to 64 bits, as every Go `int` and `int64` operation does. */
  function Wrap64(v: int): int64 {
    var u := v % TWO64;
    if u < TWO63 then u else u - TWO64
  }

  // ---- What a content means, and which contents are shortest ----

  /** The signed number that the octets denote. */
  function SignedValue(bs: bytes): int
    requires |bs| >= 1
  {
    if bs[0] >= 128 then FromBE(bs) - Pow256(|bs|) else FromBE(bs)
  }

  /** X.690 section 8.3.2: the first nine bits are neither all zero nor all one. */
  predicate Minimal(bs: bytes) {
    |bs| == 1 || (|bs| > 1 && !(bs[0] == 0 && bs[1] < 128) && !(bs[0] == 255 && bs[1] >= 128))
  }

  function TwosComplement(v: int): (bs: bytes)
    ensures |bs| >= 1
    decreases if v < 0 then -v else v
  {
    if -128 <= v < 128 then [v % 256] else TwosComplement(v / 256) + [v % 256]
  }

  lemma SignedValueSnoc(init: bytes, last: byte)
    requires |init| >= 1
    ensures SignedValue(init + [last]) == SignedValue(init) * 256 + last
  {
    var bs := init + [last];
    assert bs[..|bs| - 1] == init;
    assert Pow256(|bs|) == 256 * Pow256(|init|);
  }

  lemma {:induction false} TwosComplementMeaning(v: int)
    ensures SignedValue(TwosComplement(v)) == v
    ensures Minimal(TwosComplement(v))
    decreases if v < 0 then -v else v
  {
    if -128 <= v < 128 {
      FromBEOne(v % 256);
      assert Pow256(1) == 256 * Pow256(0);
    } else {
      var init := TwosComplement(v / 256);
      TwosComplementMeaning(v / 256);
      SignedValueSnoc(init, v % 256);
      if |init| == 1 {
        FromBEOne(init[0]);
        assert init == [init[0]];
        assert Pow256(1) == 256 * Pow256(0);
      }
    }
  }

  lemma {:induction false} MinimalIsTwosComplement(bs: bytes)
    requires |bs| >= 1 && Minimal(bs)
    ensures TwosComplement(SignedValue(bs)) == bs
  {
    if |bs| == 1 {
      FromBEOne(bs[0]);
      assert bs == [bs[0]];
      assert Pow256(1) == 256 * Pow256(0);
    } else {
      var init, last := bs[..|bs| - 1], bs[|bs| - 1];
      assert bs == init + [last];
      SignedValueSnoc(init, last);
      MinimalIsTwosComplement(init);
      if |init| == 1 {
        FromBEOne(init[0]);
        assert init == [init[0]];
        assert Pow256(1) == 256 * Pow256(0);
      }
    }
  }

  /** Exactly one content denotes `v` and is shortest. */
  lemma MinimalContentUnique(v: int, bs: bytes)
    requires |bs| >= 1
    ensures SignedValue(bs) == v && Minimal(bs) <==> bs == TwosComplement(v)
  {
    TwosComplementMeaning(v);
    if Minimal(bs) {
      MinimalIsTwosComplement(bs);
    }
  }

  lemma {:induction false} TwosComplementLength(v: nat, k: nat)
    requires v < 128 * Pow256(k)
    ensures |TwosComplement(v)| <= k + 1
  {
    if v >= 128 {
      assert k > 0 && Pow256(k) == 256 * Pow256(k - 1);
      TwosComplementLength(v / 256, k - 1);
    }
  }

  // ---- encodeIntegerBytes ----

  /** The octets shifted out of `v` before it becomes 0 or -1. */
  function ShiftedOut(v: int): bytes
    decreases if v < 0 then -v else v
  {
    if v == 0 || v == -1 then [] else ShiftedOut(v / 256) + [v % 256]
  }

  function SignExtended(v: int, out: bytes): bytes
    requires |out| >= 1
  {
    if v < 0 && out[0] < 128 then [255] + out
    else if v >= 0 && out[0] >= 128 then [0] + out
    else out
  }

  lemma {:induction false} SignExtensionCompletes(v: int)
    requires v != 0 && v != -1
    ensures |ShiftedOut(v)| >= 1
    ensures SignExtended(v, ShiftedOut(v)) == TwosComplement(v)
    decreases if v < 0 then -v else v
  {
    if v / 256 == 0 || v / 256 == -1 {
      assert ShiftedOut(v) == [v % 256];
      assert TwosComplement(0) == [0] && TwosComplement(-1) == [255];
    } else {
      SignExtensionCompletes(v / 256);
      var out := ShiftedOut(v / 256);
      assert SignExtended(v, out + [v % 256]) == SignExtended(v / 256, out) + [v % 256];
    }
  }

  method EncodeIntegerBytes(v: int64) returns (out: bytes)
    ensures out == TwosComplement(v)
  {
    if v == 0 {
      return [0];
    }
    var neg := v < 0;
    out := [];
    var tmp: int := v;
    while tmp != 0 && tmp != -1
      invariant ShiftedOut(v) == ShiftedOut(tmp) + out
      decreases if tmp < 0 then -tmp else tmp
    {
      assert ShiftedOut(tmp) + out == ShiftedOut(tmp / 256) + ([tmp % 256] + out);
      out := [tmp % 256] + out;
      tmp := tmp / 256;
    }
    if |out| == 0 {
      assert v == -1;
      return [v % 256];
    }
    SignExtensionCompletes(v);
    if neg && out[0] < 128 {
      out := [255] + out;
    } else if !neg && out[0] >= 128 {
      out := [0] + out;
    }
  }

  // ---- The two unsigned encoders ----

  /** Shared loop shape of mms.encodeUnsignedContent and goose.encodeUint32Minimal. */
  method EncodeUnsignedContent(v: uint64) returns (out: bytes)
    ensures out == TwosComplement(v)
  {
    if v == 0 {
      return [0];
    }
    out := [];
    var n: int := v;
    while n > 0
      invariant 0 <= n
      invariant ShiftedOut(v) == ShiftedOut(n) + out
    {
      assert ShiftedOut(n) + out == ShiftedOut(n / 256) + ([n % 256] + out);
      out := [n % 256] + out;
      n := n / 256;
    }
    SignExtensionCompletes(v);
    if out[0] >= 128 {
      out := [0] + out;
    }
  }

  lemma {:induction false} TrimmedIsShiftedOut(v: nat, k: nat)
    requires k >= 1 && v < Pow256(k)
    ensures ToBE(v, k)[0] != 0 ==> ShiftedOut(v) == ToBE(v, k)
  {
    assert Pow256(k) == 256 * Pow256(k - 1);
    if k == 1 {
      assert Pow256(0) == 1 && ToBE(v / 256, 0) == [];
      assert v > 0 ==> ShiftedOut(v) == ShiftedOut(0) + [v];
    } else {
      TrimmedIsShiftedOut(v / 256, k - 1);
      assert ToBE(v, k)[0] == ToBE(v / 256, k - 1)[0];
      if ToBE(v, k)[0] != 0 {
        assert ShiftedOut(v / 256) != [];
      }
    }
  }

  lemma ToBEDropZero(v: nat, k: nat)
    requires k >= 2 && v < Pow256(k) && ToBE(v, k)[0] == 0
    ensures v < Pow256(k - 1) && ToBE(v, k)[1..] == ToBE(v, k - 1)
  {
    FromToBE(v, k);
    var bs := ToBE(v, k);
    assert bs == [0] + bs[1..];
    FromBECons(0, bs[1..]);
    ToFromBE(bs[1..]);
  }

  /** asn1ber.EncodeUnsigned: the content before it is wrapped as INTEGER. */
  method EncodeUnsignedTrimmed(v: uint32) returns (content: bytes)
    ensures content == TwosComplement(v)
  {
    assert Pow256(4) == 0x1_0000_0000 by {
      assert Pow256(1) == 256 * Pow256(0);
      assert Pow256(2) == 256 * Pow256(1);
      assert Pow256(3) == 256 * Pow256(2);
    }
    var buf := ToBE(v, 4);
    var start := 0;
    while start < 3 && buf[start] == 0
      invariant 0 <= start <= 3
      invariant v < Pow256(4 - start) && buf[start..] == ToBE(v, 4 - start)
    {
      ToBEDropZero(v, 4 - start);
      assert buf[start..][1..] == buf[start + 1..];
      start := start + 1;
    }
    content := buf[start..];
    TrimmedIsShiftedOut(v, 4 - start);
    if v == 0 {
      if start == 3 {
        assert content == ToBE(0, 1) == ToBE(0, 0) + [0] == [0];
      }
    } else {
      SignExtensionCompletes(v);
      if start == 3 {
        assert content == ToBE(v / 256, 0) + [v % 256];
        assert Pow256(1) == 256 * Pow256(0);
      }
    }
    if content[0] >= 128 {
      content := [0] + content;
    }
  }

  // ---- EncodeBigInt ----

  /** big.Int.Bytes: the magnitude, most significant octet first, empty for zero. */
  function Magnitude(n: nat): bytes {
    if n == 0 then [] else Magnitude(n / 256) + [n % 256]
  }

  lemma {:induction false} MagnitudeMeaning(n: nat)
    ensures FromBE(Magnitude(n)) == n
    ensures n > 0 ==> |Magnitude(n)| >= 1 && Magnitude(n)[0] > 0
    ensures Magnitude(n) == ShiftedOut(n)
  {
    if n > 0 {
      MagnitudeMeaning(n / 256);
      var bs := Magnitude(n);
      assert bs[..|bs| - 1] == Magnitude(n / 256);
    }
  }

  lemma {:induction false} LeadingOctetBound(bs: bytes)
    requires |bs| >= 1
    ensures bs[0] * Pow256(|bs| - 1) <= FromBE(bs)
  {
    assert bs == [bs[0]] + bs[1..];
    FromBECons(bs[0], bs[1..]);
  }

  lemma MulMonotone(a: nat, b: nat, p: nat)
    requires a <= b
    ensures a * p <= b * p
  {
  }

  lemma ComplementIsMinimal(neg: bytes, b: bytes)
    requires |neg| == |b| > 1 && neg[0] > 0
    requires FromBE(b) + FromBE(neg) == Pow256(|b|)
    ensures !(b[0] == 255 && b[1] >= 128)
  {
    var p := Pow256(|b| - 2);
    assert Pow256(|b| - 1) == 256 * p && Pow256(|b|) == 256 * Pow256(|b| - 1);
    if b[0] == 255 && b[1] >= 128 {
      LeadingOctetBound(neg);
      MulMonotone(1, neg[0], 256 * p);
      LeadingOctetBound(b[1..]);
      MulMonotone(128, b[1], p);
      assert b == [255] + b[1..];
      FromBECons(255, b[1..]);
      assert false;
    }
  }

  lemma NegatedIsMinimal(m: int, neg: bytes, b: bytes, out: bytes)
    requires |neg| == |b| >= 1 && neg[0] > 0
    requires FromBE(neg) == m && FromBE(b) + m == Pow256(|b|)
    requires out == if b[0] < 128 then [255] + b else b
    ensures out == TwosComplement(-m)
  {
    if b[0] < 128 {
      FromBECons(255, b);
      assert Pow256(|b| + 1) == 256 * Pow256(|b|);
    } else if |b| > 1 {
      ComplementIsMinimal(neg, b);
    }
    MinimalContentUnique(-m, out);
  }

  /** The carry loop: `b` becomes the two's complement of the magnitude. */
  method Complement(negBytes: bytes) returns (b: array<byte>)
    requires FromBE(negBytes) > 0
    ensures fresh(b) && b.Length == |negBytes|
    ensures FromBE(b[..]) + FromBE(negBytes) == Pow256(b.Length)
  {
    var n := |negBytes|;
    b := new byte[n];
    var carry := 1;
    var i := n - 1;
    assert negBytes[n..] == [] && b[n..] == [];
    while i >= 0
      invariant -1 <= i < n && 0 <= carry <= 1
      invariant Complemented(b[i + 1..], negBytes[i + 1..], carry)
    {
      var val: int := 255 - negBytes[i] + carry;
      ghost var rest := b[i + 1..];
      b[i] := val % 256;
      assert b[i..] == [b[i]] + rest;
      assert negBytes[i..] == [negBytes[i]] + negBytes[i + 1..];
      ComplementStep(b[i], rest, negBytes[i], negBytes[i + 1..], carry, val / 256);
      carry := val / 256;
      i := i - 1;
    }
    assert b[0..] == b[..] && negBytes[0..] == negBytes;
    CarryIsSpent(b[..], negBytes, carry);
  }

  method EncodeBigIntContent(v: int) returns (out: bytes)
    ensures out == TwosComplement(v)
  {
    out := Magnitude(if v < 0 then -v else v);
    MagnitudeMeaning(if v < 0 then -v else v);
    if v < 0 {
      var b := Complement(out);
      ghost var negBytes := out;
      out := b[..];
      if out[0] < 128 {
        out := [255] + out;
      }
      NegatedIsMinimal(-v, negBytes, b[..], out);
    } else {
      if v > 0 {
        SignExtensionCompletes(v);
      }
      if |out| > 0 && out[0] >= 128 {
        out := [0] + out;
      }
    }
    if |out| == 0 {
      out := [0];
    }
  }

  /** `b` complements the low octets `neg`, with `carry` still to be added above them. */
  ghost predicate Complemented(b: bytes, neg: bytes, carry: int) {
    |b| == |neg| && FromBE(b) + FromBE(neg) == (1 - carry) * Pow256(|b|)
  }

  lemma CarryIsSpent(b: bytes, neg: bytes, carry: int)
    requires Complemented(b, neg, carry) && 0 <= carry <= 1 && FromBE(neg) > 0
    ensures FromBE(b) + FromBE(neg) == Pow256(|b|)
  {
  }

  lemma ComplementArithmetic(x: int, y: int, carry: int, carry': int, p: int)
    requires x + 256 * carry' == 255 - y + carry
    ensures x * p + y * p + (1 - carry) * p == (1 - carry') * (256 * p)
  {
    assert x * p + y * p + (1 - carry) * p == (x + y + 1 - carry) * p;
    assert x + y + 1 - carry == 256 * (1 - carry');
  }

  lemma ComplementStep(x: byte, b: bytes, y: byte, neg: bytes, carry: int, carry': int)
    requires Complemented(b, neg, carry)
    requires x + 256 * carry' == 255 - y + carry
    ensures Complemented([x] + b, [y] + neg, carry')
  {
    FromBECons(x, b);
    FromBECons(y, neg);
    ComplementArithmetic(x, y, carry, carry', Pow256(|b|));
  }

  // ---- Decoders ----

  lemma Wrap64Step(v: int, b: byte)
    ensures Wrap64(Wrap64(v) * 256 + b) == Wrap64(v * 256 + b)
  {
    var k := v / TWO64;
    var w := Wrap64(v);
    var j := if w == v % TWO64 then k else k + 1;
    assert v == w + j * TWO64;
    assert v * 256 + b == w * 256 + b + (j * 256) * TWO64;
    ModShift(w * 256 + b, j * 256);
  }

  lemma ModShift(a: int, k: int)
    ensures (a + k * TWO64) % TWO64 == a % TWO64
  {
    var q := a / TWO64 + k;
    assert a + k * TWO64 == q * TWO64 + a % TWO64;
  }

  /** Every content is read as the number it denotes, reduced to 64 bits. */
  function DecodedInteger(content: bytes): Result<int64> {
    if |content| == 0 then Err else Ok(Wrap64(SignedValue(content)))
  }

  lemma NextOctet(sign: int, content: bytes, i: nat)
    requires i < |content|
    ensures Extended(sign, content, i) * 256 + content[i] == Extended(sign, content, i + 1)
  {
    assert content[..i + 1][..i] == content[..i];
    assert sign * Pow256(i + 1) == (sign * Pow256(i)) * 256;
  }

  /** The value of the first `i` octets behind those of the sign. */
  ghost function Extended(sign: int, content: bytes, i: nat): int
    requires i <= |content|
  {
    sign * Pow256(i) + FromBE(content[..i])
  }

  lemma SignOnly(sign: int, content: bytes)
    requires sign == 0 || sign == -1
    ensures Wrap64(Extended(sign, content, 0)) == sign
  {
    assert content[..0] == [];
  }

  lemma AllOctets(sign: int, content: bytes)
    requires content != [] && sign == if content[0] >= 128 then -1 else 0
    ensures Extended(sign, content, |content|) == SignedValue(content)
  {
    assert content[..|content|] == content;
  }

  method DecodeInteger(content: bytes) returns (r: Result<int64>)
    ensures r == DecodedInteger(content)
  {
    hide Wrap64;
    hide Extended;
    hide SignedValue;
    if |content| == 0 {
      return Err;
    }
    var v: int64 := 0;
    if content[0] >= 128 {
      v := -1;
    }
    var i := 0;
    ghost var sign := v;
    SignOnly(sign, content);
    while i < |content|
      invariant 0 <= i <= |content|
      invariant v == Wrap64(Extended(sign, content, i))
    {
      var b := content[i];
      Wrap64Step(Extended(sign, content, i), b);
      NextOctet(sign, content, i);
      v := Wrap64(v * 256 + b);
      i := i + 1;
    }
    AllOctets(sign, content);
    return Ok(v);
  }

  /** DecodeInteger undoes encodeIntegerBytes on every 64-bit integer. */
  lemma IntegerRoundTrip(v: int64)
    ensures DecodedInteger(TwosComplement(v)) == Ok(v)
  {
    TwosComplementMeaning(v);
  }

  function DecodedUint32(content: bytes): Result<uint32> {
    if |content| == 0 || |content| > 5 then Err else Ok(FromBE(content) % 0x1_0000_0000)
  }

  method DecodeUint32(content: bytes) returns (r: Result<uint32>)
    ensures r == DecodedUint32(content)
  {
    if |content| == 0 || |content| > 5 {
      return Err;
    }
    var v := AccumulateUnsigned(content);
    FromBEBelow64(content);
    return Ok(v % 0x1_0000_0000);
  }

  lemma FromBEBelow64(bs: bytes)
    requires |bs| <= 8
    ensures FromBE(bs) < 0x1_0000_0000_0000_0000
  {
    PowersOf256();
    PowMonotone(|bs|, 8);
  }

  lemma {:induction false} PowMonotone(a: nat, b: nat)
    requires a <= b
    ensures Pow256(a) <= Pow256(b)
    decreases b - a
  {
    if a < b {
      PowMonotone(a, b - 1);
      assert Pow256(b) == 256 * Pow256(b - 1);
    }
  }

  lemma PowersOf256()
    ensures Pow256(1) == 0x100 && Pow256(2) == 0x1_0000 && Pow256(3) == 0x100_0000
    ensures Pow256(4) == 0x1_0000_0000 && Pow256(8) == 0x1_0000_0000_0000_0000
  {
    assert Pow256(1) == 256 * Pow256(0);
    assert Pow256(2) == 256 * Pow256(1);
    assert Pow256(3) == 256 * Pow256(2);
    assert Pow256(4) == 256 * Pow256(3);
    assert Pow256(5) == 256 * Pow256(4);
    assert Pow256(6) == 256 * Pow256(5);
    assert Pow256(7) == 256 * Pow256(6);
    assert Pow256(8) == 256 * Pow256(7);
  }

  /** The 64-bit accumulator loop of the unsigned decoders. */
  method AccumulateUnsigned(content: bytes) returns (v: uint64)
    ensures v == FromBE(content) % TWO64
  {
    v := 0;
    var i := 0;
    while i < |content|
      invariant 0 <= i <= |content|
      invariant v == FromBE(content[..i]) % TWO64
    {
      assert content[..i + 1][..i] == content[..i];
      ghost var n := FromBE(content[..i]);
      assert n * 256 + content[i] == v * 256 + content[i] + (n / TWO64 * 256) * TWO64;
      ModShift(v * 256 + content[i], n / TWO64 * 256);
      v := (v * 256 + content[i]) % TWO64;
      i := i + 1;
    }
    assert content[..i] == content;
  }

  lemma NonNegativeContent(v: nat)
    ensures FromBE(TwosComplement(v)) == v
  {
    TwosComplementMeaning(v);
    var bs := TwosComplement(v);
    assert FromBE(bs) < Pow256(|bs|);
  }

  lemma Uint32RoundTrip(v: uint32)
    ensures DecodedUint32(TwosComplement(v)) == Ok(v)
    ensures |TwosComplement(v)| <= 5
  {
    hide TwosComplement;
    hide FromBE;
    NonNegativeContent(v);
    assert v < 128 * Pow256(4) by {
      PowersOf256();
    }
    TwosComplementLength(v, 4);
  }
}
