/** DecodeValue against EncodeValue: what is recovered, from anywhere in a buffer. */
module MmsValueRoundTrip {
  import opened Bytes
  import opened BerIntegers
  import opened Ber
  import opened Floats
  import opened MmsValues

  /** Reading one primitive TLV comes down to decoding its content. */
  lemma PrimRead(buf: bytes, offset: nat, tag: byte, content: bytes)
    requires |content| < 0x1_0000_0000 && At(buf, offset, Prim(tag, content))
    ensures offset < |buf| && buf[offset] == tag
    ensures LengthAt(buf, offset + 1) == Ok((|content|, offset + |Prim(tag, content)| - |content|))
    ensures At(buf, offset + |Prim(tag, content)| - |content|, content)
    ensures offset + |Prim(tag, content)| <= |buf|
  {
    hide LengthBytes;
    hide LengthAt;
    var l := LengthBytes(|content|);
    assert Prim(tag, content) == [tag] + (l + content);
    AtHead(buf, offset, tag, l + content);
    AtConcat(buf, offset + 1, l, content);
    LengthRoundTrip(buf, offset + 1, |content|);
  }

  lemma PrimDecodes(buf: bytes, offset: nat, tag: byte, content: bytes)
    requires |content| < 0x1_0000_0000 && At(buf, offset, Prim(tag, content))
    ensures DecodeValue(buf, offset) ==
            match DecodeContent(tag, content)
            case Ok(v) => Ok((v, offset + |Prim(tag, content)|))
            case Err => Err
            case Panic => Panic
  {
    hide DecodeContent;
    hide LengthAt;
    PrimRead(buf, offset, tag, content);
  }

  lemma IntegerContent(n: int64)
    ensures DecodeContent(TAG_INTEGER, TwosComplement(n)) == Ok(Integer(n))
  {
    IntegerRoundTrip(n);
  }

  lemma LowWord(u: int64)
    ensures u % TWO64 % 0x1_0000_0000 == u % 0x1_0000_0000
  {
    assert u % TWO64 == if u >= 0 then u else u + TWO64;
  }

  lemma UnsignedContent(u: int64)
    ensures DecodeContent(TAG_UNSIGNED, TwosComplement(u % TWO64)) == Ok(Norm(Unsigned(u)))
  {
    hide TwosComplement;
    LowWord(u);
    NonNegativeContent(u % TWO64);
  }

  lemma FloatContentRead(bits: bits64)
    ensures DecodeContent(TAG_FLOAT, FloatContent(bits)) == Ok(Float(bits))
  {
    hide Narrow;
    hide Widen;
    PowersOf256();
    match Narrow(bits) {
      case Some(single) =>
        FromToBE(single, 4);
        NarrowExact(bits, single);
        assert FloatContent(bits)[1..5] == ToBE(single, 4);
      case None =>
        FromToBE(bits, 8);
        assert FloatContent(bits)[1..9] == ToBE(bits, 8);
    }
  }

  /** A reader of MMS floating-point contents that takes the width of the exponent from the first octet. */
  function FloatNumber(content: bytes): Option<Number> {
    if |content| != 5 && |content| != 9 then None
    else NumberOf(FromBE(content[1..]), 8 * (|content| - 1), content[0])
  }

  /** Whether a number is sent in 32 or 64 bits, such a reader finds the number that the 64-bit pattern denotes. */
  lemma FloatDenotes(bits: bits64)
    ensures FloatNumber(FloatContent(bits)).Some?
    ensures FloatNumber(FloatContent(bits)) == NumberOf(bits, 64, 11)
  {
    hide Narrow;
    hide Widen;
    hide NumberOf;
    PowersOf256();
    DoubleDenotes(bits);
    var content := FloatContent(bits);
    match Narrow(bits) {
      case Some(single) =>
        FromToBE(single, 4);
        NarrowExact(bits, single);
        WidenKeepsNumber(single);
        assert content[1..] == ToBE(single, 4);
      case None =>
        FromToBE(bits, 8);
        assert content[1..] == ToBE(bits, 8);
    }
  }

  lemma BitsRead(bits: bytes, size: int)
    ensures DecodeContent(TAG_BIT_STRING, BitContent(bits, size)) == Ok(Norm(BitString(bits, size)))
  {
    var numBytes := (Abs(size) + 7) / 8;
    var content := BitContent(bits, size);
    assert content[1..1 + numBytes] == Fit(bits, numBytes);
  }

  lemma ThreeOctets(a: byte, b: byte, c: byte)
    ensures FromBE([a, b, c]) == a * 0x1_0000 + b * 0x100 + c
  {
    FromBEOne(a);
    assert [a, b][..1] == [a] && [a, b, c][..2] == [a, b];
  }

  lemma LowOctetSum(n: nat)
    ensures n / 0x1_0000 % 256 * 0x1_0000 + n / 0x100 % 256 * 0x100 + n % 256 == n % 0x100_0000
  {
    var a, b, c := n % 256, n / 0x100 % 256, n / 0x1_0000 % 256;
    var q := n / 0x100_0000;
    assert n / 0x1_0000 == q * 256 + c;
    assert n / 0x100 == n / 0x1_0000 * 256 + b;
    assert n == n / 0x100 * 256 + a;
    assert n == q * 0x100_0000 + (c * 0x1_0000 + b * 0x100 + a);
  }

  lemma LowThreeOctets(n: uint32)
    ensures FromBE(ToBE(n, 3)) == n % 0x100_0000
  {
    hide FromBE;
    hide ToBE;
    OctetsOf(n);
    ThreeOctets(n / 0x1_0000 % 256, n / 0x100 % 256, n % 256);
    LowOctetSum(n);
  }

  lemma UTCRead(t: UTCTime)
    ensures DecodedUTC(UTCContent(t)) == Ok(NormTime(t))
  {
    var content := UTCContent(t);
    PowersOf256();
    FromToBE(t.seconds, 4);
    LowThreeOctets(t.fractions);
    assert content[0..4] == ToBE(t.seconds, 4);
    assert content[4..7] == ToBE(t.fractions, 3);
  }

  lemma BinaryTimeRead(ms: uint32, days: uint16, width: int)
    ensures DecodedBinaryTime(BinaryTimeContent(ms, days, width)) == Ok(Norm(BinaryTime(ms, days, width)))
  {
    var content := BinaryTimeContent(ms, days, width);
    hide ToBE;
    hide FromBE;
    assert FromBE(ToBE(ms, 4)) == ms && FromBE(ToBE(days, 2)) == days by {
      PowersOf256();
      FromToBE(ms, 4);
      FromToBE(days, 2);
    }
    assert content[0..4] == ToBE(ms, 4);
    assert width == 6 ==> content[4..6] == ToBE(days, 2);
  }

  predicate IsTree(v: Value) {
    v.Array? || v.Structure?
  }

  /** Tag and content octets of a value that is not a tree. */
  function LeafContent(v: Value): (byte, bytes)
    requires !IsTree(v) && !v.Unsupported? && !v.Nil?
  {
    match v
    case Boolean(b) => (TAG_BOOLEAN, [if b then 0xFF else 0x00])
    case Integer(n) => (TAG_INTEGER, TwosComplement(n))
    case Unsigned(u) => (TAG_UNSIGNED, TwosComplement(u % TWO64))
    case Float(bits) => (TAG_FLOAT, FloatContent(bits))
    case BitString(bits, size) => (TAG_BIT_STRING, BitContent(bits, size))
    case OctetString(octets) => (TAG_OCTET_STRING, octets)
    case VisibleString(text) => (TAG_VISIBLE_STRING, text)
    case MmsString(utf8) => (TAG_STRING, utf8)
    case UtcTime(t) => (TAG_UTC_TIME, UTCContent(t))
    case BinaryTime(ms, days, width) => (TAG_BINARY_TIME, BinaryTimeContent(ms, days, width))
    case DataAccessError(code) => (TAG_FAILURE, [code % 256])
  }

  lemma LeafContentRead(v: Value)
    requires !IsTree(v) && !v.Unsupported? && !v.Nil?
    ensures EncodeValue(v) == Ok(Prim(LeafContent(v).0, LeafContent(v).1))
    ensures DecodeContent(LeafContent(v).0, LeafContent(v).1) == if HasError(v) then Err else Ok(Norm(v))
  {
    hide FloatContent;
    hide BitContent;
    hide UTCContent;
    hide BinaryTimeContent;
    hide TwosComplement;
    hide DecodedUTC;
    hide DecodedBinaryTime;
    hide DecodedFloat;
    hide DecodedBits;
    hide DecodedInteger;
    match v
    case Integer(n) => IntegerContent(n);
    case Unsigned(u) => UnsignedContent(u);
    case Float(bits) => FloatContentRead(bits);
    case BitString(bits, size) => BitsRead(bits, size);
    case UtcTime(t) => UTCRead(t);
    case BinaryTime(ms, days, width) => BinaryTimeRead(ms, days, width);
    case _ =>
  }

  predicate Fits(r: Result<bytes>) {
    r.Ok? && |r.value| < 0x1_0000_0000
  }

  /** The outcome of decoding the encoding of `v` at `offset`. */
  function Received(v: Value, offset: nat): Result<(Value, nat)>
    requires EncodeValue(v).Ok?
  {
    if HasError(v) then Err else Ok((Norm(v), offset + |EncodeValue(v).value|))
  }

  /**
   * Wherever the encoding of an encodable value stands, decoding it stops exactly at its end
   * and yields the normalised value; it fails if and only if the tree holds a data-access error.
   */
  lemma {:induction false} ValueRoundTrip(buf: bytes, offset: nat, v: Value)
    requires Fits(EncodeValue(v)) && At(buf, offset, EncodeValue(v).value)
    ensures DecodeValue(buf, offset) == Received(v, offset)
    decreases v, 1
  {
    hide At;
    match v
    case Array(elements) => TreeRoundTrip(buf, offset, v, TAG_ARRAY, elements);
    case Structure(members) => TreeRoundTrip(buf, offset, v, TAG_STRUCTURE, members);
    case _ =>
      LeafContentRead(v);
      LeafRoundTrip(buf, offset, v);
  }

  lemma LeafRoundTrip(buf: bytes, offset: nat, v: Value)
    requires !IsTree(v) && !v.Unsupported? && !v.Nil?
    requires Fits(EncodeValue(v)) && At(buf, offset, EncodeValue(v).value)
    ensures DecodeValue(buf, offset) == Received(v, offset)
  {
    hide At;
    hide Prim;
    hide LeafContent;
    hide DecodeContent;
    hide EncodeValue;
    hide DecodeValue;
    LeafContentRead(v);
    PrimDecodes(buf, offset, LeafContent(v).0, LeafContent(v).1);
  }

  lemma {:induction false} TreeRoundTrip(buf: bytes, offset: nat, v: Value, tag: byte, vs: seq<Value>)
    requires (v == Array(vs) && tag == TAG_ARRAY) || (v == Structure(vs) && tag == TAG_STRUCTURE)
    requires Fits(EncodeValue(v)) && At(buf, offset, EncodeValue(v).value)
    ensures DecodeValue(buf, offset) == Received(v, offset)
    decreases vs, 2
  {
    hide At;
    hide DecodeValue;
    hide DecodeElementsFrom;
    hide EncodeElements;
    var body := EncodeElements(vs).value;
    assert EncodeValue(v) == Ok(Prim(tag, body));
    AtWhole(body);
    ElementsRoundTrip(body, 0, vs, []);
    PrimDecodes(buf, offset, tag, body);
    assert [] + NormAll(vs) == NormAll(vs);
  }

  lemma ElementsStep(buf: bytes, offset: nat, acc: seq<Value>)
    ensures offset >= |buf| ==> DecodeElementsFrom(buf, offset, acc) == Ok(acc)
    ensures offset < |buf| && DecodeValue(buf, offset) == Err ==> DecodeElementsFrom(buf, offset, acc) == Err
    ensures offset < |buf| && DecodeValue(buf, offset).Ok? ==>
              var (v, next) := DecodeValue(buf, offset).value;
              DecodeElementsFrom(buf, offset, acc) == DecodeElementsFrom(buf, next, acc + [v])
  {
    hide DecodeValue;
  }

  lemma EmptyList()
    ensures EncodeElements([]) == Ok([]) && !AnyError([]) && NormAll([]) == []
  {
  }

  lemma HeadAndTail(vs: seq<Value>)
    requires vs != [] && EncodeElements(vs).Ok?
    ensures EncodeValue(vs[0]).Ok? && EncodeElements(vs[1..]).Ok?
    ensures EncodeElements(vs).value == EncodeValue(vs[0]).value + EncodeElements(vs[1..]).value
    ensures |EncodeValue(vs[0]).value| >= 2
    ensures AnyError(vs) == (HasError(vs[0]) || AnyError(vs[1..]))
    ensures NormAll(vs) == [Norm(vs[0])] + NormAll(vs[1..])
  {
    hide Norm;
    hide HasError;
  }

  lemma {:induction false} ElementsRoundTrip(buf: bytes, offset: nat, vs: seq<Value>, acc: seq<Value>)
    requires Fits(EncodeElements(vs)) && At(buf, offset, EncodeElements(vs).value)
    requires offset + |EncodeElements(vs).value| == |buf|
    ensures DecodeElementsFrom(buf, offset, acc) == if AnyError(vs) then Err else Ok(acc + NormAll(vs))
    decreases vs, 0
  {
    hide At;
    hide EncodeValue;
    hide EncodeElements;
    hide DecodeValue;
    hide DecodeElementsFrom;
    hide HasError;
    hide AnyError;
    hide Norm;
    hide NormAll;
    ElementsStep(buf, offset, acc);
    if vs == [] {
      EmptyList();
      assert acc + NormAll(vs) == acc;
    } else {
      HeadAndTail(vs);
      var first, rest := EncodeValue(vs[0]).value, EncodeElements(vs[1..]).value;
      AtConcat(buf, offset, first, rest);
      ValueRoundTrip(buf, offset, vs[0]);
      if !HasError(vs[0]) {
        ElementsRoundTrip(buf, offset + |first|, vs[1..], acc + [Norm(vs[0])]);
        assert acc + [Norm(vs[0])] + NormAll(vs[1..]) == acc + NormAll(vs);
      }
    }
  }

  /** The whole-buffer case that the client, the server and GOOSE all rest on. */
  lemma ListRoundTrip(vs: seq<Value>)
    requires Fits(EncodeElements(vs))
    ensures DecodeElementsFrom(EncodeElements(vs).value, 0, []) == if AnyError(vs) then Err else Ok(NormAll(vs))
  {
    AtWhole(EncodeElements(vs).value);
    ElementsRoundTrip(EncodeElements(vs).value, 0, vs, []);
    assert [] + NormAll(vs) == NormAll(vs);
  }

  /** Two values with the same octets are the same up to normalisation. */
  lemma EncodingInjective(v: Value, w: Value)
    requires Fits(EncodeValue(v)) && EncodeValue(v) == EncodeValue(w)
    requires !HasError(v) && !HasError(w)
    ensures Norm(v) == Norm(w)
    ensures Norm(v) == v && Norm(w) == w ==> v == w
  {
    var enc := EncodeValue(v).value;
    AtWhole(enc);
    ValueRoundTrip(enc, 0, v);
    ValueRoundTrip(enc, 0, w);
  }

  /** No encoding is a proper prefix of another: a reader never needs to know where a value ends. */
  lemma EncodingPrefixFree(v: Value, w: Value, tail: bytes)
    requires Fits(EncodeValue(v)) && Fits(EncodeValue(w)) && !HasError(v) && !HasError(w)
    requires EncodeValue(w).value == EncodeValue(v).value + tail
    ensures tail == []
  {
    var enc := EncodeValue(w).value;
    AtWhole(enc);
    AtConcat(enc, 0, EncodeValue(v).value, tail);
    ValueRoundTrip(enc, 0, v);
    ValueRoundTrip(enc, 0, w);
  }

  // ---- Arbitrary octets ----

  /** On any octets and at any offset, decoding a value ends with a value or an error, never with a fault. */
  lemma {:induction false} ValueNeverFaults(buf: bytes, offset: nat)
    ensures !DecodeValue(buf, offset).Panic?
    decreases |buf|, 0, 0
  {
    hide DecodeContent;
    hide LengthAt;
    LengthNeverFaults(buf, offset + 1);
    if offset < |buf| && LengthAt(buf, offset + 1).Ok? {
      var (length, start) := LengthAt(buf, offset + 1).value;
      if start + length <= |buf| {
        LengthMoves(buf, offset + 1);
        ContentNeverFaults(buf[offset], buf[start..start + length]);
      }
    }
  }

  lemma LengthMoves(buf: bytes, offset: nat)
    requires LengthAt(buf, offset).Ok?
    ensures offset < LengthAt(buf, offset).value.1
  {
  }

  lemma {:induction false} ContentNeverFaults(tag: byte, content: bytes)
    ensures !DecodeContent(tag, content).Panic?
    decreases |content|, 2, 0
  {
    hide DecodeElementsFrom;
    hide DecodedFloat;
    hide DecodedUTC;
    hide DecodedBinaryTime;
    hide DecodedInteger;
    hide DecodedBits;
    hide DecodedBoolean;
    LeavesNeverFault(content);
    ElementsNeverFault(content, 0, []);
  }

  lemma LeavesNeverFault(content: bytes)
    ensures !DecodedFloat(content).Panic? && !DecodedUTC(content).Panic?
    ensures !DecodedBinaryTime(content).Panic? && !DecodedInteger(content).Panic? && !DecodedBits(content).Panic?
    ensures |content| > 0 ==> !DecodedBoolean(content).Panic?
  {
    hide Widen;
    hide FromBE;
  }

  lemma {:induction false} ElementsNeverFault(buf: bytes, offset: nat, acc: seq<Value>)
    ensures !DecodeElementsFrom(buf, offset, acc).Panic?
    decreases |buf|, 1, |buf| - offset
  {
    hide DecodeValue;
    if offset < |buf| {
      ValueNeverFaults(buf, offset);
      if DecodeValue(buf, offset).Ok? {
        var (v, next) := DecodeValue(buf, offset).value;
        ElementsNeverFault(buf, next, acc + [v]);
      }
    }
  }
}
