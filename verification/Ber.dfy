/** Tags, lengths and TLVs of the Basic Encoding Rules (ITU-T X.690, sections 8.1.2 and 8.1.3). */
module Ber {
  import opened Bytes
  import opened BerIntegers

  // ---- Tags ----

  predicate IsClass(class_: int) {
    class_ == 0x00 || class_ == 0x40 || class_ == 0x80 || class_ == 0xC0
  }

  const CLASS_UNIVERSAL := 0x00
  const CLASS_CONTEXT := 0x80

  /** Base-128 digits, most significant first, each with the continuation bit. */
  function HighDigits(n: nat): bytes {
    if n == 0 then [] else HighDigits(n / 128) + [128 + n % 128]
  }

  function LeadOctet(class_: int, constructed: bool, low: nat): byte
    requires IsClass(class_) && low < 32
  {
    class_ + (if constructed then 32 else 0) + low
  }

  function TagBytes(class_: int, constructed: bool, number: nat): (out: bytes)
    requires IsClass(class_)
    ensures |out| >= 1
  {
    if number < 31 then [LeadOctet(class_, constructed, number)]
    else [LeadOctet(class_, constructed, 31)] + HighDigits(number / 128) + [number % 128]
  }

  function Base128(n: nat): bytes {
    if n == 0 then [] else Base128(n / 128) + [n % 128]
  }

  lemma {:induction false} HighDigitsAreBase128(n: nat)
    ensures |HighDigits(n)| == |Base128(n)|
    ensures forall i :: 0 <= i < |Base128(n)| ==> Base128(n)[i] < 128 && HighDigits(n)[i] == Base128(n)[i] + 128
  {
    if n > 0 {
      HighDigitsAreBase128(n / 128);
    }
  }

  /** First loop of EncodeTag: the digits, prepended one by one. */
  method SplitBase128(number: nat) returns (tmp: bytes)
    ensures tmp == Base128(number)
  {
    tmp := [];
    var n := number;
    while n > 0
      invariant 0 <= n
      invariant Base128(number) == Base128(n) + tmp
    {
      assert Base128(n) + tmp == Base128(n / 128) + ([n % 128] + tmp);
      tmp := [n % 128] + tmp;
      n := n / 128;
    }
  }

  /** Second loop of EncodeTag: every digit but the last gets the continuation bit. */
  method AppendDigits(lead: byte, tmp: bytes) returns (out: bytes)
    requires forall i :: 0 <= i < |tmp| ==> tmp[i] < 128
    ensures |out| == 1 + |tmp| && out[0] == lead
    ensures forall i :: 0 <= i < |tmp| ==> out[1 + i] == if i < |tmp| - 1 then tmp[i] + 128 else tmp[i]
  {
    out := [lead];
    for i := 0 to |tmp|
      invariant |out| == 1 + i && out[0] == lead
      invariant forall k :: 0 <= k < i ==> out[1 + k] == if k < |tmp| - 1 then tmp[k] + 128 else tmp[k]
    {
      var t: int := tmp[i];
      if i < |tmp| - 1 {
        t := t + 128;
      }
      out := out + [t as byte];
    }
  }

  method EncodeTag(class_: int, constructed: bool, number: nat) returns (out: bytes)
    requires IsClass(class_)
    ensures out == TagBytes(class_, constructed, number)
  {
    var b: int := class_;
    if constructed {
      b := b + 32;
    }
    if number < 31 {
      return [b + number];
    }
    var tmp := SplitBase128(number);
    HighDigitsAreBase128(number);
    out := AppendDigits(b + 31, tmp);
    DigitsFormTag(class_, constructed, number, out);
  }

  lemma DigitsFormTag(class_: int, constructed: bool, number: nat, out: bytes)
    requires IsClass(class_) && number >= 31
    requires |out| == 1 + |Base128(number)| && out[0] == LeadOctet(class_, constructed, 31)
    requires forall i :: 0 <= i < |Base128(number)| ==>
                           out[1 + i] == if i < |Base128(number)| - 1 then (Base128(number)[i] as int + 128) % 256 else Base128(number)[i]
    ensures out == TagBytes(class_, constructed, number)
  {
    hide LeadOctet;
    HighDigitsAreBase128(number / 128);
    var tmp, high := Base128(number), HighDigits(number / 128);
    assert tmp == Base128(number / 128) + [number % 128];
    forall k | 0 <= k < |high| ensures out[1 + k] == high[k] {
      assert tmp[k] == Base128(number / 128)[k];
    }
    assert |tmp| == |high| + 1 && out[1 + |high|] == tmp[|high|] == number % 128;
    assert out[..|tmp|] == [out[0]] + high;
    assert out == out[..|tmp|] + [out[|tmp|]];
  }

  /** The base-128 loop of DecodeTag, entered with the digits read so far in `number`. */
  function TagNumberFrom(buf: bytes, offset: nat, number: int64): (r: Result<(int64, nat)>)
    ensures r.Ok? ==> offset < r.value.1 <= |buf|
    decreases |buf| - offset
  {
    if offset >= |buf| then Err
    else
      var number' := Wrap64(number * 128 + buf[offset] % 128);
      if buf[offset] < 128 then Ok((number', offset + 1)) else TagNumberFrom(buf, offset + 1, number')
  }

  datatype Tag = Tag(class_: int, constructed: bool, number: int64)

  function TagAt(buf: bytes, offset: nat): (r: Result<(Tag, nat)>)
    ensures r.Ok? ==> offset < r.value.1 <= |buf| && IsClass(r.value.0.class_)
  {
    if offset >= |buf| then Err
    else
      var b := buf[offset];
      var class_ := b / 64 * 64;
      var constructed := b / 32 % 2 == 1;
      if b % 32 == 31 then
        var (number, next) :- TagNumberFrom(buf, offset + 1, 0);
        Ok((Tag(class_, constructed, number), next))
      else Ok((Tag(class_, constructed, b % 32), offset + 1))
  }

  method DecodeTag(buf: bytes, offset: nat) returns (r: Result<(Tag, nat)>)
    ensures r == TagAt(buf, offset)
  {
    if offset >= |buf| {
      return Err;
    }
    var b := buf[offset];
    var pos := offset + 1;
    var class_ := b / 64 * 64;
    var constructed := b / 32 % 2 == 1;
    var number: int64 := b % 32;
    if number == 31 {
      number := 0;
      while true
        invariant pos <= |buf|
        invariant TagNumberFrom(buf, offset + 1, 0) == TagNumberFrom(buf, pos, number)
        decreases |buf| - pos
      {
        if pos >= |buf| {
          return Err;
        }
        b := buf[pos];
        pos := pos + 1;
        number := Wrap64(number * 128 + b % 128);
        if b < 128 {
          break;
        }
      }
    }
    return Ok((Tag(class_, constructed, number), pos));
  }

  lemma DigitAppended(n: nat)
    requires n < TWO63
    ensures Wrap64(n / 128 * 128 + (128 + n % 128) % 128) == n
    ensures Wrap64(n / 128 * 128 + n % 128 % 128) == n
  {
    assert n / 128 * 128 + n % 128 == n;
  }

  lemma {:induction false} HighDigitsRead(buf: bytes, offset: nat, n: nat)
    requires n < TWO63 && At(buf, offset, HighDigits(n))
    ensures TagNumberFrom(buf, offset, 0) == TagNumberFrom(buf, offset + |HighDigits(n)|, n)
  {
    hide At;
    hide Wrap64;
    if n > 0 {
      var high := HighDigits(n / 128);
      AtConcat(buf, offset, high, [128 + n % 128]);
      HighDigitsRead(buf, offset, n / 128);
      AtOne(buf, offset + |high|, 128 + n % 128);
      DigitAppended(n);
    }
  }

  lemma LeadOctetFields(class_: int, constructed: bool, low: nat)
    requires IsClass(class_) && low < 32
    ensures var b := LeadOctet(class_, constructed, low);
            b / 64 * 64 == class_ && (b / 32 % 2 == 1 <==> constructed) && b % 32 == low
  {
  }

  lemma ShortTagRead(buf: bytes, offset: nat, class_: int, constructed: bool, number: nat)
    requires IsClass(class_) && number < 31 && At(buf, offset, [LeadOctet(class_, constructed, number)])
    ensures TagAt(buf, offset) == Ok((Tag(class_, constructed, number), offset + 1))
  {
    hide At;
    hide LeadOctet;
    hide TagNumberFrom;
    AtOne(buf, offset, LeadOctet(class_, constructed, number));
    LeadOctetFields(class_, constructed, number);
  }

  lemma TagDigitsRead(buf: bytes, offset: nat, number: nat)
    requires number < TWO63 && At(buf, offset, HighDigits(number / 128) + [number % 128])
    ensures TagNumberFrom(buf, offset, 0) == Ok((number, offset + |HighDigits(number / 128)| + 1))
  {
    hide At;
    hide Wrap64;
    hide HighDigits;
    var digits, last := HighDigits(number / 128), number % 128;
    AtConcat(buf, offset, digits, [last]);
    HighDigitsRead(buf, offset, number / 128);
    AtOne(buf, offset + |digits|, last);
    DigitAppended(number);
  }

  lemma LongTagRead(buf: bytes, offset: nat, class_: int, constructed: bool, number: nat)
    requires IsClass(class_) && number < TWO63
    requires At(buf, offset, [LeadOctet(class_, constructed, 31)] + (HighDigits(number / 128) + [number % 128]))
    ensures TagAt(buf, offset) == Ok((Tag(class_, constructed, number), offset + |HighDigits(number / 128)| + 2))
  {
    hide At;
    hide LeadOctet;
    hide HighDigits;
    hide TagNumberFrom;
    LeadOctetFields(class_, constructed, 31);
    AtHead(buf, offset, LeadOctet(class_, constructed, 31), HighDigits(number / 128) + [number % 128]);
    TagDigitsRead(buf, offset + 1, number);
  }

  lemma TagRoundTrip(buf: bytes, offset: nat, class_: int, constructed: bool, number: nat)
    requires IsClass(class_) && number < TWO63
    requires At(buf, offset, TagBytes(class_, constructed, number))
    ensures TagAt(buf, offset)
         == Ok((Tag(class_, constructed, number), offset + |TagBytes(class_, constructed, number)|))
  {
    hide At;
    hide LeadOctet;
    hide HighDigits;
    hide TagAt;
    if number < 31 {
      ShortTagRead(buf, offset, class_, constructed, number);
    } else {
      assert TagBytes(class_, constructed, number)
          == [LeadOctet(class_, constructed, 31)] + (HighDigits(number / 128) + [number % 128]);
      LongTagRead(buf, offset, class_, constructed, number);
    }
  }

  // ---- Lengths ----

  function LengthBytes(length: nat): (out: bytes)
    ensures 1 <= |out| <= 5
  {
    if length < 0x80 then [length]
    else if length <= 0xFF then [0x81] + ToBE(length, 1)
    else if length <= 0xFFFF then [0x82] + ToBE(length, 2)
    else if length <= 0xFF_FFFF then [0x83] + ToBE(length, 3)
    else [0x84] + ToBE(length, 4)
  }

  function LengthAt(buf: bytes, offset: nat): (r: Result<(nat, nat)>)
    ensures r.Ok? ==> offset < r.value.1 <= |buf|
  {
    if offset >= |buf| then Err
    else
      var b := buf[offset];
      var n := b % 128;
      if b < 128 then Ok((b as nat, offset + 1))
      else if n == 0 || n > 4 || offset + 1 + n > |buf| then Err
      else LongLength(buf, offset + 1, n)
  }

  /** The octets of a long length, read without a further check. */
  function LongLength(buf: bytes, start: nat, n: nat): (r: Result<(nat, nat)>)
    ensures r.Ok? ==> r.value.1 == start + n <= |buf|
  {
    var octets :- Sliced(buf, start, n);
    Ok((FromBE(octets), start + n))
  }

  /** The octet loop shared by all three DecodeLength functions. */
  method AccumulateLength(buf: bytes, offset: nat, numBytes: nat) returns (length: nat)
    requires offset + numBytes <= |buf|
    ensures length == FromBE(buf[offset..offset + numBytes])
  {
    length := 0;
    for i := 0 to numBytes
      invariant length == FromBE(buf[offset..offset + i])
    {
      assert buf[offset..offset + i + 1] == buf[offset..offset + i] + [buf[offset + i]];
      length := length * 256 + buf[offset + i];
    }
  }

  method DecodeLength(buf: bytes, offset: nat) returns (r: Result<(nat, nat)>)
    ensures r == LengthAt(buf, offset)
  {
    if offset >= |buf| {
      return Err;
    }
    var b := buf[offset];
    if b < 128 {
      return Ok((b, offset + 1));
    }
    var numBytes := b % 128;
    if numBytes == 0 || numBytes > 4 || offset + 1 + numBytes > |buf| {
      return Err;
    }
    var length := AccumulateLength(buf, offset + 1, numBytes);
    return Ok((length, offset + 1 + numBytes));
  }

  lemma LongLengthRead(buf: bytes, offset: nat, k: nat, length: nat)
    requires 1 <= k <= 4 && length < Pow256(k)
    requires At(buf, offset, [128 + k] + ToBE(length, k))
    ensures LengthAt(buf, offset) == Ok((length, offset + 1 + k))
  {
    hide At;
    hide ToBE;
    hide FromBE;
    AtHead(buf, offset, 128 + k, ToBE(length, k));
    AtSlice(buf, offset + 1, ToBE(length, k));
    FromToBE(length, k);
  }

  lemma LengthRoundTrip(buf: bytes, offset: nat, length: nat)
    requires length < 0x1_0000_0000 && At(buf, offset, LengthBytes(length))
    ensures LengthAt(buf, offset) == Ok((length, offset + |LengthBytes(length)|))
  {
    hide At;
    PowersOf256();
    if length < 0x80 {
      AtOne(buf, offset, length);
    } else if length <= 0xFF {
      LongLengthRead(buf, offset, 1, length);
    } else if length <= 0xFFFF {
      LongLengthRead(buf, offset, 2, length);
    } else if length <= 0xFF_FFFF {
      LongLengthRead(buf, offset, 3, length);
    } else {
      LongLengthRead(buf, offset, 4, length);
    }
  }

  lemma LengthAtPrefix(buf: bytes, k: nat, offset: nat)
    requires k <= |buf| && LengthAt(buf[..k], offset).Ok?
    ensures LengthAt(buf, offset) == LengthAt(buf[..k], offset)
  {
    hide FromBE;
    var n := buf[offset] % 128;
    if buf[offset] >= 128 {
      assert buf[..k][offset + 1..offset + 1 + n] == buf[offset + 1..offset + 1 + n];
    }
  }

  // ---- TLVs ----

  datatype TLV = TLV(class_: int, constructed: bool, tag: int64, value: bytes)

  predicate Encodable(t: TLV) {
    IsClass(t.class_) && t.tag >= 0 && |t.value| < 0x1_0000_0000
  }

  function TLVBytes(class_: int, constructed: bool, tag: nat, value: bytes): (out: bytes)
    requires IsClass(class_)
    ensures |out| >= 2 + |value|
  {
    TagBytes(class_, constructed, tag) + LengthBytes(|value|) + value
  }

  function ContextTLV(tag: nat, constructed: bool, value: bytes): (out: bytes)
    ensures |out| >= 2 + |value|
  {
    TLVBytes(CLASS_CONTEXT, constructed, tag, value)
  }

  /** A TLV whose value is sliced without a further check. */
  function CutTLV(buf: bytes, tag: Tag, start: nat, length: nat): (r: Result<(TLV, nat)>)
    ensures r.Ok? ==> r.value.1 == start + length <= |buf| && |r.value.0.value| == length
  {
    var value :- Sliced(buf, start, length);
    Ok((TLV(tag.class_, tag.constructed, tag.number, value), start + length))
  }

  function TLVAt(buf: bytes, offset: nat): (r: Result<(TLV, nat)>)
    ensures r.Ok? ==> offset + 2 <= r.value.1 <= |buf|
    ensures r.Ok? ==> |r.value.0.value| <= r.value.1 - offset - 2
  {
    var (tag, afterTag) :- TagAt(buf, offset);
    var (length, start) :- LengthAt(buf, afterTag);
    if start + length > |buf| then Err else CutTLV(buf, tag, start, length)
  }

  /** A TLV that stands anywhere in a buffer is read back whole, and reading stops at its end. */
  lemma TLVRoundTrip(buf: bytes, offset: nat, class_: int, constructed: bool, tag: nat, value: bytes)
    requires IsClass(class_) && tag < TWO63 && |value| < 0x1_0000_0000
    requires At(buf, offset, TLVBytes(class_, constructed, tag, value))
    ensures TLVAt(buf, offset)
         == Ok((TLV(class_, constructed, tag, value), offset + |TLVBytes(class_, constructed, tag, value)|))
  {
    hide LengthBytes;
    hide TagBytes;
    hide TagAt;
    hide LengthAt;
    var t, l := TagBytes(class_, constructed, tag), LengthBytes(|value|);
    AtConcat(buf, offset, t + l, value);
    AtConcat(buf, offset, t, l);
    TagRoundTrip(buf, offset, class_, constructed, tag);
    LengthRoundTrip(buf, offset + |t|, |value|);
  }

  lemma LengthNeverFaults(buf: bytes, offset: nat)
    ensures !LengthAt(buf, offset).Panic?
  {
    hide FromBE;
  }

  lemma {:induction false} TagNumberNeverFaults(buf: bytes, offset: nat, number: int64)
    ensures !TagNumberFrom(buf, offset, number).Panic?
    decreases |buf| - offset
  {
    hide Wrap64;
    if offset < |buf| && buf[offset] >= 128 {
      TagNumberNeverFaults(buf, offset + 1, Wrap64(number * 128 + buf[offset] % 128));
    }
  }

  /** On any octets and at any offset, no slice of ParseTLV is out of range. */
  lemma TLVNeverFaults(buf: bytes, offset: nat)
    ensures !TLVAt(buf, offset).Panic?
  {
    hide LengthAt;
    TagNumberNeverFaults(buf, offset + 1, 0);
    if TagAt(buf, offset).Ok? {
      LengthNeverFaults(buf, TagAt(buf, offset).value.1);
    }
  }

  // ---- ParseAll ----

  /** ParseAll from `offset` on, with the TLVs found so far; false when an error stopped it. */
  function ParseFrom(buf: bytes, offset: nat, acc: seq<TLV>): (seq<TLV>, bool)
    decreases |buf| - offset
  {
    if offset >= |buf| then (acc, true)
    else
      match TLVAt(buf, offset)
      case Ok((tlv, next)) => ParseFrom(buf, next, acc + [tlv])
      case _ => (acc, false)
  }

  method ParseAll(buf: bytes) returns (tlvs: seq<TLV>, ok: bool)
    ensures (tlvs, ok) == ParseFrom(buf, 0, [])
  {
    tlvs := [];
    var offset := 0;
    while offset < |buf|
      invariant 0 <= offset <= |buf|
      invariant ParseFrom(buf, 0, []) == ParseFrom(buf, offset, tlvs)
      decreases |buf| - offset
    {
      match TLVAt(buf, offset) {
        case Ok(found) =>
          tlvs := tlvs + [found.0];
          offset := found.1;
        case _ =>
          return tlvs, false;
      }
    }
    return tlvs, true;
  }

  /** TLV.Encode. */
  function Encode(t: TLV): bytes
    requires Encodable(t)
  {
    TLVBytes(t.class_, t.constructed, t.tag, t.value)
  }

  function EncodeAll(ts: seq<TLV>): bytes
    requires forall t :: t in ts ==> Encodable(t)
  {
    if ts == [] then [] else Encode(ts[0]) + EncodeAll(ts[1..])
  }

  lemma {:induction false} ParseFromEncoded(buf: bytes, offset: nat, ts: seq<TLV>, acc: seq<TLV>)
    requires forall t :: t in ts ==> Encodable(t)
    requires At(buf, offset, EncodeAll(ts)) && offset + |EncodeAll(ts)| == |buf|
    ensures ParseFrom(buf, offset, acc) == (acc + ts, true)
    decreases |ts|
  {
    hide At;
    hide TLVAt;
    hide TLVBytes;
    if ts == [] {
      assert acc + ts == acc;
    } else {
      var t := ts[0];
      AtConcat(buf, offset, Encode(t), EncodeAll(ts[1..]));
      TLVRoundTrip(buf, offset, t.class_, t.constructed, t.tag, t.value);
      ParseFromEncoded(buf, offset + |Encode(t)|, ts[1..], acc + [t]);
      assert acc + [t] + ts[1..] == acc + ts;
    }
  }

  /** ParseAll inverts any concatenation of encodable TLVs. */
  lemma ParseAllInvertsEncoding(ts: seq<TLV>)
    requires forall t :: t in ts ==> Encodable(t)
    ensures ParseFrom(EncodeAll(ts), 0, []) == (ts, true)
  {
    AtWhole(EncodeAll(ts));
    ParseFromEncoded(EncodeAll(ts), 0, ts, []);
    assert [] + ts == ts;
  }
}
