/** MMS Data values (ISO 9506-2, section A.2): the value tree, its encoder and its decoder. */
module MmsValues {
  import opened Bytes
  import opened BerIntegers
  import opened Ber
  import opened Floats

  datatype UTCTime = UTCTime(
    seconds: uint32, fractions: uint32, accuracy: byte,
    failure: bool, notSynchronized: bool, leapKnown: bool)

  /** mms.Value; `Nil` is a nil pointer, `Unsupported` a type the encoder has no case for. */
  datatype Value =
    | Boolean(b: bool)
    | Integer(n: int64)
    | Unsigned(u: int64)
    | Float(bits: bits64)
    | BitString(bitBytes: bytes, size: int)
    | OctetString(octets: bytes)
    | VisibleString(text: bytes)
    | MmsString(utf8: bytes)
    | UtcTime(t: UTCTime)
    | BinaryTime(milliseconds: uint32, days: uint16, width: int)
    | Array(elements: seq<Value>)
    | Structure(members: seq<Value>)
    | DataAccessError(code: int)
    | Unsupported
    | Nil

  const TAG_BOOLEAN: byte := 0x83
  const TAG_BIT_STRING: byte := 0x84
  const TAG_INTEGER: byte := 0x85
  const TAG_UNSIGNED: byte := 0x86
  const TAG_FLOAT: byte := 0x87
  const TAG_OCTET_STRING: byte := 0x89
  const TAG_VISIBLE_STRING: byte := 0x8A
  const TAG_BINARY_TIME: byte := 0x8C
  const TAG_STRING: byte := 0x90
  const TAG_UTC_TIME: byte := 0x91
  const TAG_ARRAY: byte := 0xA1
  const TAG_STRUCTURE: byte := 0xA2
  const TAG_FAILURE: byte := 0x80

  // ---- Encoding ----

  /** encodePrimitive and appendTagLength: one tag octet, a length, the content. */
  function Prim(tag: byte, content: bytes): (out: bytes)
    ensures |out| >= 2 + |content|
  {
    [tag] + LengthBytes(|content|) + content
  }

  function Zeros(k: nat): (z: bytes)
    ensures |z| == k
  {
    seq(k, _ => 0)
  }

  /** `copy` into a zeroed buffer of `k` octets. */
  function Fit(bs: bytes, k: nat): (out: bytes)
    ensures |out| == k
  {
    if |bs| >= k then bs[..k] else bs + Zeros(k - |bs|)
  }

  function Abs(n: int): nat {
    if n < 0 then -n else n
  }

  function BitContent(bits: bytes, size: int): bytes {
    var numBytes := (Abs(size) + 7) / 8;
    [8 * numBytes - Abs(size)] + Fit(bits, numBytes)
  }

  function Flag(set_: bool, mask: byte): byte {
    if set_ then mask else 0
  }

  function UTCContent(t: UTCTime): (out: bytes)
    ensures |out| == 8
  {
    ToBE(t.seconds, 4) + ToBE(t.fractions, 3)
    + [Flag(t.leapKnown, 0x80) + Flag(t.failure, 0x40) + Flag(t.notSynchronized, 0x20)]
  }

  function BinaryTimeContent(milliseconds: uint32, days: uint16, width: int): bytes {
    if width == 6 then ToBE(milliseconds, 4) + ToBE(days, 2) else ToBE(milliseconds, 4)
  }

  function FloatContent(bits: bits64): bytes {
    match Narrow(bits)
    case Some(single) => [8] + ToBE(single, 4)
    case None => [11] + ToBE(bits, 8)
  }

  function EncodeValue(v: Value): (r: Result<bytes>)
    ensures r.Ok? ==> |r.value| >= 2
    decreases v
  {
    match v
    case Boolean(b) => Ok(Prim(TAG_BOOLEAN, [if b then 0xFF else 0x00]))
    case Integer(n) => Ok(Prim(TAG_INTEGER, TwosComplement(n)))
    case Unsigned(u) => Ok(Prim(TAG_UNSIGNED, TwosComplement(u % TWO64)))
    case Float(bits) => Ok(Prim(TAG_FLOAT, FloatContent(bits)))
    case BitString(bits, size) => Ok(Prim(TAG_BIT_STRING, BitContent(bits, size)))
    case OctetString(octets) => Ok(Prim(TAG_OCTET_STRING, octets))
    case VisibleString(text) => Ok(Prim(TAG_VISIBLE_STRING, text))
    case MmsString(utf8) => Ok(Prim(TAG_STRING, utf8))
    case UtcTime(t) => Ok(Prim(TAG_UTC_TIME, UTCContent(t)))
    case BinaryTime(ms, days, width) => Ok(Prim(TAG_BINARY_TIME, BinaryTimeContent(ms, days, width)))
    case Array(elements) =>
      var body :- EncodeElements(elements);
      Ok(Prim(TAG_ARRAY, body))
    case Structure(members) =>
      var body :- EncodeElements(members);
      Ok(Prim(TAG_STRUCTURE, body))
    case DataAccessError(code) => Ok(Prim(TAG_FAILURE, [code % 256]))
    case Unsupported => Err
    case Nil => Err
  }

  function EncodeElements(vs: seq<Value>): Result<bytes>
    decreases vs
  {
    if vs == [] then Ok([])
    else
      var first :- EncodeValue(vs[0]);
      Prefixed(first, EncodeElements(vs[1..]))
  }

  method EncodeElementsLoop(vs: seq<Value>) returns (r: Result<bytes>)
    ensures r == EncodeElements(vs)
  {
    var body: bytes := [];
    var i := 0;
    PrefixedTwice([], [], EncodeElements(vs));
    assert vs[0..] == vs;
    while i < |vs|
      invariant 0 <= i <= |vs|
      invariant EncodeElements(vs) == Prefixed(body, EncodeElements(vs[i..]))
    {
      assert vs[i..][1..] == vs[i + 1..];
      var enc := EncodeValue(vs[i]);
      if enc.IsFailure() {
        return enc;
      }
      PrefixedTwice(body, enc.value, EncodeElements(vs[i + 1..]));
      body := body + enc.value;
      i := i + 1;
    }
    PrefixedTwice(body, [], Ok([]));
    return Ok(body);
  }

  /** encodeUTCTime fills its eight-octet buffer by index. */
  method EncodeUTCTime(t: UTCTime) returns (buf: array<byte>)
    ensures fresh(buf) && buf[..] == UTCContent(t)
  {
    buf := new byte[8];
    buf[0], buf[1], buf[2], buf[3] :=
      t.seconds / 0x100_0000, t.seconds / 0x1_0000 % 256, t.seconds / 0x100 % 256, t.seconds % 256;
    buf[4] := t.fractions / 0x1_0000 % 256;
    buf[5] := t.fractions / 0x100 % 256;
    buf[6] := t.fractions % 256;
    var quality: int := 0;
    if t.leapKnown {
      quality := quality + 0x80;
    }
    if t.failure {
      quality := quality + 0x40;
    }
    if t.notSynchronized {
      quality := quality + 0x20;
    }
    buf[7] := quality;
    OctetsOf(t.seconds);
    OctetsOf(t.fractions);
  }

  lemma OctetsOf(n: uint32)
    ensures ToBE(n, 4) == [n / 0x100_0000, n / 0x1_0000 % 256, n / 0x100 % 256, n % 256]
    ensures ToBE(n, 3) == [n / 0x1_0000 % 256, n / 0x100 % 256, n % 256]
  {
    assert ToBE(n / 0x100_0000, 1) == [n / 0x100_0000];
    assert ToBE(n / 0x1_0000, 1) == [n / 0x1_0000 % 256];
    assert ToBE(n / 0x100, 2) == [n / 0x1_0000 % 256, n / 0x100 % 256];
    assert ToBE(n / 0x1_0000, 2) == [n / 0x100_0000, n / 0x1_0000 % 256];
    assert ToBE(n / 0x100, 3) == [n / 0x100_0000, n / 0x1_0000 % 256, n / 0x100 % 256];
  }

  // ---- Decoding ----

  function DecodedUTC(content: bytes): Result<UTCTime> {
    if |content| < 8 then Err
    else
      var seconds :- Sliced(content, 0, 4);
      var fractions :- Sliced(content, 4, 3);
      var q :- Octet(content, 7);
      Ok(UTCTime(Number32(seconds), FromBE(fractions) % 0x1_0000_0000, q % 32,
                 q / 64 % 2 == 1, q / 32 % 2 == 1, q / 128 % 2 == 1))
  }

  function Number32(octets: bytes): uint32
    requires |octets| == 4
  {
    PowersOf256();
    FromBE(octets)
  }

  function DecodedBinaryTime(content: bytes): Result<Value> {
    if |content| != 4 && |content| != 6 then Err
    else
      var ms :- Sliced(content, 0, 4);
      if |content| == 4 then Ok(BinaryTime(Number32(ms), 0, 4))
      else
        var days :- Sliced(content, 4, 2);
        Ok(BinaryTime(Number32(ms), FromBE(days) % 0x1_0000, 6))
  }

  function DecodedFloat(content: bytes): Result<Value> {
    PowersOf256();
    if |content| == 5 then
      var single :- Sliced(content, 1, 4);
      Ok(Float(Widen(FromBE(single))))
    else if |content| == 9 then
      var double :- Sliced(content, 1, 8);
      Ok(Float(FromBE(double)))
    else Err
  }

  function DecodedBits(content: bytes): Result<Value> {
    if |content| == 0 then Ok(BitString([], 0))
    else
      var unused :- Octet(content, 0);
      var bits :- Sliced(content, 1, |content| - 1);
      Ok(BitString(bits, 8 * (|content| - 1) - unused))
  }

  function DecodedBoolean(content: bytes): Result<Value> {
    var b :- Octet(content, 0);
    Ok(Boolean(b != 0))
  }

  /** The value switch of DecodeValue, on a content already cut out of the buffer. */
  function DecodeContent(tag: byte, content: bytes): Result<Value>
    decreases |content|, 2, 0
  {
    if tag == TAG_BOOLEAN then if |content| == 0 then Err else DecodedBoolean(content)
    else if tag == TAG_INTEGER then
      var n :- DecodedInteger(content);
      Ok(Integer(n))
    else if tag == TAG_UNSIGNED then Ok(Unsigned(FromBE(content) % 0x1_0000_0000))
    else if tag == TAG_FLOAT then DecodedFloat(content)
    else if tag == TAG_BIT_STRING then DecodedBits(content)
    else if tag == TAG_OCTET_STRING then Ok(OctetString(content))
    else if tag == TAG_VISIBLE_STRING then Ok(VisibleString(content))
    else if tag == TAG_STRING then Ok(MmsString(content))
    else if tag == TAG_UTC_TIME then
      var t :- DecodedUTC(content);
      Ok(UtcTime(t))
    else if tag == TAG_BINARY_TIME then DecodedBinaryTime(content)
    else if tag == TAG_ARRAY then
      var elements :- DecodeElementsFrom(content, 0, []);
      Ok(Array(elements))
    else if tag == TAG_STRUCTURE then
      var members :- DecodeElementsFrom(content, 0, []);
      Ok(Structure(members))
    else Err
  }

  /** The content is sliced without a further check. */
  function DecodeCut(buf: bytes, tag: byte, start: nat, length: nat): (r: Result<(Value, nat)>)
    requires start > 0
    ensures r.Ok? ==> r.value.1 == start + length <= |buf|
    decreases |buf|, 0, 0
  {
    var content :- Sliced(buf, start, length);
    var v :- DecodeContent(tag, content);
    Ok((v, start + length))
  }

  /** A success moves the offset forward by a whole TLV and stays inside the buffer. */
  function DecodeValue(buf: bytes, offset: nat): (r: Result<(Value, nat)>)
    ensures r.Ok? ==> offset + 2 <= r.value.1 <= |buf|
    decreases |buf|, 0, 1
  {
    if offset >= |buf| then Err
    else
      var (length, start) :- LengthAt(buf, offset + 1);
      if start + length > |buf| then Err else DecodeCut(buf, buf[offset], start, length)
  }

  function DecodeElementsFrom(buf: bytes, offset: nat, acc: seq<Value>): Result<seq<Value>>
    decreases |buf|, 1, |buf| - offset
  {
    if offset >= |buf| then Ok(acc)
    else
      var (v, next) :- DecodeValue(buf, offset);
      DecodeElementsFrom(buf, next, acc + [v])
  }

  method DecodeElements(buf: bytes) returns (r: Result<seq<Value>>)
    ensures r == DecodeElementsFrom(buf, 0, [])
  {
    var elements: seq<Value> := [];
    var offset := 0;
    while offset < |buf|
      invariant 0 <= offset <= |buf|
      invariant DecodeElementsFrom(buf, 0, []) == DecodeElementsFrom(buf, offset, elements)
      decreases |buf| - offset
    {
      var found := DecodeValue(buf, offset);
      if found.IsFailure() {
        return found.PropagateFailure();
      }
      elements := elements + [found.value.0];
      offset := found.value.1;
    }
    return Ok(elements);
  }

  // ---- What survives the wire ----

  function NormTime(t: UTCTime): UTCTime {
    t.(fractions := t.fractions % 0x100_0000, accuracy := 0)
  }

  /** The value a receiver sees: masked and dropped fields made explicit. */
  function Norm(v: Value): Value
    decreases v
  {
    match v
    case Unsigned(u) => Unsigned(u % 0x1_0000_0000)
    case BitString(bits, size) => BitString(Fit(bits, (Abs(size) + 7) / 8), Abs(size))
    case UtcTime(t) => UtcTime(NormTime(t))
    case BinaryTime(ms, days, width) => if width == 6 then v else BinaryTime(ms, 0, 4)
    case Array(elements) => Array(NormAll(elements))
    case Structure(members) => Structure(NormAll(members))
    case _ => v
  }

  function NormAll(vs: seq<Value>): (ns: seq<Value>)
    ensures |ns| == |vs|
    ensures forall i :: 0 <= i < |vs| ==> ns[i] == Norm(vs[i])
    decreases vs
  {
    if vs == [] then [] else [Norm(vs[0])] + NormAll(vs[1..])
  }

  /** A data-access error occurs somewhere in the tree. */
  predicate HasError(v: Value)
    decreases v
  {
    match v
    case DataAccessError(_) => true
    case Array(elements) => AnyError(elements)
    case Structure(members) => AnyError(members)
    case _ => false
  }

  predicate AnyError(vs: seq<Value>)
    decreases vs
  {
    vs != [] && (HasError(vs[0]) || AnyError(vs[1..]))
  }

  lemma {:induction false} NormIdempotent(v: Value)
    ensures Norm(Norm(v)) == Norm(v)
    decreases v
  {
    match v
    case Array(elements) => NormAllIdempotent(elements);
    case Structure(members) => NormAllIdempotent(members);
    case _ =>
  }

  lemma {:induction false} NormAllIdempotent(vs: seq<Value>)
    ensures NormAll(NormAll(vs)) == NormAll(vs)
    decreases vs
  {
    if vs != [] {
      NormIdempotent(vs[0]);
      NormAllIdempotent(vs[1..]);
      assert NormAll(vs)[1..] == NormAll(vs[1..]);
    }
  }
}
