/**
 * Information reports: the server's builder and the client's independently written parser
 * (IEC 61850-7-2 report format over ISO 9506-2 InformationReport).
 */
module Reports {
  import opened Bytes
  import opened BerIntegers
  import opened Ber
  import opened MmsValues
  import opened MmsPdus
  import opened Powers

  // ---- The server's builder ----

  datatype ReportParams = ReportParams(
    rptID: Text, optFlds: bytes, sqNum: uint16, timestamp: bytes, datSet: Text, bufOvfl: bool,
    confRev: uint32, isGI: bool, values: seq<Value>, refs: seq<Text>, reasonCodes: bytes)

  /** The optional fields that OptFlds switches on. */
  datatype Options = Options(
    seqNum: bool, timestamp: bool, reason: bool, dataSet: bool,
    dataRef: bool, bufOvfl: bool, entryID: bool, confRev: bool)

  function OptionsOf(b: bytes): Options {
    var b0 := if |b| > 0 then b[0] else 0;
    var b1 := if |b| > 1 then b[1] else 0;
    Options(b0 / 0x40 % 2 == 1, b0 / 0x20 % 2 == 1, b0 / 0x10 % 2 == 1, b0 / 0x08 % 2 == 1,
            b0 / 0x04 % 2 == 1, b0 / 0x02 % 2 == 1, b0 % 2 == 1, b1 / 0x80 % 2 == 1)
  }

  /** encodeBitStringValue: the content length is written as one octet, whatever it is. */
  function BitStringOctets(bits: bytes, nBits: nat): bytes {
    var content := [(8 - nBits % 8) % 8] + bits;
    [TAG_BIT_STRING, |content| % 256] + content
  }

  function InclusionField(n: nat, allSet: bool): (b: bytes)
    ensures |b| == if n == 0 then 1 else (n + 7) / 8
  {
    if n == 0 then [0]
    else
      var k := (n + 7) / 8;
      seq(k, i requires 0 <= i < k => InclusionOctet(n, allSet, i))
  }

  function InclusionOctet(n: nat, allSet: bool, i: nat): byte
    requires i < (n + 7) / 8
  {
    var unused := (n + 7) / 8 * 8 - n;
    LowBits(unused);
    if !allSet then 0
    else if i == (n + 7) / 8 - 1 then 256 - Pow2(unused)
    else 255
  }

  lemma LowBits(u: nat)
    requires u <= 7
    ensures 1 <= Pow2(u) <= 128
  {
    Pow2Monotone(u, 7);
    assert Pow2(7) == 128;
  }

  method MakeInclusionField(nMembers: nat, allSet: bool) returns (b: array<byte>)
    ensures fresh(b) && b[..] == InclusionField(nMembers, allSet)
  {
    if nMembers == 0 {
      b := new byte[1][0];
      return;
    }
    var nBytes := (nMembers + 7) / 8;
    b := new byte[nBytes](_ => 0);
    if allSet {
      for i := 0 to nBytes
        invariant forall k :: 0 <= k < i ==> b[k] == 0xFF
      {
        b[i] := 0xFF;
      }
      var unused := nBytes * 8 - nMembers;
      LowBits(unused);
      if unused > 0 {
        b[nBytes - 1] := 256 - Pow2(unused);
      }
    }
  }

  /** utcTimeToBinaryTime6: milliseconds of the day and days since 1984 from the seconds octets. */
  function ReportTime(utc: bytes): Value {
    var seconds := if |utc| >= 4 then Number32(utc[0..4]) else 0;
    var days := seconds * 1000 / 86400000 - 5113;
    BinaryTime(seconds * 1000 % 86400000, if days < 0 then 0 else days % 0x1_0000, 6)
  }

  function ReasonOf(p: ReportParams, i: nat): byte {
    if i < |p.reasonCodes| then p.reasonCodes[i] else if p.isGI then 0x04 else 0x40
  }

  function ReasonOctets(p: ReportParams, i: nat): bytes
    requires i <= |p.values|
    decreases |p.values| - i
  {
    if i == |p.values| then [] else [TAG_BIT_STRING, 0x02, 0x02, ReasonOf(p, i)] + ReasonOctets(p, i + 1)
  }

  function RefOctets(refs: seq<Text>): bytes {
    if refs == [] then [] else Prim(TAG_VISIBLE_STRING, refs[0]) + RefOctets(refs[1..])
  }

  /** Members that do not encode leave no trace. */
  function ValueOctets(vs: seq<Value>): bytes {
    if vs == [] then []
    else
      var enc := EncodeValue(vs[0]);
      (if enc.Ok? then enc.value else []) + ValueOctets(vs[1..])
  }

  function UsedRefs(p: ReportParams): seq<Text> {
    if |p.refs| <= |p.values| then p.refs else p.refs[..|p.values|]
  }

  function When(flag: bool, s: bytes): bytes {
    if flag then s else []
  }

  /** The option octets as written into the report. */
  function OptBits(p: ReportParams): bytes {
    if p.optFlds == [] then [0, 0] else p.optFlds
  }

  /** Everything in front of the inclusion field. */
  function FrontOctets(p: ReportParams): bytes {
    var o := OptionsOf(p.optFlds);
    Prim(TAG_VISIBLE_STRING, p.rptID)
    + BitStringOctets(OptBits(p), 10)
    + When(o.seqNum, Prim(TAG_UNSIGNED, TwosComplement(p.sqNum)))
    + When(o.timestamp, [TAG_BINARY_TIME, 0x06] + TimeOctets(p.timestamp))
    + When(o.dataSet, Prim(TAG_VISIBLE_STRING, p.datSet))
    + When(o.bufOvfl, [TAG_BOOLEAN, 0x01, if p.bufOvfl then 0xFF else 0x00])
    + When(o.entryID, Prim(TAG_OCTET_STRING, Zeros(8)))
    + When(o.confRev, Prim(TAG_UNSIGNED, TwosComplement(p.confRev)))
  }

  function HeaderOctets(p: ReportParams): bytes {
    FrontOctets(p) + BitStringOctets(InclusionField(|p.values|, p.isGI), |p.values|)
  }

  function TimeOctets(utc: bytes): bytes {
    var t := ReportTime(utc);
    ToBE(t.milliseconds, 4) + ToBE(t.days, 2)
  }

  function ResultBody(p: ReportParams): bytes {
    var o := OptionsOf(p.optFlds);
    HeaderOctets(p)
    + When(o.dataRef, RefOctets(UsedRefs(p)))
    + ValueOctets(p.values)
    + When(o.reason, ReasonOctets(p, 0))
  }

  const REPORT_NAME: bytes := [0x80, 0x03, 0x52, 0x50, 0x54]

  function ReportService(p: ReportParams): bytes {
    ContextTLV(0, true, Prim(0xA1, REPORT_NAME) + ContextTLV(0, true, ResultBody(p)))
  }

  function ReportPDU(p: ReportParams): bytes {
    Prim(0xA3, ReportService(p))
  }

  /** BuildInformationReport: one buffer, appended to field by field and member by member. */
  method BuildInformationReport(p: ReportParams) returns (pdu: bytes)
    ensures pdu == ReportPDU(p)
  {
    hide Prim;
    hide ContextTLV;
    hide EncodeValue;
    hide OptionsOf;
    var o := OptionsOf(p.optFlds);
    var body := HeaderOctets(p);
    if o.dataRef {
      ghost var before := body;
      var refs := UsedRefs(p);
      assert refs[0..] == refs;
      assert body + RefOctets(refs) == before + RefOctets(refs);
      for i := 0 to |refs|
        invariant body + RefOctets(refs[i..]) == before + RefOctets(refs)
      {
        assert refs[i..][1..] == refs[i + 1..];
        assert body + (Prim(TAG_VISIBLE_STRING, refs[i]) + RefOctets(refs[i + 1..]))
            == (body + Prim(TAG_VISIBLE_STRING, refs[i])) + RefOctets(refs[i + 1..]);
        body := body + Prim(TAG_VISIBLE_STRING, refs[i]);
      }
    }
    assert body == HeaderOctets(p) + When(o.dataRef, RefOctets(UsedRefs(p)));
    body := AppendValues(body, p.values);
    if o.reason {
      body := AppendReasons(body, p);
    }
    assert body == ResultBody(p);
    var reportBody := Prim(0xA1, REPORT_NAME) + ContextTLV(0, true, body);
    pdu := Prim(0xA3, ContextTLV(0, true, reportBody));
  }

  method AppendValues(before: bytes, vs: seq<Value>) returns (body: bytes)
    ensures body == before + ValueOctets(vs)
  {
    hide EncodeValue;
    body := before;
    assert vs[0..] == vs;
    for i := 0 to |vs|
      invariant body + ValueOctets(vs[i..]) == before + ValueOctets(vs)
    {
      assert vs[i..][1..] == vs[i + 1..];
      var enc := EncodeValue(vs[i]);
      if enc.Ok? {
        assert body + (enc.value + ValueOctets(vs[i + 1..])) == (body + enc.value) + ValueOctets(vs[i + 1..]);
        body := body + enc.value;
      }
    }
  }

  method AppendReasons(before: bytes, p: ReportParams) returns (body: bytes)
    ensures body == before + ReasonOctets(p, 0)
  {
    var reason: byte := 0x04;
    if !p.isGI {
      reason := 0x40;
    }
    body := before;
    for i := 0 to |p.values|
      invariant body + ReasonOctets(p, i) == before + ReasonOctets(p, 0)
    {
      var r := reason;
      if i < |p.reasonCodes| {
        r := p.reasonCodes[i];
      }
      var item: bytes := [TAG_BIT_STRING, 0x02, 0x02, r];
      assert body + (item + ReasonOctets(p, i + 1)) == (body + item) + ReasonOctets(p, i + 1);
      body := body + item;
    }
  }

  // ---- The client's parser ----

  /** Where the parser reads from: octets at an offset, or (for reasoning) the values that were sent. */
  datatype Source =
    | Octets(data: bytes, offset: nat)
    | Items(items: seq<Value>)

  datatype Peeked = End | Bad | Got(value: Value, rest: Source)

  function Next(s: Source): Peeked {
    match s
    case Octets(data, offset) =>
      if offset >= |data| then End
      else
        (match DecodeValue(data, offset)
         case Ok((v, next)) => Got(v, Octets(data, next))
         case _ => Bad)
    case Items(items) =>
      if items == [] then End
      else if HasError(items[0]) then Bad
      else Got(Norm(items[0]), Items(items[1..]))
  }

  datatype Taken = Taken(value: Option<Value>, rest: Source)

  /** An optional field that is consumed whatever its type. */
  function TakeAny(s: Source, flag: bool): Taken {
    match Next(s)
    case Got(v, rest) => if flag then Taken(Some(v), rest) else Taken(None, s)
    case _ => Taken(None, s)
  }

  function TakeText(s: Source, flag: bool): Taken {
    match Next(s)
    case Got(v, rest) => if flag && v.VisibleString? then Taken(Some(v), rest) else Taken(None, s)
    case _ => Taken(None, s)
  }

  function TakeBits(s: Source, flag: bool): Taken {
    match Next(s)
    case Got(v, rest) => if flag && v.BitString? then Taken(Some(v), rest) else Taken(None, s)
    case _ => Taken(None, s)
  }

  datatype Report = Report(
    reportID: Text, sequenceNumber: uint32, hasSeqNum: bool, hasTimestamp: bool, rcbReference: Text,
    bufferOverflow: bool, confRev: uint32, values: seq<Value>, reasons: seq<int>)

  /** GetUint32 of an optional UNSIGNED or INTEGER item. */
  function Uint32Of(v: Option<Value>): uint32 {
    match v
    case Some(Unsigned(u)) => u % 0x1_0000_0000
    case Some(Integer(n)) => n % 0x1_0000_0000
    case _ => 0
  }

  predicate IsNumber(v: Option<Value>) {
    v.Some? && (v.value.Unsigned? || v.value.Integer?)
  }

  function TextOf(v: Option<Value>): Text {
    match v
    case Some(VisibleString(text)) => text
    case _ => []
  }

  function BitsOf(v: Option<Value>): (bytes, int) {
    match v
    case Some(BitString(bits, size)) => (bits, size)
    case _ => ([], 0)
  }

  /** decodeReasonBits. */
  function ReasonCode(v: Option<Value>): int {
    var bits := BitsOf(v).0;
    if bits == [] then 0
    else
      var b := bits[0];
      if b / 0x40 % 2 == 1 then 1
      else if b / 0x20 % 2 == 1 then 2
      else if b / 0x10 % 2 == 1 then 3
      else if b / 0x08 % 2 == 1 then 4
      else if b / 0x04 % 2 == 1 then 5
      else if b / 0x02 % 2 == 1 then 6
      else 0
  }

  predicate Included(bits: bytes, i: nat) {
    i / 8 < |bits| && bits[i / 8] / Pow2(7 - i % 8) % 2 == 1
  }

  datatype Members = Members(values: seq<Value>, reasons: seq<int>)

  /** The member loop from slot `i` on: data reference, value, reason, for every included slot. */
  function MembersFrom(s: Source, bits: bytes, n: int, i: nat, o: Options, acc: Members): Members
    decreases n - i
  {
    if i >= n then acc
    else if !Included(bits, i) then
      MembersFrom(s, bits, n, i + 1, o, Members(acc.values + [Nil], acc.reasons + [0]))
    else
      var s1 := TakeText(s, o.dataRef).rest;
      match Next(s1)
      case Bad => acc
      case End => MembersFrom(s1, bits, n, i + 1, o, Members(acc.values + [Nil], acc.reasons + [0]))
      case Got(v, s2) =>
        var reason := TakeBits(s2, o.reason);
        MembersFrom(reason.rest, bits, n, i + 1, o,
                    Members(acc.values + [v], acc.reasons + [ReasonCode(reason.value)]))
  }

  /** parseReportAccessResults; the parser has no step for an entry ID. */
  function ParseFields(s0: Source): Result<Report> {
    match Next(s0)
    case Bad => Err
    case _ =>
      var rptID := TakeAny(s0, true);
      var flds := TakeBits(rptID.rest, true);
      var o := OptionsOf(BitsOf(flds.value).0);
      var sqNum := TakeAny(flds.rest, o.seqNum);
      var time := TakeAny(sqNum.rest, o.timestamp);
      var dataSet := TakeText(time.rest, o.dataSet);
      var ovfl := TakeAny(dataSet.rest, o.bufOvfl);
      var confRev := TakeAny(ovfl.rest, o.confRev);
      var inclusion := TakeBits(confRev.rest, true);
      var (bits, n) := BitsOf(inclusion.value);
      var members := MembersFrom(inclusion.rest, bits, n, 0, o, Members([], []));
      Ok(Report(TextOf(rptID.value), Uint32Of(sqNum.value), IsNumber(sqNum.value), time.value.Some?,
                TextOf(dataSet.value), ovfl.value == Some(Boolean(true)), Uint32Of(confRev.value),
                members.values, members.reasons))
  }

  /** One turn of the loop at an included slot, on octets: `at` is where the value stands. */
  lemma MemberStep(data: bytes, at: nat, bits: bytes, n: int, i: nat, o: Options, acc: Members, start: nat)
    requires i < n && Included(bits, i) && TakeText(Octets(data, start), o.dataRef).rest == Octets(data, at)
    ensures var all := MembersFrom(Octets(data, start), bits, n, i, o, acc);
            && (at >= |data| ==>
                  all == MembersFrom(Octets(data, at), bits, n, i + 1, o, Members(acc.values + [Nil], acc.reasons + [0])))
            && (at < |data| && !DecodeValue(data, at).Ok? ==> all == acc)
            && (at < |data| && DecodeValue(data, at).Ok? ==>
                  var (v, next) := DecodeValue(data, at).value;
                  var reason := TakeBits(Octets(data, next), o.reason);
                  all == MembersFrom(reason.rest, bits, n, i + 1, o,
                                     Members(acc.values + [v], acc.reasons + [ReasonCode(reason.value)])))
  {
    hide DecodeValue;
    hide Included;
    hide TakeText;
    hide TakeBits;
    hide ReasonCode;
  }

  lemma SkippedStep(s: Source, bits: bytes, n: int, i: nat, o: Options, acc: Members)
    requires i < n && !Included(bits, i)
    ensures MembersFrom(s, bits, n, i, o, acc)
         == MembersFrom(s, bits, n, i + 1, o, Members(acc.values + [Nil], acc.reasons + [0]))
  {
    hide Included;
  }

  lemma TakeOctets(data: bytes, offset: nat, flag: bool)
    ensures var found := DecodeValue(data, offset);
            && TakeText(Octets(data, offset), flag).rest
            == (if flag && offset < |data| && found.Ok? && found.value.0.VisibleString?
                then Octets(data, found.value.1) else Octets(data, offset))
            && TakeBits(Octets(data, offset), flag)
            == (if flag && offset < |data| && found.Ok? && found.value.0.BitString?
                then Taken(Some(found.value.0), Octets(data, found.value.1)) else Taken(None, Octets(data, offset)))
  {
    hide DecodeValue;
  }

  lemma NoReason()
    ensures ReasonCode(None) == 0
  {
  }

  lemma LoopEnds(s: Source, bits: bytes, n: int, i: nat, o: Options, acc: Members)
    requires i >= n
    ensures MembersFrom(s, bits, n, i, o, acc) == acc
  {
  }

  /** The member loop of parseReportAccessResults over a mutable offset. */
  method ParseMembers(data: bytes, start: nat, bits: bytes, n: int, o: Options)
    returns (values: seq<Value>, reasons: seq<int>)
    ensures Members(values, reasons) == MembersFrom(Octets(data, start), bits, n, 0, o, Members([], []))
  {
    hide MembersFrom;
    hide DecodeValue;
    hide Included;
    hide TakeText;
    hide TakeBits;
    hide ReasonCode;
    NoReason();
    values, reasons := [], [];
    var offset: nat := start;
    var i := 0;
    ghost var expected := MembersFrom(Octets(data, start), bits, n, 0, o, Members([], []));
    while i < n
      invariant 0 <= i
      invariant expected == MembersFrom(Octets(data, offset), bits, n, i, o, Members(values, reasons))
    {
      ghost var before, acc := offset, Members(values, reasons);
      if !Included(bits, i) {
        SkippedStep(Octets(data, offset), bits, n, i, o, acc);
        values := values + [Nil];
        reasons := reasons + [0];
        i := i + 1;
        continue;
      }
      TakeOctets(data, offset, o.dataRef);
      if o.dataRef && offset < |data| {
        var ref := DecodeValue(data, offset);
        if ref.Ok? && ref.value.0.VisibleString? {
          offset := ref.value.1;
        }
      }
      var val := Nil;
      MemberStep(data, offset, bits, n, i, o, acc, before);
      if offset < |data| {
        var v := DecodeValue(data, offset);
        if v.IsFailure() {
          break;
        }
        offset := v.value.1;
        val := v.value.0;
        values := values + [val];
        var code := 0;
        TakeOctets(data, offset, o.reason);
        if o.reason && offset < |data| {
          var r := DecodeValue(data, offset);
          if r.Ok? && r.value.0.BitString? {
            offset := r.value.1;
            code := ReasonCode(Some(r.value.0));
          }
        }
        reasons := reasons + [code];
      } else {
        values := values + [val];
        reasons := reasons + [0];
      }
      i := i + 1;
    }
    if i >= n {
      LoopEnds(Octets(data, offset), bits, n, i, o, Members(values, reasons));
    }
  }

  /** parseInformationReport: the last constructed [0] element holds the access results. */
  function ListDataFrom(content: bytes, offset: nat, found: Option<bytes>): Option<bytes>
    decreases |content| - offset
  {
    if offset >= |content| then found
    else
      match TLVAt(content, offset)
      case Ok((tlv, next)) =>
        ListDataFrom(content, next, if IsContext(tlv, 0) && tlv.constructed then Some(tlv.value) else found)
      case _ => found
  }

  /** ParseUnconfirmedPDU, parseInformationReport and parseReportAccessResults in turn. */
  function ReceiveReport(pdu: View): Result<Report> {
    var body :- PduBody(0xA3, pdu);
    var (service, _) :- TLVAt(body, 0);
    match ListDataFrom(service.value, 0, None)
    case None => Err
    case Some(data) => ParseFields(Octets(data, 0))
  }
}
