/** Builder against parser: which members of a report the client recovers, exactly. */
module ReportRoundTrip {
  import opened Bytes
  import opened BerIntegers
  import opened Ber
  import opened MmsValues
  import opened MmsValueRoundTrip
  import opened MmsPdus
  import opened MmsPduRoundTrip
  import opened Reports

  // ---- The report body is a plain list of Data values ----

  function Field(flag: bool, v: Value): seq<Value> {
    if flag then [v] else []
  }

  /** Encoded with ten bits whatever its length, so six bits of the last octet are unused. */
  function OptItem(p: ReportParams): Value {
    BitString(OptBits(p), 8 * |OptBits(p)| - 6)
  }

  function HeaderItems(p: ReportParams): seq<Value> {
    var o := OptionsOf(p.optFlds);
    [VisibleString(p.rptID), OptItem(p)]
    + Field(o.seqNum, Unsigned(p.sqNum))
    + Field(o.timestamp, ReportTime(p.timestamp))
    + Field(o.dataSet, VisibleString(p.datSet))
    + Field(o.bufOvfl, Boolean(p.bufOvfl))
    + Field(o.entryID, OctetString(Zeros(8)))
    + Field(o.confRev, Unsigned(p.confRev))
    + [BitString(InclusionField(|p.values|, p.isGI), |p.values|)]
  }

  function RefItems(refs: seq<Text>): (items: seq<Value>)
    ensures |items| == |refs|
    ensures forall i :: 0 <= i < |refs| ==> items[i] == VisibleString(refs[i])
  {
    seq(|refs|, i requires 0 <= i < |refs| => VisibleString(refs[i]))
  }

  function ReasonItems(p: ReportParams): (items: seq<Value>)
    ensures |items| == |p.values|
    ensures forall i :: 0 <= i < |items| ==> items[i] == BitString([ReasonOf(p, i)], 6)
  {
    seq(|p.values|, i requires 0 <= i < |p.values| => BitString([ReasonOf(p, i)], 6))
  }

  /** The members that leave a trace in a report. */
  function Encodables(vs: seq<Value>): (e: seq<Value>)
    ensures |e| <= |vs|
    ensures forall v :: v in e ==> EncodeValue(v).Ok?
  {
    if vs == [] then []
    else (if EncodeValue(vs[0]).Ok? then [vs[0]] else []) + Encodables(vs[1..])
  }

  predicate AllEncode(vs: seq<Value>) {
    forall v :: v in vs ==> EncodeValue(v).Ok?
  }

  lemma {:induction false} EncodablesAll(vs: seq<Value>)
    requires AllEncode(vs)
    ensures Encodables(vs) == vs
  {
    hide EncodeValue;
    if vs != [] {
      EncodablesAll(vs[1..]);
    }
  }

  function MemberItems(p: ReportParams): seq<Value> {
    var o := OptionsOf(p.optFlds);
    (if o.dataRef then RefItems(UsedRefs(p)) else []) + Encodables(p.values) + (if o.reason then ReasonItems(p) else [])
  }

  /** Reports whose own lengths hold: option octets with a short length, less than 4 GiB in all. */
  predicate Sendable(p: ReportParams) {
    |p.optFlds| <= 126 && |ResultBody(p)| < LIMIT - 100
  }

  /** The one-octet length of the inclusion field holds. */
  predicate Buildable(p: ReportParams) {
    Sendable(p) && 1 <= |p.values| <= 1008
  }

  lemma {:induction false} EncodeAppend(a: seq<Value>, b: seq<Value>)
    requires EncodeElements(a).Ok? && EncodeElements(b).Ok?
    ensures EncodeElements(a + b) == Ok(EncodeElements(a).value + EncodeElements(b).value)
  {
    hide EncodeValue;
    if a == [] {
      assert a + b == b;
      assert EncodeElements(a).value + EncodeElements(b).value == EncodeElements(b).value;
    } else {
      assert (a + b)[1..] == a[1..] + b;
      EncodeAppend(a[1..], b);
      PrefixedTwice(EncodeValue(a[0]).value, EncodeElements(a[1..]).value, EncodeElements(b));
    }
  }

  lemma EncodeOne(v: Value)
    requires EncodeValue(v).Ok?
    ensures EncodeElements([v]) == EncodeValue(v)
  {
    hide EncodeValue;
    assert [v][1..] == [];
    PrefixedTwice(EncodeValue(v).value, [], Ok([]));
  }

  lemma FieldEncodes(flag: bool, v: Value, s: bytes)
    requires flag ==> EncodeValue(v) == Ok(s)
    ensures EncodeElements(Field(flag, v)) == Ok(When(flag, s))
  {
    hide EncodeValue;
    if flag {
      EncodeOne(v);
    }
  }

  /** The single length octet is right as long as the content is short. */
  lemma BitStringEncodes(bits: bytes, nBits: nat)
    requires |bits| == (nBits + 7) / 8 && 0 < nBits && |bits| < 127
    ensures EncodeValue(BitString(bits, nBits)) == Ok(BitStringOctets(bits, nBits))
  {
    assert Fit(bits, |bits|) == bits;
    var content := BitContent(bits, nBits);
    assert content == [(8 - nBits % 8) % 8] + bits;
    assert LengthBytes(|content|) == [|content| % 256];
    assert Prim(TAG_BIT_STRING, content) == [TAG_BIT_STRING, |content| % 256] + content;
  }

  lemma OptItemEncodes(p: ReportParams)
    requires |p.optFlds| <= 126
    ensures EncodeValue(OptItem(p)) == Ok(BitStringOctets(OptBits(p), 10))
  {
    hide EncodeValue;
    var bits := OptBits(p);
    BitStringEncodes(bits, 8 * |bits| - 6);
    assert (8 * |bits| - 6) % 8 == 2;
  }

  lemma ShortForms(p: ReportParams)
    ensures EncodeValue(Boolean(p.bufOvfl)) == Ok([TAG_BOOLEAN, 0x01, if p.bufOvfl then 0xFF else 0x00])
    ensures EncodeValue(ReportTime(p.timestamp)) == Ok([TAG_BINARY_TIME, 0x06] + TimeOctets(p.timestamp))
    ensures EncodeValue(Unsigned(p.sqNum)) == Ok(Prim(TAG_UNSIGNED, TwosComplement(p.sqNum)))
    ensures EncodeValue(Unsigned(p.confRev)) == Ok(Prim(TAG_UNSIGNED, TwosComplement(p.confRev)))
  {
    hide TwosComplement;
    var flag: bytes := [if p.bufOvfl then 0xFF else 0x00];
    assert Prim(TAG_BOOLEAN, flag) == [TAG_BOOLEAN, 0x01, flag[0]];
    var t := ReportTime(p.timestamp);
    assert Prim(TAG_BINARY_TIME, TimeOctets(p.timestamp)) == [TAG_BINARY_TIME, 0x06] + TimeOctets(p.timestamp);
  }

  lemma HeaderEncodes(p: ReportParams)
    requires Buildable(p)
    ensures EncodeElements(HeaderItems(p)) == Ok(HeaderOctets(p))
  {
    hide EncodeValue;
    hide EncodeElements;
    hide OptionsOf;
    hide Prim;
    hide BitStringOctets;
    hide TwosComplement;
    hide TimeOctets;
    hide ReportTime;
    hide InclusionField;
    hide OptItem;
    hide OptBits;
    var o := OptionsOf(p.optFlds);
    ShortForms(p);
    OptItemEncodes(p);
    BitStringEncodes(InclusionField(|p.values|, p.isGI), |p.values|);
    var a := [VisibleString(p.rptID), OptItem(p)];
    assert EncodeElements(a) == Ok(Prim(TAG_VISIBLE_STRING, p.rptID) + BitStringOctets(OptBits(p), 10)) by {
      TextEncodes(p.rptID);
      EncodeOne(VisibleString(p.rptID));
      EncodeOne(OptItem(p));
      assert a == [VisibleString(p.rptID)] + [OptItem(p)];
      EncodeAppend([VisibleString(p.rptID)], [OptItem(p)]);
    }
    TextEncodes(p.datSet);
    OctetsEncode(Zeros(8));
    FieldEncodes(o.seqNum, Unsigned(p.sqNum), Prim(TAG_UNSIGNED, TwosComplement(p.sqNum)));
    FieldEncodes(o.timestamp, ReportTime(p.timestamp), [TAG_BINARY_TIME, 0x06] + TimeOctets(p.timestamp));
    FieldEncodes(o.dataSet, VisibleString(p.datSet), Prim(TAG_VISIBLE_STRING, p.datSet));
    FieldEncodes(o.bufOvfl, Boolean(p.bufOvfl), [TAG_BOOLEAN, 0x01, if p.bufOvfl then 0xFF else 0x00]);
    FieldEncodes(o.entryID, OctetString(Zeros(8)), Prim(TAG_OCTET_STRING, Zeros(8)));
    FieldEncodes(o.confRev, Unsigned(p.confRev), Prim(TAG_UNSIGNED, TwosComplement(p.confRev)));
    EncodeOne(BitString(InclusionField(|p.values|, p.isGI), |p.values|));
    var b := a + Field(o.seqNum, Unsigned(p.sqNum));
    EncodeAppend(a, Field(o.seqNum, Unsigned(p.sqNum)));
    var c := b + Field(o.timestamp, ReportTime(p.timestamp));
    EncodeAppend(b, Field(o.timestamp, ReportTime(p.timestamp)));
    var d := c + Field(o.dataSet, VisibleString(p.datSet));
    EncodeAppend(c, Field(o.dataSet, VisibleString(p.datSet)));
    var e := d + Field(o.bufOvfl, Boolean(p.bufOvfl));
    EncodeAppend(d, Field(o.bufOvfl, Boolean(p.bufOvfl)));
    var f := e + Field(o.entryID, OctetString(Zeros(8)));
    EncodeAppend(e, Field(o.entryID, OctetString(Zeros(8))));
    var g := f + Field(o.confRev, Unsigned(p.confRev));
    EncodeAppend(f, Field(o.confRev, Unsigned(p.confRev)));
    EncodeAppend(g, [BitString(InclusionField(|p.values|, p.isGI), |p.values|)]);
  }

  lemma TextEncodes(s: Text)
    ensures EncodeValue(VisibleString(s)) == Ok(Prim(TAG_VISIBLE_STRING, s))
  {
  }

  lemma OctetsEncode(s: bytes)
    ensures EncodeValue(OctetString(s)) == Ok(Prim(TAG_OCTET_STRING, s))
  {
  }

  lemma {:induction false} RefsEncode(refs: seq<Text>)
    ensures EncodeElements(RefItems(refs)) == Ok(RefOctets(refs))
  {
    hide EncodeValue;
    hide Prim;
    if refs != [] {
      RefsEncode(refs[1..]);
      assert RefItems(refs)[1..] == RefItems(refs[1..]);
      TextEncodes(refs[0]);
    }
  }

  lemma {:induction false} ValuesEncode(vs: seq<Value>)
    ensures EncodeElements(Encodables(vs)) == Ok(ValueOctets(vs))
  {
    hide EncodeValue;
    if vs != [] {
      ValuesEncode(vs[1..]);
      if EncodeValue(vs[0]).Ok? {
        assert Encodables(vs)[1..] == Encodables(vs[1..]);
      } else {
        assert Encodables(vs) == [] + Encodables(vs[1..]) == Encodables(vs[1..]);
        assert ValueOctets(vs) == [] + ValueOctets(vs[1..]) == ValueOctets(vs[1..]);
      }
    }
  }

  lemma {:induction false} ReasonsEncode(p: ReportParams, i: nat)
    requires i <= |p.values|
    ensures EncodeElements(ReasonItems(p)[i..]) == Ok(ReasonOctets(p, i))
    decreases |p.values| - i
  {
    hide EncodeValue;
    if i < |p.values| {
      ReasonsEncode(p, i + 1);
      assert ReasonItems(p)[i..][1..] == ReasonItems(p)[i + 1..];
      assert BitStringOctets([ReasonOf(p, i)], 6) == [TAG_BIT_STRING, 0x02, 0x02, ReasonOf(p, i)];
      BitStringEncodes([ReasonOf(p, i)], 6);
    }
  }

  /** Every hand-written field encoder of the builder agrees with EncodeValue. */
  lemma BodyIsItemList(p: ReportParams)
    requires Buildable(p)
    ensures EncodeElements(HeaderItems(p) + MemberItems(p)) == Ok(ResultBody(p))
  {
    hide EncodeElements;
    hide HeaderItems;
    hide HeaderOctets;
    hide OptionsOf;
    hide ReasonOctets;
    hide ValueOctets;
    hide RefOctets;
    hide Encodables;
    var o := OptionsOf(p.optFlds);
    HeaderEncodes(p);
    RefsEncode(UsedRefs(p));
    ValuesEncode(p.values);
    ReasonsEncode(p, 0);
    assert ReasonItems(p)[0..] == ReasonItems(p);
    NothingEncoded();
    var refs := if o.dataRef then RefItems(UsedRefs(p)) else [];
    var reasons := if o.reason then ReasonItems(p) else [];
    EncodeAppend(refs, Encodables(p.values));
    EncodeAppend(refs + Encodables(p.values), reasons);
    EncodeAppend(HeaderItems(p), MemberItems(p));
    var h, r, v, q := HeaderOctets(p), EncodeElements(refs).value, ValueOctets(p.values), EncodeElements(reasons).value;
    assert h + (r + v + q) == h + r + v + q;
  }

  // ---- Octets and items look the same to the parser ----

  /** The octets from the offset on spell the values still to come. */
  predicate Same(a: Source, b: Source) {
    && a.Octets? && b.Items?
    && Fits(EncodeElements(b.items))
    && At(a.data, a.offset, EncodeElements(b.items).value)
    && a.offset + |EncodeElements(b.items).value| == |a.data|
  }

  predicate SamePeek(a: Peeked, b: Peeked) {
    match (a, b)
    case (End, End) => true
    case (Bad, Bad) => true
    case (Got(v, s), Got(w, t)) => v == w && Same(s, t)
    case _ => false
  }

  lemma NextSame(a: Source, b: Source)
    requires Same(a, b)
    ensures SamePeek(Next(a), Next(b))
  {
    hide At;
    hide EncodeValue;
    hide EncodeElements;
    hide DecodeValue;
    hide Norm;
    hide HasError;
    if b.items == [] {
      NothingEncoded();
    } else {
      var v, rest := b.items[0], b.items[1..];
      EncodeElementsSplit(b.items);
      EncodedSize(v);
      AtConcat(a.data, a.offset, EncodeValue(v).value, EncodeElements(rest).value);
      ValueRoundTrip(a.data, a.offset, v);
    }
  }

  predicate SameTaken(a: Taken, b: Taken) {
    a.value == b.value && Same(a.rest, b.rest)
  }

  lemma TakeSame(a: Source, b: Source, flag: bool)
    requires Same(a, b)
    ensures SameTaken(TakeAny(a, flag), TakeAny(b, flag))
    ensures SameTaken(TakeText(a, flag), TakeText(b, flag))
    ensures SameTaken(TakeBits(a, flag), TakeBits(b, flag))
  {
    hide Same;
    hide Next;
    NextSame(a, b);
  }

  lemma {:induction false} MembersSame(a: Source, b: Source, bits: bytes, n: int, i: nat, o: Options, acc: Members)
    requires Same(a, b)
    ensures MembersFrom(a, bits, n, i, o, acc) == MembersFrom(b, bits, n, i, o, acc)
    decreases n - i
  {
    hide Same;
    hide Next;
    hide TakeText;
    hide TakeBits;
    hide Included;
    if i < n {
      if !Included(bits, i) {
        MembersSame(a, b, bits, n, i + 1, o, Members(acc.values + [Nil], acc.reasons + [0]));
      } else {
        TakeSame(a, b, o.dataRef);
        var a1, b1 := TakeText(a, o.dataRef).rest, TakeText(b, o.dataRef).rest;
        NextSame(a1, b1);
        match (Next(a1), Next(b1)) {
          case (Got(v, a2), Got(_, b2)) =>
            TakeSame(a2, b2, o.reason);
            var ra, rb := TakeBits(a2, o.reason), TakeBits(b2, o.reason);
            MembersSame(ra.rest, rb.rest, bits, n, i + 1, o,
                        Members(acc.values + [v], acc.reasons + [ReasonCode(ra.value)]));
          case (End, _) =>
            MembersSame(a1, b1, bits, n, i + 1, o, Members(acc.values + [Nil], acc.reasons + [0]));
          case _ =>
        }
      }
    }
  }

  lemma FieldsSame(a: Source, b: Source)
    requires Same(a, b)
    ensures ParseFields(a) == ParseFields(b)
  {
    hide Same;
    hide Next;
    hide TakeAny;
    hide TakeText;
    hide TakeBits;
    hide MembersFrom;
    hide OptionsOf;
    hide BitsOf;
    NextSame(a, b);
    TakeSame(a, b, true);
    var a1, b1 := TakeAny(a, true), TakeAny(b, true);
    TakeSame(a1.rest, b1.rest, true);
    var a2, b2 := TakeBits(a1.rest, true), TakeBits(b1.rest, true);
    var o := OptionsOf(BitsOf(a2.value).0);
    TakeSame(a2.rest, b2.rest, o.seqNum);
    var a3, b3 := TakeAny(a2.rest, o.seqNum), TakeAny(b2.rest, o.seqNum);
    TakeSame(a3.rest, b3.rest, o.timestamp);
    var a4, b4 := TakeAny(a3.rest, o.timestamp), TakeAny(b3.rest, o.timestamp);
    TakeSame(a4.rest, b4.rest, o.dataSet);
    var a5, b5 := TakeText(a4.rest, o.dataSet), TakeText(b4.rest, o.dataSet);
    TakeSame(a5.rest, b5.rest, o.bufOvfl);
    var a6, b6 := TakeAny(a5.rest, o.bufOvfl), TakeAny(b5.rest, o.bufOvfl);
    TakeSame(a6.rest, b6.rest, o.confRev);
    var a7, b7 := TakeAny(a6.rest, o.confRev), TakeAny(b6.rest, o.confRev);
    TakeSame(a7.rest, b7.rest, true);
    var a8, b8 := TakeBits(a7.rest, true), TakeBits(b7.rest, true);
    var (bits, n) := BitsOf(a8.value);
    MembersSame(a8.rest, b8.rest, bits, n, 0, o, Members([], []));
  }

  function ReportItems(p: ReportParams): seq<Value> {
    HeaderItems(p) + MemberItems(p)
  }

  lemma EnvelopeOpens(p: ReportParams, beyond: bytes)
    requires |ResultBody(p)| < LIMIT - 100
    ensures ReceiveReport(View(ReportPDU(p), beyond)) == ParseFields(Octets(ResultBody(p), 0))
  {
    hide At;
    hide TLVAt;
    hide PduBody;
    hide ResultBody;
    hide ParseFields;
    hide ContextTLV;
    hide Prim;
    var body := ResultBody(p);
    var name, list := Prim(0xA1, REPORT_NAME), ContextTLV(0, true, body);
    var reportBody := name + list;
    ContextSize(0, true, body);
    PrimSize(0xA1, REPORT_NAME);
    ContextSize(0, true, reportBody);
    var service := ContextTLV(0, true, reportBody);
    WholeBody(0xA3, service, beyond);
    AtWhole(service);
    ContextRead(service, 0, 0, true, reportBody);
    AtWhole(reportBody);
    AtConcat(reportBody, 0, name, list);
    PrimIsTLV(CLASS_CONTEXT, true, 1, REPORT_NAME);
    assert name == ContextTLV(1, true, REPORT_NAME) by {
      NameIsContext();
    }
    ContextRead(reportBody, 0, 1, true, REPORT_NAME);
    ContextRead(reportBody, |name|, 0, true, body);
    assert ListDataFrom(reportBody, 0, None) == ListDataFrom(reportBody, |name|, None);
    assert ListDataFrom(reportBody, |name|, None) == ListDataFrom(reportBody, |reportBody|, Some(body));
  }

  lemma NameIsContext()
    ensures Prim(0xA1, REPORT_NAME) == ContextTLV(1, true, REPORT_NAME)
  {
    PrimIsTLV(CLASS_CONTEXT, true, 1, REPORT_NAME);
  }

  /** What the client gets depends on the decoded items alone. */
  lemma ReportIsItemParse(p: ReportParams, beyond: bytes)
    requires Buildable(p)
    ensures ReceiveReport(View(ReportPDU(p), beyond)) == ParseFields(Items(ReportItems(p)))
  {
    hide ResultBody;
    hide ParseFields;
    hide EncodeElements;
    hide HeaderItems;
    hide MemberItems;
    BodyIsItemList(p);
    EnvelopeOpens(p, beyond);
    AtWhole(ResultBody(p));
    FieldsSame(Octets(ResultBody(p), 0), Items(ReportItems(p)));
  }
}
