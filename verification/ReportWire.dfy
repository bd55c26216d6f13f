/** Information reports as octets: the element tree around them, and the time they carry. */
module ReportWire {
  import opened Bytes
  import opened BerIntegers
  import opened Ber
  import opened BerTrees
  import opened MmsValues
  import opened MmsPduRoundTrip
  import opened MmsWire
  import opened ReportOptions
  import opened Reports
  import opened ReportRoundTrip

  // ---- Time ----

  lemma ThousandfoldDay(seconds: nat)
    ensures seconds * 1000 / 86400000 == seconds / 86400
    ensures seconds * 1000 % 86400000 == seconds % 86400 * 1000
  {
    var q, r := seconds / 86400, seconds % 86400;
    assert seconds == q * 86400 + r;
    assert seconds * 1000 == q * 86400000 + r * 1000;
  }

  /**
   * The days since 1984 and the milliseconds of the day say the second of the time stamp; before 1984 only the second of
   * its day is left. 5113 days lie between the two epochs.
   */
  lemma TimeKept(utc: bytes)
    requires |utc| >= 4
    ensures var seconds := FromBE(utc[..4]);
            var t := ReportTime(utc);
            && t.width == 6 && t.milliseconds < 86400000 && t.milliseconds % 1000 == 0
            && (seconds >= 5113 * 86400 ==> (t.days + 5113) * 86400 + t.milliseconds / 1000 == seconds)
            && (seconds < 5113 * 86400 ==> t.days == 0 && t.milliseconds / 1000 == seconds % 86400)
  {
    hide FromBE;
    PowersOf256();
    assert utc[0..4] == utc[..4];
    var seconds: int := Number32(utc[0..4]);
    ThousandfoldDay(seconds);
    assert seconds / 86400 - 5113 < 0x1_0000;
  }

  // ---- The report ----

  const RPT: bytes := [0x52, 0x50, 0x54]

  /** The fields in front of the members, by the bits of OptFlds. */
  function HeaderFields(p: ReportParams): seq<Value> {
    [VisibleString(p.rptID), OptItem(p)]
    + (if Included(p.optFlds, 1) then [Unsigned(p.sqNum)] else [])
    + (if Included(p.optFlds, 2) then [ReportTime(p.timestamp)] else [])
    + (if Included(p.optFlds, 4) then [VisibleString(p.datSet)] else [])
    + (if Included(p.optFlds, 6) then [Boolean(p.bufOvfl)] else [])
    + (if Included(p.optFlds, 7) then [OctetString([0, 0, 0, 0, 0, 0, 0, 0])] else [])
    + (if Included(p.optFlds, 8) then [Unsigned(p.confRev)] else [])
    + [BitString(InclusionField(|p.values|, p.isGI), |p.values|)]
  }

  /** Reason 0x04 is the general interrogation, 0x40 the data change. */
  function ReasonFields(p: ReportParams): seq<Value> {
    seq(|p.values|, i requires 0 <= i < |p.values| =>
      BitString([if i < |p.reasonCodes| then p.reasonCodes[i] else if p.isGI then 0x04 else 0x40], 6))
  }

  /** Data references, then values, then reasons. */
  function MemberFields(p: ReportParams): seq<Value> {
    (if Included(p.optFlds, 5) then RefItems(UsedRefs(p)) else [])
    + Encodables(p.values)
    + (if Included(p.optFlds, 3) then ReasonFields(p) else [])
  }

  lemma FieldsByBits(p: ReportParams)
    ensures HeaderItems(p) == HeaderFields(p) && MemberItems(p) == MemberFields(p)
  {
    hide OptionsOf;
    hide Included;
    hide InclusionField;
    hide ReportTime;
    hide OptItem;
    hide Encodables;
    OptionsByBits(p.optFlds);
    assert ReasonItems(p) == ReasonFields(p);
    assert Zeros(8) == [0, 0, 0, 0, 0, 0, 0, 0];
  }

  /** An information report: the list named "RPT" at the server, and the values of its fields in order. */
  lemma ReportOnWire(p: ReportParams)
    requires Buildable(p)
    ensures EncodeElements(HeaderFields(p) + MemberFields(p)).Ok?
    ensures var fields := HeaderFields(p) + MemberFields(p);
            && Reads(ReportPDU(p), [Node(0xA3, [Node(0xA0, [Node(0xA1, [Leaf(0x80, RPT)]), Node(0xA0, ValueTrees(fields))])])])
            && CarryAll(ValueTrees(fields), fields)
  {
    hide Reads;
    hide Prim;
    hide ContextTLV;
    hide ResultBody;
    hide EncodeElements;
    hide HeaderFields;
    hide MemberFields;
    hide HeaderItems;
    hide MemberItems;
    hide ValueTrees;
    hide CarryAll;
    FieldsByBits(p);
    BodyIsItemList(p);
    var fields := HeaderFields(p) + MemberFields(p);
    ValuesOnWire(fields);
    var body, trees := ResultBody(p), ValueTrees(fields);
    var name, list := Prim(0xA1, REPORT_NAME), ContextTLV(0, true, body);
    NameReads();
    PrimSize(0xA1, REPORT_NAME);
    ContextSize(0, true, body);
    ContextNode(0, body, trees);
    PairReads(name, Node(0xA1, [Leaf(0x80, RPT)]), list, Node(0xA0, trees));
    ContextSize(0, true, name + list);
    ContextNode(0, name + list, [Node(0xA1, [Leaf(0x80, RPT)]), Node(0xA0, trees)]);
    NodeReads(0xA3, ReportService(p), [Node(0xA0, [Node(0xA1, [Leaf(0x80, RPT)]), Node(0xA0, trees)])]);
  }

  lemma NameReads()
    ensures Reads(Prim(0xA1, REPORT_NAME), [Node(0xA1, [Leaf(0x80, RPT)])])
  {
    hide Reads;
    LeafReads(0x80, RPT);
    assert Prim(0x80, RPT) == REPORT_NAME;
    NodeReads(0xA1, REPORT_NAME, [Leaf(0x80, RPT)]);
  }
}
