/** The exact domain on which builder and parser agree about the members of a report. */
module ReportDelivery {
  import opened Bytes
  import opened MmsValues
  import opened Reports
  import opened ReportRoundTrip

  // ---- The header, one field at a time ----

  lemma StepAny(flag: bool, v: Value, tail: seq<Value>)
    requires !HasError(v) && Norm(v) == v
    ensures flag ==> TakeAny(Items(Field(flag, v) + tail), flag) == Taken(Some(v), Items(tail))
    ensures !flag ==> TakeAny(Items(Field(flag, v) + tail), flag) == Taken(None, Items(tail))
  {
    Peel(flag, v, tail);
  }

  lemma StepText(flag: bool, text: Text, tail: seq<Value>)
    ensures TakeText(Items(Field(flag, VisibleString(text)) + tail), flag)
         == Taken(if flag then Some(VisibleString(text)) else None, Items(tail))
  {
    Peel(flag, VisibleString(text), tail);
  }

  lemma Peel(flag: bool, v: Value, tail: seq<Value>)
    ensures flag ==> (Field(flag, v) + tail)[0] == v && (Field(flag, v) + tail)[1..] == tail
    ensures !flag ==> Field(flag, v) + tail == tail
  {
  }

  lemma Regroup(a: seq<Value>, b: seq<Value>, c: seq<Value>)
    ensures (a + b) + c == a + (b + c)
  {
  }

  /** The items still to come, before each of the last header steps. */
  function FromInclusion(p: ReportParams): seq<Value> {
    Field(true, BitString(InclusionField(|p.values|, p.isGI), |p.values|)) + MemberItems(p)
  }

  function FromConfRev(p: ReportParams): seq<Value> {
    Field(OptionsOf(p.optFlds).confRev, Unsigned(p.confRev)) + FromInclusion(p)
  }

  function FromEntryID(p: ReportParams): seq<Value> {
    Field(OptionsOf(p.optFlds).entryID, OctetString(Zeros(8))) + FromConfRev(p)
  }

  function FromSeqNum(p: ReportParams): seq<Value> {
    var o := OptionsOf(p.optFlds);
    Field(o.seqNum, Unsigned(p.sqNum))
    + (Field(o.timestamp, ReportTime(p.timestamp))
       + (Field(o.dataSet, VisibleString(p.datSet))
          + (Field(o.bufOvfl, Boolean(p.bufOvfl)) + FromEntryID(p))))
  }

  lemma ItemsInOrder(p: ReportParams)
    ensures ReportItems(p) == [VisibleString(p.rptID), OptItem(p)] + FromSeqNum(p)
  {
    hide OptionsOf;
    hide InclusionField;
    hide ReportTime;
    hide MemberItems;
    hide Zeros;
    hide Field;
    var o := OptionsOf(p.optFlds);
    var p0 := [VisibleString(p.rptID), OptItem(p)];
    var f1, f2 := Field(o.seqNum, Unsigned(p.sqNum)), Field(o.timestamp, ReportTime(p.timestamp));
    var f3, f4 := Field(o.dataSet, VisibleString(p.datSet)), Field(o.bufOvfl, Boolean(p.bufOvfl));
    var f5, f6 := Field(o.entryID, OctetString(Zeros(8))), Field(o.confRev, Unsigned(p.confRev));
    var incl := BitString(InclusionField(|p.values|, p.isGI), |p.values|);
    IsField(incl);
    var p1 := p0 + f1;
    var p2 := p1 + f2;
    var p3 := p2 + f3;
    var p4 := p3 + f4;
    var p5 := p4 + f5;
    var p6 := p5 + f6;
    Regroup(p6, [incl], MemberItems(p));
    Regroup(p5, f6, FromInclusion(p));
    Regroup(p4, f5, FromConfRev(p));
    Regroup(p3, f4, FromEntryID(p));
    Regroup(p2, f3, f4 + FromEntryID(p));
    Regroup(p1, f2, f3 + (f4 + FromEntryID(p)));
    Regroup(p0, f1, f2 + (f3 + (f4 + FromEntryID(p))));
  }

  lemma IsField(v: Value)
    ensures Field(true, v) == [v]
  {
  }

  lemma OptItemRead(p: ReportParams)
    ensures Norm(OptItem(p)) == OptItem(p) && OptItem(p).BitString? && !HasError(OptItem(p))
    ensures OptionsOf(OptItem(p).bitBytes) == OptionsOf(p.optFlds)
  {
    var bits := OptBits(p);
    assert bits[..|bits|] == bits;
    assert (8 * |bits| - 6 + 7) / 8 == |bits|;
  }

  lemma InclusionRead(n: nat, isGI: bool)
    requires n > 0
    ensures Norm(BitString(InclusionField(n, isGI), n)) == BitString(InclusionField(n, isGI), n)
  {
    var bits := InclusionField(n, isGI);
    assert bits[..|bits|] == bits;
  }

  /** Report ID and option bits. */
  lemma LeadParsed(p: ReportParams)
    ensures TakeAny(Items(ReportItems(p)), true).value == Some(VisibleString(p.rptID))
    ensures TakeBits(TakeAny(Items(ReportItems(p)), true).rest, true)
         == Taken(Some(OptItem(p)), Items(FromSeqNum(p)))
  {
    hide FromSeqNum;
    hide ReportItems;
    ItemsInOrder(p);
    hide OptItem;
    OptItemRead(p);
    var rest := [OptItem(p)] + FromSeqNum(p);
    assert ReportItems(p) == [VisibleString(p.rptID)] + rest;
    assert ReportItems(p)[1..] == rest && rest[1..] == FromSeqNum(p);
  }

  lemma OptionalParsed(p: ReportParams)
    ensures var o := OptionsOf(p.optFlds);
            var sqNum := TakeAny(Items(FromSeqNum(p)), o.seqNum);
            var time := TakeAny(sqNum.rest, o.timestamp);
            var dataSet := TakeText(time.rest, o.dataSet);
            && sqNum.value == (if o.seqNum then Some(Unsigned(p.sqNum)) else None)
            && time.value.Some? == o.timestamp
            && dataSet.value == (if o.dataSet then Some(VisibleString(p.datSet)) else None)
            && TakeAny(dataSet.rest, o.bufOvfl)
            == Taken(if o.bufOvfl then Some(Boolean(p.bufOvfl)) else None, Items(FromEntryID(p)))
  {
    hide OptionsOf;
    hide TakeAny;
    hide TakeText;
    hide Field;
    hide FromEntryID;
    hide ReportTime;
    var o := OptionsOf(p.optFlds);
    var e := FromEntryID(p);
    var d := Field(o.bufOvfl, Boolean(p.bufOvfl)) + e;
    var c := Field(o.dataSet, VisibleString(p.datSet)) + d;
    var b := Field(o.timestamp, ReportTime(p.timestamp)) + c;
    StepAny(o.seqNum, Unsigned(p.sqNum), b);
    TimeStays(p.timestamp);
    StepAny(o.timestamp, ReportTime(p.timestamp), c);
    StepText(o.dataSet, p.datSet, d);
    StepAny(o.bufOvfl, Boolean(p.bufOvfl), e);
  }

  lemma TimeStays(utc: bytes)
    ensures Norm(ReportTime(utc)) == ReportTime(utc) && !HasError(ReportTime(utc))
  {
  }

  /**
   * The last header steps. With an entry ID in the report the parser takes it for the configuration
   * revision, or stumbles over it, and never finds the inclusion field.
   */
  lemma BackParsed(p: ReportParams)
    requires |p.values| > 0
    ensures var o := OptionsOf(p.optFlds);
            var confRev := TakeAny(Items(FromEntryID(p)), o.confRev);
            var inclusion := TakeBits(confRev.rest, true);
            && Uint32Of(confRev.value) == (if o.confRev && !o.entryID then p.confRev else 0)
            && (o.entryID ==> inclusion.value == None)
            && (!o.entryID ==>
                  inclusion == Taken(Some(BitString(InclusionField(|p.values|, p.isGI), |p.values|)),
                                     Items(MemberItems(p))))
  {
    hide OptionsOf;
    hide MemberItems;
    hide InclusionField;
    hide Zeros;
    hide Norm;
    hide HasError;
    hide TakeAny;
    hide Field;
    hide FromEntryID;
    hide FromConfRev;
    hide FromInclusion;
    var o := OptionsOf(p.optFlds);
    var incl := BitString(InclusionField(|p.values|, p.isGI), |p.values|);
    InclusionRead(|p.values|, p.isGI);
    PlainLeaves(p, incl);
    TailSteps(p);
    if o.entryID {
      if o.confRev {
        StepAny(true, OctetString(Zeros(8)), FromConfRev(p));
        NextField(o.confRev, Unsigned(p.confRev), FromInclusion(p));
      } else {
        SkipAny(Items(FromEntryID(p)));
        NextField(true, OctetString(Zeros(8)), FromConfRev(p));
      }
    } else {
      StepAny(o.confRev, Unsigned(p.confRev), FromInclusion(p));
      NextField(true, incl, MemberItems(p));
    }
  }

  lemma TailSteps(p: ReportParams)
    ensures var o := OptionsOf(p.optFlds);
            && FromEntryID(p) == (if o.entryID then Field(true, OctetString(Zeros(8))) + FromConfRev(p) else FromConfRev(p))
            && FromConfRev(p) == Field(o.confRev, Unsigned(p.confRev)) + FromInclusion(p)
            && FromInclusion(p) == Field(true, BitString(InclusionField(|p.values|, p.isGI), |p.values|)) + MemberItems(p)
  {
    hide OptionsOf;
    hide InclusionField;
    hide MemberItems;
    Peel(OptionsOf(p.optFlds).entryID, OctetString(Zeros(8)), FromConfRev(p));
  }

  lemma NextField(flag: bool, v: Value, tail: seq<Value>)
    requires !HasError(v)
    ensures flag ==> Next(Items(Field(flag, v) + tail)) == Got(Norm(v), Items(tail))
  {
    Peel(flag, v, tail);
  }

  lemma SkipAny(s: Source)
    ensures TakeAny(s, false) == Taken(None, s)
  {
  }

  lemma PlainLeaves(p: ReportParams, incl: Value)
    requires incl.BitString? && Norm(incl) == incl
    ensures !HasError(incl)
    ensures Norm(Unsigned(p.confRev)) == Unsigned(p.confRev) && !HasError(Unsigned(p.confRev))
    ensures Norm(OctetString(Zeros(8))) == OctetString(Zeros(8)) && !HasError(OctetString(Zeros(8)))
  {
  }

  function MembersOf(p: ReportParams): Members {
    var o := OptionsOf(p.optFlds);
    if o.entryID then Members([], [])
    else MembersFrom(Items(MemberItems(p)), InclusionField(|p.values|, p.isGI), |p.values|, 0, o, Members([], []))
  }

  /** Every field the client reports, given the members it found. */
  function ExpectedReport(p: ReportParams, m: Members): Report {
    var o := OptionsOf(p.optFlds);
    Report(p.rptID, if o.seqNum then p.sqNum else 0, o.seqNum, o.timestamp,
           if o.dataSet then p.datSet else [], o.bufOvfl && p.bufOvfl,
           if o.confRev && !o.entryID then p.confRev else 0, m.values, m.reasons)
  }

  lemma HeaderParsed(p: ReportParams)
    requires |p.values| > 0
    ensures ParseFields(Items(ReportItems(p))) == Ok(ExpectedReport(p, MembersOf(p)))
  {
    hide OptionsOf;
    hide TakeAny;
    hide TakeText;
    hide TakeBits;
    hide ReportItems;
    hide FromSeqNum;
    hide FromEntryID;
    hide MemberItems;
    hide InclusionField;
    LeadParsed(p);
    OptionalParsed(p);
    BackParsed(p);
    OptItemRead(p);
    FirstItemGood(p);
  }

  lemma FirstItemGood(p: ReportParams)
    ensures Next(Items(ReportItems(p))).Got?
  {
    hide FromSeqNum;
    ItemsInOrder(p);
  }
}
