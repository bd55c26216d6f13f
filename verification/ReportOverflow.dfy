/** Reports whose inclusion field outgrows its one-octet length, and the exact result for every member count. */
module ReportOverflow {
  import opened Bytes
  import opened BerIntegers
  import opened Ber
  import opened MmsValues
  import opened MmsValueRoundTrip
  import opened MmsPduRoundTrip
  import opened Powers
  import opened Reports
  import opened ReportRoundTrip
  import opened ReportDelivery
  import opened ReportMembers

  // ---- The header in front of the inclusion field, octet by octet ----

  lemma NextAt(body: bytes, off: nat, v: Value, s: bytes)
    requires EncodeValue(v) == Ok(s) && |s| < LIMIT && At(body, off, s)
    requires Norm(v) == v && !HasError(v)
    ensures Next(Octets(body, off)) == Got(v, Octets(body, off + |s|))
  {
    hide EncodeValue;
    hide DecodeValue;
    hide Norm;
    hide HasError;
    EncodedSize(v);
    ValueRoundTrip(body, off, v);
  }

  lemma AnyAt(body: bytes, off: nat, flag: bool, v: Value, s: bytes)
    requires EncodeValue(v) == Ok(s) && |s| < LIMIT && At(body, off, When(flag, s))
    requires Norm(v) == v && !HasError(v)
    ensures TakeAny(Octets(body, off), flag)
         == Taken(if flag then Some(v) else None, Octets(body, off + |When(flag, s)|))
  {
    hide EncodeValue;
    hide Next;
    hide Norm;
    hide HasError;
    if flag {
      NextAt(body, off, v, s);
    }
  }

  lemma TextAt(body: bytes, off: nat, flag: bool, text: Text)
    requires |text| < LIMIT - 100 && At(body, off, When(flag, Prim(TAG_VISIBLE_STRING, text)))
    ensures TakeText(Octets(body, off), flag)
         == Taken(if flag then Some(VisibleString(text)) else None,
                  Octets(body, off + |When(flag, Prim(TAG_VISIBLE_STRING, text))|))
  {
    hide EncodeValue;
    hide Next;
    hide Prim;
    TextEncodes(text);
    PrimSize(TAG_VISIBLE_STRING, text);
    if flag {
      NextAt(body, off, VisibleString(text), Prim(TAG_VISIBLE_STRING, text));
    }
  }

  /** The parts of the front that stand before the data set name, before the entry ID, and at the end. */
  function FirstPart(p: ReportParams): bytes {
    var o := OptionsOf(p.optFlds);
    Prim(TAG_VISIBLE_STRING, p.rptID)
    + BitStringOctets(OptBits(p), 10)
    + When(o.seqNum, Prim(TAG_UNSIGNED, TwosComplement(p.sqNum)))
    + When(o.timestamp, [TAG_BINARY_TIME, 0x06] + TimeOctets(p.timestamp))
  }

  function SecondPart(p: ReportParams): bytes {
    var o := OptionsOf(p.optFlds);
    FirstPart(p)
    + When(o.dataSet, Prim(TAG_VISIBLE_STRING, p.datSet))
    + When(o.bufOvfl, [TAG_BOOLEAN, 0x01, if p.bufOvfl then 0xFF else 0x00])
  }

  /** What the parser holds after the time of entry. */
  datatype FirstFields = FirstFields(rptID: Taken, flds: Taken, sqNum: Taken, time: Taken)

  function TakeFirst(s: Source, o: Options): FirstFields {
    var rptID := TakeAny(s, true);
    var flds := TakeBits(rptID.rest, true);
    var sqNum := TakeAny(flds.rest, o.seqNum);
    FirstFields(rptID, flds, sqNum, TakeAny(sqNum.rest, o.timestamp))
  }

  lemma FirstPartParsed(body: bytes, p: ReportParams)
    requires Sendable(p) && At(body, 0, FirstPart(p)) && |FirstPart(p)| < LIMIT - 100
    ensures var o := OptionsOf(p.optFlds);
            var t := TakeFirst(Octets(body, 0), o);
            && Next(Octets(body, 0)).Got?
            && t.rptID.value == Some(VisibleString(p.rptID))
            && t.flds.value == Some(OptItem(p))
            && t.sqNum.value == (if o.seqNum then Some(Unsigned(p.sqNum)) else None)
            && t.time.value.Some? == o.timestamp
            && t.time.rest == Octets(body, |FirstPart(p)|)
  {
    hide OptionsOf;
    hide At;
    hide Next;
    hide TakeAny;
    hide Prim;
    hide BitStringOctets;
    hide TwosComplement;
    hide TimeOctets;
    hide ReportTime;
    hide EncodeValue;
    hide OptItem;
    hide Sendable;
    var o := OptionsOf(p.optFlds);
    var s0, s1 := Prim(TAG_VISIBLE_STRING, p.rptID), BitStringOctets(OptBits(p), 10);
    var s2, s3 := Prim(TAG_UNSIGNED, TwosComplement(p.sqNum)), [TAG_BINARY_TIME, 0x06] + TimeOctets(p.timestamp);
    AtConcat(body, 0, s0 + s1 + When(o.seqNum, s2), When(o.timestamp, s3));
    AtConcat(body, 0, s0 + s1, When(o.seqNum, s2));
    AtConcat(body, 0, s0, s1);
    SmallOptFlds(p);
    TextEncodes(p.rptID);
    ShortForms(p);
    ShortSizes(p);
    TimeStays(p.timestamp);
    OptItemRead(p);
    OptItemEncodes(p);
    NextAt(body, 0, VisibleString(p.rptID), s0);
    AnyAt(body, 0, true, VisibleString(p.rptID), s0);
    NextAt(body, |s0|, OptItem(p), s1);
    AnyAt(body, |s0 + s1|, o.seqNum, Unsigned(p.sqNum), s2);
    AnyAt(body, |s0 + s1 + When(o.seqNum, s2)|, o.timestamp, ReportTime(p.timestamp), s3);
  }

  lemma SmallOptFlds(p: ReportParams)
    requires Sendable(p)
    ensures |p.optFlds| <= 126
  {
  }

  lemma ShortSizes(p: ReportParams)
    ensures |Prim(TAG_UNSIGNED, TwosComplement(p.sqNum))| < 100 && |TimeOctets(p.timestamp)| < 98
    ensures |Prim(TAG_UNSIGNED, TwosComplement(p.confRev))| < 100 && |Prim(TAG_OCTET_STRING, Zeros(8))| < 100
    ensures Norm(Unsigned(p.sqNum)) == Unsigned(p.sqNum) && !HasError(Unsigned(p.sqNum))
    ensures Norm(VisibleString(p.rptID)) == VisibleString(p.rptID) && !HasError(VisibleString(p.rptID))
    ensures Norm(Boolean(p.bufOvfl)) == Boolean(p.bufOvfl) && !HasError(Boolean(p.bufOvfl))
  {
    hide TwosComplement;
    Uint32RoundTrip(p.sqNum);
    Uint32RoundTrip(p.confRev);
  }

  lemma SecondPartParsed(body: bytes, p: ReportParams)
    requires Sendable(p) && At(body, 0, SecondPart(p)) && |SecondPart(p)| < LIMIT - 100
    ensures var o := OptionsOf(p.optFlds);
            var dataSet := TakeText(Octets(body, |FirstPart(p)|), o.dataSet);
            && dataSet.value == (if o.dataSet then Some(VisibleString(p.datSet)) else None)
            && TakeAny(dataSet.rest, o.bufOvfl)
            == Taken(if o.bufOvfl then Some(Boolean(p.bufOvfl)) else None, Octets(body, |SecondPart(p)|))
  {
    hide OptionsOf;
    hide At;
    hide TakeAny;
    hide TakeText;
    hide FirstPart;
    hide Prim;
    hide EncodeValue;
    hide ReportTime;
    hide TimeOctets;
    var o := OptionsOf(p.optFlds);
    var s1, s2 := Prim(TAG_VISIBLE_STRING, p.datSet), [TAG_BOOLEAN, 0x01, if p.bufOvfl then 0xFF else 0x00];
    AtConcat(body, 0, FirstPart(p) + When(o.dataSet, s1), When(o.bufOvfl, s2));
    AtConcat(body, 0, FirstPart(p), When(o.dataSet, s1));
    ShortForms(p);
    ShortSizes(p);
    if o.dataSet {
      TextAt(body, |FirstPart(p)|, true, p.datSet);
    } else {
      NoText(Octets(body, |FirstPart(p)|));
    }
    AnyAt(body, |FirstPart(p) + When(o.dataSet, s1)|, o.bufOvfl, Boolean(p.bufOvfl), s2);
  }

  lemma NoText(s: Source)
    ensures TakeText(s, false) == Taken(None, s)
  {
  }

  /** The configuration revision, or what an entry ID makes of it. */
  lemma LastPartParsed(body: bytes, p: ReportParams)
    requires At(body, 0, FrontOctets(p)) && |FrontOctets(p)| < LIMIT - 100
    ensures var o := OptionsOf(p.optFlds);
            var confRev := TakeAny(Octets(body, |SecondPart(p)|), o.confRev);
            && Uint32Of(confRev.value) == (if o.confRev && !o.entryID then p.confRev else 0)
            && (o.entryID ==> !o.confRev ==> confRev.rest == Octets(body, |SecondPart(p)|))
            && (o.entryID && o.confRev ==>
                  confRev.rest == Octets(body, |SecondPart(p)| + |Prim(TAG_OCTET_STRING, Zeros(8))|))
            && (!o.entryID ==> confRev.rest == Octets(body, |FrontOctets(p)|))
  {
    hide OptionsOf;
    hide At;
    hide TakeAny;
    hide SecondPart;
    hide Prim;
    hide TwosComplement;
    hide EncodeValue;
    hide Zeros;
    hide ReportTime;
    hide TimeOctets;
    var o := OptionsOf(p.optFlds);
    var s1, s2 := Prim(TAG_OCTET_STRING, Zeros(8)), Prim(TAG_UNSIGNED, TwosComplement(p.confRev));
    FrontSplit(p);
    AtConcat(body, 0, SecondPart(p) + When(o.entryID, s1), When(o.confRev, s2));
    AtConcat(body, 0, SecondPart(p), When(o.entryID, s1));
    ShortForms(p);
    ShortSizes(p);
    LastLeaves(p);
    if o.entryID && o.confRev {
      OctetsEncode(Zeros(8));
      AnyAt(body, |SecondPart(p)|, true, OctetString(Zeros(8)), s1);
    } else if o.entryID {
      SkipAny(Octets(body, |SecondPart(p)|));
    } else {
      AnyAt(body, |SecondPart(p)|, o.confRev, Unsigned(p.confRev), s2);
    }
  }

  lemma FrontSplit(p: ReportParams)
    ensures var o := OptionsOf(p.optFlds);
            FrontOctets(p) == (SecondPart(p) + When(o.entryID, Prim(TAG_OCTET_STRING, Zeros(8)))
                               + When(o.confRev, Prim(TAG_UNSIGNED, TwosComplement(p.confRev))))
  {
  }

  lemma LastLeaves(p: ReportParams)
    ensures Norm(Unsigned(p.confRev)) == Unsigned(p.confRev) && !HasError(Unsigned(p.confRev))
    ensures Norm(OctetString(Zeros(8))) == OctetString(Zeros(8)) && !HasError(OctetString(Zeros(8)))
  {
  }

  /** With an entry ID in the report, the parser finds no bit string where it looks for the inclusion field. */
  lemma EntryIDBlocks(body: bytes, p: ReportParams)
    requires At(body, 0, FrontOctets(p)) && |FrontOctets(p)| < LIMIT - 100
    requires OptionsOf(p.optFlds).entryID
    ensures var o := OptionsOf(p.optFlds);
            TakeBits(TakeAny(Octets(body, |SecondPart(p)|), o.confRev).rest, true).value == None
  {
    hide OptionsOf;
    hide At;
    hide Next;
    hide TakeAny;
    hide SecondPart;
    hide Prim;
    hide TwosComplement;
    hide EncodeValue;
    hide Zeros;
    hide Uint32Of;
    var o := OptionsOf(p.optFlds);
    var s1, s2 := Prim(TAG_OCTET_STRING, Zeros(8)), Prim(TAG_UNSIGNED, TwosComplement(p.confRev));
    FrontSplit(p);
    AtConcat(body, 0, SecondPart(p) + When(o.entryID, s1), When(o.confRev, s2));
    AtConcat(body, 0, SecondPart(p), When(o.entryID, s1));
    LastPartParsed(body, p);
    ShortForms(p);
    ShortSizes(p);
    LastLeaves(p);
    OctetsEncode(Zeros(8));
    if o.confRev {
      NextAt(body, |SecondPart(p)| + |s1|, Unsigned(p.confRev), s2);
    } else {
      NextAt(body, |SecondPart(p)|, OctetString(Zeros(8)), s1);
    }
  }

  // ---- The inclusion field read back ----

  /** What the client finds behind the front of a report body without an entry ID. */
  function MembersBehind(body: bytes, off: nat, o: Options): Members {
    var inclusion := TakeBits(Octets(body, off), true);
    var (bits, n) := BitsOf(inclusion.value);
    MembersFrom(inclusion.rest, bits, n, 0, o, Members([], []))
  }

  function MembersRead(p: ReportParams): Members {
    var o := OptionsOf(p.optFlds);
    if o.entryID then Members([], []) else MembersBehind(ResultBody(p), |FrontOctets(p)|, o)
  }

  /** The header fields of every sendable report are read, whatever becomes of its members. */
  lemma HeaderRead(p: ReportParams)
    requires Sendable(p)
    ensures ParseFields(Octets(ResultBody(p), 0)) == Ok(ExpectedReport(p, MembersRead(p)))
  {
    hide OptionsOf;
    hide At;
    hide Next;
    hide TakeAny;
    hide TakeText;
    hide TakeBits;
    hide FirstPart;
    hide SecondPart;
    hide FrontOctets;
    hide ResultBody;
    hide Prim;
    hide Zeros;
    hide OptItem;
    hide Sendable;
    var o, body := OptionsOf(p.optFlds), ResultBody(p);
    FrontStands(p);
    FirstPartParsed(body, p);
    SecondPartParsed(body, p);
    LastPartParsed(body, p);
    OptItemRead(p);
    if o.entryID {
      EntryIDBlocks(body, p);
    }
  }

  lemma FrontStands(p: ReportParams)
    requires Sendable(p)
    ensures var body := ResultBody(p);
            && At(body, 0, FrontOctets(p)) && |FrontOctets(p)| < LIMIT - 100
            && At(body, 0, SecondPart(p)) && |SecondPart(p)| < LIMIT - 100
            && At(body, 0, FirstPart(p)) && |FirstPart(p)| < LIMIT - 100
            && At(body, |FrontOctets(p)|, BitStringOctets(InclusionField(|p.values|, p.isGI), |p.values|))
            && At(body, |HeaderOctets(p)|, MemberOctets(p)) && |body| == |HeaderOctets(p)| + |MemberOctets(p)|
  {
    hide OptionsOf;
    hide At;
    hide Prim;
    hide Zeros;
    hide BitStringOctets;
    hide TwosComplement;
    hide TimeOctets;
    hide InclusionField;
    hide ValueOctets;
    hide ReasonOctets;
    hide RefOctets;
    hide EncodeValue;
    var o, body := OptionsOf(p.optFlds), ResultBody(p);
    assert body == HeaderOctets(p) + MemberOctets(p);
    AtWhole(body);
    AtConcat(body, 0, HeaderOctets(p), MemberOctets(p));
    AtConcat(body, 0, FrontOctets(p), BitStringOctets(InclusionField(|p.values|, p.isGI), |p.values|));
    var s1, s2 := When(o.entryID, Prim(TAG_OCTET_STRING, Zeros(8))), When(o.confRev, Prim(TAG_UNSIGNED, TwosComplement(p.confRev)));
    AtConcat(body, 0, SecondPart(p) + s1, s2);
    AtConcat(body, 0, SecondPart(p), s1);
    var s3, s4 := When(o.dataSet, Prim(TAG_VISIBLE_STRING, p.datSet)),
                  When(o.bufOvfl, [TAG_BOOLEAN, 0x01, if p.bufOvfl then 0xFF else 0x00]);
    AtConcat(body, 0, FirstPart(p) + s3, s4);
    AtConcat(body, 0, FirstPart(p), s3);
  }

  /** References, members and reasons. */
  function MemberOctets(p: ReportParams): bytes {
    var o := OptionsOf(p.optFlds);
    When(o.dataRef, RefOctets(UsedRefs(p))) + ValueOctets(p.values) + When(o.reason, ReasonOctets(p, 0))
  }

  // ---- A length octet that has wrapped ----

  /** Content of the inclusion field of a general interrogation. */
  function InclusionContent(n: nat): bytes {
    [(8 - n % 8) % 8] + InclusionField(n, true)
  }

  lemma InclusionContentIs(n: nat)
    requires n > 0
    ensures var c := InclusionContent(n);
            && |c| == 1 + (n + 7) / 8 && c[0] <= 7
            && (forall i :: 1 <= i < |c| - 1 ==> c[i] == 0xFF)
            && 8 * (|c| - 1) == n + c[0]
  {
    hide Pow2;
  }

  /** The bit string that `length` octets of content are read as. */
  function BitsBetween(data: bytes, start: nat, length: nat): Result<(Value, nat)>
    requires start + length <= |data|
  {
    var v := if length == 0 then BitString([], 0)
             else BitString(data[start + 1..start + length], 8 * (length - 1) - data[start]);
    Ok((v, start + length))
  }

  lemma CutBits(data: bytes, start: nat, length: nat)
    requires 0 < start && start + length <= |data|
    ensures DecodeCut(data, TAG_BIT_STRING, start, length) == BitsBetween(data, start, length)
  {
    var content := data[start..start + length];
    if length > 0 {
      assert content[1..] == data[start + 1..start + length];
      assert content[1..1 + (length - 1)] == content[1..];
    }
  }

  lemma HeadAndContent(data: bytes, off: nat, c: bytes)
    requires At(data, off, [TAG_BIT_STRING, |c| % 256] + c)
    ensures off + 2 + |c| <= |data| && data[off] == TAG_BIT_STRING && data[off + 1] == |c| % 256
    ensures data[off + 2..off + 2 + |c|] == c
  {
    var all := [TAG_BIT_STRING, |c| % 256] + c;
    assert data[off..off + |all|] == all;
    assert data[off] == all[0] && data[off + 1] == all[1];
    assert data[off + 2..off + 2 + |c|] == all[2..];
  }

  /** A length octet that claims less than the content. */
  lemma ReadShort(data: bytes, off: nat, c: bytes)
    requires At(data, off, [TAG_BIT_STRING, |c| % 256] + c) && |c| % 256 < 128
    ensures off + 2 + |c| % 256 <= |data|
    ensures DecodeValue(data, off) == BitsBetween(data, off + 2, |c| % 256)
  {
    hide DecodeCut;
    hide BitsBetween;
    HeadAndContent(data, off, c);
    CutBits(data, off + 2, |c| % 256);
  }

  /** 0x80 announces an indefinite length, more than 0x84 a length of more than four octets. */
  lemma ReadNothing(data: bytes, off: nat, c: bytes)
    requires At(data, off, [TAG_BIT_STRING, |c| % 256] + c)
    requires |c| % 256 == 128 || |c| % 256 > 132
    ensures !DecodeValue(data, off).Ok?
  {
    HeadAndContent(data, off, c);
  }

  /** 0x81 to 0x84 take the first octets of the content for a length. */
  lemma ReadLong(data: bytes, off: nat, c: bytes)
    requires At(data, off, [TAG_BIT_STRING, |c| % 256] + c) && 129 <= |c| % 256 <= 132
    ensures var m := |c| % 256 - 128;
            var start, length := off + 2 + m, FromBE(c[..m]);
            DecodeValue(data, off) == if start + length > |data| then Err else BitsBetween(data, start, length)
  {
    hide FromBE;
    hide DecodeCut;
    hide BitsBetween;
    var m := |c| % 256 - 128;
    HeadAndContent(data, off, c);
    assert data[off + 2..off + 2 + m] == data[off + 2..off + 2 + |c|][..m] == c[..m];
    var start, length := off + 2 + m, FromBE(c[..m]);
    if start + length <= |data| {
      CutBits(data, start, length);
    }
  }

  // ---- The member loop with such a field ----

  /** A slot whose bit is clear holds nil, if the loop gets that far. */
  lemma {:induction false} SlotsFilled(s: Source, bits: bytes, n: int, i: nat, o: Options, acc: Members, slot: nat)
    requires |acc.values| == i <= slot && !Included(bits, slot)
    ensures var r := MembersFrom(s, bits, n, i, o, acc).values;
            |r| <= slot || r[slot] == Nil
    decreases n - i
  {
    hide Included;
    hide TakeText;
    hide TakeBits;
    hide Next;
    if i < n {
      if i == slot {
        KeepsPrefix(s, bits, n, i + 1, o, Members(acc.values + [Nil], acc.reasons + [0]));
      } else if !Included(bits, i) {
        SlotsFilled(s, bits, n, i + 1, o, Members(acc.values + [Nil], acc.reasons + [0]), slot);
      } else {
        var s1 := TakeText(s, o.dataRef).rest;
        match Next(s1)
        case Bad =>
        case End => SlotsFilled(s1, bits, n, i + 1, o, Members(acc.values + [Nil], acc.reasons + [0]), slot);
        case Got(v, s2) =>
          var r := TakeBits(s2, o.reason);
          SlotsFilled(r.rest, bits, n, i + 1, o, Members(acc.values + [v], acc.reasons + [ReasonCode(r.value)]), slot);
      }
    }
  }

  /** A general interrogation's inclusion field for `n` members stands at `off`. */
  predicate FieldAt(data: bytes, off: nat, n: nat) {
    At(data, off, BitStringOctets(InclusionField(n, true), n))
  }

  lemma FieldContent(data: bytes, off: nat, n: nat)
    requires FieldAt(data, off, n) && n > 0
    ensures var c := InclusionContent(n);
            && At(data, off, [TAG_BIT_STRING, |c| % 256] + c)
            && off + 2 + |c| <= |data|
            && forall i :: 0 <= i < |c| ==> data[off + 2 + i] == c[i]
  {
    hide InclusionField;
    var c := InclusionContent(n);
    HeadAndContent(data, off, c);
    forall i | 0 <= i < |c| ensures data[off + 2 + i] == c[i] {
      assert data[off + 2..off + 2 + |c|][i] == data[off + 2 + i];
    }
  }

  lemma TakenBits(data: bytes, off: nat, start: nat, length: nat, o: Options)
    requires off < |data| && start + length <= |data| && DecodeValue(data, off) == BitsBetween(data, start, length)
    ensures length == 0 ==> MembersBehind(data, off, o).values == []
    ensures length > 0 ==>
              MembersBehind(data, off, o)
              == MembersFrom(Octets(data, start + length), data[start + 1..start + length],
                             8 * (length - 1) - data[start], 0, o, Members([], []))
  {
    hide DecodeValue;
    hide Included;
    hide TakeText;
  }

  lemma NoSlots(s: Source, bits: bytes, n: int, o: Options)
    requires n <= 0
    ensures MembersFrom(s, bits, n, 0, o, Members([], [])) == Members([], [])
  {
  }

  /** Behind a field that was read too short stands one of its own octets 0xFF, which starts no value. */
  lemma ShortLeavesNothing(data: bytes, off: nat, n: nat, o: Options)
    requires FieldAt(data, off, n) && n > 1008 && |InclusionContent(n)| % 256 < 128
    ensures MembersBehind(data, off, o).values == []
  {
    hide InclusionContent;
    hide BitStringOctets;
    hide MembersBehind;
    hide DecodeValue;
    hide FieldAt;
    hide At;
    var c := InclusionContent(n);
    var l := |c| % 256;
    InclusionContentIs(n);
    FieldContent(data, off, n);
    ReadShort(data, off, c);
    TakenBits(data, off, off + 2, l, o);
    if l > 0 {
      var bits, size := data[off + 3..off + 2 + l], 8 * (l - 1) - data[off + 2];
      assert data[off + 2 + l + 1] == c[l + 1] == 0xFF;
      FalseLength(data, off + 2 + l);
      if size > 0 {
        assert bits[0] == data[off + 3] == c[1];
        FirstSlotBad(Octets(data, off + 2 + l), bits, size, o);
      } else {
        NoSlots(Octets(data, off + 2 + l), bits, size, o);
      }
    }
  }

  lemma FalseLength(data: bytes, off: nat)
    requires off + 1 < |data| && data[off + 1] == 0xFF
    ensures Next(Octets(data, off)) == Bad
  {
  }

  lemma FirstSlotBad(s: Source, bits: bytes, n: int, o: Options)
    requires Next(s) == Bad && n > 0 && |bits| > 0 && bits[0] == 0xFF
    ensures MembersFrom(s, bits, n, 0, o, Members([], [])).values == []
  {
    hide Next;
    assert Included(bits, 0) by {
      SmallPowers();
    }
  }

  /** With two to four octets of content taken for a length, some slot of the members is never filled. */
  lemma LongLosesOne(data: bytes, off: nat, n: nat, o: Options)
    requires FieldAt(data, off, n) && n > 1008 && 130 <= |InclusionContent(n)| % 256 <= 132
    requires off + 2 + |InclusionContent(n)| < |data| && data[off + 2 + |InclusionContent(n)|] / 64 % 2 == 0
    ensures MemberMissing(MembersBehind(data, off, o).values, n)
  {
    hide InclusionContent;
    hide BitStringOctets;
    hide MembersBehind;
    hide DecodeValue;
    hide FieldAt;
    hide At;
    hide Included;
    hide FromBE;
    var c := InclusionContent(n);
    var m, k := |c| % 256 - 128, |c| - 1;
    InclusionContentIs(n);
    FieldContent(data, off, n);
    ReadLong(data, off, c);
    LastOctet(c[..m]);
    var start, length := off + 2 + m, FromBE(c[..m]);
    var slot := 8 * (k - m) + 1;
    if start + length <= |data| {
      TakenBits(data, off, start, length, o);
      var bits, size := data[start + 1..start + length], 8 * (length - 1) - data[start];
      ClearSlot(bits, k - m, data, start + 1);
      SlotsFilled(Octets(data, start + length), bits, size, 0, o, Members([], []), slot);
      MissingAt(MembersBehind(data, off, o).values, n, slot);
    } else {
      NothingTaken(data, off, o);
      MissingAt(MembersBehind(data, off, o).values, n, 0);
    }
  }

  predicate Unfilled(values: seq<Value>, slot: nat) {
    |values| <= slot || values[slot] == Nil
  }

  /** Not every one of `n` slots holds a value. */
  ghost predicate MemberMissing(values: seq<Value>, n: nat) {
    exists slot: nat :: slot < n && Unfilled(values, slot)
  }

  lemma MissingAt(values: seq<Value>, n: nat, slot: nat)
    requires slot < n && Unfilled(values, slot)
    ensures MemberMissing(values, n)
  {
  }

  lemma LastOctet(bs: bytes)
    requires bs != [] && bs[|bs| - 1] == 0xFF
    ensures FromBE(bs) >= 255
  {
  }

  lemma ClearSlot(bits: bytes, i: nat, data: bytes, from: nat)
    requires from + i < |data| && data[from + i] / 64 % 2 == 0
    requires from + |bits| <= |data| && bits == data[from..from + |bits|]
    ensures !Included(bits, 8 * i + 1)
  {
    SmallPowers();
    hide Pow2;
  }

  lemma NothingTaken(data: bytes, off: nat, o: Options)
    requires off < |data| && !DecodeValue(data, off).Ok?
    ensures MembersBehind(data, off, o).values == []
  {
    hide DecodeValue;
  }

  /** One octet of content taken for a length: too few bits for a single slot. */
  lemma OneOctetLeavesNothing(data: bytes, off: nat, n: nat, o: Options)
    requires FieldAt(data, off, n) && n > 1008 && |InclusionContent(n)| % 256 == 129
    ensures MembersBehind(data, off, o).values == []
  {
    hide InclusionContent;
    hide BitStringOctets;
    hide MembersBehind;
    hide DecodeValue;
    hide FieldAt;
    hide At;
    hide FromBE;
    var c := InclusionContent(n);
    InclusionContentIs(n);
    FieldContent(data, off, n);
    ReadLong(data, off, c);
    assert c[..1] == [c[0]];
    FromBEOne(c[0]);
    var length: nat := c[0];
    TakenBits(data, off, off + 3, length, o);
    if length > 0 {
      assert data[off + 3] == c[1] == 0xFF;
      NoSlots(Octets(data, off + 3 + length), data[off + 4..off + 3 + length], 8 * (length - 1) - data[off + 3], o);
    }
  }

  /** An inclusion field of more than 126 octets is misread; mostly no member is delivered. */
  lemma MostlyNothing(data: bytes, off: nat, n: nat, o: Options)
    requires FieldAt(data, off, n) && n > 1008
    requires !(130 <= |InclusionContent(n)| % 256 <= 132)
    ensures MembersBehind(data, off, o).values == []
  {
    hide InclusionContent;
    hide MembersBehind;
    hide DecodeValue;
    hide FieldAt;
    hide At;
    var l := |InclusionContent(n)| % 256;
    if l < 128 {
      ShortLeavesNothing(data, off, n, o);
    } else if l == 129 {
      OneOctetLeavesNothing(data, off, n, o);
    } else {
      FieldContent(data, off, n);
      ReadNothing(data, off, InclusionContent(n));
      NothingTaken(data, off, o);
    }
  }

  /** And never all of them. */
  lemma Misread(data: bytes, off: nat, n: nat, o: Options)
    requires FieldAt(data, off, n) && n > 1008
    requires off + 2 + |InclusionContent(n)| < |data| && data[off + 2 + |InclusionContent(n)|] / 64 % 2 == 0
    ensures MemberMissing(MembersBehind(data, off, o).values, n)
  {
    hide InclusionContent;
    hide MembersBehind;
    hide FieldAt;
    if 130 <= |InclusionContent(n)| % 256 <= 132 {
      LongLosesOne(data, off, n, o);
    } else {
      MostlyNothing(data, off, n, o);
      MissingAt([], n, 0);
    }
  }
  /** The inclusion field of no members reads as eight clear bits. */
  lemma NoMembersRead(data: bytes, off: nat, o: Options)
    requires FieldAt(data, off, 0)
    ensures EightNils(MembersBehind(data, off, o).values)
  {
    hide MembersBehind;
    hide DecodeValue;
    hide Included;
    hide At;
    var c: bytes := [0, 0];
    assert BitStringOctets(InclusionField(0, true), 0) == [TAG_BIT_STRING, |c| % 256] + c;
    HeadAndContent(data, off, c);
    assert data[off + 2..off + 4][0] == data[off + 2] && data[off + 2..off + 4][1] == data[off + 3];
    ReadShort(data, off, c);
    TakenBits(data, off, off + 2, 2, o);
    var bits := data[off + 3..off + 4];
    assert bits == [0];
    assert InclusionField(8, false) == bits;
    NoneIncluded(Octets(data, off + 4), 8, 0, o, Members([], []));
  }

  predicate EightNils(values: seq<Value>) {
    |values| == 8 && forall v :: v in values ==> v == Nil
  }

  // ---- Reports with any number of members ----

  lemma EncodedTag(v: Value)
    requires EncodeValue(v).Ok?
    ensures EncodeValue(v).value[0] / 64 % 2 == 0
    ensures Norm(v) != Nil
  {
    hide LengthBytes;
  }

  lemma FirstMemberOctet(p: ReportParams)
    requires |p.values| > 0 && AllEncode(p.values)
    ensures MemberOctets(p) != [] && MemberOctets(p)[0] / 64 % 2 == 0
  {
    hide OptionsOf;
    hide EncodeValue;
    hide Prim;
    hide ReasonOctets;
    var o := OptionsOf(p.optFlds);
    EncodedTag(p.values[0]);
    assert ValueOctets(p.values) == EncodeValue(p.values[0]).value + ValueOctets(p.values[1..]);
    if o.dataRef && UsedRefs(p) != [] {
      var ref := UsedRefs(p)[0];
      TextEncodes(ref);
      EncodedTag(VisibleString(ref));
      assert RefOctets(UsedRefs(p)) == Prim(TAG_VISIBLE_STRING, ref) + RefOctets(UsedRefs(p)[1..]);
    }
  }

  lemma MissingMeansDifferent(values: seq<Value>, vs: seq<Value>)
    requires MemberMissing(values, |vs|) && forall v :: v in vs ==> EncodeValue(v).Ok?
    ensures values != NormAll(vs)
  {
    hide EncodeValue;
    hide Norm;
    var slot: nat :| slot < |vs| && Unfilled(values, slot);
    EncodedTag(vs[slot]);
  }

  lemma LongReportMisread(p: ReportParams)
    requires Sendable(p) && p.isGI && |p.values| > 1008
    ensures AllEncode(p.values) ==> MembersRead(p).values != NormAll(p.values)
    ensures !(130 <= |InclusionContent(|p.values|)| % 256 <= 132) ==> MembersRead(p).values == []
  {
    hide OptionsOf;
    hide InclusionContent;
    hide MembersBehind;
    hide FrontOctets;
    hide MemberOctets;
    hide ResultBody;
    hide EncodeValue;
    hide At;
    hide Norm;
    if !OptionsOf(p.optFlds).entryID {
      var body, off, n := ResultBody(p), |FrontOctets(p)|, |p.values|;
      FrontStands(p);
      FieldSize(n);
      if !(130 <= |InclusionContent(n)| % 256 <= 132) {
        MostlyNothing(body, off, n, OptionsOf(p.optFlds));
      }
      if AllEncode(p.values) {
        FirstMemberOctet(p);
        AtFirst(body, |HeaderOctets(p)|, MemberOctets(p));
        Misread(body, off, n, OptionsOf(p.optFlds));
        MissingMeansDifferent(MembersRead(p).values, p.values);
      }
    }
  }

  lemma FieldSize(n: nat)
    requires n > 0
    ensures |BitStringOctets(InclusionField(n, true), n)| == 2 + |InclusionContent(n)|
  {
    hide InclusionField;
  }

  lemma AtFirst(buf: bytes, off: nat, s: bytes)
    requires At(buf, off, s) && s != []
    ensures off < |buf| && buf[off] == s[0]
  {
    assert buf[off..off + |s|][0] == buf[off];
  }

  lemma EmptyReportRead(p: ReportParams)
    requires Sendable(p) && p.isGI && p.values == []
    ensures OptionsOf(p.optFlds).entryID ==> MembersRead(p).values == []
    ensures !OptionsOf(p.optFlds).entryID ==> EightNils(MembersRead(p).values)
  {
    hide OptionsOf;
    hide MembersBehind;
    hide FrontOctets;
    hide MemberOctets;
    hide ResultBody;
    hide At;
    if !OptionsOf(p.optFlds).entryID {
      FrontStands(p);
      NoMembersRead(ResultBody(p), |FrontOctets(p)|, OptionsOf(p.optFlds));
    }
  }

  /** The reports whose members arrive. */
  ghost predicate Arrives(p: ReportParams)
    requires OptionsOf(p.optFlds).dataRef ==> |p.refs| == |p.values|
  {
    if p.values == [] then OptionsOf(p.optFlds).entryID else |p.values| <= 1008 && Faithful(p)
  }

  /**
   * A report as sendReport builds it, with any number of members. The client always recovers report ID and header
   * fields (the configuration revision only without an entry ID). When they all encode, it recovers the members,
   * normalised and in order, if and only if there are 1 to 1008 of them and the report is Faithful; a report of no
   * members yields none only with an entry ID, and eight nil values otherwise.
   */
  lemma ReportDelivered(p: ReportParams, beyond: bytes)
    requires Sendable(p) && p.isGI
    requires OptionsOf(p.optFlds).dataRef ==> |p.refs| == |p.values|
    ensures var r := ReceiveReport(View(ReportPDU(p), beyond));
            && r.Ok?
            && r.value == ExpectedReport(p, Members(r.value.values, r.value.reasons))
            && (AllEncode(p.values) ==> (r.value.values == NormAll(p.values) <==> Arrives(p)))
            && (1 <= |p.values| <= 1008 ==> r.value.values == Found(p))
            && (p.values == [] && !Arrives(p) ==> EightNils(r.value.values))
  {
    hide OptionsOf;
    hide Faithful;
    hide ReceiveReport;
    hide ReportPDU;
    hide ParseFields;
    hide ResultBody;
    hide MembersRead;
    EnvelopeOpens(p, beyond);
    HeaderRead(p);
    if p.values == [] {
      EmptyReportRead(p);
    } else if |p.values| <= 1008 {
      ShortReportDelivered(p, beyond);
    } else {
      LongReportMisread(p);
    }
  }

  /** Beyond 1008 members, and unless the wrapped length octet happens to be 0x82 to 0x84, nothing arrives at all. */
  lemma LongReportEmpty(p: ReportParams, beyond: bytes)
    requires Sendable(p) && p.isGI && |p.values| > 1008
    requires !(130 <= ((|p.values| + 7) / 8 + 1) % 256 <= 132)
    ensures ReceiveReport(View(ReportPDU(p), beyond)).Ok? && ReceiveReport(View(ReportPDU(p), beyond)).value.values == []
  {
    hide OptionsOf;
    hide ReceiveReport;
    hide ReportPDU;
    hide ParseFields;
    hide ResultBody;
    hide MembersRead;
    EnvelopeOpens(p, beyond);
    HeaderRead(p);
    InclusionContentIs(|p.values|);
    LongReportMisread(p);
  }
}
