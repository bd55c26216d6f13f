/** handleFrame against EncodeGOOSEFrame, and the counters of a publisher over its whole life. */
module GooseRoundTrip {
  import opened Bytes
  import opened BerIntegers
  import opened Ber
  import opened MmsValues
  import opened MmsValueRoundTrip
  import opened MmsPduRoundTrip
  import opened Goose

  // ---- The field loop is a fold ----

  function ApplyAll(p: GoosePDU, fs: seq<Field>): Result<GoosePDU>
    decreases |fs|
  {
    if fs == [] then Ok(p)
    else
      var p' :- Apply(p, fs[0].tag, fs[0].value);
      ApplyAll(p', fs[1..])
  }

  predicate ShortTags(fs: seq<Field>) {
    forall f :: f in fs ==> f.tag < 31
  }

  lemma {:induction false} FieldsFold(buf: bytes, pos: nat, fs: seq<Field>, p: GoosePDU)
    requires ShortTags(fs) && |EncodeFields(fs)| < LIMIT
    requires At(buf, pos, EncodeFields(fs)) && pos + |EncodeFields(fs)| == |buf|
    ensures FieldsFrom(buf, pos, p) == ApplyAll(p, fs)
    decreases |fs|
  {
    hide At;
    hide TLVAt;
    hide ContextTLV;
    hide Apply;
    if fs != [] {
      var f := fs[0];
      var first := ContextTLV(f.tag, f.constructed, f.value);
      AtConcat(buf, pos, first, EncodeFields(fs[1..]));
      ContextRead(buf, pos, f.tag, f.constructed, f.value);
      var applied := Apply(p, f.tag, f.value);
      if applied.Ok? {
        FieldsFold(buf, pos + |first|, fs[1..], applied.value);
      }
    }
  }

  lemma {:induction false} ApplyAllConcat(p: GoosePDU, a: seq<Field>, b: seq<Field>)
    requires ApplyAll(p, a).Ok?
    ensures ApplyAll(p, a + b) == ApplyAll(ApplyAll(p, a).value, b)
    decreases |a|
  {
    hide Apply;
    if a == [] {
      assert a + b == b;
    } else {
      assert (a + b)[0] == a[0] && (a + b)[1..] == a[1..] + b;
      ApplyAllConcat(Apply(p, a[0].tag, a[0].value).value, a[1..], b);
    }
  }

  lemma ApplyCons(p: GoosePDU, f: Field, fs: seq<Field>, p': GoosePDU)
    requires Apply(p, f.tag, f.value) == Ok(p')
    ensures ApplyAll(p, [f] + fs) == ApplyAll(p', fs)
  {
    hide Apply;
    assert ([f] + fs)[1..] == fs;
  }

  lemma NumberRead(v: uint32)
    ensures Shifted32(TwosComplement(v)) == v
  {
    NonNegativeContent(v);
  }

  lemma LeadApplied(p: GoosePDU, q: GoosePDU)
    ensures ApplyAll(q, LeadFields(p))
         == Ok(q.(goCBRef := p.goCBRef, timeAllowedToLive := p.timeAllowedToLive, dataSet := p.dataSet))
  {
    hide Shifted32;
    hide TwosComplement;
    NumberRead(p.timeAllowedToLive);
    var ttl, set_ := Plain(1, TwosComplement(p.timeAllowedToLive)), Plain(2, p.dataSet);
    ApplyCons(q, Plain(0, p.goCBRef), [ttl, set_], q.(goCBRef := p.goCBRef));
    assert LeadFields(p) == [Plain(0, p.goCBRef)] + [ttl, set_];
    var q1 := q.(goCBRef := p.goCBRef, timeAllowedToLive := p.timeAllowedToLive);
    ApplyCons(q.(goCBRef := p.goCBRef), ttl, [set_], q1);
    assert [ttl, set_] == [ttl] + [set_];
  }

  lemma IdApplied(p: GoosePDU, q: GoosePDU)
    requires q.goID == []
    ensures ApplyAll(q, IdField(p)) == Ok(q.(goID := p.goID))
  {
    hide Shifted32;
  }

  lemma StateApplied(p: GoosePDU, q: GoosePDU)
    ensures ApplyAll(q, StateFields(p)) == Ok(q.(t := NormTime(p.t), stNum := p.stNum, sqNum := p.sqNum, test := p.test))
  {
    hide Shifted32;
    hide TwosComplement;
    hide DecodedUTC;
    hide UTCContent;
    UTCRead(p.t);
    NumberRead(p.stNum);
    NumberRead(p.sqNum);
    var t, st := Plain(4, UTCContent(p.t)), Plain(5, TwosComplement(p.stNum));
    var sq, test := Plain(6, TwosComplement(p.sqNum)), Plain(7, BoolOctet(p.test));
    assert StateFields(p) == [t] + ([st] + ([sq] + [test]));
    var q1 := q.(t := NormTime(p.t));
    ApplyCons(q, t, [st] + ([sq] + [test]), q1);
    ApplyCons(q1, st, [sq] + [test], q1.(stNum := p.stNum));
    ApplyCons(q1.(stNum := p.stNum), sq, [test], q1.(stNum := p.stNum, sqNum := p.sqNum));
  }

  lemma ConfigApplied(p: GoosePDU, data: bytes, q: GoosePDU)
    requires Fits(EncodeElements(p.allData)) && EncodeElements(p.allData).value == data
    ensures ApplyAll(q, ConfigFields(p, data))
         == if AnyError(p.allData) then Err
            else Ok(q.(confRev := p.confRev, ndsCom := p.ndsCom, numDatSetEntries := p.numDatSetEntries,
                       allData := NormAll(p.allData)))
  {
    hide Shifted32;
    hide TwosComplement;
    hide EncodeElements;
    hide DecodeElementsFrom;
    hide AnyError;
    ListRoundTrip(p.allData);
    NumberRead(p.confRev);
    NumberRead(p.numDatSetEntries);
    var rev, nds := Plain(8, TwosComplement(p.confRev)), Plain(9, BoolOctet(p.ndsCom));
    var num, all := Plain(10, TwosComplement(p.numDatSetEntries)), Field(11, true, data);
    assert ConfigFields(p, data) == [rev] + ([nds] + ([num] + [all]));
    var q1 := q.(confRev := p.confRev);
    ApplyCons(q, rev, [nds] + ([num] + [all]), q1);
    var q2 := q1.(ndsCom := p.ndsCom);
    ApplyCons(q1, nds, [num] + [all], q2);
    ApplyCons(q2, num, [all], q2.(numDatSetEntries := p.numDatSetEntries));
  }

  // ---- PDU round trip ----

  /** What survives of a PDU: the time loses its accuracy class and high fraction octet, the data is normalised. */
  function NormPDU(p: GoosePDU): GoosePDU {
    p.(t := NormTime(p.t), allData := NormAll(p.allData))
  }

  lemma FieldsApplied(p: GoosePDU, data: bytes)
    requires Fits(EncodeElements(p.allData)) && EncodeElements(p.allData).value == data
    ensures ApplyAll(EMPTY_PDU, FieldsOf(p, data)) == if AnyError(p.allData) then Err else Ok(NormPDU(p))
  {
    hide ApplyAll;
    hide LeadFields;
    hide IdField;
    hide StateFields;
    hide ConfigFields;
    hide AnyError;
    hide EncodeElements;
    var a, b, c, d := LeadFields(p), IdField(p), StateFields(p), ConfigFields(p, data);
    assert FieldsOf(p, data) == a + (b + (c + d));
    LeadApplied(p, EMPTY_PDU);
    ApplyAllConcat(EMPTY_PDU, a, b + (c + d));
    var q1 := ApplyAll(EMPTY_PDU, a).value;
    IdApplied(p, q1);
    ApplyAllConcat(q1, b, c + d);
    var q2 := ApplyAll(q1, b).value;
    StateApplied(p, q2);
    ApplyAllConcat(q2, c, d);
    ConfigApplied(p, data, ApplyAll(q2, c).value);
  }

  lemma {:induction false} LastFieldSize(fs: seq<Field>)
    requires fs != []
    ensures |EncodeFields(fs)| >= |fs[|fs| - 1].value|
    decreases |fs|
  {
    hide ContextTLV;
    var rest := fs[1..];
    assert |EncodeFields(fs)| >= |fs[0].value| + |EncodeFields(rest)|;
    if |fs| > 1 {
      LastFieldSize(rest);
      assert rest[|rest| - 1] == fs[|fs| - 1];
    }
  }

  lemma FieldTags(p: GoosePDU, data: bytes)
    ensures ShortTags(FieldsOf(p, data))
    ensures |EncodeFields(FieldsOf(p, data))| >= |data|
  {
    hide EncodeFields;
    hide TwosComplement;
    LastFieldSize(FieldsOf(p, data));
    assert FieldsOf(p, data)[|FieldsOf(p, data)| - 1] == ConfigFields(p, data)[3];
  }

  lemma BodyRead(p: GoosePDU, data: bytes)
    requires EncodeElements(p.allData) == Ok(data) && |EncodeFields(FieldsOf(p, data))| < LIMIT
    ensures FieldsFrom(EncodeFields(FieldsOf(p, data)), 0, EMPTY_PDU)
         == if AnyError(p.allData) then Err else Ok(NormPDU(p))
  {
    hide At;
    hide FieldsOf;
    hide EncodeFields;
    hide FieldsFrom;
    hide ApplyAll;
    var body := EncodeFields(FieldsOf(p, data));
    FieldTags(p, data);
    AtWhole(body);
    FieldsFold(body, 0, FieldsOf(p, data), EMPTY_PDU);
    FieldsApplied(p, data);
  }

  /** DecodePDU inverts EncodePDU up to normalisation; it fails exactly when the data hold a data-access error. */
  lemma PduRoundTrip(p: GoosePDU)
    requires Fits(EncodePDU(p))
    ensures DecodePDU(EncodePDU(p).value) == if AnyError(p.allData) then Err else Ok(NormPDU(p))
  {
    hide At;
    hide LengthAt;
    hide FieldsFrom;
    hide FieldsOf;
    hide EncodeFields;
    hide EncodeElements;
    hide Prim;
    var data := EncodeElements(p.allData).value;
    var body := EncodeFields(FieldsOf(p, data));
    var buf := Prim(0x61, body);
    assert EncodePDU(p) == Ok(buf);
    BodyRead(p, data);
    AtWhole(buf);
    PrimRead(buf, 0, 0x61, body);
    AtSlice(buf, |buf| - |body|, body);
  }

  /** A PDU that arrives cut short is rejected. */
  lemma TruncatedPduFails(p: GoosePDU, k: nat)
    requires Fits(EncodePDU(p)) && k < |EncodePDU(p).value|
    ensures DecodePDU(EncodePDU(p).value[..k]) == Err
  {
    hide At;
    hide LengthAt;
    hide FieldsFrom;
    hide FieldsOf;
    hide EncodeFields;
    hide EncodeElements;
    hide Prim;
    var body := EncodeFields(FieldsOf(p, EncodeElements(p.allData).value));
    var buf := Prim(0x61, body);
    assert EncodePDU(p) == Ok(buf);
    AtWhole(buf);
    PrimRead(buf, 0, 0x61, body);
    if LengthAt(buf[..k], 1).Ok? {
      LengthAtPrefix(buf, k, 1);
    }
    LengthNeverFaults(buf[..k], 1);
  }

  // ---- Frame round trip ----

  /** The octets behind the EtherType. */
  function Payload(appID: uint16, pdu: bytes): bytes {
    ToBE(appID, 2) + ToBE((8 + |pdu|) % 0x1_0000, 2) + [0x00, 0x00, 0x00, 0x00] + pdu
  }

  lemma TwoOctets(buf: bytes, offset: nat, v: uint16)
    requires At(buf, offset, ToBE(v, 2))
    ensures offset + 2 <= |buf| && Uint16At(buf, offset) == v
  {
    hide ToBE;
    hide FromBE;
    PowersOf256();
    FromToBE(v, 2);
  }

  lemma HeaderRead(appID: uint16, pdu: bytes)
    ensures var buf := Payload(appID, pdu);
            && |buf| == 8 + |pdu| && Uint16At(buf, 0) == appID && Uint16At(buf, 2) == (8 + |pdu|) % 0x1_0000
            && buf[8..] == pdu
  {
    hide At;
    hide Uint16At;
    hide ToBE;
    var buf := Payload(appID, pdu);
    var a, l := ToBE(appID, 2), ToBE((8 + |pdu|) % 0x1_0000, 2);
    AtWhole(buf);
    AtConcat(buf, 0, a + l + [0x00, 0x00, 0x00, 0x00], pdu);
    AtConcat(buf, 0, a + l, [0x00, 0x00, 0x00, 0x00]);
    AtConcat(buf, 0, a, l);
    TwoOctets(buf, 0, appID);
    TwoOctets(buf, 2, (8 + |pdu|) % 0x1_0000);
  }

  /** The 16-bit length field holds the header and at most 65527 octets of PDU. */
  predicate Framable(p: GoosePDU)
    requires EncodePDU(p).Ok?
  {
    |EncodePDU(p).value| <= 65527 && !AnyError(p.allData)
  }

  lemma PayloadRead(appID: uint16, p: GoosePDU)
    requires Fits(EncodePDU(p))
    ensures DecodeFrame(Payload(appID, EncodePDU(p).value))
         == if Framable(p) then Ok(Delivery(appID, NormPDU(p))) else Err
  {
    hide EncodePDU;
    hide DecodePDU;
    hide Payload;
    hide Uint16At;
    hide AnyError;
    var pdu := EncodePDU(p).value;
    var buf := Payload(appID, pdu);
    HeaderRead(appID, pdu);
    var total := Uint16At(buf, 2) as nat;
    if 8 <= total <= |buf| {
      assert buf[8..total] == buf[8..][..total - 8];
      if |pdu| <= 65527 {
        assert pdu[..total - 8] == pdu;
        PduRoundTrip(p);
      } else {
        TruncatedPduFails(p, total - 8);
      }
    }
  }

  lemma EtherTypes()
    ensures ToBE(0x88B8, 2) == [0x88, 0xB8] && ToBE(0x8100, 2) == [0x81, 0x00]
  {
    assert ToBE(0x88, 1) == [0x88] && ToBE(0x81, 1) == [0x81];
  }

  lemma UntaggedRead(macs: bytes, payload: bytes)
    requires |macs| == 12
    ensures FrameContent(macs + [0x88, 0xB8] + payload) == DecodeFrame(payload)
  {
    hide At;
    hide ToBE;
    hide Uint16At;
    hide DecodeFrame;
    var frame := macs + [0x88, 0xB8] + payload;
    EtherTypes();
    AtWhole(frame);
    AtConcat(frame, 0, macs + [0x88, 0xB8], payload);
    AtConcat(frame, 0, macs, [0x88, 0xB8]);
    TwoOctets(frame, 12, 0x88B8);
    assert frame[14..] == payload;
  }

  lemma TaggedRead(macs: bytes, tci: bytes, payload: bytes)
    requires |macs| == 12 && |tci| == 2
    ensures FrameContent(macs + ([0x81, 0x00] + tci) + [0x88, 0xB8] + payload) == DecodeFrame(payload)
  {
    hide At;
    hide ToBE;
    hide Uint16At;
    hide DecodeFrame;
    var tag := [0x81, 0x00] + tci;
    var frame := macs + tag + [0x88, 0xB8] + payload;
    EtherTypes();
    AtWhole(frame);
    AtConcat(frame, 0, macs + tag + [0x88, 0xB8], payload);
    AtConcat(frame, 0, macs + tag, [0x88, 0xB8]);
    AtConcat(frame, 0, macs, tag);
    AtConcat(frame, 12, [0x81, 0x00], tci);
    TwoOctets(frame, 12, 0x8100);
    TwoOctets(frame, 16, 0x88B8);
    assert frame[18..] == payload;
  }

  /**
   * What a receiver makes of a published frame, with or without a VLAN tag: the same PDU up to
   * normalisation, if and only if it is at most 65527 octets long and holds no data-access error.
   */
  lemma FrameRoundTrip(srcMAC: bytes, comm: PhyComAddress, p: GoosePDU)
    requires IsMAC(srcMAC) && IsMAC(comm.dst) && Fits(EncodePDU(p))
    ensures EncodeFrame(srcMAC, comm, p).Ok?
    ensures FrameContent(EncodeFrame(srcMAC, comm, p).value)
         == if Framable(p) then Ok(Delivery(comm.appID, NormPDU(p))) else Err
  {
    hide EncodePDU;
    hide FrameContent;
    hide DecodeFrame;
    hide Payload;
    hide Or;
    hide ToBE;
    hide Framable;
    var macs, payload := comm.dst + srcMAC, Payload(comm.appID, EncodePDU(p).value);
    PayloadRead(comm.appID, p);
    assert EncodeFrame(srcMAC, comm, p).value == macs + VlanTag(comm) + [0x88, 0xB8] + payload by {
      PayloadIs(comm.appID, EncodePDU(p).value);
    }
    if VlanTag(comm) == [] {
      assert macs + VlanTag(comm) == macs;
      UntaggedRead(macs, payload);
    } else {
      TaggedRead(macs, ToBE(Or(comm.vlanPriority * 0x2000, comm.vlanID, 16), 2), payload);
    }
  }

  lemma PayloadIs(appID: uint16, pdu: bytes)
    ensures Payload(appID, pdu) == ToBE(appID, 2) + ToBE((8 + |pdu|) % 0x1_0000, 2) + [0x00, 0x00, 0x00, 0x00] + pdu
  {
  }

  /** A subscriber registered once gets a matching PDU exactly once. */
  lemma {:induction false} RegisteredOnce(subs: seq<Subscriber>, s: Subscriber)
    requires forall i, j :: 0 <= i < j < |subs| ==> subs[i] != subs[j]
    ensures Registrations(subs, s) == if s in subs then 1 else 0
  {
    if subs != [] {
      RegisteredOnce(subs[..|subs| - 1], s);
      assert subs == subs[..|subs| - 1] + [subs[|subs| - 1]];
    }
  }

  // ---- The life of a publisher ----

  /** One call of the publisher. */
  datatype Step = Publish(values: seq<Value>, now: UTCTime) | Retransmit

  /** The state after a run; the same updates as the two methods of Publisher. */
  function After(p: GoosePDU, steps: seq<Step>): GoosePDU {
    if steps == [] then p
    else
      var q := After(p, steps[..|steps| - 1]);
      match steps[|steps| - 1]
      case Publish(values, now) => Published(q, values, now)
      case Retransmit => Retransmitted(q)
  }

  function Publications(steps: seq<Step>): nat {
    if steps == [] then 0
    else Publications(steps[..|steps| - 1]) + if steps[|steps| - 1].Publish? then 1 else 0
  }

  /** Retransmissions since the last publication. */
  function Repeats(steps: seq<Step>): nat {
    if steps == [] || steps[|steps| - 1].Publish? then 0 else Repeats(steps[..|steps| - 1]) + 1
  }

  lemma ModSucc(a: int, b: int)
    requires a == b % LIMIT
    ensures (a + 1) % LIMIT == (b + 1) % LIMIT
  {
    assert b + 1 == a + 1 + b / LIMIT * LIMIT;
    ModShift32(a + 1, b / LIMIT);
  }

  lemma ModShift32(a: int, k: int)
    ensures (a + k * LIMIT) % LIMIT == a % LIMIT
  {
    var q := a / LIMIT;
    assert a + k * LIMIT == (q + k) * LIMIT + a % LIMIT;
  }

  /** The state number counts publications and the sequence number the repetitions of the last one. */
  lemma {:induction false} CountersOverRun(p: GoosePDU, steps: seq<Step>)
    requires p.stNum == 0 && p.sqNum == 0
    ensures After(p, steps).stNum == Publications(steps) % LIMIT
    ensures After(p, steps).sqNum == Repeats(steps) % LIMIT
    decreases |steps|
  {
    if steps != [] {
      var init := steps[..|steps| - 1];
      CountersOverRun(p, init);
      ModSucc(After(p, init).stNum, Publications(init));
      ModSucc(After(p, init).sqNum, Repeats(init));
    }
  }

  /** Retransmissions repeat the data and the time of the last publication, with no other field changed. */
  lemma {:induction false} RepeatsCarrySameState(p: GoosePDU, steps: seq<Step>, k: nat)
    requires k <= |steps| && forall i :: k <= i < |steps| ==> steps[i].Retransmit?
    ensures After(p, steps) == After(p, steps[..k]).(sqNum := (After(p, steps[..k]).sqNum as int + |steps| - k) % LIMIT)
    decreases |steps|
  {
    hide Published;
    var start := After(p, steps[..k]);
    if k == |steps| {
      assert steps[..k] == steps;
    } else {
      var init := steps[..|steps| - 1];
      RepeatsCarrySameState(p, init, k);
      assert init[..k] == steps[..k];
      ModSucc(After(p, init).sqNum, start.sqNum as int + |init| - k);
      assert After(p, steps) == Retransmitted(After(p, init));
    }
  }

  // ---- From a publication to a listener ----

  /** The PDU that a receiver reads for a publication. */
  predicate Announces(q: GoosePDU, p: GoosePDU, values: seq<Value>, now: UTCTime) {
    && q.goCBRef == p.goCBRef && q.dataSet == p.dataSet && q.goID == p.goID
    && q.timeAllowedToLive == p.timeAllowedToLive && q.test == p.test && q.confRev == p.confRev && q.ndsCom == p.ndsCom
    && q.allData == NormAll(values) && q.numDatSetEntries == |values| % LIMIT && q.t == NormTime(now)
    && q.stNum == (p.stNum as int + 1) % LIMIT && q.sqNum == 0
  }

  /**
   * What a publication of values hands to the socket, a listening subscriber that is registered once gets as one PDU, if
   * its application ID and control block are the publisher's or any, and otherwise not at all. The PDU carries the
   * values, their number and their time, the next state number, and the publisher's settings.
   */
  lemma PublicationReaches(
      srcMAC: bytes, comm: PhyComAddress, p: GoosePDU, values: seq<Value>, now: UTCTime, s: Subscriber, subs: seq<Subscriber>)
    requires IsMAC(srcMAC) && IsMAC(comm.dst) && Fits(EncodePDU(Published(p, values, now)))
    requires |EncodePDU(Published(p, values, now)).value| <= 65527 && !AnyError(values)
    requires s in subs && forall i, j :: 0 <= i < j < |subs| ==> subs[i] != subs[j]
    ensures var frame := EncodeFrame(srcMAC, comm, Published(p, values, now));
            && frame.Ok?
            && var got := Delivered(FrameContent(frame.value), s, subs);
            if s.listening && (s.appID == 0 || s.appID == comm.appID) && (s.goCBRef == [] || s.goCBRef == p.goCBRef)
            then |got| == 1 && got[0].appID == comm.appID && Announces(got[0].pdu, p, values, now)
            else got == []
  {
    hide EncodePDU;
    hide EncodeFrame;
    hide FrameContent;
    hide Registrations;
    var q := Published(p, values, now);
    FrameRoundTrip(srcMAC, comm, q);
    RegisteredOnce(subs, s);
    OneCopy(Delivery(comm.appID, NormPDU(q)));
  }

  lemma OneCopy(d: Delivery)
    ensures Copies(d, 1) == [d]
  {
    assert Copies(d, 0) == [];
  }
}
