/** GOOSE (IEC 61850-8-1): PDU codec, Ethernet framing, publisher and receiver. */
module Goose {
  import opened Bytes
  import opened BerIntegers
  import opened Ber
  import opened MmsValues

  datatype GoosePDU = GoosePDU(
    goCBRef: Text, timeAllowedToLive: uint32, dataSet: Text, goID: Text, t: UTCTime, stNum: uint32, sqNum: uint32,
    test: bool, confRev: uint32, ndsCom: bool, numDatSetEntries: uint32, allData: seq<Value>)

  const NO_TIME := UTCTime(0, 0, 0, false, false, false)

  const EMPTY_PDU := GoosePDU([], 0, [], [], NO_TIME, 0, 0, false, 0, false, 0, [])

  // ---- Encoding ----

  /** One context-tagged field of the PDU. */
  datatype Field = Field(tag: nat, constructed: bool, value: bytes)

  function EncodeFields(fs: seq<Field>): bytes {
    if fs == [] then [] else ContextTLV(fs[0].tag, fs[0].constructed, fs[0].value) + EncodeFields(fs[1..])
  }

  function Plain(tag: nat, value: bytes): Field {
    Field(tag, false, value)
  }

  function BoolOctet(b: bool): bytes {
    [if b then 0xFF else 0x00]
  }

  function LeadFields(p: GoosePDU): seq<Field> {
    [Plain(0, p.goCBRef), Plain(1, TwosComplement(p.timeAllowedToLive)), Plain(2, p.dataSet)]
  }

  function IdField(p: GoosePDU): seq<Field> {
    if p.goID != [] then [Plain(3, p.goID)] else []
  }

  function StateFields(p: GoosePDU): seq<Field> {
    [Plain(4, UTCContent(p.t)), Plain(5, TwosComplement(p.stNum)), Plain(6, TwosComplement(p.sqNum)),
     Plain(7, BoolOctet(p.test))]
  }

  function ConfigFields(p: GoosePDU, data: bytes): seq<Field> {
    [Plain(8, TwosComplement(p.confRev)), Plain(9, BoolOctet(p.ndsCom)),
     Plain(10, TwosComplement(p.numDatSetEntries)), Field(11, true, data)]
  }

  function FieldsOf(p: GoosePDU, data: bytes): seq<Field> {
    LeadFields(p) + IdField(p) + StateFields(p) + ConfigFields(p, data)
  }

  function EncodePDU(p: GoosePDU): Result<bytes> {
    var data :- EncodeElements(p.allData);
    Ok(Prim(0x61, EncodeFields(FieldsOf(p, data))))
  }

  // ---- Decoding ----

  /** decodeUint32 of the goose package: shifts in 32-bit arithmetic. */
  function Shifted32(bs: bytes): uint32 {
    FromBE(bs) % 0x1_0000_0000
  }

  function TimeOrNone(bs: bytes): UTCTime {
    match DecodedUTC(bs)
    case Ok(t) => t.(accuracy := 0)
    case _ => NO_TIME
  }

  predicate FirstSet(bs: bytes) {
    |bs| > 0 && bs[0] != 0
  }

  /** The field switch of DecodePDU. */
  function Apply(p: GoosePDU, tag: int, value: bytes): Result<GoosePDU> {
    match tag
    case 0 => Ok(p.(goCBRef := value))
    case 1 => Ok(p.(timeAllowedToLive := Shifted32(value)))
    case 2 => Ok(p.(dataSet := value))
    case 3 => Ok(p.(goID := value))
    case 4 => Ok(p.(t := TimeOrNone(value)))
    case 5 => Ok(p.(stNum := Shifted32(value)))
    case 6 => Ok(p.(sqNum := Shifted32(value)))
    case 7 => Ok(p.(test := FirstSet(value)))
    case 8 => Ok(p.(confRev := Shifted32(value)))
    case 9 => Ok(p.(ndsCom := FirstSet(value)))
    case 10 => Ok(p.(numDatSetEntries := Shifted32(value)))
    case 11 =>
      var data :- DecodeElementsFrom(value, 0, []);
      Ok(p.(allData := data))
    case _ => Ok(p)
  }

  function FieldsFrom(body: bytes, pos: nat, p: GoosePDU): Result<GoosePDU>
    decreases |body| - pos
  {
    if pos >= |body| then Ok(p)
    else
      var (tlv, next) :- TLVAt(body, pos);
      if tlv.class_ != CLASS_CONTEXT then FieldsFrom(body, next, p)
      else
        var p' :- Apply(p, tlv.tag, tlv.value);
        FieldsFrom(body, next, p')
  }

  method DecodeFields(body: bytes) returns (r: Result<GoosePDU>)
    ensures r == FieldsFrom(body, 0, EMPTY_PDU)
  {
    var p := EMPTY_PDU;
    var pos := 0;
    while pos < |body|
      invariant 0 <= pos <= |body|
      invariant FieldsFrom(body, 0, EMPTY_PDU) == FieldsFrom(body, pos, p)
      decreases |body| - pos
    {
      var found := TLVAt(body, pos);
      if found.IsFailure() {
        return found.PropagateFailure();
      }
      var tlv := found.value.0;
      pos := found.value.1;
      if tlv.class_ != CLASS_CONTEXT {
        continue;
      }
      var applied := Apply(p, tlv.tag, tlv.value);
      if applied.IsFailure() {
        return applied;
      }
      p := applied.value;
    }
    return Ok(p);
  }

  function DecodePDU(buf: bytes): Result<GoosePDU> {
    if |buf| < 2 || buf[0] != 0x61 then Err
    else
      var (length, offset) :- LengthAt(buf, 1);
      if offset + length > |buf| then Err else FieldsFrom(buf[offset..offset + length], 0, EMPTY_PDU)
  }

  // ---- Frames ----

  datatype PhyComAddress = PhyComAddress(vlanPriority: byte, vlanID: uint16, appID: uint16, dst: bytes)

  predicate IsMAC(mac: bytes) {
    |mac| == 6
  }

  /** Bitwise or of the low `k` bits. */
  function Or(a: nat, b: nat, k: nat): nat {
    if k == 0 then 0 else 2 * Or(a / 2, b / 2, k - 1) + if a % 2 == 1 || b % 2 == 1 then 1 else 0
  }

  function VlanTag(comm: PhyComAddress): bytes {
    if comm.vlanID != 0 || comm.vlanPriority != 0 then
      [0x81, 0x00] + ToBE(Or(comm.vlanPriority * 0x2000, comm.vlanID, 16), 2)
    else []
  }

  function EncodeFrame(srcMAC: bytes, comm: PhyComAddress, p: GoosePDU): Result<bytes> {
    var pdu :- EncodePDU(p);
    Ok(comm.dst + srcMAC + VlanTag(comm) + [0x88, 0xB8]
       + (ToBE(comm.appID, 2) + ToBE((8 + |pdu|) % 0x1_0000, 2) + [0x00, 0x00, 0x00, 0x00] + pdu))
  }

  function Uint16At(buf: bytes, offset: nat): uint16
    requires offset + 2 <= |buf|
  {
    PowersOf256();
    FromBE(buf[offset..offset + 2])
  }

  datatype Delivery = Delivery(appID: uint16, pdu: GoosePDU)

  /** DecodeGOOSEFrame. */
  function DecodeFrame(buf: bytes): Result<Delivery> {
    if |buf| < 8 then Err
    else
      var total := Uint16At(buf, 2);
      if total < 8 || total > |buf| then Err
      else
        var p :- DecodePDU(buf[8..total]);
        Ok(Delivery(Uint16At(buf, 0), p))
  }

  /** The part of handleFrame before the subscribers. */
  function FrameContent(frame: bytes): Result<Delivery> {
    if |frame| < 14 then Err
    else
      var etherType := Uint16At(frame, 12);
      if etherType == 0x8100 then
        if |frame| < 18 then Err
        else if Uint16At(frame, 16) != 0x88B8 then Err
        else DecodeFrame(frame[18..])
      else if etherType != 0x88B8 then Err
      else DecodeFrame(frame[14..])
  }

  // ---- Publisher ----

  /** goose.Publisher; `sent` is what the raw socket has been handed. */
  class Publisher {
    const comm: PhyComAddress
    const srcMAC: bytes
    var pdu: GoosePDU
    var sent: seq<bytes>

    constructor (comm: PhyComAddress, srcMAC: bytes)
      ensures this.comm == comm && this.srcMAC == srcMAC && sent == []
      ensures pdu == EMPTY_PDU.(timeAllowedToLive := 2000, confRev := 1)
    {
      this.comm, this.srcMAC, sent := comm, srcMAC, [];
      pdu := EMPTY_PDU.(timeAllowedToLive := 2000, confRev := 1);
    }

    method Publish(values: seq<Value>, now: UTCTime) returns (r: Result<nat>)
      modifies this
      ensures pdu == Published(old(pdu), values, now)
      ensures match EncodeFrame(srcMAC, comm, pdu)
              case Ok(frame) => r == Ok(|frame|) && sent == old(sent) + [frame]
              case _ => r.IsFailure() && sent == old(sent)
    {
      var stNum := (pdu.stNum as int + 1) % 0x1_0000_0000;
      pdu := pdu.(stNum := stNum);
      pdu := pdu.(sqNum := 0);
      pdu := pdu.(allData := values);
      pdu := pdu.(numDatSetEntries := |values| % 0x1_0000_0000);
      pdu := pdu.(t := now);
      var frame := EncodeFrame(srcMAC, comm, pdu);
      if frame.IsFailure() {
        return frame.PropagateFailure();
      }
      sent := sent + [frame.value];
      return Ok(|frame.value|);
    }

    method Retransmit() returns (ok: bool)
      modifies this
      ensures pdu == Retransmitted(old(pdu))
      ensures match EncodeFrame(srcMAC, comm, pdu)
              case Ok(frame) => ok && sent == old(sent) + [frame]
              case _ => !ok && sent == old(sent)
    {
      var sqNum := (pdu.sqNum as int + 1) % 0x1_0000_0000;
      pdu := pdu.(sqNum := sqNum);
      var frame := EncodeFrame(srcMAC, comm, pdu);
      if frame.IsFailure() {
        return false;
      }
      sent := sent + [frame.value];
      return true;
    }
  }

  function Published(p: GoosePDU, values: seq<Value>, now: UTCTime): GoosePDU {
    p.(stNum := (p.stNum as int + 1) % 0x1_0000_0000, sqNum := 0, allData := values,
       numDatSetEntries := |values| % 0x1_0000_0000, t := now)
  }

  function Retransmitted(p: GoosePDU): GoosePDU {
    p.(sqNum := (p.sqNum as int + 1) % 0x1_0000_0000)
  }

  // ---- Subscribers ----

  /** goose.Subscriber; `received` records the listener calls. */
  class Subscriber {
    const appID: uint16
    var goCBRef: Text
    const listening: bool
    var received: seq<Delivery>

    constructor (appID: uint16, listening: bool)
      ensures this.appID == appID && goCBRef == [] && this.listening == listening && received == []
    {
      this.appID, goCBRef, this.listening, received := appID, [], listening, [];
    }

    predicate Wants(d: Delivery)
      reads this
    {
      listening && (appID == 0 || appID == d.appID) && (goCBRef == [] || goCBRef == d.pdu.goCBRef)
    }

    method Dispatch(d: Delivery)
      modifies `received
      ensures received == old(received) + if Wants(d) then [d] else []
    {
      if appID != 0 && appID != d.appID {
        return;
      }
      if goCBRef != [] && goCBRef != d.pdu.goCBRef {
        return;
      }
      if listening {
        received := received + [d];
      }
    }
  }

  /** How often `s` was registered. */
  function Registrations(subs: seq<Subscriber>, s: Subscriber): nat {
    if subs == [] then 0
    else Registrations(subs[..|subs| - 1], s) + if subs[|subs| - 1] == s then 1 else 0
  }

  lemma RegistrationsNext(subs: seq<Subscriber>, i: nat)
    requires i < |subs|
    ensures forall s :: Registrations(subs[..i + 1], s) == Registrations(subs[..i], s) + if subs[i] == s then 1 else 0
  {
    assert subs[..i + 1][..i] == subs[..i];
  }

  lemma RegistrationsNone(subs: seq<Subscriber>)
    ensures forall s :: Registrations(subs[..0], s) == 0
  {
  }

  function Copies(d: Delivery, n: nat): seq<Delivery> {
    if n == 0 then [] else Copies(d, n - 1) + [d]
  }

  /** What one frame adds to what the listener of `s` has received. */
  function Delivered(content: Result<Delivery>, s: Subscriber, subs: seq<Subscriber>): seq<Delivery>
    reads s
  {
    if content.Ok? && s.Wants(content.value) then Copies(content.value, Registrations(subs, s)) else []
  }

  class Receiver {
    var subscribers: seq<Subscriber>

    constructor ()
      ensures subscribers == []
    {
      subscribers := [];
    }

    method AddSubscriber(s: Subscriber)
      modifies this
      ensures subscribers == old(subscribers) + [s]
    {
      subscribers := subscribers + [s];
    }

    /** handleFrame: every registration of a matching subscriber gets the PDU once, all others nothing. */
    method HandleFrame(frame: bytes)
      modifies subscribers
      ensures forall s :: s in subscribers ==> s.goCBRef == old(s.goCBRef)
      ensures forall s :: s in subscribers ==>
                s.received == old(s.received) + Delivered(FrameContent(frame), s, subscribers)
    {
      hide FrameContent;
      hide Registrations;
      RegistrationsNone(subscribers);
      var content := FrameContent(frame);
      if content.IsFailure() {
        return;
      }
      var d := content.value;
      for i := 0 to |subscribers|
        invariant forall s :: s in subscribers ==> s.goCBRef == old(s.goCBRef)
        invariant forall s :: s in subscribers ==>
                    s.received == old(s.received)
                                  + Copies(d, if s.Wants(d) then Registrations(subscribers[..i], s) else 0)
      {
        var sub := subscribers[i];
        RegistrationsNext(subscribers, i);
        sub.Dispatch(d);
      }
      assert subscribers[..|subscribers|] == subscribers;
    }
  }
}
