/** Published GOOSE frames as the rest of the network sees them: bridges, and receivers that read by the standard. */
module GooseWire {
  import opened Bytes
  import opened BerIntegers
  import opened Ber
  import opened BerTrees
  import opened MmsValues
  import opened MmsValueRoundTrip
  import opened MmsPduRoundTrip
  import opened MmsWire
  import opened Powers
  import opened Goose
  import opened GooseRoundTrip

  // ---- The Ethernet header ----

  /** IEEE 802.1Q, section 9.6: priority, drop eligibility and VLAN identifier. */
  datatype VlanTCI = VlanTCI(priority: nat, dropEligible: bool, vlan: nat)

  datatype Header = Header(destination: bytes, source: bytes, tag: Option<VlanTCI>, etherType: nat, payload: bytes)

  function Tci(tci: nat): VlanTCI {
    VlanTCI(tci / 0x2000, tci / 0x1000 % 2 == 1, tci % 0x1000)
  }

  function Number16(a: byte, b: byte): nat {
    a * 0x100 + b
  }

  /** What a bridge reads at the front of a frame. */
  function HeaderOf(frame: bytes): Result<Header> {
    if |frame| < 14 then Err
    else if Number16(frame[12], frame[13]) != 0x8100 then
      Ok(Header(frame[..6], frame[6..12], None, Number16(frame[12], frame[13]), frame[14..]))
    else if |frame| < 18 then Err
    else
      var tci := Number16(frame[14], frame[15]);
      Ok(Header(frame[..6], frame[6..12], Some(Tci(tci)),
                Number16(frame[16], frame[17]), frame[18..]))
  }

  lemma TwoOctetsOf(n: nat)
    requires n < 0x1_0000
    ensures ToBE(n, 2) == [n / 0x100, n % 0x100] && Number16(n / 0x100, n % 0x100) == n
  {
    assert ToBE(n / 0x100, 1) == ToBE(n / 0x100 / 0x100, 0) + [n / 0x100 % 0x100];
  }

  lemma {:induction false} OrZero(a: nat, k: nat)
    requires a < Pow2(k)
    ensures Or(a, 0, k) == a
  {
    if k > 0 {
      OrZero(a / 2, k - 1);
    }
  }

  /** Or of numbers that share no bit is their sum. */
  lemma {:induction false} OrShifted(a: nat, b: nat, j: nat, k: nat)
    requires j <= k && b < Pow2(j) && a < Pow2(k - j)
    ensures Or(a * Pow2(j), b, k) == a * Pow2(j) + b
    decreases j
  {
    if j == 0 {
      OrZero(a, k);
    } else {
      OrShifted(a, b / 2, j - 1, k - 1);
      Doubled(a, Pow2(j - 1));
    }
  }

  lemma Doubled(a: nat, p: nat)
    ensures a * (2 * p) == 2 * (a * p) && a * (2 * p) / 2 == a * p && a * (2 * p) % 2 == 0
  {
  }

  lemma TagControl(priority: nat, vlan: nat)
    requires priority < 8 && vlan < 0x1000
    ensures Or(priority * 0x2000, vlan, 16) == priority * 0x2000 + vlan
  {
    hide Or;
    assert Pow2(3) == 8 && Pow2(13) == 0x2000 by {
      assert Pow2(8) == 256;
      Pow2Split(5, 8);
      assert Pow2(5) == 32;
    }
    OrShifted(priority, vlan, 13, 16);
  }

  lemma UntaggedHeader(srcMAC: bytes, dst: bytes, payload: bytes)
    requires IsMAC(srcMAC) && IsMAC(dst)
    ensures HeaderOf(dst + srcMAC + [] + [0x88, 0xB8] + payload) == Ok(Header(dst, srcMAC, None, 0x88B8, payload))
  {
    var frame := dst + srcMAC + [] + [0x88, 0xB8] + payload;
    assert frame[..6] == dst && frame[6..12] == srcMAC && frame[14..] == payload;
    assert frame[12] == 0x88 && frame[13] == 0xB8;
  }

  lemma TaggedHeader(srcMAC: bytes, dst: bytes, a: byte, b: byte, payload: bytes)
    requires IsMAC(srcMAC) && IsMAC(dst)
    ensures HeaderOf(dst + srcMAC + ([0x81, 0x00] + [a, b]) + [0x88, 0xB8] + payload)
         == Ok(Header(dst, srcMAC, Some(Tci(Number16(a, b))), 0x88B8, payload))
  {
    var frame := dst + srcMAC + ([0x81, 0x00] + [a, b]) + [0x88, 0xB8] + payload;
    assert frame[..6] == dst && frame[6..12] == srcMAC && frame[18..] == payload;
    assert frame[12] == 0x81 && frame[13] == 0x00 && frame[14] == a && frame[15] == b;
    assert frame[16] == 0x88 && frame[17] == 0xB8;
  }

  lemma LowTwoOctets(n: nat)
    ensures ToBE(n, 2) == [n / 0x100 % 0x100, n % 0x100]
  {
    assert ToBE(n / 0x100, 1) == ToBE(n / 0x100 / 0x100, 0) + [n / 0x100 % 0x100];
  }

  /**
   * Every frame goes to the configured destination and comes from the publisher. It has a tag exactly when priority or
   * VLAN is not zero, with both as configured if they fit their three and twelve bits, and never drop-eligible.
   */
  lemma FrameAddressed(srcMAC: bytes, comm: PhyComAddress, p: GoosePDU)
    requires IsMAC(srcMAC) && IsMAC(comm.dst) && EncodeFrame(srcMAC, comm, p).Ok?
    ensures var frame := EncodeFrame(srcMAC, comm, p).value;
            && frame[..6] == comm.dst && frame[6..12] == srcMAC
            && HeaderOf(frame).Ok?
            && var h := HeaderOf(frame).value;
            && h.destination == comm.dst && h.source == srcMAC && h.etherType == 0x88B8
            && h.payload == Payload(comm.appID, EncodePDU(p).value)
            && (h.tag.Some? <==> comm.vlanPriority != 0 || comm.vlanID != 0)
            && (h.tag.Some? && comm.vlanPriority < 8 && comm.vlanID < 0x1000 ==>
                  h.tag.value == VlanTCI(comm.vlanPriority, false, comm.vlanID))
  {
    hide EncodePDU;
    hide HeaderOf;
    hide Or;
    hide ToBE;
    hide Number16;
    hide Tci;
    var payload := Payload(comm.appID, EncodePDU(p).value);
    if comm.vlanPriority == 0 && comm.vlanID == 0 {
      UntaggedHeader(srcMAC, comm.dst, payload);
    } else {
      var tci: nat := Or(comm.vlanPriority * 0x2000, comm.vlanID, 16);
      LowTwoOctets(tci);
      TaggedHeader(srcMAC, comm.dst, tci / 0x100 % 0x100, tci % 0x100, payload);
      if comm.vlanPriority < 8 && comm.vlanID < 0x1000 {
        TagControl(comm.vlanPriority, comm.vlanID);
        TwoOctetsOf(comm.vlanPriority * 0x2000 + comm.vlanID);
        TagParts(comm.vlanPriority, comm.vlanID);
      }
    }
  }

  lemma TagParts(priority: nat, vlan: nat)
    requires priority < 8 && vlan < 0x1000
    ensures Tci(priority * 0x2000 + vlan) == VlanTCI(priority, false, vlan)
  {
  }

  // ---- The GOOSE header and the fields of the PDU ----

  /** IEC 61850-8-1, annex C: APPID, length, and two reserved fields that are zero. */
  lemma PayloadHeader(appID: uint16, pdu: bytes)
    ensures var payload := Payload(appID, pdu);
            && |payload| == 8 + |pdu|
            && Number16(payload[0], payload[1]) == appID
            && Number16(payload[2], payload[3]) == (8 + |pdu|) % 0x1_0000
            && payload[4..8] == [0, 0, 0, 0] && payload[8..] == pdu
  {
    hide ToBE;
    hide Number16;
    TwoOctetsOf(appID);
    TwoOctetsOf((8 + |pdu|) % 0x1_0000);
    var payload := Payload(appID, pdu);
    assert payload[4..8] == [0, 0, 0, 0] && payload[8..] == pdu;
  }

  function FieldTrees(p: GoosePDU): seq<Tree>
    requires EncodeElements(p.allData).Ok?
  {
    [Leaf(0x80, p.goCBRef), Leaf(0x81, TwosComplement(p.timeAllowedToLive)), Leaf(0x82, p.dataSet)]
    + (if p.goID == [] then [] else [Leaf(0x83, p.goID)])
    + [Leaf(0x84, UTCContent(p.t)), Leaf(0x85, TwosComplement(p.stNum)), Leaf(0x86, TwosComplement(p.sqNum)),
       Leaf(0x87, [if p.test then 0xFF else 0x00])]
    + [Leaf(0x88, TwosComplement(p.confRev)), Leaf(0x89, [if p.ndsCom then 0xFF else 0x00]),
       Leaf(0x8A, TwosComplement(p.numDatSetEntries)), Node(0xAB, ValueTrees(p.allData))]
  }

  function FieldTree(f: Field, data: seq<Tree>): Tree
    requires f.tag < 31
  {
    if f.constructed then Node(0xA0 + f.tag, data) else Leaf(0x80 + f.tag, f.value)
  }

  function TreesOf(fs: seq<Field>, data: seq<Tree>): seq<Tree>
    requires ShortTags(fs)
  {
    if fs == [] then [] else [FieldTree(fs[0], data)] + TreesOf(fs[1..], data)
  }

  lemma FieldOnWire(f: Field, data: seq<Tree>)
    requires f.tag < 31 && |f.value| < LIMIT && (f.constructed ==> Reads(f.value, data))
    ensures Reads(ContextTLV(f.tag, f.constructed, f.value), [FieldTree(f, data)])
  {
    hide Reads;
    hide ContextTLV;
    if f.constructed {
      ContextNode(f.tag, f.value, data);
    } else {
      ContextLeaf(f.tag, f.value);
    }
  }

  lemma {:induction false} FieldsOnWire(fs: seq<Field>, data: seq<Tree>)
    requires ShortTags(fs) && |EncodeFields(fs)| < LIMIT
    requires forall f :: f in fs && f.constructed ==> Reads(f.value, data)
    ensures Reads(EncodeFields(fs), TreesOf(fs, data))
  {
    hide Reads;
    hide ContextTLV;
    hide FieldTree;
    if fs == [] {
      NothingReads();
    } else {
      FieldOnWire(fs[0], data);
      FieldsOnWire(fs[1..], data);
      ReadsConcat(ContextTLV(fs[0].tag, fs[0].constructed, fs[0].value), [FieldTree(fs[0], data)],
                  EncodeFields(fs[1..]), TreesOf(fs[1..], data));
    }
  }

  lemma {:induction false} TreesConcat(a: seq<Field>, b: seq<Field>, data: seq<Tree>)
    requires ShortTags(a) && ShortTags(b)
    ensures TreesOf(a + b, data) == TreesOf(a, data) + TreesOf(b, data)
  {
    hide FieldTree;
    if a == [] {
      assert a + b == b;
    } else {
      assert (a + b)[1..] == a[1..] + b;
      TreesConcat(a[1..], b, data);
    }
  }

  lemma OneTree(f: Field, data: seq<Tree>)
    requires f.tag < 31
    ensures TreesOf([f], data) == [FieldTree(f, data)]
  {
    hide FieldTree;
    assert [f][1..] == [];
  }

  lemma FourTrees(a: Field, b: Field, c: Field, d: Field, data: seq<Tree>)
    requires ShortTags([a, b, c, d]) && a.tag < 31 && b.tag < 31 && c.tag < 31 && d.tag < 31
    ensures TreesOf([a, b, c, d], data) == [FieldTree(a, data), FieldTree(b, data), FieldTree(c, data), FieldTree(d, data)]
    ensures ShortTags([a, b, c])
    ensures TreesOf([a, b, c], data) == [FieldTree(a, data), FieldTree(b, data), FieldTree(c, data)]
  {
    hide FieldTree;
    assert [a, b, c, d][1..] == [b, c, d] && [b, c, d][1..] == [c, d] && [c, d][1..] == [d];
    assert [a, b, c][1..] == [b, c] && [b, c][1..] == [c];
    OneTree(d, data);
    OneTree(c, data);
    assert TreesOf([c, d], data) == [FieldTree(c, data), FieldTree(d, data)];
    assert TreesOf([b, c, d], data) == [FieldTree(b, data), FieldTree(c, data), FieldTree(d, data)];
  }

  lemma FieldsAreTrees(p: GoosePDU, data: bytes)
    requires EncodeElements(p.allData) == Ok(data)
    ensures ShortTags(FieldsOf(p, data)) && TreesOf(FieldsOf(p, data), ValueTrees(p.allData)) == FieldTrees(p)
  {
    hide TreesOf;
    hide TwosComplement;
    hide UTCContent;
    hide EncodeElements;
    hide ValueTrees;
    var trees := ValueTrees(p.allData);
    var a, b, c, d := LeadFields(p), IdField(p), StateFields(p), ConfigFields(p, data);
    TreesConcat(a + b + c, d, trees);
    TreesConcat(a + b, c, trees);
    TreesConcat(a, b, trees);
    FourTrees(a[0], a[1], a[2], a[2], trees);
    FourTrees(c[0], c[1], c[2], c[3], trees);
    FourTrees(d[0], d[1], d[2], d[3], trees);
    OneTree(Plain(3, p.goID), trees);
    NoTrees(trees);
    assert a == [a[0], a[1], a[2]] && c == [c[0], c[1], c[2], c[3]] && d == [d[0], d[1], d[2], d[3]];
  }

  lemma NoTrees(data: seq<Tree>)
    ensures TreesOf([], data) == []
  {
  }

  /** A PDU is one element of application class and number 1 around its fields, each under its own context tag. */
  lemma PduOnWire(p: GoosePDU)
    requires Fits(EncodePDU(p))
    ensures EncodeElements(p.allData).Ok?
    ensures Reads(EncodePDU(p).value, [Node(0x61, FieldTrees(p))]) && CarryAll(ValueTrees(p.allData), p.allData)
  {
    hide EncodeElements;
    hide EncodeFields;
    hide FieldTrees;
    hide Prim;
    hide Reads;
    hide CarryAll;
    hide ValueTrees;
    var data := EncodeElements(p.allData).value;
    var fs, body := FieldsOf(p, data), EncodeFields(FieldsOf(p, data));
    PrimHolds(0x61, body);
    DataSize(p, data);
    ValuesOnWire(p.allData);
    FieldsAreTrees(p, data);
    FieldsOnWire(fs, ValueTrees(p.allData));
    NodeReads(0x61, body, FieldTrees(p));
  }

  lemma DataSize(p: GoosePDU, data: bytes)
    ensures |data| <= |EncodeFields(FieldsOf(p, data))|
    ensures forall f :: f in FieldsOf(p, data) && f.constructed ==> f.value == data
  {
    hide EncodeFields;
    LastFieldSize(FieldsOf(p, data));
  }

  lemma PrimHolds(tag: byte, content: bytes)
    ensures |Prim(tag, content)| >= 2 + |content|
  {
  }
}
