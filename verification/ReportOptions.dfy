/** Trigger options and optional fields of a control block, as both sides turn them into bit strings and back. */
module ReportOptions {
  import opened Bytes
  import opened MmsValues
  import opened Powers
  import opened Reports

  /** common.TriggerOption, without the transient flag, which has no bit. */
  datatype Triggers = Triggers(dataChange: bool, qualityChange: bool, dataUpdate: bool, integrity: bool, gi: bool)

  /** encodeTrgOpsBits of the server and trgOpsToMMS of the client. */
  function TriggerBits(t: Triggers): bytes {
    [Flag(t.dataChange, 0x40) + Flag(t.qualityChange, 0x20) + Flag(t.dataUpdate, 0x10)
     + Flag(t.integrity, 0x08) + Flag(t.gi, 0x04)]
  }

  /** encodeOptFldsBits and optFldsToMMS. */
  function OptionBits(o: Options): bytes {
    [Flag(o.seqNum, 0x40) + Flag(o.timestamp, 0x20) + Flag(o.reason, 0x10) + Flag(o.dataSet, 0x08)
     + Flag(o.dataRef, 0x04) + Flag(o.bufOvfl, 0x02) + Flag(o.entryID, 0x01),
     Flag(o.confRev, 0x80)]
  }

  /** The values of a new control block; the sizes are negative. */
  function ServerTriggers(t: Triggers): Value {
    BitString(TriggerBits(t), -6)
  }

  function ServerOptions(o: Options): Value {
    BitString(OptionBits(o), -10)
  }

  /** What the client writes. */
  function ClientTriggers(t: Triggers): Value {
    BitString(TriggerBits(t), 6)
  }

  function ClientOptions(o: Options): Value {
    BitString(OptionBits(o), 10)
  }

  /** trgOpsFromMMS. */
  function TriggersOf(b: bytes): Triggers {
    if b == [] then Triggers(false, false, false, false, false)
    else
      Triggers(b[0] / 0x40 % 2 == 1, b[0] / 0x20 % 2 == 1, b[0] / 0x10 % 2 == 1, b[0] / 0x08 % 2 == 1,
               b[0] / 0x04 % 2 == 1)
  }

  lemma Weights()
    ensures Pow2(0) == 1 && Pow2(1) == 2 && Pow2(2) == 4 && Pow2(3) == 8 && Pow2(4) == 0x10
    ensures Pow2(5) == 0x20 && Pow2(6) == 0x40 && Pow2(7) == 0x80
  {
    assert Pow2(3) == 8;
    assert Pow2(6) == 0x40;
  }

  function One(b: bool): nat {
    if b then 1 else 0
  }

  lemma FlagAt(n: nat, high: nat, b: bool, w: nat, low: nat)
    requires 0 <= low < w && n == (2 * high + One(b)) * w + low
    ensures n / w % 2 == 1 <==> b
  {
    DivUnique(n, 2 * high + One(b), w, low);
  }

  /** Seven flags in one octet. */
  lemma FlagsApart(a: bool, b: bool, c: bool, d: bool, e: bool, f: bool, g: bool)
    ensures var n: int := Flag(a, 0x40) + Flag(b, 0x20) + Flag(c, 0x10) + Flag(d, 0x08) + Flag(e, 0x04) + Flag(f, 0x02) + Flag(g, 0x01);
            && 0 <= n < 0x80 && (n / 0x40 % 2 == 1 <==> a) && (n / 0x20 % 2 == 1 <==> b) && (n / 0x10 % 2 == 1 <==> c)
            && (n / 0x08 % 2 == 1 <==> d) && (n / 0x04 % 2 == 1 <==> e) && (n / 0x02 % 2 == 1 <==> f)
            && (n % 2 == 1 <==> g)
  {
    hide Flag;
    SumOfFlags(a, b, c, d, e, f, g);
    HighFlags(a, b, c, 8 * One(d) + 4 * One(e) + 2 * One(f) + One(g));
    LowFlags(4 * One(a) + 2 * One(b) + One(c), d, e, f, g);
  }

  lemma HighFlags(a: bool, b: bool, c: bool, low: nat)
    requires low < 16
    ensures var n := 64 * One(a) + 32 * One(b) + 16 * One(c) + low;
            && (n / 0x40 % 2 == 1 <==> a) && (n / 0x20 % 2 == 1 <==> b) && (n / 0x10 % 2 == 1 <==> c)
  {
    var n := 64 * One(a) + 32 * One(b) + 16 * One(c) + low;
    FlagAt(n, 0, a, 0x40, 32 * One(b) + 16 * One(c) + low);
    FlagAt(n, One(a), b, 0x20, 16 * One(c) + low);
    FlagAt(n, 2 * One(a) + One(b), c, 0x10, low);
  }

  lemma LowFlags(high: nat, d: bool, e: bool, f: bool, g: bool)
    ensures var n := 16 * high + 8 * One(d) + 4 * One(e) + 2 * One(f) + One(g);
            && (n / 0x08 % 2 == 1 <==> d) && (n / 0x04 % 2 == 1 <==> e) && (n / 0x02 % 2 == 1 <==> f) && (n % 2 == 1 <==> g)
  {
    var n := 16 * high + 8 * One(d) + 4 * One(e) + 2 * One(f) + One(g);
    FlagAt(n, high, d, 0x08, 4 * One(e) + 2 * One(f) + One(g));
    FlagAt(n, 2 * high + One(d), e, 0x04, 2 * One(f) + One(g));
    FlagAt(n, 4 * high + 2 * One(d) + One(e), f, 0x02, One(g));
  }

  lemma SumOfFlags(a: bool, b: bool, c: bool, d: bool, e: bool, f: bool, g: bool)
    ensures Flag(a, 0x40) + Flag(b, 0x20) + Flag(c, 0x10) + Flag(d, 0x08) + Flag(e, 0x04) + Flag(f, 0x02) + Flag(g, 0x01)
         == 64 * One(a) + 32 * One(b) + 16 * One(c) + 8 * One(d) + 4 * One(e) + 2 * One(f) + One(g)
  {
  }

  /**
   * Both sides read optional fields as they were configured. They stand at the bits of IEC 61850-8-1: 1 sequence number,
   * 2 time, 3 reason, 4 data set, 5 data reference, 6 buffer overflow, 7 entry identifier, 8 configuration revision.
   */
  lemma OptionsRead(o: Options)
    ensures OptionsOf(OptionBits(o)) == o
    ensures Norm(ServerOptions(o)) == Norm(ClientOptions(o)) == ClientOptions(o)
  {
    FlagsApart(o.seqNum, o.timestamp, o.reason, o.dataSet, o.dataRef, o.bufOvfl, o.entryID);
    LastFlag(o.confRev);
    SizeTurns(OptionBits(o), 10);
    hide Flag;
    hide Norm;
  }

  lemma LastFlag(b: bool)
    ensures Flag(b, 0x80) / 0x80 % 2 == 1 <==> b
  {
  }

  /** On the wire a negative size turns positive. */
  lemma SizeTurns(bits: bytes, size: int)
    requires size >= 0 && |bits| == (size + 7) / 8
    ensures Norm(BitString(bits, -size)) == Norm(BitString(bits, size)) == BitString(bits, size)
  {
    assert Fit(bits, |bits|) == bits;
  }

  lemma OptionsByBits(b: bytes)
    ensures OptionsOf(b) == Options(Included(b, 1), Included(b, 2), Included(b, 3), Included(b, 4),
                                    Included(b, 5), Included(b, 6), Included(b, 7), Included(b, 8))
  {
    Weights();
  }

  /** And triggers: 1 data change, 2 quality change, 3 data update, 4 integrity, 5 general interrogation. */
  lemma TriggersRead(t: Triggers)
    ensures TriggersOf(TriggerBits(t)) == t
    ensures Norm(ServerTriggers(t)) == Norm(ClientTriggers(t)) == ClientTriggers(t)
  {
    FlagsApart(t.dataChange, t.qualityChange, t.dataUpdate, t.integrity, t.gi, false, false);
    SizeTurns(TriggerBits(t), 6);
    hide Norm;
  }

  lemma TriggersByBits(b: bytes)
    ensures TriggersOf(b) == Triggers(Included(b, 1), Included(b, 2), Included(b, 3), Included(b, 4), Included(b, 5))
  {
    Weights();
  }
}
