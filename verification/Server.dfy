/** The server's connections and buffered report control blocks, one handler or locked section at a time. */
module Server {
  import opened Bytes
  import opened BerIntegers
  import opened MmsValues
  import opened NameList
  import opened Texts
  import ReportOptions
  import Reports

  type ConnID = nat

  /** brcbState: its MMS fields by name (`Nil` for a nil pointer), its data set and its subscriber. */
  datatype Brcb = Brcb(fields: map<BrcbField, Value>, dataSetName: Text, subscriber: Option<ConnID>)

  predicate Complete(b: Brcb) {
    forall f: BrcbField :: f in b.fields
  }

  /** One run of sendReport that has been started and not yet executed. */
  datatype Task = Task(conn: ConnID, rcb: Text)

  /** What sendReport reads outside the control block: the values and references of the data set, and the clock. */
  datatype Reading = Reading(values: seq<Value>, refs: seq<Text>, timestamp: bytes)

  datatype Report = Report(conn: ConnID, rcb: Text, params: Reports.ReportParams)

  /** A Go panic takes the whole process down. */
  datatype State = State(
    up: bool, maxConnections: int, lastID: nat, conns: set<ConnID>, brcbs: map<Text, Brcb>, dataSets: set<Text>,
    tasks: multiset<Task>, built: seq<Report>)

  predicate IsTrue(v: Value) {
    v.Boolean? && v.b
  }

  predicate Enabled(b: Brcb)
    requires Complete(b)
  {
    IsTrue(b.fields[RptEna])
  }

  function Set(b: Brcb, field: BrcbField, v: Value): Brcb {
    b.(fields := b.fields[field := v])
  }

  /** model.ReportControlBlock. */
  datatype ControlConfig = ControlConfig(
    rcb: RCB, rptID: Text, dataSetRef: Text, confRev: uint32, optFlds: Reports.Options, bufTime: uint32,
    trgOps: ReportOptions.Triggers, intgPd: uint32)

  function DatSetRef(iedName: Text, c: ControlConfig): Text {
    if c.dataSetRef == [] then []
    else iedName + c.rcb.ldInst + [SLASH] + c.rcb.lnName + [DOLLAR] + c.dataSetRef
  }

  function ReportID(c: ControlConfig): Text {
    if c.rptID == [] then c.rcb.ldInst + [SLASH] + c.rcb.lnName + [DOLLAR] + BR + [DOLLAR] + c.rcb.name else c.rptID
  }

  /** newBRCBState. */
  function NewBrcb(iedName: Text, c: ControlConfig): (b: Brcb)
    ensures Complete(b)
  {
    var fields := map[
      RptID := VisibleString(ReportID(c)), RptEna := Boolean(false), DatSet := VisibleString(DatSetRef(iedName, c)),
      ConfRev := Unsigned(c.confRev), OptFlds := ReportOptions.ServerOptions(c.optFlds), BufTm := Unsigned(c.bufTime),
      SqNum := Unsigned(0), TrgOps := ReportOptions.ServerTriggers(c.trgOps), IntgPd := Unsigned(c.intgPd), GI := Boolean(false),
      PurgeBuf := Boolean(false), EntryID := OctetString(Zeros(8)), TimeofEntry := BinaryTime(0, 0, 6)];
    assert forall f: BrcbField :: f in fields by {
      EveryField(fields.Keys);
    }
    Brcb(fields, c.rcb.lnName + [DOLLAR] + c.dataSetRef, None)
  }

  /** The blocks of a new server: of two buffered ones with one name the later counts. */
  function BlocksOf(iedName: Text, rcbs: seq<ControlConfig>): (blocks: map<Text, Brcb>)
    ensures AllComplete(blocks)
  {
    if rcbs == [] then map[]
    else
      var blocks, c := BlocksOf(iedName, rcbs[..|rcbs| - 1]), rcbs[|rcbs| - 1];
      if c.rcb.buffered then blocks[c.rcb.name := NewBrcb(iedName, c)] else blocks
  }

  method MakeBlocks(iedName: Text, rcbs: seq<ControlConfig>) returns (blocks: map<Text, Brcb>)
    ensures blocks == BlocksOf(iedName, rcbs)
  {
    blocks := map[];
    for i := 0 to |rcbs|
      invariant blocks == BlocksOf(iedName, rcbs[..i])
    {
      assert rcbs[..i + 1][..i] == rcbs[..i];
      if !rcbs[i].rcb.buffered {
        continue;
      }
      blocks := blocks[rcbs[i].rcb.name := NewBrcb(iedName, rcbs[i])];
    }
    assert rcbs[..|rcbs|] == rcbs;
  }

  function NewState(maxConnections: int, dataSets: set<Text>, iedName: Text, rcbs: seq<ControlConfig>): (s: State)
    ensures AllComplete(s.brcbs)
  {
    State(true, maxConnections, 0, {}, BlocksOf(iedName, rcbs), dataSets, multiset{}, [])
  }

  lemma EveryField(fields: set<BrcbField>)
    requires {RptID, RptEna, DatSet, ConfRev, OptFlds, BufTm, SqNum, TrgOps, IntgPd, GI, PurgeBuf, EntryID, TimeofEntry}
          <= fields
    ensures forall f: BrcbField :: f in fields
  {
    forall f: BrcbField ensures f in fields {
      match f
      case RptID => case RptEna => case DatSet => case ConfRev => case OptFlds => case BufTm => case SqNum =>
      case TrgOps => case IntgPd => case GI => case PurgeBuf => case EntryID => case TimeofEntry =>
    }
  }

  // ---- Accept and disconnect ----

  function Accepted(s: State): State {
    var id := s.lastID + 1;
    if |s.conns| >= s.maxConnections then s.(lastID := id) else s.(lastID := id, conns := s.conns + {id})
  }

  function Released(b: Brcb, id: ConnID): Brcb {
    if b.subscriber == Some(id) then Set(b, RptEna, Boolean(false)).(subscriber := None) else b
  }

  function ReleasedAll(brcbs: map<Text, Brcb>, id: ConnID): map<Text, Brcb> {
    map name | name in brcbs :: Released(brcbs[name], id)
  }

  function Left(s: State, id: ConnID): State {
    s.(conns := s.conns - {id}, brcbs := ReleasedAll(s.brcbs, id))
  }

  // ---- Writes to a control block ----

  /** The RptEna branch: the writer becomes the subscriber, or nobody does. */
  function Bound(b: Brcb, c: ConnID): Brcb
    requires Complete(b)
  {
    b.(subscriber := if Enabled(b) then Some(c) else None)
  }

  predicate Interrogates(field: BrcbField, v: Value) {
    field == GI && IsTrue(v)
  }

  /** What a write of a known field makes of the block. */
  function WrittenBlock(b: Brcb, c: ConnID, field: BrcbField, v: Value): Brcb
    requires Complete(b)
  {
    var b' := Set(b, field, v);
    if field == RptEna then Bound(b', c) else if Interrogates(field, v) then Set(b', GI, Boolean(false)) else b'
  }

  /** The BRCB branch of writeVariable, run without interruption; `None` is a field name that does not exist. */
  function Written(s: State, c: ConnID, rcb: Text, field: Option<BrcbField>, v: Value): State
    requires rcb in s.brcbs && Complete(s.brcbs[rcb])
  {
    if field.None? then s
    else
      var b := s.brcbs[rcb];
      s.(brcbs := s.brcbs[rcb := WrittenBlock(b, c, field.value, v)],
         tasks := if Interrogates(field.value, v) && Enabled(b) then s.tasks + multiset{Task(c, rcb)} else s.tasks)
  }

  // ---- Updates and reports ----

  predicate DataChanged(v: Value)
    requires v.Nil? || v.BitString?
  {
    v.BitString? && |v.bitBytes| > 0 && v.bitBytes[0] / 64 % 2 == 1
  }

  predicate Listening(b: Brcb)
    requires Complete(b)
  {
    b.subscriber.Some? && Enabled(b)
  }

  /** GetBitString on a field that is not a bit string panics. */
  predicate TriggerReadable(b: Brcb)
    requires Complete(b)
  {
    Listening(b) ==> b.fields[TrgOps].Nil? || b.fields[TrgOps].BitString?
  }

  /** A report is started for this block when a member of the data sets in `hit` changes. */
  predicate Triggered(b: Brcb, hit: set<Text>)
    requires Complete(b) && TriggerReadable(b)
  {
    Listening(b) && DataChanged(b.fields[TrgOps]) && b.dataSetName in hit
  }

  predicate AllComplete(brcbs: map<Text, Brcb>) {
    forall name :: name in brcbs ==> Complete(brcbs[name])
  }

  predicate AllReadable(brcbs: map<Text, Brcb>)
    requires AllComplete(brcbs)
  {
    forall name :: name in brcbs ==> TriggerReadable(brcbs[name])
  }

  /** The tasks started by one update. */
  function Starts(brcbs: map<Text, Brcb>, hit: set<Text>): set<Task>
    requires AllComplete(brcbs) && AllReadable(brcbs)
  {
    set name | name in brcbs && Triggered(brcbs[name], hit) :: Task(brcbs[name].subscriber.value, name)
  }

  function Updated(s: State, hit: set<Text>): State
    requires AllComplete(s.brcbs)
  {
    if AllReadable(s.brcbs) then s.(tasks := s.tasks + multiset(Starts(s.brcbs, hit))) else s.(up := false)
  }

  predicate IsNumber(v: Value) {
    v.Integer? || v.Unsigned?
  }

  function NumberOf(v: Value): int
    requires IsNumber(v)
  {
    if v.Integer? then v.n else v.u
  }

  /** nextSqNum: the number of the next report. */
  function NextSqNum(v: Value): uint16
    requires v.Nil? || IsNumber(v)
  {
    if v.Nil? then 0 else (NumberOf(v) + 1) % 0x1_0000
  }

  function Counted(b: Brcb): Brcb
    requires Complete(b) && (b.fields[SqNum].Nil? || IsNumber(b.fields[SqNum]))
  {
    if b.fields[SqNum].Nil? then b else Set(b, SqNum, Unsigned(NextSqNum(b.fields[SqNum])))
  }

  /** The fields that sendReport reads with type-checked getters. */
  predicate Reportable(b: Brcb)
    requires Complete(b)
  {
    && (b.fields[SqNum].Nil? || IsNumber(b.fields[SqNum]))
    && b.fields[OptFlds].BitString?
    && (b.fields[ConfRev].Nil? || IsNumber(b.fields[ConfRev]))
  }

  /** A string field that holds no visible string counts as empty. */
  function TextField(v: Value): Text {
    if v.VisibleString? then v.text else []
  }

  /** What the report says: every report marks all members as included. */
  function ParamsOf(b: Brcb, r: Reading): Reports.ReportParams
    requires Complete(b) && Reportable(b)
  {
    var confRev := if b.fields[ConfRev].Nil? then 0 else NumberOf(b.fields[ConfRev]) % 0x1_0000_0000;
    Reports.ReportParams(TextField(b.fields[RptID]), b.fields[OptFlds].bitBytes, NextSqNum(b.fields[SqNum]), r.timestamp,
                         TextField(b.fields[DatSet]), false, confRev, true, r.values, r.refs, [])
  }

  /** The locked part of sendReport. */
  function Reported(s: State, t: Task, r: Reading): State
    requires t.rcb in s.brcbs && Complete(s.brcbs[t.rcb])
  {
    var b := s.brcbs[t.rcb];
    if t.conn !in s.conns || b.dataSetName !in s.dataSets then s.(tasks := s.tasks - multiset{t})
    else if !Reportable(b) then s.(up := false)
    else
      s.(tasks := s.tasks - multiset{t}, brcbs := s.brcbs[t.rcb := Counted(b)],
         built := s.built + [Report(t.conn, t.rcb, ParamsOf(b, r))])
  }

  // ---- The loops over brcbValues, in any order ----

  /** The loop of removeConn. */
  method ReleaseAll(brcbs: map<Text, Brcb>, id: ConnID) returns (released: map<Text, Brcb>)
    ensures released == ReleasedAll(brcbs, id)
  {
    hide Set;
    released := brcbs;
    var left := brcbs.Keys;
    while left != {}
      invariant left <= brcbs.Keys == released.Keys
      invariant forall name :: name in left ==> released[name] == brcbs[name]
      invariant forall name :: name in brcbs && name !in left ==> released[name] == Released(brcbs[name], id)
      decreases |left|
    {
      var name :| name in left;
      left := left - {name};
      var b := released[name];
      if b.subscriber.Some? && b.subscriber.value == id {
        released := released[name := Set(b, RptEna, Boolean(false)).(subscriber := None)];
      }
    }
  }

  /** The loop of UpdateAttributeValue; it stops with a panic at a TrgOps that is not a bit string. */
  method StartReports(brcbs: map<Text, Brcb>, hit: set<Text>) returns (readable: bool, started: set<Task>)
    requires AllComplete(brcbs)
    ensures readable == AllReadable(brcbs)
    ensures readable ==> started == Starts(brcbs, hit)
  {
    hide DataChanged;
    started := {};
    var left := brcbs.Keys;
    while left != {}
      invariant left <= brcbs.Keys
      invariant forall name :: name in brcbs && name !in left ==> TriggerReadable(brcbs[name])
      invariant forall t :: t in started <==> t.rcb in brcbs && t.rcb !in left && StartedBy(brcbs[t.rcb], hit, t)
      decreases |left|
    {
      var name :| name in left;
      left := left - {name};
      var b := brcbs[name];
      if b.subscriber.None? || !Enabled(b) {
        continue;
      }
      var trgOps := b.fields[TrgOps];
      if !trgOps.Nil? && !trgOps.BitString? {
        assert !TriggerReadable(brcbs[name]);
        return false, {};
      }
      if DataChanged(trgOps) && b.dataSetName in hit {
        started := started + {Task(b.subscriber.value, name)};
      }
    }
    return true, started;
  }

  predicate StartedBy(b: Brcb, hit: set<Text>, t: Task)
    requires Complete(b)
  {
    TriggerReadable(b) && Triggered(b, hit) && t.conn == b.subscriber.value
  }

  // ---- The server object ----

  class IedServer {
    const maxConnections: int
    const dataSets: set<Text>
    var connID: nat
    var conns: set<ConnID>
    var brcbValues: map<Text, Brcb>
    var up: bool
    var tasks: multiset<Task>
    var built: seq<Report>

    constructor (maxConnections: int, dataSets: set<Text>, iedName: Text, rcbs: seq<ControlConfig>)
      ensures Now() == NewState(maxConnections, dataSets, iedName, rcbs)
    {
      this.maxConnections, this.dataSets := maxConnections, dataSets;
      var blocks := MakeBlocks(iedName, rcbs);
      brcbValues := blocks;
      connID, conns, up, tasks, built := 0, {}, true, multiset{}, [];
    }

    function Now(): State
      reads this
    {
      State(up, maxConnections, connID, conns, brcbValues, dataSets, tasks, built)
    }

    /** One turn of acceptLoop. */
    method Accept() returns (admitted: bool)
      modifies this
      ensures Now() == Accepted(old(Now()))
      ensures admitted == (|old(conns)| < maxConnections)
    {
      connID := connID + 1;
      if |conns| >= maxConnections {
        return false;
      }
      conns := conns + {connID};
      return true;
    }

    method RemoveConn(id: ConnID)
      modifies this
      ensures Now() == Left(old(Now()), id)
    {
      conns := conns - {id};
      brcbValues := ReleaseAll(brcbValues, id);
    }

    /** The BRCB branch of writeVariable. */
    method WriteControl(c: ConnID, rcb: Text, field: Option<BrcbField>, v: Value) returns (ok: bool)
      requires forall name :: name in brcbValues ==> Complete(brcbValues[name])
      modifies this
      ensures ok == (rcb in old(brcbValues) && field.Some?)
      ensures Now() == if rcb in old(brcbValues) then Written(old(Now()), c, rcb, field, v) else old(Now())
    {
      if rcb !in brcbValues {
        return false;
      }
      var b := brcbValues[rcb];
      if field.None? {
        return false;
      }
      b := Set(b, field.value, v);
      if field.value == RptEna {
        if Enabled(b) {
          b := b.(subscriber := Some(c));
        } else {
          b := b.(subscriber := None);
        }
      }
      if field.value == GI && IsTrue(v) {
        if Enabled(b) {
          tasks := tasks + multiset{Task(c, rcb)};
        }
        b := Set(b, GI, Boolean(false));
      }
      brcbValues := brcbValues[rcb := b];
      return true;
    }

    /** The locked part of UpdateAttributeValue; `hit` are the data sets the attribute belongs to. */
    method UpdateAttributeValue(hit: set<Text>)
      requires AllComplete(brcbValues)
      modifies this
      ensures Now() == Updated(old(Now()), hit)
    {
      var readable, started := StartReports(brcbValues, hit);
      if !readable {
        up := false;
        return;
      }
      tasks := tasks + multiset(started);
    }

    /** sendReport up to the point where the lock is released. */
    method SendReport(t: Task, r: Reading)
      requires t in tasks && t.rcb in brcbValues && Complete(brcbValues[t.rcb])
      modifies this
      ensures Now() == Reported(old(Now()), t, r)
    {
      var b := brcbValues[t.rcb];
      if t.conn !in conns || b.dataSetName !in dataSets {
        tasks := tasks - multiset{t};
        return;
      }
      if !Reportable(b) {
        up := false;
        return;
      }
      tasks := tasks - multiset{t};
      var params := ParamsOf(b, r);
      brcbValues := brcbValues[t.rcb := Counted(b)];
      built := built + [Report(t.conn, t.rcb, params)];
    }
  }
}
