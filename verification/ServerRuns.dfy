/** What every run of the server keeps, when each handler and each locked section is one step. */
module ServerRuns {
  import opened Bytes
  import opened MmsValues
  import opened NameList
  import opened Server

  datatype Step =
    | Accept
    | Leave(c: ConnID)
    | Write(c: ConnID, rcb: Text, field: Option<BrcbField>, v: Value)
    | Update(hit: set<Text>)
    | Send(t: Task, reading: Reading)

  /** A connection disconnects once and writes only while its handler runs; a report runs once it was started. */
  predicate CanStep(s: State, step: Step) {
    s.up &&
    match step
    case Accept => true
    case Leave(c) => c in s.conns
    case Write(c, rcb, _, _) => c in s.conns && rcb in s.brcbs
    case Update(_) => true
    case Send(t, r) => t in s.tasks && t.rcb in s.brcbs && |r.refs| == |r.values|
  }

  function Next(s: State, step: Step): (r: State)
    requires AllComplete(s.brcbs)
    ensures AllComplete(r.brcbs)
  {
    if !CanStep(s, step) then s
    else
      match step
      case Accept => Accepted(s)
      case Leave(c) => Left(s, c)
      case Write(c, rcb, field, v) => Written(s, c, rcb, field, v)
      case Update(hit) => Updated(s, hit)
      case Send(t, r) => Reported(s, t, r)
  }

  function Run(s: State, steps: seq<Step>): (r: State)
    requires AllComplete(s.brcbs)
    ensures AllComplete(r.brcbs)
  {
    if steps == [] then s else Next(Run(s, steps[..|steps| - 1]), steps[|steps| - 1])
  }

  // ---- The invariant ----

  /** Somebody subscribes exactly when reporting is enabled, that somebody is connected, and GI is not pending. */
  predicate BlockSound(b: Brcb, conns: set<ConnID>)
    requires Complete(b)
  {
    && (b.subscriber.Some? <==> Enabled(b))
    && (b.subscriber.Some? ==> b.subscriber.value in conns)
    && !IsTrue(b.fields[GI])
  }

  predicate BlocksSound(brcbs: map<Text, Brcb>, conns: set<ConnID>)
    requires AllComplete(brcbs)
  {
    forall name :: name in brcbs ==> BlockSound(brcbs[name], conns)
  }

  predicate ConnsSound(s: State) {
    && |s.conns| <= (if s.maxConnections > 0 then s.maxConnections else 0)
    && forall c :: c in s.conns ==> 0 < c <= s.lastID
  }

  predicate Sound(s: State) {
    AllComplete(s.brcbs) && ConnsSound(s) && BlocksSound(s.brcbs, s.conns)
  }

  lemma AcceptSound(s: State)
    requires Sound(s)
    ensures Sound(Accepted(s))
  {
    hide BlockSound;
    var s' := Accepted(s);
    forall name | name in s.brcbs ensures BlockSound(s'.brcbs[name], s'.conns) {
      MoreConns(s.brcbs[name], s.conns, s'.conns);
    }
  }

  lemma MoreConns(b: Brcb, a: set<ConnID>, c: set<ConnID>)
    requires Complete(b) && BlockSound(b, a) && a <= c
    ensures BlockSound(b, c)
  {
  }

  lemma LeaveSound(s: State, id: ConnID)
    requires Sound(s)
    ensures Sound(Left(s, id))
  {
    hide BlockSound;
    var s' := Left(s, id);
    forall name | name in s'.brcbs ensures Complete(s'.brcbs[name]) && BlockSound(s'.brcbs[name], s'.conns) {
      ReleasedSound(s.brcbs[name], s.conns, id);
    }
    assert s'.conns <= s.conns;
    Smaller(s'.conns, s.conns);
  }

  lemma ReleasedSound(b: Brcb, conns: set<ConnID>, id: ConnID)
    requires Complete(b) && BlockSound(b, conns)
    ensures Complete(Released(b, id)) && BlockSound(Released(b, id), conns - {id})
  {
  }

  lemma Smaller(a: set<ConnID>, b: set<ConnID>)
    requires a <= b
    ensures |a| <= |b|
  {
    assert b == a + (b - a);
  }

  lemma WriteSound(s: State, c: ConnID, rcb: Text, field: Option<BrcbField>, v: Value)
    requires Sound(s) && c in s.conns && rcb in s.brcbs
    ensures Sound(Written(s, c, rcb, field, v))
  {
    hide BlockSound;
    hide WrittenBlock;
    if field.Some? {
      var s' := Written(s, c, rcb, field, v);
      WrittenBlockSound(s.brcbs[rcb], s.conns, c, field.value, v);
      forall name | name in s'.brcbs ensures Complete(s'.brcbs[name]) && BlockSound(s'.brcbs[name], s'.conns) {
        if name != rcb {
          assert s'.brcbs[name] == s.brcbs[name];
        }
      }
    }
  }

  lemma WrittenBlockSound(b: Brcb, conns: set<ConnID>, c: ConnID, field: BrcbField, v: Value)
    requires Complete(b) && BlockSound(b, conns) && c in conns
    ensures Complete(WrittenBlock(b, c, field, v)) && BlockSound(WrittenBlock(b, c, field, v), conns)
  {
  }

  lemma SendSound(s: State, t: Task, r: Reading)
    requires Sound(s) && t.rcb in s.brcbs
    ensures Sound(Reported(s, t, r))
  {
    hide BlockSound;
    var s' := Reported(s, t, r);
    CountedSound(s.brcbs[t.rcb], s.conns);
    forall name | name in s'.brcbs ensures BlockSound(s'.brcbs[name], s'.conns) {
      if name != t.rcb {
        assert s'.brcbs[name] == s.brcbs[name];
      }
    }
  }

  lemma CountedSound(b: Brcb, conns: set<ConnID>)
    requires Complete(b) && BlockSound(b, conns)
    ensures b.fields[SqNum].Nil? || IsNumber(b.fields[SqNum]) ==> Complete(Counted(b)) && BlockSound(Counted(b), conns)
  {
  }

  /** Holds after every run from a sound state, whatever values are written and however steps follow each other. */
  lemma {:induction false} RunSound(s: State, steps: seq<Step>)
    requires Sound(s)
    ensures Sound(Run(s, steps))
    decreases |steps|
  {
    hide Sound;
    SoundComplete(s);
    if steps != [] {
      RunSound(s, steps[..|steps| - 1]);
      StepSound(Run(s, steps[..|steps| - 1]), steps[|steps| - 1]);
    }
  }

  lemma SoundComplete(s: State)
    requires Sound(s)
    ensures AllComplete(s.brcbs)
  {
  }

  lemma StepSound(s: State, step: Step)
    requires Sound(s)
    ensures Sound(Next(s, step))
  {
    hide Reported;
    hide Written;
    hide Left;
    hide Accepted;
    hide ConnsSound;
    hide BlockSound;
    if CanStep(s, step) {
      match step
      case Accept => AcceptSound(s);
      case Leave(c) => LeaveSound(s, c);
      case Write(c, rcb, field, v) => WriteSound(s, c, rcb, field, v);
      case Update(hit) => UpdateSound(s, hit);
      case Send(t, r) => SendSound(s, t, r);
    }
  }

  lemma UpdateSound(s: State, hit: set<Text>)
    requires Sound(s)
    ensures Sound(Updated(s, hit))
  {
    hide BlockSound;
  }

  lemma {:induction false} NewBlocksSound(iedName: Text, rcbs: seq<ControlConfig>)
    ensures AllComplete(BlocksOf(iedName, rcbs)) && BlocksSound(BlocksOf(iedName, rcbs), {})
    ensures forall name :: name in BlocksOf(iedName, rcbs) ==> HasFirstNumber(BlocksOf(iedName, rcbs)[name])
  {
    if rcbs != [] {
      NewBlocksSound(iedName, rcbs[..|rcbs| - 1]);
    }
  }

  /** The first report of the block will carry the number 1. */
  predicate HasFirstNumber(b: Brcb)
    requires Complete(b)
  {
    b.fields[SqNum] == Unsigned(0)
  }

  /** A new server is sound, whatever its control blocks are configured to be, and has reported nothing. */
  lemma StartSound(maxConnections: int, dataSets: set<Text>, iedName: Text, rcbs: seq<ControlConfig>)
    ensures var s := NewState(maxConnections, dataSets, iedName, rcbs);
            && Sound(s) && s.built == []
            && forall name :: name in s.brcbs ==> HasFirstNumber(s.brcbs[name])
  {
    NewBlocksSound(iedName, rcbs);
  }

  /** A limit of zero admits nobody; it does not stand for a default. */
  lemma {:induction false} ZeroAdmitsNobody(s: State, steps: seq<Step>)
    requires Sound(s) && s.maxConnections <= 0
    ensures Run(s, steps).conns == {}
  {
    hide BlocksSound;
    LimitFixed(s, steps);
    RunSound(s, steps);
    assert |Run(s, steps).conns| == 0;
  }

  lemma {:induction false} LimitFixed(s: State, steps: seq<Step>)
    requires AllComplete(s.brcbs)
    ensures Run(s, steps).maxConnections == s.maxConnections
    decreases |steps|
  {
    if steps != [] {
      LimitFixed(s, steps[..|steps| - 1]);
    }
  }

  /** The ID was handed out before and its connection is gone. */
  predicate Departed(s: State, id: ConnID) {
    id <= s.lastID && id !in s.conns
  }

  /** No report of `built` goes to the connection. */
  predicate NoneFor(built: seq<Report>, id: ConnID) {
    forall i :: 0 <= i < |built| ==> built[i].conn != id
  }

  lemma StepForgets(s: State, step: Step, id: ConnID)
    requires AllComplete(s.brcbs) && Departed(s, id)
    ensures Departed(Next(s, step), id)
    ensures Next(s, step).built == s.built
         || (step.Send? && |Next(s, step).built| == |s.built| + 1
             && Next(s, step).built[..|s.built|] == s.built && Next(s, step).built[|s.built|].conn != id)
  {
    hide Released;
    hide Reportable;
    hide Counted;
  }

  /**
   * From a disconnect on, in every run: the connection never comes back, no block has it for a subscriber, and no
   * report is built for it, not even one started before it left.
   */
  lemma {:induction false} DepartedIsForgotten(s: State, steps: seq<Step>, id: ConnID)
    requires Sound(s) && Departed(s, id)
    ensures var f := Run(s, steps);
            && Departed(f, id)
            && (forall name :: name in f.brcbs ==> f.brcbs[name].subscriber != Some(id))
            && |s.built| <= |f.built| && f.built[..|s.built|] == s.built && NoneFor(f.built[|s.built|..], id)
    decreases |steps|
  {
    hide Next;
    hide ConnsSound;
    RunSound(s, steps);
    assert BlocksSound(Run(s, steps).brcbs, Run(s, steps).conns);
    if steps == [] {
      assert s.built[..|s.built|] == s.built && s.built[|s.built|..] == [];
    } else {
      var init, step := steps[..|steps| - 1], steps[|steps| - 1];
      DepartedIsForgotten(s, init, id);
      StepForgets(Run(s, init), step, id);
      BuiltGrows(s.built, Run(s, init).built, Next(Run(s, init), step).built, id);
    }
  }

  lemma BuiltGrows(a: seq<Report>, b: seq<Report>, c: seq<Report>, id: ConnID)
    requires |a| <= |b| && b[..|a|] == a && NoneFor(b[|a|..], id)
    requires c == b || (|c| == |b| + 1 && c[..|b|] == b && c[|b|].conn != id)
    ensures |a| <= |c| && c[..|a|] == a && NoneFor(c[|a|..], id)
  {
    if c != b {
      assert c[..|a|] == b[..|a|];
      forall i | 0 <= i < |c[|a|..]| ensures c[|a|..][i].conn != id {
        assert i < |b[|a|..]| ==> c[|a|..][i] == b[|a|..][i];
      }
    }
  }

  /** A disconnect is what makes a connection departed. */
  lemma LeaveDeparts(s: State, id: ConnID)
    requires Sound(s) && id in s.conns && s.up
    ensures Departed(Next(s, Leave(id)), id)
  {
  }

  // ---- Report numbers ----

  function BuiltFor(built: seq<Report>, rcb: Text): seq<Report> {
    if built == [] then []
    else BuiltFor(built[..|built| - 1], rcb) + if built[|built| - 1].rcb == rcb then [built[|built| - 1]] else []
  }

  predicate WritesSqNum(step: Step, rcb: Text) {
    step.Write? && step.rcb == rcb && step.field == Some(SqNum)
  }

  /** Reports of one block that a run has added. */
  function NewReports(s: State, f: State, rcb: Text): seq<Report>
    requires |s.built| <= |f.built|
  {
    BuiltFor(f.built[|s.built|..], rcb)
  }

  predicate Numbered(reports: seq<Report>, v: int) {
    forall n :: 0 <= n < |reports| ==> reports[n].params.sqNum == (v + n + 1) % 0x1_0000
  }

  predicate HasNumber(s: State, rcb: Text) {
    rcb in s.brcbs && Complete(s.brcbs[rcb]) && IsNumber(s.brcbs[rcb].fields[SqNum])
  }

  function Number(s: State, rcb: Text): int
    requires HasNumber(s, rcb)
  {
    NumberOf(s.brcbs[rcb].fields[SqNum])
  }

  /** One report has been added, for this task and with the next number of its block. */
  predicate Adds(s: State, s': State, t: Task) {
    && |s'.built| == |s.built| + 1 && s'.built[..|s.built|] == s.built
    && s'.built[|s.built|].conn == t.conn && s'.built[|s.built|].rcb == t.rcb
    && (HasNumber(s, t.rcb) ==> s'.built[|s.built|].params.sqNum == (Number(s, t.rcb) + 1) % 0x1_0000)
  }

  /** A step that does not write SqNum keeps the number unless it builds a report, which carries the next one. */
  lemma NumberStep(s: State, step: Step, rcb: Text)
    requires AllComplete(s.brcbs) && HasNumber(s, rcb) && !WritesSqNum(step, rcb)
    ensures HasNumber(Next(s, step), rcb)
    ensures Next(s, step).built == s.built ==> Number(Next(s, step), rcb) == Number(s, rcb)
    ensures Next(s, step).built != s.built ==>
              && step.Send?
              && Adds(s, Next(s, step), step.t)
              && Number(Next(s, step), rcb) == if step.t.rcb == rcb then (Number(s, rcb) + 1) % 0x1_0000 else Number(s, rcb)
  {
    if CanStep(s, step) {
      match step
      case Accept =>
      case Leave(c) =>
      case Write(c, r, field, v) =>
        WriteKeepsNumber(s, c, r, field, v, rcb);
      case Update(hit) =>
      case Send(t, r) =>
        SendCounts(s, t, r, rcb);
    }
  }

  lemma WriteKeepsNumber(s: State, c: ConnID, r: Text, field: Option<BrcbField>, v: Value, rcb: Text)
    requires AllComplete(s.brcbs) && HasNumber(s, rcb) && r in s.brcbs && !(r == rcb && field == Some(SqNum))
    ensures HasNumber(Written(s, c, r, field, v), rcb) && Number(Written(s, c, r, field, v), rcb) == Number(s, rcb)
    ensures Written(s, c, r, field, v).built == s.built
  {
  }

  lemma SendCounts(s: State, t: Task, r: Reading, rcb: Text)
    requires AllComplete(s.brcbs) && HasNumber(s, rcb) && t.rcb in s.brcbs
    ensures var s' := Reported(s, t, r);
            && HasNumber(s', rcb)
            && (s'.built == s.built ==> Number(s', rcb) == Number(s, rcb))
            && (s'.built != s.built ==>
                  && Adds(s, s', t)
                  && Number(s', rcb) == if t.rcb == rcb then (Number(s, rcb) + 1) % 0x1_0000 else Number(s, rcb))
  {
  }

  lemma WrapSucc(a: int, b: int)
    requires a % 0x1_0000 == b % 0x1_0000
    ensures (a + 1) % 0x1_0000 == (b + 1) % 0x1_0000
  {
    assert a == b + (a / 0x1_0000 - b / 0x1_0000) * 0x1_0000;
  }

  /**
   * Without writes to SqNum, the n-th report a run builds for a block carries the number the block started
   * with plus n, modulo 65536, however the runs of other blocks interleave.
   */
  lemma {:induction false} NumbersRise(s: State, steps: seq<Step>, rcb: Text)
    requires AllComplete(s.brcbs) && HasNumber(s, rcb)
    requires forall i :: 0 <= i < |steps| ==> !WritesSqNum(steps[i], rcb)
    ensures var f := Run(s, steps);
            && HasNumber(f, rcb) && |s.built| <= |f.built| && f.built[..|s.built|] == s.built
            && Numbered(NewReports(s, f, rcb), Number(s, rcb))
            && Number(f, rcb) % 0x1_0000 == (Number(s, rcb) + |NewReports(s, f, rcb)|) % 0x1_0000
    decreases |steps|
  {
    hide Next;
    if steps == [] {
      assert s.built[|s.built|..] == [];
    } else {
      var init, step := steps[..|steps| - 1], steps[|steps| - 1];
      NumbersRise(s, init, rcb);
      NumberStep(Run(s, init), step, rcb);
      ReportAdded(s, Run(s, init), Next(Run(s, init), step), rcb);
    }
  }

  lemma ReportAdded(s: State, m: State, f: State, rcb: Text)
    requires HasNumber(s, rcb) && HasNumber(m, rcb) && HasNumber(f, rcb)
    requires |s.built| <= |m.built| && m.built[..|s.built|] == s.built
    requires Numbered(NewReports(s, m, rcb), Number(s, rcb))
    requires Number(m, rcb) % 0x1_0000 == (Number(s, rcb) + |NewReports(s, m, rcb)|) % 0x1_0000
    requires f.built == m.built ==> Number(f, rcb) == Number(m, rcb)
    requires f.built != m.built ==>
               && |f.built| == |m.built| + 1 && f.built[..|m.built|] == m.built
               && (f.built[|m.built|].rcb == rcb ==> f.built[|m.built|].params.sqNum == (Number(m, rcb) + 1) % 0x1_0000)
               && Number(f, rcb) == if f.built[|m.built|].rcb == rcb then (Number(m, rcb) + 1) % 0x1_0000 else Number(m, rcb)
    ensures |s.built| <= |f.built| && f.built[..|s.built|] == s.built
    ensures Numbered(NewReports(s, f, rcb), Number(s, rcb))
    ensures Number(f, rcb) % 0x1_0000 == (Number(s, rcb) + |NewReports(s, f, rcb)|) % 0x1_0000
  {
    hide HasNumber;
    hide Number;
    if f.built != m.built {
      var added, before := f.built[|s.built|..], m.built[|s.built|..];
      assert f.built[..|s.built|] == m.built[..|s.built|];
      assert added[..|added| - 1] == before;
      WrapSucc(Number(m, rcb), Number(s, rcb) + |NewReports(s, m, rcb)|);
    }
  }
}
