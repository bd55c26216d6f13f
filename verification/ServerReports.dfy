/** What starts a report, and what becomes of it: from the fields of a control block to the report built for a client. */
module ServerReports {
  import opened Bytes
  import opened MmsValues
  import opened NameList
  import opened ReportOptions
  import opened Server
  import opened ServerRuns
  import Reports

  // ---- One update ----

  /** The connection has switched the block on, and the block reports data changes (bit 1 of its trigger options). */
  predicate ReportsTo(b: Brcb, c: ConnID)
    requires Complete(b)
  {
    && b.subscriber == Some(c)
    && b.fields[RptEna] == Boolean(true)
    && b.fields[TrgOps].BitString? && Reports.Included(b.fields[TrgOps].bitBytes, 1)
  }

  /** Switched on with trigger options that are no bit string. */
  predicate Unreadable(b: Brcb)
    requires Complete(b)
  {
    && b.subscriber.Some? && b.fields[RptEna] == Boolean(true)
    && b.fields[TrgOps] != Nil && !b.fields[TrgOps].BitString?
  }

  /** An attribute of these data sets changes while the connection listens to such a block. */
  predicate Concerns(brcbs: map<Text, Brcb>, hit: set<Text>, t: Task)
    requires AllComplete(brcbs)
  {
    t.rcb in brcbs && ReportsTo(brcbs[t.rcb], t.conn) && brcbs[t.rcb].dataSetName in hit
  }

  lemma BlockReports(b: Brcb, c: ConnID)
    requires Complete(b)
    ensures TriggerReadable(b) <==> !Unreadable(b)
    ensures TriggerReadable(b) ==>
              (ReportsTo(b, c) <==> Listening(b) && DataChanged(b.fields[TrgOps]) && b.subscriber == Some(c))
  {
    Weights();
  }

  lemma InStarts(brcbs: map<Text, Brcb>, hit: set<Text>, t: Task)
    requires AllComplete(brcbs) && AllReadable(brcbs)
    ensures t in Starts(brcbs, hit) <==> Concerns(brcbs, hit, t)
  {
    hide Listening;
    hide DataChanged;
    hide ReportsTo;
    hide TriggerReadable;
    if t.rcb in brcbs {
      var b := brcbs[t.rcb];
      assert TriggerReadable(b);
      BlockReports(b, t.conn);
      if Triggered(b, hit) {
        SubscriberKnown(b);
        assert Task(b.subscriber.value, t.rcb) in Starts(brcbs, hit);
      }
    }
  }

  lemma SubscriberKnown(b: Brcb)
    requires Complete(b) && Listening(b)
    ensures b.subscriber.Some?
  {
  }

  lemma MultisetOfSet(a: multiset<Task>, b: set<Task>, t: Task)
    ensures (a + multiset(b))[t] == a[t] + if t in b then 1 else 0
  {
  }

  /**
   * An update starts one report for each block that reports data changes of an affected data set to a connection, and
   * no other, unless some block is unreadable: then the server faults. Nothing else changes.
   */
  lemma UpdateStartsExactly(s: State, hit: set<Text>, t: Task)
    requires AllComplete(s.brcbs) && s.up
    ensures var s' := ServerRuns.Next(s, Update(hit));
            && s' == s.(tasks := s'.tasks, up := s'.up)
            && (s'.up <==> forall name :: name in s.brcbs ==> !Unreadable(s.brcbs[name]))
            && (s'.up ==> s'.tasks[t] == s.tasks[t] + if Concerns(s.brcbs, hit, t) then 1 else 0)
  {
    hide Starts;
    hide Concerns;
    hide TriggerReadable;
    hide Unreadable;
    forall name | name in s.brcbs ensures TriggerReadable(s.brcbs[name]) <==> !Unreadable(s.brcbs[name]) {
      BlockReports(s.brcbs[name], 0);
    }
    if AllReadable(s.brcbs) {
      InStarts(s.brcbs, hit, t);
      MultisetOfSet(s.tasks, Starts(s.brcbs, hit), t);
    }
  }

  // ---- Other steps, field by field ----

  predicate Interrogation(step: Step, t: Task) {
    step == Write(t.conn, t.rcb, Some(GI), Boolean(true))
  }

  /**
   * A write to a field stores the value, except that a general interrogation leaves GI false; a write of RptEna makes
   * the writer the subscriber or nobody. It starts a report for the writer exactly if it is a general interrogation of
   * an enabled block. Other fields, other blocks and the connections stay.
   */
  lemma WriteDoesExactly(s: State, c: ConnID, rcb: Text, field: BrcbField, v: Value, t: Task)
    requires AllComplete(s.brcbs) && s.up && c in s.conns && rcb in s.brcbs
    ensures var step := Write(c, rcb, Some(field), v);
            var s' := ServerRuns.Next(s, step);
            && s'.brcbs.Keys == s.brcbs.Keys
            && s' == s.(tasks := s'.tasks, brcbs := s'.brcbs)
            && (forall name :: name in s.brcbs && name != rcb ==> s'.brcbs[name] == s.brcbs[name])
            && var b, b' := s.brcbs[rcb], s'.brcbs[rcb];
            && (forall f: BrcbField :: f != field ==> b'.fields[f] == b.fields[f])
            && b'.fields[field] == (if field == GI && v == Boolean(true) then Boolean(false) else v)
            && b'.dataSetName == b.dataSetName
            && b'.subscriber == (if field != RptEna then b.subscriber else if v == Boolean(true) then Some(c) else None)
            && s'.tasks[t] == s.tasks[t] + if Interrogation(step, t) && b.fields[RptEna] == Boolean(true) then 1 else 0
  {
  }

  /** A new connection gets the next ID and joins the others below the limit. */
  lemma AcceptDoesExactly(s: State)
    requires AllComplete(s.brcbs) && s.up
    ensures var s' := ServerRuns.Next(s, ServerRuns.Accept);
            && s' == s.(lastID := s.lastID + 1, conns := s'.conns)
            && s'.conns == if |s.conns| < s.maxConnections then s.conns + {s.lastID + 1} else s.conns
  {
  }

  /** A disconnect releases the blocks of the connection and touches nothing else. */
  lemma LeaveDoesExactly(s: State, c: ConnID)
    requires AllComplete(s.brcbs) && s.up && c in s.conns
    ensures var s' := ServerRuns.Next(s, Leave(c));
            && s'.brcbs.Keys == s.brcbs.Keys && s'.conns == s.conns - {c}
            && s' == s.(conns := s'.conns, brcbs := s'.brcbs)
            && forall name :: name in s.brcbs ==>
              var b, b' := s.brcbs[name], s'.brcbs[name];
              if b.subscriber == Some(c) then b' == b.(fields := b.fields[RptEna := Boolean(false)], subscriber := None)
              else b' == b
  {
  }

  // ---- Over runs ----

  /** Nobody takes the connection or the settings of the block away. */
  predicate Undisturbed(step: Step, c: ConnID, rcb: Text) {
    && step != Leave(c)
    && !(step.Write? && step.rcb == rcb && (step.field == Some(RptEna) || step.field == Some(TrgOps)))
  }

  predicate Listens(s: State, t: Task)
    requires AllComplete(s.brcbs)
  {
    t.conn in s.conns && t.rcb in s.brcbs && ReportsTo(s.brcbs[t.rcb], t.conn)
  }

  lemma BlockKept(s: State, step: Step, rcb: Text)
    requires AllComplete(s.brcbs)
    ensures ServerRuns.Next(s, step).dataSets == s.dataSets
    ensures rcb in ServerRuns.Next(s, step).brcbs <==> rcb in s.brcbs
    ensures rcb in s.brcbs ==> ServerRuns.Next(s, step).brcbs[rcb].dataSetName == s.brcbs[rcb].dataSetName
  {
    hide Reportable;
    hide Starts;
    hide AllReadable;
    hide ParamsOf;
    hide WrittenBlock;
    hide Released;
    if CanStep(s, step) {
      match step
      case Accept =>
      case Leave(c) => NameReleased(s, c, rcb);
      case Write(c, r, field, v) => NameWritten(s.brcbs[r], c, field, v);
      case Update(hit) =>
      case Send(t, r) =>
    }
  }

  lemma NameReleased(s: State, c: ConnID, rcb: Text)
    ensures rcb in s.brcbs ==> Released(s.brcbs[rcb], c).dataSetName == s.brcbs[rcb].dataSetName
  {
  }

  lemma NameWritten(b: Brcb, c: ConnID, field: Option<BrcbField>, v: Value)
    requires Complete(b)
    ensures field.Some? ==> WrittenBlock(b, c, field.value, v).dataSetName == b.dataSetName
  {
  }

  lemma {:induction false} BlockKeptOver(s: State, steps: seq<Step>, rcb: Text)
    requires AllComplete(s.brcbs)
    ensures Run(s, steps).dataSets == s.dataSets
    ensures rcb in Run(s, steps).brcbs <==> rcb in s.brcbs
    ensures rcb in s.brcbs ==> Run(s, steps).brcbs[rcb].dataSetName == s.brcbs[rcb].dataSetName
    decreases |steps|
  {
    hide ServerRuns.Next;
    if steps != [] {
      BlockKeptOver(s, steps[..|steps| - 1], rcb);
      BlockKept(Run(s, steps[..|steps| - 1]), steps[|steps| - 1], rcb);
    }
  }

  lemma ListeningStep(s: State, step: Step, t: Task)
    requires AllComplete(s.brcbs) && Listens(s, t) && Undisturbed(step, t.conn, t.rcb)
    ensures Listens(ServerRuns.Next(s, step), t)
  {
    hide Reports.Included;
    if CanStep(s, step) && step.Write? && step.field.Some? {
      WriteDoesExactly(s, step.c, step.rcb, step.field.value, step.v, t);
      hide Written;
    }
  }

  lemma {:induction false} ListeningStays(s: State, steps: seq<Step>, t: Task)
    requires AllComplete(s.brcbs) && Listens(s, t)
    requires forall i :: 0 <= i < |steps| ==> Undisturbed(steps[i], t.conn, t.rcb)
    ensures Listens(Run(s, steps), t)
    decreases |steps|
  {
    hide ServerRuns.Next;
    hide Listens;
    hide Undisturbed;
    if steps != [] {
      ListeningStays(s, steps[..|steps| - 1], t);
      ListeningStep(Run(s, steps[..|steps| - 1]), steps[|steps| - 1], t);
    }
  }

  /** A report that has been started and whose turn has not come. */
  predicate Started(s: State, t: Task) {
    t in s.tasks && t.conn in s.conns
  }

  predicate Waits(step: Step, t: Task) {
    step != Leave(t.conn) && !(step.Send? && step.t == t)
  }

  lemma StartedStep(s: State, step: Step, t: Task)
    requires AllComplete(s.brcbs) && Started(s, t) && Waits(step, t)
    ensures Started(ServerRuns.Next(s, step), t)
  {
    hide Released;
    hide Reportable;
    hide Starts;
    hide AllReadable;
  }

  lemma {:induction false} StartedStays(s: State, steps: seq<Step>, t: Task)
    requires AllComplete(s.brcbs) && Started(s, t)
    requires forall i :: 0 <= i < |steps| ==> Waits(steps[i], t)
    ensures Started(Run(s, steps), t)
    decreases |steps|
  {
    hide ServerRuns.Next;
    hide Started;
    hide Waits;
    if steps != [] {
      StartedStays(s, steps[..|steps| - 1], t);
      StartedStep(Run(s, steps[..|steps| - 1]), steps[|steps| - 1], t);
    }
  }

  /** Its fields have the types that sendReport expects. */
  predicate WellTyped(b: Brcb)
    requires Complete(b)
  {
    && (b.fields[SqNum] == Nil || b.fields[SqNum].Integer? || b.fields[SqNum].Unsigned?)
    && b.fields[OptFlds].BitString?
    && (b.fields[ConfRev] == Nil || b.fields[ConfRev].Integer? || b.fields[ConfRev].Unsigned?)
  }

  /** One more report is built, for this connection and block, with these values. */
  predicate BuildsFor(s: State, s': State, t: Task, reading: Reading) {
    && |s'.built| == |s.built| + 1 && s'.built[..|s.built|] == s.built
    && s'.built[|s.built|].conn == t.conn && s'.built[|s.built|].rcb == t.rcb
    && s'.built[|s.built|].params.values == reading.values
  }

  /** The block after a report: its number has grown by one modulo 65536, if it has one, and nothing else has changed. */
  predicate CountedOnce(b: Brcb, b': Brcb)
    requires Complete(b)
  {
    && Complete(b')
    && (forall f: BrcbField :: f != SqNum ==> b'.fields[f] == b.fields[f])
    && b'.dataSetName == b.dataSetName && b'.subscriber == b.subscriber
    && match b.fields[SqNum]
       case Integer(n) => b'.fields[SqNum] == Unsigned((n + 1) % 0x1_0000)
       case Unsigned(u) => b'.fields[SqNum] == Unsigned((u + 1) % 0x1_0000)
       case _ => b'.fields[SqNum] == b.fields[SqNum]
  }

  lemma CountedIsOnce(b: Brcb)
    requires Complete(b) && WellTyped(b)
    ensures Reportable(b) && CountedOnce(b, Counted(b))
  {
  }

  /**
   * When its turn comes, a started report is dropped if its connection is gone or its data set missing; else the server
   * faults on fields of the wrong type; else the report is built and counted. Nothing else changes.
   */
  lemma SendDoesExactly(s: State, t: Task, reading: Reading)
    requires AllComplete(s.brcbs) && s.up && t in s.tasks && t.rcb in s.brcbs && |reading.refs| == |reading.values|
    ensures var s' := ServerRuns.Next(s, Send(t, reading));
            if t.conn !in s.conns || s.brcbs[t.rcb].dataSetName !in s.dataSets then s' == s.(tasks := s.tasks - multiset{t})
            else if !WellTyped(s.brcbs[t.rcb]) then s' == s.(up := false)
            else
              && s' == s.(tasks := s.tasks - multiset{t}, brcbs := s'.brcbs, built := s'.built)
              && BuildsFor(s, s', t, reading)
              && s'.brcbs.Keys == s.brcbs.Keys
              && (forall name :: name in s.brcbs && name != t.rcb ==> s'.brcbs[name] == s.brcbs[name])
              && CountedOnce(s.brcbs[t.rcb], s'.brcbs[t.rcb])
  {
    hide Counted;
    hide CountedOnce;
    hide ParamsOf;
    var b := s.brcbs[t.rcb];
    assert Reportable(b) <==> WellTyped(b);
    if WellTyped(b) {
      CountedIsOnce(b);
      ValuesReported(b, reading);
    }
  }

  lemma ValuesReported(b: Brcb, reading: Reading)
    requires Complete(b) && Reportable(b)
    ensures ParamsOf(b, reading).values == reading.values
  {
  }

  /** A started report is built when its turn comes, if its data set exists and its block is well typed. */
  lemma StartedIsBuilt(s: State, t: Task, reading: Reading)
    requires AllComplete(s.brcbs) && s.up && Started(s, t) && t.rcb in s.brcbs && |reading.refs| == |reading.values|
    requires s.brcbs[t.rcb].dataSetName in s.dataSets && WellTyped(s.brcbs[t.rcb])
    ensures var s' := ServerRuns.Next(s, Send(t, reading));
            BuildsFor(s, s', t, reading) && s'.tasks[t] == s.tasks[t] - 1 && s'.up
  {
    hide Counted;
    assert Reportable(s.brcbs[t.rcb]);
  }

  /**
   * From the write that switches a block on to the report of a later change, however other steps fall in between: the
   * update starts exactly one report for the writer, and that report is built when its turn comes.
   */
  lemma ChangeIsReported(s: State, before: seq<Step>, hit: set<Text>, between: seq<Step>, reading: Reading, t: Task)
    requires AllComplete(s.brcbs) && s.up && t.conn in s.conns && t.rcb in s.brcbs
    requires s.brcbs[t.rcb].fields[TrgOps].BitString? && Reports.Included(s.brcbs[t.rcb].fields[TrgOps].bitBytes, 1)
    requires s.brcbs[t.rcb].dataSetName in hit && s.brcbs[t.rcb].dataSetName in s.dataSets
    requires forall i :: 0 <= i < |before| ==> Undisturbed(before[i], t.conn, t.rcb)
    requires forall i :: 0 <= i < |between| ==> Waits(between[i], t)
    requires |reading.refs| == |reading.values|
    ensures var enabled := ServerRuns.Next(s, Write(t.conn, t.rcb, Some(RptEna), Boolean(true)));
            var changing := Run(enabled, before);
            var changed := ServerRuns.Next(changing, Update(hit));
            var ready := Run(changed, between);
            && (changed.up ==> changed.tasks[t] == changing.tasks[t] + 1)
            && t.rcb in ready.brcbs
            && (ready.up && WellTyped(ready.brcbs[t.rcb]) ==>
                  BuildsFor(ready, ServerRuns.Next(ready, Send(t, reading)), t, reading))
  {
    hide ServerRuns.Next;
    hide Run;
    hide Undisturbed;
    hide Waits;
    hide Listens;
    hide Started;
    hide BuildsFor;
    hide WellTyped;
    hide ReportsTo;
    var enabled := ServerRuns.Next(s, Write(t.conn, t.rcb, Some(RptEna), Boolean(true)));
    SwitchedOn(s, t);
    BlockKept(s, Write(t.conn, t.rcb, Some(RptEna), Boolean(true)), t.rcb);
    var changing := Run(enabled, before);
    BlockKeptOver(enabled, before, t.rcb);
    ListeningStays(enabled, before, t);
    var changed := ServerRuns.Next(changing, Update(hit));
    BlockKept(changing, Update(hit), t.rcb);
    var ready := Run(changed, between);
    BlockKeptOver(changed, between, t.rcb);
    UpStays(changing, [Update(hit)]);
    UpStays(changed, between);
    OneStep(changing, Update(hit));
    if changed.up {
      ConcernsListener(changing, hit, t);
      UpdateStartsExactly(changing, hit, t);
      StartedByUpdate(changing, changed, t);
      StartedStays(changed, between, t);
      if ready.up && WellTyped(ready.brcbs[t.rcb]) {
        StartedIsBuilt(ready, t, reading);
      }
    }
  }

  lemma SwitchedOn(s: State, t: Task)
    requires AllComplete(s.brcbs) && s.up && t.conn in s.conns && t.rcb in s.brcbs
    requires s.brcbs[t.rcb].fields[TrgOps].BitString? && Reports.Included(s.brcbs[t.rcb].fields[TrgOps].bitBytes, 1)
    ensures Listens(ServerRuns.Next(s, Write(t.conn, t.rcb, Some(RptEna), Boolean(true))), t)
  {
    hide Reports.Included;
    WriteDoesExactly(s, t.conn, t.rcb, RptEna, Boolean(true), t);
    hide ServerRuns.Next;
  }

  lemma ConcernsListener(s: State, hit: set<Text>, t: Task)
    requires AllComplete(s.brcbs) && Listens(s, t) && s.brcbs[t.rcb].dataSetName in hit
    ensures Concerns(s.brcbs, hit, t)
  {
    hide ReportsTo;
  }

  lemma StartedByUpdate(s: State, s': State, t: Task)
    requires AllComplete(s.brcbs) && Listens(s, t) && s'.tasks[t] == s.tasks[t] + 1 && s'.conns == s.conns
    ensures Started(s', t)
  {
    hide ReportsTo;
  }

  lemma OneStep(s: State, step: Step)
    requires AllComplete(s.brcbs)
    ensures Run(s, [step]) == ServerRuns.Next(s, step)
  {
    hide ServerRuns.Next;
    assert [step][..0] == [];
  }

  /** A server that has gone down stays down. */
  lemma {:induction false} UpStays(s: State, steps: seq<Step>)
    requires AllComplete(s.brcbs)
    ensures Run(s, steps).up ==> s.up
    decreases |steps|
  {
    if steps != [] {
      UpStays(s, steps[..|steps| - 1]);
    }
  }

  /** So is the report that a general interrogation of an enabled block asks for. */
  lemma InterrogationIsReported(s: State, between: seq<Step>, reading: Reading, t: Task)
    requires AllComplete(s.brcbs) && s.up && t.conn in s.conns && t.rcb in s.brcbs
    requires s.brcbs[t.rcb].fields[RptEna] == Boolean(true) && s.brcbs[t.rcb].dataSetName in s.dataSets
    requires forall i :: 0 <= i < |between| ==> Waits(between[i], t)
    requires |reading.refs| == |reading.values|
    ensures var asked := ServerRuns.Next(s, Write(t.conn, t.rcb, Some(GI), Boolean(true)));
            var ready := Run(asked, between);
            && asked.tasks[t] == s.tasks[t] + 1 && t.rcb in ready.brcbs
            && (ready.up && WellTyped(ready.brcbs[t.rcb]) ==>
                  BuildsFor(ready, ServerRuns.Next(ready, Send(t, reading)), t, reading))
  {
    hide ServerRuns.Next;
    hide Run;
    hide Waits;
    hide BuildsFor;
    hide WellTyped;
    var step := Write(t.conn, t.rcb, Some(GI), Boolean(true));
    var asked := ServerRuns.Next(s, step);
    WriteDoesExactly(s, t.conn, t.rcb, GI, Boolean(true), t);
    BlockKept(s, step, t.rcb);
    var ready := Run(asked, between);
    BlockKeptOver(asked, between, t.rcb);
    StartedStays(asked, between, t);
    if ready.up && WellTyped(ready.brcbs[t.rcb]) {
      StartedIsBuilt(ready, t, reading);
    }
  }

  // ---- Nothing else is reported ----

  /** The step asks for a report: a change in the block's data set, or a general interrogation. */
  predicate Causes(step: Step, dataSet: Text, t: Task) {
    (step.Update? && dataSet in step.hit) || Interrogation(step, t)
  }

  function CauseCount(steps: seq<Step>, dataSet: Text, t: Task): nat {
    if steps == [] then 0
    else CauseCount(steps[..|steps| - 1], dataSet, t) + if Causes(steps[|steps| - 1], dataSet, t) then 1 else 0
  }

  function ReportCount(built: seq<Report>, t: Task): nat {
    if built == [] then 0
    else
      var last := built[|built| - 1];
      ReportCount(built[..|built| - 1], t) + if last.conn == t.conn && last.rcb == t.rcb then 1 else 0
  }

  /** Reports of the block built for the connection or started. */
  function Accounted(s: State, t: Task): nat {
    ReportCount(s.built, t) + s.tasks[t]
  }

  lemma AppendCount(built: seq<Report>, r: Report, t: Task)
    ensures ReportCount(built + [r], t) == ReportCount(built, t) + if r.conn == t.conn && r.rcb == t.rcb then 1 else 0
  {
    assert (built + [r])[..|built|] == built;
  }

  lemma CauseStep(s: State, step: Step, t: Task)
    requires AllComplete(s.brcbs) && t.rcb in s.brcbs
    ensures Accounted(ServerRuns.Next(s, step), t)
         <= Accounted(s, t) + if Causes(step, s.brcbs[t.rcb].dataSetName, t) then 1 else 0
  {
    hide ReportCount;
    if CanStep(s, step) {
      match step
      case Accept =>
      case Leave(c) =>
      case Write(c, rcb, field, v) =>
        if field.Some? {
          WriteDoesExactly(s, c, rcb, field.value, v, t);
          hide Written;
        }
      case Update(hit) =>
        UpdateStartsExactly(s, hit, t);
        UpdateAtMost(s, hit, t);
      case Send(u, r) =>
        SendCounted(s, u, r, t);
    }
  }

  lemma UpdateAtMost(s: State, hit: set<Text>, t: Task)
    requires AllComplete(s.brcbs) && t.rcb in s.brcbs
    ensures Concerns(s.brcbs, hit, t) ==> s.brcbs[t.rcb].dataSetName in hit
    ensures !Updated(s, hit).up ==> Updated(s, hit).tasks == s.tasks || !s.up
  {
  }

  lemma SendCounted(s: State, u: Task, r: Reading, t: Task)
    requires AllComplete(s.brcbs) && u.rcb in s.brcbs && u in s.tasks
    ensures Accounted(Reported(s, u, r), t) <= Accounted(s, t)
  {
    hide ReportCount;
    hide Counted;
    hide Reportable;
    var b := s.brcbs[u.rcb];
    if Reportable(b) {
      AppendCount(s.built, Report(u.conn, u.rcb, ParamsOf(b, r)), t);
    }
  }

  /**
   * In every run, the reports of a block built or started for a connection are no more than the changes in the block's
   * data set and that connection's general interrogations: an update of another data set reports nothing.
   */
  lemma {:induction false} ReportsHaveCauses(s: State, steps: seq<Step>, t: Task)
    requires AllComplete(s.brcbs) && t.rcb in s.brcbs
    ensures Accounted(Run(s, steps), t) <= Accounted(s, t) + CauseCount(steps, s.brcbs[t.rcb].dataSetName, t)
    decreases |steps|
  {
    hide ServerRuns.Next;
    hide Accounted;
    hide Causes;
    if steps != [] {
      var init := steps[..|steps| - 1];
      ReportsHaveCauses(s, init, t);
      BlockKeptOver(s, init, t.rcb);
      CauseStep(Run(s, init), steps[|steps| - 1], t);
    }
  }
}
