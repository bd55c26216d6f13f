/**
 * The same server with writeVariable cut at its accesses to a control block, which it makes without the lock:
 * other connections' accesses, disconnects, updates and reports may come in between.
 */
module ServerRaces {
  import opened Bytes
  import opened MmsValues
  import opened NameList
  import opened Server
  import opened ServerRuns

  /** What the writing handler does next. */
  datatype Stage = ToSet | ToTest | ToBind(enabled: bool) | ToTrigger | ToReset

  datatype InFlight = InFlight(rcb: Text, field: BrcbField, v: Value, stage: Stage)

  /** A connection handles one request at a time, so it has at most one write in flight. */
  datatype Fine = Fine(s: State, writes: map<ConnID, InFlight>)

  datatype FineStep =
    | Whole(step: Step)
    | Begin(c: ConnID, rcb: Text, field: BrcbField, v: Value)
    | Go(c: ConnID)

  function Without(writes: map<ConnID, InFlight>, c: ConnID): map<ConnID, InFlight> {
    map d | d in writes && d != c :: writes[d]
  }

  function At(f: Fine, c: ConnID, stage: Stage): map<ConnID, InFlight>
    requires c in f.writes
  {
    f.writes[c := f.writes[c].(stage := stage)]
  }

  function Put(s: State, rcb: Text, b: Brcb): State {
    s.(brcbs := s.brcbs[rcb := b])
  }

  /** One access of the handler of `c`. */
  function Advanced(f: Fine, c: ConnID): Fine
    requires c in f.writes && f.writes[c].rcb in f.s.brcbs && AllComplete(f.s.brcbs)
  {
    var w := f.writes[c];
    var b := f.s.brcbs[w.rcb];
    match w.stage
    case ToSet =>
      var writes :=
        if w.field == RptEna then At(f, c, ToTest)
        else if Interrogates(w.field, w.v) then At(f, c, ToTrigger)
        else Without(f.writes, c);
      Fine(Put(f.s, w.rcb, Set(b, w.field, w.v)), writes)
    case ToTest => Fine(f.s, At(f, c, ToBind(Enabled(b))))
    case ToBind(enabled) =>
      Fine(Put(f.s, w.rcb, b.(subscriber := if enabled then Some(c) else None)), Without(f.writes, c))
    case ToTrigger =>
      Fine(if Enabled(b) then f.s.(tasks := f.s.tasks + multiset{Task(c, w.rcb)}) else f.s, At(f, c, ToReset))
    case ToReset => Fine(Put(f.s, w.rcb, Set(b, GI, Boolean(false))), Without(f.writes, c))
  }

  predicate CanFine(f: Fine, step: FineStep) {
    match step
    case Whole(s) => !s.Write? && (s.Leave? ==> s.c !in f.writes)
    case Begin(c, rcb, _, _) => f.s.up && c in f.s.conns && c !in f.writes && rcb in f.s.brcbs
    case Go(c) => f.s.up && c in f.writes && f.writes[c].rcb in f.s.brcbs
  }

  function FineNext(f: Fine, step: FineStep): (r: Fine)
    requires AllComplete(f.s.brcbs)
    ensures AllComplete(r.s.brcbs)
  {
    if !CanFine(f, step) then f
    else
      match step
      case Whole(s) => Fine(Next(f.s, s), f.writes)
      case Begin(c, rcb, field, v) => Fine(f.s, f.writes[c := InFlight(rcb, field, v, ToSet)])
      case Go(c) => Advanced(f, c)
  }

  function FineRun(f: Fine, steps: seq<FineStep>): (r: Fine)
    requires AllComplete(f.s.brcbs)
    ensures AllComplete(r.s.brcbs)
  {
    if steps == [] then f else FineNext(FineRun(f, steps[..|steps| - 1]), steps[|steps| - 1])
  }

  // ---- Without interruption, the pieces make up the whole ----

  lemma RunOne(f: Fine, steps: seq<FineStep>, step: FineStep)
    requires AllComplete(f.s.brcbs)
    ensures FineRun(f, steps + [step]) == FineNext(FineRun(f, steps), step)
  {
    assert (steps + [step])[..|steps|] == steps;
  }

  lemma RunNone(f: Fine)
    requires AllComplete(f.s.brcbs)
    ensures FineRun(f, []) == f
  {
  }

  lemma RunFour(f: Fine, a: FineStep, b: FineStep, c: FineStep, d: FineStep)
    requires AllComplete(f.s.brcbs)
    ensures FineRun(f, [a, b]) == FineNext(FineNext(f, a), b)
    ensures FineRun(f, [a, b, c, d]) == FineNext(FineNext(FineNext(FineNext(f, a), b), c), d)
  {
    hide FineNext;
    hide FineRun;
    RunNone(f);
    RunOne(f, [], a);
    assert [] + [a] == [a];
    RunOne(f, [a], b);
    assert [a] + [b] == [a, b];
    RunOne(f, [a, b], c);
    assert [a, b] + [c] == [a, b, c];
    RunOne(f, [a, b, c], d);
    assert [a, b, c] + [d] == [a, b, c, d];
  }

  /** How often the handler touches the block. */
  function Accesses(field: BrcbField, v: Value): nat {
    if field == RptEna || Interrogates(field, v) then 3 else 1
  }

  lemma WithoutBack(writes: map<ConnID, InFlight>, c: ConnID, w: InFlight)
    requires c !in writes
    ensures Without(writes[c := w], c) == writes
  {
  }

  /** A write whose accesses nothing interrupts does what the single write step does. */
  lemma UninterruptedIsWhole(f: Fine, c: ConnID, rcb: Text, field: BrcbField, v: Value)
    requires AllComplete(f.s.brcbs) && CanFine(f, Begin(c, rcb, field, v))
    ensures FineRun(f, [Begin(c, rcb, field, v)] + (if Accesses(field, v) == 3 then [Go(c), Go(c), Go(c)] else [Go(c)]))
         == Fine(Written(f.s, c, rcb, Some(field), v), f.writes)
  {
    var go, begin := Go(c), Begin(c, rcb, field, v);
    RunFour(f, begin, go, go, go);
    assert [begin] + [go, go, go] == [begin, go, go, go] && [begin] + [go] == [begin, go];
    if field == RptEna {
      EnableUninterrupted(f, c, rcb, v);
    } else if Interrogates(field, v) {
      InterrogateUninterrupted(f, c, rcb, v);
    } else {
      PlainUninterrupted(f, c, rcb, field, v);
    }
  }

  lemma EnableUninterrupted(f: Fine, c: ConnID, rcb: Text, v: Value)
    requires AllComplete(f.s.brcbs) && CanFine(f, Begin(c, rcb, RptEna, v))
    ensures FineNext(FineNext(FineNext(FineNext(f, Begin(c, rcb, RptEna, v)), Go(c)), Go(c)), Go(c))
         == Fine(Written(f.s, c, rcb, Some(RptEna), v), f.writes)
  {
    var f1 := FineNext(f, Begin(c, rcb, RptEna, v));
    assert f1.writes == f.writes[c := InFlight(rcb, RptEna, v, ToSet)];
    var f2 := FineNext(f1, Go(c));
    assert f2.writes == f.writes[c := InFlight(rcb, RptEna, v, ToTest)];
    var f3 := FineNext(f2, Go(c));
    var w := InFlight(rcb, RptEna, v, ToBind(Enabled(f2.s.brcbs[rcb])));
    assert f3.s == f2.s && f3.writes == f.writes[c := w];
    WithoutBack(f.writes, c, w);
    var f4 := FineNext(f3, Go(c));
    assert f4.s.brcbs == f.s.brcbs[rcb := WrittenBlock(f.s.brcbs[rcb], c, RptEna, v)];
  }

  lemma InterrogateUninterrupted(f: Fine, c: ConnID, rcb: Text, v: Value)
    requires AllComplete(f.s.brcbs) && CanFine(f, Begin(c, rcb, GI, v)) && IsTrue(v)
    ensures FineNext(FineNext(FineNext(FineNext(f, Begin(c, rcb, GI, v)), Go(c)), Go(c)), Go(c))
         == Fine(Written(f.s, c, rcb, Some(GI), v), f.writes)
  {
    hide Written;
    hide WrittenBlock;
    var b := f.s.brcbs[rcb];
    var f1 := FineNext(f, Begin(c, rcb, GI, v));
    assert f1 == Fine(f.s, f.writes[c := InFlight(rcb, GI, v, ToSet)]);
    var f2 := FineNext(f1, Go(c));
    assert f2 == Fine(Put(f.s, rcb, Set(b, GI, v)), f.writes[c := InFlight(rcb, GI, v, ToTrigger)]) by {
      assert f1.writes[c := InFlight(rcb, GI, v, ToTrigger)] == f.writes[c := InFlight(rcb, GI, v, ToTrigger)];
    }
    TriggerAndReset(f, f2, c, rcb, v);
  }

  /** The two last accesses of a general interrogation. */
  lemma TriggerAndReset(f: Fine, f2: Fine, c: ConnID, rcb: Text, v: Value)
    requires AllComplete(f.s.brcbs) && CanFine(f, Begin(c, rcb, GI, v)) && IsTrue(v)
    requires f2 == Fine(Put(f.s, rcb, Set(f.s.brcbs[rcb], GI, v)), f.writes[c := InFlight(rcb, GI, v, ToTrigger)])
    requires AllComplete(f2.s.brcbs)
    ensures FineNext(FineNext(f2, Go(c)), Go(c)) == Fine(Written(f.s, c, rcb, Some(GI), v), f.writes)
  {
    var w := InFlight(rcb, GI, v, ToReset);
    var f3 := FineNext(f2, Go(c));
    assert f3.writes == f.writes[c := w];
    WithoutBack(f.writes, c, w);
    assert f3.s.brcbs == f2.s.brcbs;
    var f4 := FineNext(f3, Go(c));
    assert f4.s.brcbs == f.s.brcbs[rcb := WrittenBlock(f.s.brcbs[rcb], c, GI, v)];
  }

  lemma PlainUninterrupted(f: Fine, c: ConnID, rcb: Text, field: BrcbField, v: Value)
    requires AllComplete(f.s.brcbs) && CanFine(f, Begin(c, rcb, field, v))
    requires field != RptEna && !Interrogates(field, v)
    ensures FineNext(FineNext(f, Begin(c, rcb, field, v)), Go(c)) == Fine(Written(f.s, c, rcb, Some(field), v), f.writes)
  {
    WithoutBack(f.writes, c, InFlight(rcb, field, v, ToSet));
  }

  // ---- What survives every interleaving ----

  predicate Pending(w: InFlight) {
    match w.stage
    case ToSet => true
    case ToTest => w.field == RptEna
    case ToBind(_) => w.field == RptEna
    case ToTrigger => w.field == GI
    case ToReset => w.field == GI
  }

  predicate WritesSound(f: Fine) {
    forall c :: c in f.writes ==> c in f.s.conns && f.writes[c].rcb in f.s.brcbs && Pending(f.writes[c])
  }

  predicate SubscribersLive(brcbs: map<Text, Brcb>, conns: set<ConnID>) {
    forall name :: name in brcbs && brcbs[name].subscriber.Some? ==> brcbs[name].subscriber.value in conns
  }

  /** GI reads true only while the handler that set it has still to reset it. */
  predicate GIPending(f: Fine)
    requires AllComplete(f.s.brcbs)
  {
    forall name :: name in f.s.brcbs && IsTrue(f.s.brcbs[name].fields[GI]) ==> ResetPending(f, name)
  }

  predicate ResetPending(f: Fine, name: Text) {
    exists c :: c in f.writes && f.writes[c].rcb == name && (f.writes[c].stage == ToTrigger || f.writes[c].stage == ToReset)
  }

  predicate FineSound(f: Fine) {
    && AllComplete(f.s.brcbs) && ConnsSound(f.s) && WritesSound(f)
    && SubscribersLive(f.s.brcbs, f.s.conns) && GIPending(f)
  }

  lemma GoSound(f: Fine, c: ConnID)
    requires FineSound(f) && c in f.writes
    ensures FineSound(Advanced(f, c))
  {
    hide Put;
    hide ConnsSound;
    var w := f.writes[c];
    var f' := Advanced(f, c);
    AdvancedBlocks(f, c);
    assert f'.s.conns == f.s.conns && f'.s.lastID == f.s.lastID && f'.s.maxConnections == f.s.maxConnections by {
      AdvancedConns(f, c);
    }
    assert ConnsSound(f'.s) by {
      SameConns(f.s, f'.s);
    }
    forall d | d in f'.writes ensures d in f'.s.conns && f'.writes[d].rcb in f'.s.brcbs && Pending(f'.writes[d]) {
      AdvancedWrites(f, c, d);
    }
    forall name | name in f'.s.brcbs && IsTrue(f'.s.brcbs[name].fields[GI]) ensures ResetPending(f', name) {
      AdvancedGI(f, c, name);
    }
  }

  lemma SameConns(s: State, t: State)
    requires ConnsSound(s) && t.conns == s.conns && t.lastID == s.lastID && t.maxConnections == s.maxConnections
    ensures ConnsSound(t)
  {
  }

  lemma AdvancedConns(f: Fine, c: ConnID)
    requires FineSound(f) && c in f.writes
    ensures var s, t := f.s, Advanced(f, c).s; t.conns == s.conns && t.lastID == s.lastID && t.maxConnections == s.maxConnections
  {
  }

  lemma AdvancedBlocks(f: Fine, c: ConnID)
    requires FineSound(f) && c in f.writes
    ensures AllComplete(Advanced(f, c).s.brcbs) && Advanced(f, c).s.brcbs.Keys == f.s.brcbs.Keys
    ensures SubscribersLive(Advanced(f, c).s.brcbs, f.s.conns)
  {
    hide ConnsSound;
    hide GIPending;
    hide ResetPending;
    var f' := Advanced(f, c);
    var rcb := f.writes[c].rcb;
    forall name | name in f'.s.brcbs
      ensures Complete(f'.s.brcbs[name])
      ensures f'.s.brcbs[name].subscriber.Some? ==> f'.s.brcbs[name].subscriber.value in f.s.conns
    {
      assert name != rcb ==> f'.s.brcbs[name] == f.s.brcbs[name];
    }
  }

  lemma AdvancedWrites(f: Fine, c: ConnID, d: ConnID)
    requires FineSound(f) && c in f.writes && d in Advanced(f, c).writes
    ensures d in f.s.conns && Advanced(f, c).writes[d].rcb in f.s.brcbs && Pending(Advanced(f, c).writes[d])
  {
    hide ConnsSound;
    hide GIPending;
    hide SubscribersLive;
    hide Set;
    assert d in f.writes;
  }

  lemma AdvancedGI(f: Fine, c: ConnID, name: Text)
    requires FineSound(f) && c in f.writes && name in Advanced(f, c).s.brcbs && AllComplete(Advanced(f, c).s.brcbs)
    requires IsTrue(Advanced(f, c).s.brcbs[name].fields[GI])
    ensures ResetPending(Advanced(f, c), name)
  {
    hide ConnsSound;
    hide SubscribersLive;
    var f' := Advanced(f, c);
    var w := f.writes[c];
    if name == w.rcb && w.stage == ToSet && w.field == GI {
      assert f'.writes[c].rcb == name && f'.writes[c].stage == ToTrigger;
    } else {
      assert IsTrue(f.s.brcbs[name].fields[GI]);
      var d :| d in f.writes && f.writes[d].rcb == name && (f.writes[d].stage == ToTrigger || f.writes[d].stage == ToReset);
      assert d in f'.writes && f'.writes[d].rcb == name && (f'.writes[d].stage == ToTrigger || f'.writes[d].stage == ToReset);
    }
  }

  lemma WholeSound(f: Fine, step: Step)
    requires FineSound(f) && CanFine(f, Whole(step))
    ensures FineSound(Fine(Next(f.s, step), f.writes))
  {
    hide ResetPending;
    hide ConnsSound;
    var s' := Next(f.s, step);
    NextKeeps(f.s, step);
    assert ConnsSound(s') by {
      NextConns(f.s, step);
    }
    forall name | name in s'.brcbs && IsTrue(s'.brcbs[name].fields[GI]) ensures ResetPending(Fine(s', f.writes), name) {
      assert ResetPending(f, name);
      SamePending(f, Fine(s', f.writes), name);
    }
    forall name | name in s'.brcbs && s'.brcbs[name].subscriber.Some? ensures s'.brcbs[name].subscriber.value in s'.conns {
    }
  }

  lemma SamePending(f: Fine, g: Fine, name: Text)
    requires ResetPending(f, name) && g.writes == f.writes
    ensures ResetPending(g, name)
  {
  }

  lemma NextConns(s: State, step: Step)
    requires AllComplete(s.brcbs) && ConnsSound(s) && !step.Write?
    ensures ConnsSound(Next(s, step))
  {
    hide Reported;
    hide Updated;
    hide ReleasedAll;
    if CanStep(s, step) {
      match step
      case Accept =>
      case Leave(c) => Smaller(s.conns - {c}, s.conns);
      case Update(hit) => UpdatedConns(s, hit);
      case Send(t, r) => ReportedConns(s, t, r);
    }
  }

  predicate ConnsKept(s: State, s': State) {
    s'.conns == s.conns && s'.lastID == s.lastID && s'.maxConnections == s.maxConnections
  }

  lemma UpdatedConns(s: State, hit: set<Text>)
    requires AllComplete(s.brcbs)
    ensures ConnsKept(s, Updated(s, hit))
  {
  }

  lemma ReportedConns(s: State, t: Task, r: Reading)
    requires AllComplete(s.brcbs) && t.rcb in s.brcbs
    ensures ConnsKept(s, Reported(s, t, r))
  {
    hide ParamsOf;
    hide Counted;
  }

  /** What a step that holds the lock keeps: GI, the absence of new subscribers, and all connections but a leaving one. */
  ghost predicate Keeps(s: State, s': State, step: Step)
    requires AllComplete(s.brcbs)
  {
    && s'.brcbs.Keys == s.brcbs.Keys
    && (forall name :: name in s.brcbs ==> Kept(s.brcbs[name], s'.brcbs[name], step))
    && (!step.Leave? ==> s.conns <= s'.conns)
    && (step.Leave? ==> s' == s || (s'.conns == s.conns - {step.c} && forall name :: name in s'.brcbs ==>
                                      s'.brcbs[name].subscriber != Some(step.c)))
  }

  lemma NextKeeps(s: State, step: Step)
    requires AllComplete(s.brcbs) && !step.Write?
    ensures Keeps(s, Next(s, step), step)
  {
    hide Accepted;
    hide Reported;
    hide Left;
    hide Updated;
    hide Kept;
    UntouchedKept(s, step);
    if CanStep(s, step) {
      match step
      case Accept => OthersKeep(s, step, {});
      case Leave(c) => LeaveKeeps(s, c);
      case Update(hit) => OthersKeep(s, step, hit);
      case Send(t, r) => SendKeeps(s, t, r);
    }
  }

  lemma UntouchedKept(s: State, step: Step)
    requires AllComplete(s.brcbs) && !step.Write?
    ensures forall name :: name in s.brcbs ==> Kept(s.brcbs[name], s.brcbs[name], step)
  {
  }

  lemma OthersKeep(s: State, step: Step, hit: set<Text>)
    requires AllComplete(s.brcbs) && (step.Accept? || step == Update(hit))
    ensures step.Accept? ==> Keeps(s, Accepted(s), step)
    ensures step.Update? ==> Keeps(s, Updated(s, hit), step)
  {
    hide Kept;
    UntouchedKept(s, step);
  }

  lemma LeaveKeeps(s: State, c: ConnID)
    requires AllComplete(s.brcbs)
    ensures Keeps(s, Left(s, c), Leave(c))
  {
    hide Released;
    var s' := Left(s, c);
    forall name | name in s.brcbs
      ensures Kept(s.brcbs[name], s'.brcbs[name], Leave(c)) && s'.brcbs[name].subscriber != Some(c)
    {
      ReleasedKept(s.brcbs[name], c);
    }
  }

  lemma ReleasedKept(b: Brcb, c: ConnID)
    requires Complete(b)
    ensures Kept(b, Released(b, c), Leave(c)) && Released(b, c).subscriber != Some(c)
  {
  }

  lemma SendKeeps(s: State, t: Task, r: Reading)
    requires AllComplete(s.brcbs) && t.rcb in s.brcbs
    ensures Keeps(s, Reported(s, t, r), Send(t, r))
  {
    hide Counted;
    hide Kept;
    var s' := Reported(s, t, r);
    forall name | name in s.brcbs ensures Kept(s.brcbs[name], s'.brcbs[name], Send(t, r)) {
      CountedKept(s.brcbs[name], t, r);
      assert name != t.rcb ==> s'.brcbs[name] == s.brcbs[name];
    }
  }

  lemma CountedKept(b: Brcb, t: Task, r: Reading)
    requires Complete(b)
    ensures Kept(b, b, Send(t, r))
    ensures b.fields[SqNum].Nil? || IsNumber(b.fields[SqNum]) ==> Kept(b, Counted(b), Send(t, r))
  {
  }

  predicate Kept(b: Brcb, b': Brcb, step: Step)
    requires Complete(b)
  {
    && Complete(b')
    && b'.fields[GI] == b.fields[GI]
    && (b'.subscriber == b.subscriber || b'.subscriber.None?)
    && (!step.Leave? ==> b'.subscriber == b.subscriber && b'.fields[RptEna] == b.fields[RptEna])
  }

  /** Whatever accesses interleave: the connection limit holds, subscribers are connected, GI is being reset. */
  lemma {:induction false} FineRunSound(f: Fine, steps: seq<FineStep>)
    requires FineSound(f)
    ensures FineSound(FineRun(f, steps))
    decreases |steps|
  {
    hide FineSound;
    FineComplete(f);
    if steps != [] {
      FineRunSound(f, steps[..|steps| - 1]);
      FineStepSound(FineRun(f, steps[..|steps| - 1]), steps[|steps| - 1]);
    }
  }

  lemma FineComplete(f: Fine)
    requires FineSound(f)
    ensures AllComplete(f.s.brcbs)
  {
  }

  lemma FineStepSound(f: Fine, step: FineStep)
    requires FineSound(f)
    ensures FineSound(FineNext(f, step))
  {
    hide Advanced;
    hide Next;
    hide ConnsSound;
    hide SubscribersLive;
    if CanFine(f, step) {
      match step
      case Whole(w) => WholeSound(f, w);
      case Begin(c, rcb, field, v) => BeginSound(f, c, rcb, field, v);
      case Go(c) => GoSound(f, c);
    }
  }

  lemma BeginSound(f: Fine, c: ConnID, rcb: Text, field: BrcbField, v: Value)
    requires FineSound(f) && CanFine(f, Begin(c, rcb, field, v))
    ensures FineSound(Fine(f.s, f.writes[c := InFlight(rcb, field, v, ToSet)]))
  {
    hide ConnsSound;
    hide SubscribersLive;
    var g := Fine(f.s, f.writes[c := InFlight(rcb, field, v, ToSet)]);
    forall name | name in g.s.brcbs && IsTrue(g.s.brcbs[name].fields[GI]) ensures ResetPending(g, name) {
      var d :| d in f.writes && f.writes[d].rcb == name && (f.writes[d].stage == ToTrigger || f.writes[d].stage == ToReset);
      assert d in g.writes && g.writes[d] == f.writes[d];
    }
  }

  /** With no write in flight, no block has GI set. */
  lemma {:induction false} QuietGI(f: Fine, steps: seq<FineStep>, name: Text)
    requires FineSound(f) && FineRun(f, steps).writes == map[] && name in FineRun(f, steps).s.brcbs
    ensures !IsTrue(FineRun(f, steps).s.brcbs[name].fields[GI])
  {
    FineRunSound(f, steps);
  }

  // ---- What does not survive: the subscriber and RptEna ----

  /**
   * From any state where connection `a` subscribes to a block and nothing is in flight: `b` enables the block,
   * `a` disconnects between b's test and b's binding, and the block ends up with a subscriber and RptEna false.
   */
  lemma SubscriberWithoutEnable(f: Fine, a: ConnID, b: ConnID, rcb: Text)
    requires AllComplete(f.s.brcbs) && f.s.up && f.writes == map[] && a != b && {a, b} <= f.s.conns
    requires rcb in f.s.brcbs && f.s.brcbs[rcb].subscriber == Some(a)
    ensures var end := FineRun(f, [Begin(b, rcb, RptEna, Boolean(true)), Go(b), Go(b), Whole(Leave(a))] + [Go(b)]);
            && end.writes == map[] && rcb in end.s.brcbs
            && end.s.brcbs[rcb].subscriber == Some(b) && !Enabled(end.s.brcbs[rcb])
  {
    hide FineNext;
    var v := Boolean(true);
    var steps := [Begin(b, rcb, RptEna, v), Go(b), Go(b), Whole(Leave(a))];
    RunFour(f, steps[0], steps[1], steps[2], steps[3]);
    RunOne(f, steps, Go(b));
    TestedTrue(f, b, rcb);
    LeftBeforeBinding(FineNext(FineNext(FineNext(f, steps[0]), steps[1]), steps[2]), a, b, rcb);
  }

  /** Up to the test, the write of `b` has enabled the block, which keeps its old subscriber. */
  lemma TestedTrue(f: Fine, b: ConnID, rcb: Text)
    requires AllComplete(f.s.brcbs) && f.s.up && f.writes == map[] && b in f.s.conns && rcb in f.s.brcbs
    ensures FineNext(FineNext(FineNext(f, Begin(b, rcb, RptEna, Boolean(true))), Go(b)), Go(b))
         == Fine(Put(f.s, rcb, Set(f.s.brcbs[rcb], RptEna, Boolean(true))),
                 map[b := InFlight(rcb, RptEna, Boolean(true), ToBind(true))])
  {
    var v := Boolean(true);
    var f1 := FineNext(f, Begin(b, rcb, RptEna, v));
    assert f1.writes == map[b := InFlight(rcb, RptEna, v, ToSet)];
    var f2 := FineNext(f1, Go(b));
    assert f2.writes == map[b := InFlight(rcb, RptEna, v, ToTest)];
  }

  lemma LeftBeforeBinding(f: Fine, a: ConnID, b: ConnID, rcb: Text)
    requires AllComplete(f.s.brcbs) && f.s.up && a != b && {a, b} <= f.s.conns
    requires f.writes == map[b := InFlight(rcb, RptEna, Boolean(true), ToBind(true))]
    requires rcb in f.s.brcbs && f.s.brcbs[rcb].subscriber == Some(a)
    ensures var end := FineNext(FineNext(f, Whole(Leave(a))), Go(b));
            && end.writes == map[] && rcb in end.s.brcbs
            && end.s.brcbs[rcb].subscriber == Some(b) && !Enabled(end.s.brcbs[rcb])
  {
    hide Released;
    var f1 := FineNext(f, Whole(Leave(a)));
    assert f1 == Fine(Left(f.s, a), f.writes);
    LeaveReleases(f.s, a, rcb);
    WithoutBack(map[], b, InFlight(rcb, RptEna, Boolean(true), ToBind(true)));
  }

  lemma LeaveReleases(s: State, a: ConnID, rcb: Text)
    requires AllComplete(s.brcbs) && rcb in s.brcbs && s.brcbs[rcb].subscriber == Some(a)
    ensures rcb in Left(s, a).brcbs && !Enabled(Left(s, a).brcbs[rcb]) && AllComplete(Left(s, a).brcbs)
  {
    LeaveKeeps(s, a);
  }

  predicate Agrees(b: Brcb)
    requires Complete(b)
  {
    b.subscriber.Some? <==> Enabled(b)
  }

  predicate Binding(f: Fine, name: Text) {
    exists c :: c in f.writes && f.writes[c].rcb == name && (f.writes[c].stage == ToTest || f.writes[c].stage.ToBind?)
  }

  /** Subscriber and RptEna agree on every block that no handler is about to bind. */
  predicate Settled(f: Fine)
    requires AllComplete(f.s.brcbs)
  {
    forall name :: name in f.s.brcbs ==> Agrees(f.s.brcbs[name]) || Binding(f, name)
  }

  /** Some other handler has still to bind the block, and so to repair it. */
  predicate OtherBinding(f: Fine, c: ConnID, name: Text) {
    exists d :: d in f.writes && d != c && f.writes[d].rcb == name && (f.writes[d].stage == ToTest || f.writes[d].stage.ToBind?)
  }

  /** If this step is the last binding of its block, it finds RptEna as its handler has read it. */
  predicate BindsTrue(f: Fine, step: FineStep)
    requires AllComplete(f.s.brcbs)
  {
    step.Go? && CanFine(f, step) && f.writes[step.c].stage.ToBind? && !OtherBinding(f, step.c, f.writes[step.c].rcb) ==>
      f.writes[step.c].stage.enabled == Enabled(f.s.brcbs[f.writes[step.c].rcb])
  }

  lemma GoSettles(f: Fine, c: ConnID)
    requires FineSound(f) && CanFine(f, Go(c)) && Settled(f)
    ensures AllComplete(Advanced(f, c).s.brcbs)
    ensures Settled(Advanced(f, c)) <==> BindsTrue(f, Go(c))
  {
    hide Binding;
    hide OtherBinding;
    hide ConnsSound;
    hide GIPending;
    hide SubscribersLive;
    hide Agrees;
    var f' := Advanced(f, c);
    var rcb := f.writes[c].rcb;
    AdvancedComplete(f, c);
    OwnBlockSettles(f, c);
    forall name | name in f'.s.brcbs && name != rcb ensures Agrees(f'.s.brcbs[name]) || Binding(f', name) {
      assert f'.s.brcbs[name] == f.s.brcbs[name];
      if Binding(f, name) {
        OthersBind(f, c, name);
      }
    }
  }

  lemma AdvancedComplete(f: Fine, c: ConnID)
    requires AllComplete(f.s.brcbs) && c in f.writes && f.writes[c].rcb in f.s.brcbs
    ensures AllComplete(Advanced(f, c).s.brcbs) && Advanced(f, c).s.brcbs.Keys == f.s.brcbs.Keys
  {
  }

  lemma OthersBind(f: Fine, c: ConnID, name: Text)
    requires AllComplete(f.s.brcbs) && c in f.writes && f.writes[c].rcb in f.s.brcbs && name != f.writes[c].rcb
    requires Binding(f, name)
    ensures Binding(Advanced(f, c), name)
  {
    var d :| d in f.writes && f.writes[d].rcb == name && (f.writes[d].stage == ToTest || f.writes[d].stage.ToBind?);
    var f' := Advanced(f, c);
    assert d in f'.writes && f'.writes[d] == f.writes[d];
  }

  lemma OwnBlockSettles(f: Fine, c: ConnID)
    requires AllComplete(f.s.brcbs) && WritesSound(f) && CanFine(f, Go(c)) && Settled(f)
    ensures var name := f.writes[c].rcb;
            var f' := Advanced(f, c);
            && name in f'.s.brcbs && Complete(f'.s.brcbs[name])
            && (Agrees(f'.s.brcbs[name]) || Binding(f', name) <==> BindsTrue(f, Go(c)))
  {
    var w := f.writes[c];
    if w.stage.ToBind? {
      BindingLeft(f, c);
    } else if w.stage == ToTest || (w.stage == ToSet && w.field == RptEna) {
      var f' := Advanced(f, c);
      assert c in f'.writes && f'.writes[c].rcb == w.rcb && (f'.writes[c].stage == ToTest || f'.writes[c].stage.ToBind?);
    } else {
      OtherAccessSettles(f, c);
    }
  }

  lemma BindingLeft(f: Fine, c: ConnID)
    requires AllComplete(f.s.brcbs) && CanFine(f, Go(c)) && f.writes[c].stage.ToBind?
    ensures Binding(Advanced(f, c), f.writes[c].rcb) <==> OtherBinding(f, c, f.writes[c].rcb)
  {
    var name, f' := f.writes[c].rcb, Advanced(f, c);
    if OtherBinding(f, c, name) {
      var d :| d in f.writes && d != c && f.writes[d].rcb == name && (f.writes[d].stage == ToTest || f.writes[d].stage.ToBind?);
      assert d in f'.writes && f'.writes[d] == f.writes[d];
    }
  }

  lemma OtherAccessSettles(f: Fine, c: ConnID)
    requires AllComplete(f.s.brcbs) && WritesSound(f) && CanFine(f, Go(c)) && Settled(f)
    requires !f.writes[c].stage.ToBind? && f.writes[c].stage != ToTest
    requires f.writes[c].stage == ToSet ==> f.writes[c].field != RptEna
    ensures var name := f.writes[c].rcb;
            var f' := Advanced(f, c);
            name in f'.s.brcbs && Complete(f'.s.brcbs[name]) && (Agrees(f'.s.brcbs[name]) || Binding(f', name))
  {
    var name, f' := f.writes[c].rcb, Advanced(f, c);
    assert Agrees(f.s.brcbs[name]) ==> Agrees(f'.s.brcbs[name]);
    if !Agrees(f.s.brcbs[name]) {
      var d :| d in f.writes && f.writes[d].rcb == name && (f.writes[d].stage == ToTest || f.writes[d].stage.ToBind?);
      assert d in f'.writes && f'.writes[d] == f.writes[d];
    }
  }

  lemma WholeSettles(f: Fine, step: Step)
    requires AllComplete(f.s.brcbs) && !step.Write? && Settled(f)
    ensures Settled(Fine(Next(f.s, step), f.writes))
  {
    hide Binding;
    hide Next;
    hide Kept;
    var g := Fine(Next(f.s, step), f.writes);
    NextKeeps(f.s, step);
    forall name | name in g.s.brcbs ensures Agrees(g.s.brcbs[name]) || Binding(g, name) {
      if Binding(f, name) {
        SameBinding(f, g, name);
      } else {
        LockedStepAgrees(f.s, step, name);
      }
    }
  }

  lemma SameBinding(f: Fine, g: Fine, name: Text)
    requires Binding(f, name) && g.writes == f.writes
    ensures Binding(g, name)
  {
  }

  lemma LockedStepAgrees(s: State, step: Step, name: Text)
    requires AllComplete(s.brcbs) && !step.Write? && name in s.brcbs && Agrees(s.brcbs[name])
    ensures name in Next(s, step).brcbs && Agrees(Next(s, step).brcbs[name])
  {
    hide Accepted;
    if CanStep(s, step) && step.Leave? {
      ReleasedAgrees(s.brcbs[name], step.c);
    } else {
      NextKeeps(s, step);
    }
  }

  lemma ReleasedAgrees(b: Brcb, c: ConnID)
    requires Complete(b) && Agrees(b)
    ensures Complete(Released(b, c)) && Agrees(Released(b, c))
  {
  }

  /** One step keeps subscribers and RptEna in agreement if and only if it is no stale last binding. */
  lemma StepSettlesExactly(f: Fine, step: FineStep)
    requires FineSound(f) && Settled(f)
    ensures Settled(FineNext(f, step)) <==> BindsTrue(f, step)
  {
    hide Settled;
    hide Advanced;
    hide Next;
    hide OtherBinding;
    FineComplete(f);
    if CanFine(f, step) {
      match step
      case Whole(w) => WholeSettles(f, w);
      case Begin(c, rcb, field, v) => BeginSettles(f, c, InFlight(rcb, field, v, ToSet));
      case Go(c) => GoSettles(f, c);
    }
  }

  /** The state after `k` steps. */
  function AfterSteps(f: Fine, steps: seq<FineStep>, k: nat): (r: Fine)
    requires AllComplete(f.s.brcbs) && k <= |steps|
    ensures AllComplete(r.s.brcbs)
  {
    FineRun(f, steps[..k])
  }

  lemma AfterOneMore(f: Fine, steps: seq<FineStep>, k: nat)
    requires AllComplete(f.s.brcbs) && k < |steps|
    ensures AfterSteps(f, steps, k + 1) == FineNext(AfterSteps(f, steps, k), steps[k])
  {
    hide FineNext;
    assert steps[..k + 1][..k] == steps[..k];
  }

  lemma {:induction false} SettledUpTo(f: Fine, steps: seq<FineStep>, k: nat)
    requires FineSound(f) && Settled(f) && k <= |steps|
    requires forall i :: 0 <= i < k ==> BindsTrue(AfterSteps(f, steps, i), steps[i])
    ensures FineSound(AfterSteps(f, steps, k)) && Settled(AfterSteps(f, steps, k))
  {
    hide FineSound;
    hide Settled;
    hide BindsTrue;
    hide FineNext;
    FineComplete(f);
    FineRunSound(f, steps[..k]);
    if k > 0 {
      SettledUpTo(f, steps, k - 1);
      StepSettlesExactly(AfterSteps(f, steps, k - 1), steps[k - 1]);
      AfterOneMore(f, steps, k - 1);
    } else {
      assert steps[..0] == [];
    }
  }

  /**
   * Over a whole run, subscriber and RptEna agree at every point on every block that no handler is about to bind,
   * if and only if every last binding of a block finds RptEna as its handler has read it.
   */
  lemma RunSettledExactly(f: Fine, steps: seq<FineStep>)
    requires FineSound(f) && Settled(f)
    ensures (forall k :: 0 <= k <= |steps| ==> Settled(AfterSteps(f, steps, k)))
       <==> (forall k :: 0 <= k < |steps| ==> BindsTrue(AfterSteps(f, steps, k), steps[k]))
  {
    hide FineSound;
    hide Settled;
    hide BindsTrue;
    hide FineNext;
    hide AfterSteps;
    FineComplete(f);
    if forall k :: 0 <= k <= |steps| ==> Settled(AfterSteps(f, steps, k)) {
      forall k | 0 <= k < |steps| ensures BindsTrue(AfterSteps(f, steps, k), steps[k]) {
        AfterOneMore(f, steps, k);
        SoundAfter(f, steps, k);
        StepSettlesExactly(AfterSteps(f, steps, k), steps[k]);
      }
    }
    if forall k :: 0 <= k < |steps| ==> BindsTrue(AfterSteps(f, steps, k), steps[k]) {
      forall k | 0 <= k <= |steps| ensures Settled(AfterSteps(f, steps, k)) {
        SettledUpTo(f, steps, k);
      }
    }
  }

  lemma SoundAfter(f: Fine, steps: seq<FineStep>, k: nat)
    requires FineSound(f) && AllComplete(f.s.brcbs) && k <= |steps|
    ensures FineSound(AfterSteps(f, steps, k))
  {
    hide FineSound;
    FineRunSound(f, steps[..k]);
  }

  // ---- A condition on the schedule ----

  /**
   * The step comes between the read and the binding of some handler: its block's subscriber disconnects, or another
   * handler writes RptEna to its block.
   */
  predicate Intrudes(f: Fine, step: FineStep) {
    exists c :: c in f.writes && f.writes[c].stage.ToBind? && f.writes[c].rcb in f.s.brcbs && Disturbs(f, step, f.writes[c].rcb)
  }

  predicate Disturbs(f: Fine, step: FineStep, rcb: Text)
    requires rcb in f.s.brcbs
  {
    || (step.Whole? && step.step.Leave? && f.s.brcbs[rcb].subscriber == Some(step.step.c))
    || (step.Go? && step.c in f.writes && f.writes[step.c].rcb == rcb && f.writes[step.c].field == RptEna
        && f.writes[step.c].stage == ToSet)
  }

  /** Every value read before a binding still stands. */
  predicate ReadsStand(f: Fine)
    requires AllComplete(f.s.brcbs)
  {
    forall c :: c in f.writes && f.writes[c].stage.ToBind? && f.writes[c].rcb in f.s.brcbs ==>
      f.writes[c].stage.enabled == Enabled(f.s.brcbs[f.writes[c].rcb])
  }

  lemma UndisturbedEnabled(f: Fine, step: FineStep, rcb: Text)
    requires FineSound(f) && rcb in f.s.brcbs && !Disturbs(f, step, rcb)
    ensures rcb in FineNext(f, step).s.brcbs && Enabled(FineNext(f, step).s.brcbs[rcb]) == Enabled(f.s.brcbs[rcb])
  {
    hide Next;
    hide ConnsSound;
    hide GIPending;
    hide SubscribersLive;
    if CanFine(f, step) {
      match step
      case Whole(w) => LockedStepEnabled(f.s, w, rcb);
      case Begin(c, r, field, v) =>
      case Go(c) => AdvancedComplete(f, c);
    }
  }

  lemma LockedStepEnabled(s: State, step: Step, rcb: Text)
    requires AllComplete(s.brcbs) && !step.Write? && rcb in s.brcbs
    requires step.Leave? ==> s.brcbs[rcb].subscriber != Some(step.c)
    ensures rcb in Next(s, step).brcbs && Enabled(Next(s, step).brcbs[rcb]) == Enabled(s.brcbs[rcb])
  {
    if step.Leave? {
    } else {
      NextKeeps(s, step);
    }
  }

  lemma QuietKeepsReads(f: Fine, step: FineStep)
    requires FineSound(f) && ReadsStand(f) && !Intrudes(f, step)
    ensures ReadsStand(FineNext(f, step))
  {
    hide FineSound;
    hide Disturbs;
    hide Enabled;
    FineComplete(f);
    var g := FineNext(f, step);
    forall c | c in g.writes && g.writes[c].stage.ToBind? && g.writes[c].rcb in g.s.brcbs
      ensures g.writes[c].stage.enabled == Enabled(g.s.brcbs[g.writes[c].rcb])
    {
      BindersBefore(f, step, c);
      if c in f.writes && f.writes[c] == g.writes[c] {
        UndisturbedEnabled(f, step, f.writes[c].rcb);
      }
    }
  }

  /** Who is about to bind after a step was so before, or has just read. */
  lemma BindersBefore(f: Fine, step: FineStep, c: ConnID)
    requires FineSound(f) && c in FineNext(f, step).writes && FineNext(f, step).writes[c].stage.ToBind?
    ensures c in f.writes && f.writes[c].rcb in f.s.brcbs && f.writes[c].rcb == FineNext(f, step).writes[c].rcb
    ensures f.writes[c] == FineNext(f, step).writes[c]
         || (step == Go(c) && FineNext(f, step).s == f.s
             && FineNext(f, step).writes[c].stage.enabled == Enabled(f.s.brcbs[f.writes[c].rcb]))
  {
    hide Next;
    hide ConnsSound;
    hide GIPending;
    hide SubscribersLive;
    hide Set;
  }

  lemma {:induction false} QuietUpTo(f: Fine, steps: seq<FineStep>, k: nat)
    requires FineSound(f) && ReadsStand(f) && k <= |steps|
    requires forall i :: 0 <= i < k ==> !Intrudes(AfterSteps(f, steps, i), steps[i])
    ensures ReadsStand(AfterSteps(f, steps, k))
  {
    hide FineSound;
    hide ReadsStand;
    hide Intrudes;
    hide FineNext;
    FineComplete(f);
    if k > 0 {
      QuietUpTo(f, steps, k - 1);
      SoundAfter(f, steps, k - 1);
      QuietKeepsReads(AfterSteps(f, steps, k - 1), steps[k - 1]);
      AfterOneMore(f, steps, k - 1);
    } else {
      assert steps[..0] == [];
    }
  }

  /** A schedule without intrusions keeps subscriber and RptEna in agreement at every point. */
  lemma QuietScheduleSettles(f: Fine, steps: seq<FineStep>)
    requires FineSound(f) && Settled(f) && ReadsStand(f)
    requires forall k :: 0 <= k < |steps| ==> !Intrudes(AfterSteps(f, steps, k), steps[k])
    ensures forall k :: 0 <= k <= |steps| ==> Settled(AfterSteps(f, steps, k))
  {
    hide FineSound;
    hide Settled;
    hide Intrudes;
    hide FineNext;
    hide AfterSteps;
    hide ReadsStand;
    FineComplete(f);
    forall k | 0 <= k < |steps| ensures BindsTrue(AfterSteps(f, steps, k), steps[k]) {
      QuietUpTo(f, steps, k);
      StandingReadBinds(AfterSteps(f, steps, k), steps[k]);
    }
    RunSettledExactly(f, steps);
  }

  lemma StandingReadBinds(f: Fine, step: FineStep)
    requires AllComplete(f.s.brcbs) && ReadsStand(f)
    ensures BindsTrue(f, step)
  {
    hide OtherBinding;
  }

  lemma BeginSettles(f: Fine, c: ConnID, w: InFlight)
    requires AllComplete(f.s.brcbs) && Settled(f) && c !in f.writes
    ensures Settled(Fine(f.s, f.writes[c := w]))
  {
    hide Agrees;
    var g := Fine(f.s, f.writes[c := w]);
    forall name | name in g.s.brcbs ensures Agrees(g.s.brcbs[name]) || Binding(g, name) {
      if Binding(f, name) {
        var d :| d in f.writes && f.writes[d].rcb == name && (f.writes[d].stage == ToTest || f.writes[d].stage.ToBind?);
        assert d in g.writes && g.writes[d] == f.writes[d];
      }
    }
  }
}
