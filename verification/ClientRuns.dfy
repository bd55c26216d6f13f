/** Every interleaving of calls, replies, failures and timeouts: who gets which reply. */
module ClientRuns {
  import opened Bytes
  import opened BerIntegers
  import opened MmsPdus
  import opened MmsPduRoundTrip
  import opened Client

  datatype Step =
    | Draw
    | Register(k: nat)
    | Settle(k: nat, outcome: Outcome)
    | Unregister(k: nat)
    | LookUp(data: View)
    | HandOver
    | Fail

  predicate CanStep(s: State, step: Step) {
    s.up &&
    match step
    case Draw => true
    case Register(k) => k < |s.calls| && s.calls[k].phase == Fresh
    case Settle(k, outcome) => k < |s.calls| && s.calls[k].phase == Waiting && Ready(s.calls[k], outcome)
    case Unregister(k) => k < |s.calls| && s.calls[k].phase.Leaving?
    case LookUp(_) => s.reader == Idle
    case HandOver => s.reader.Holding? && s.reader.k < |s.calls|
    case Fail => s.reader == Idle
  }

  ghost function Next(s: State, step: Step): State {
    if !CanStep(s, step) then s
    else
      match step
      case Draw => Drawn(s)
      case Register(k) => Registered(s, k)
      case Settle(k, outcome) => Settled(s, k, outcome)
      case Unregister(k) => Unregistered(s, k)
      case LookUp(data) => LookedUp(s, data)
      case HandOver => HandedOver(s)
      case Fail => Failed(s)
  }

  ghost function Run(s: State, steps: seq<Step>): State {
    if steps == [] then s else Next(Run(s, steps[..|steps| - 1]), steps[|steps| - 1])
  }

  // ---- The invariant ----

  /** The PDU carries this ID. */
  predicate Carries(data: View, id: uint32) {
    IDOf(data) == Ok(id)
  }

  predicate Ended(call: Call) {
    call.phase.Leaving? || call.phase.Over?
  }

  /** What a call holds or has returned carries its own ID. */
  predicate OwnReplies(call: Call) {
    && (call.response.Some? ==> Carries(call.response.value, call.id))
    && (Ended(call) && call.phase.outcome.Answered? ==> Carries(call.phase.outcome.data, call.id))
  }

  predicate AllOwn(calls: seq<Call>) {
    forall k :: 0 <= k < |calls| ==> OwnReplies(calls[k])
  }

  /** The pending map holds the calls in flight, each under its ID, and nothing else. */
  predicate PendingExact(pending: map<uint32, nat>, calls: seq<Call>) {
    && (forall id :: id in pending ==> pending[id] < |calls| && calls[pending[id]].InFlight() && calls[pending[id]].id == id)
    && (forall k :: 0 <= k < |calls| && calls[k].InFlight() ==> calls[k].id in pending && pending[calls[k].id] == k)
  }

  predicate ReaderOwn(s: State) {
    s.reader.Holding? ==> s.reader.k < |s.calls| && Carries(s.reader.data, s.calls[s.reader.k].id)
  }

  predicate Matched(s: State) {
    PendingExact(s.pending, s.calls) && AllOwn(s.calls) && ReaderOwn(s)
  }

  /** No call in flight has the ID of a call about to register. */
  predicate NoCollision(s: State, step: Step) {
    step.Register? && step.k < |s.calls| && s.calls[step.k].phase == Fresh ==> s.calls[step.k].id !in s.pending
  }

  lemma RegisterMatched(s: State, k: nat)
    requires Matched(s) && k < |s.calls| && s.calls[k].phase == Fresh && s.calls[k].id !in s.pending
    ensures Matched(Registered(s, k))
  {
    hide Carries;
    var s' := Registered(s, k);
    assert OwnReplies(s.calls[k]);
    forall j | 0 <= j < |s'.calls| && s'.calls[j].InFlight()
      ensures s'.calls[j].id in s'.pending && s'.pending[s'.calls[j].id] == j
    {
      assert j != k ==> s.calls[j].InFlight() && s.calls[j].id != s.calls[k].id;
    }
  }

  lemma SettleMatched(s: State, k: nat, outcome: Outcome)
    requires Matched(s) && k < |s.calls| && s.calls[k].phase == Waiting && Ready(s.calls[k], outcome)
    ensures Matched(Settled(s, k, outcome))
  {
    hide Carries;
    assert OwnReplies(s.calls[k]);
    UpdateMatched(s, k, Settled(s, k, outcome).calls[k]);
  }

  /** Changing a call without moving it in or out of flight. */
  lemma UpdateMatched(s: State, k: nat, call: Call)
    requires Matched(s) && k < |s.calls| && OwnReplies(call)
    requires call.id == s.calls[k].id && call.InFlight() == s.calls[k].InFlight()
    ensures Matched(Updated(s, k, call))
  {
    hide Carries;
    hide OwnReplies;
    var s' := Updated(s, k, call);
    forall j | 0 <= j < |s'.calls| && s'.calls[j].InFlight()
      ensures s'.calls[j].id in s'.pending && s'.pending[s'.calls[j].id] == j
    {
      assert s.calls[j].InFlight();
    }
  }

  lemma UnregisterMatched(s: State, k: nat)
    requires Matched(s) && k < |s.calls| && s.calls[k].phase.Leaving?
    ensures Matched(Unregistered(s, k))
  {
    hide Carries;
    var s' := Unregistered(s, k);
    assert OwnReplies(s.calls[k]);
    forall j | 0 <= j < |s'.calls| && s'.calls[j].InFlight()
      ensures s'.calls[j].id in s'.pending && s'.pending[s'.calls[j].id] == j
    {
      assert j != k && s.calls[j].InFlight() && s.calls[k].InFlight();
    }
  }

  lemma FailMatched(s: State)
    requires Matched(s)
    ensures Matched(Failed(s))
  {
    hide Carries;
    hide Reached;
    var s' := Failed(s);
    forall k | 0 <= k < |s'.calls|
      ensures OwnReplies(s'.calls[k]) && s'.calls[k].id == s.calls[k].id && s'.calls[k].InFlight() == s.calls[k].InFlight()
    {
      assert OwnReplies(s.calls[k]);
    }
  }

  lemma StepMatched(s: State, step: Step)
    requires Matched(s) && NoCollision(s, step)
    ensures Matched(Next(s, step))
  {
    hide Carries;
    if CanStep(s, step) {
      match step
      case Draw =>
        DrawMatched(s);
      case Register(k) => RegisterMatched(s, k);
      case Settle(k, outcome) => SettleMatched(s, k, outcome);
      case Unregister(k) => UnregisterMatched(s, k);
      case LookUp(data) => LookUpMatched(s, data);
      case HandOver => HandOverMatched(s);
      case Fail => FailMatched(s);
    }
  }

  lemma DrawMatched(s: State)
    requires Matched(s)
    ensures Matched(Drawn(s))
  {
    hide Carries;
    var s' := Drawn(s);
    forall k | 0 <= k < |s'.calls| ensures OwnReplies(s'.calls[k]) {
      assert k < |s.calls| ==> OwnReplies(s.calls[k]);
    }
  }

  lemma LookUpMatched(s: State, data: View)
    requires Matched(s)
    ensures Matched(LookedUp(s, data))
  {
    hide IDOf;
  }

  lemma HandOverMatched(s: State)
    requires Matched(s) && s.reader.Holding? && s.reader.k < |s.calls|
    ensures Matched(HandedOver(s))
  {
    hide Carries;
    var call := s.calls[s.reader.k];
    assert OwnReplies(call);
    UpdateMatched(s, s.reader.k, call.(response := Some(s.reader.data)));
  }

  // ---- Fewer than 2^32 calls never collide ----

  /** Calls are numbered in the order they are drawn. */
  predicate Counted(s: State) {
    && s.invokeIDSeq == |s.calls| % 0x1_0000_0000
    && forall k :: 0 <= k < |s.calls| ==> s.calls[k].id == (k + 1) % 0x1_0000_0000
  }

  lemma StepCounted(s: State, step: Step)
    requires Counted(s)
    ensures Counted(Next(s, step)) && |Next(s, step).calls| >= |s.calls|
  {
    hide IDOf;
    hide Reached;
    if CanStep(s, step) && step.Draw? {
      SuccessorID(|s.calls|);
    }
  }

  lemma SuccessorID(n: nat)
    ensures (n % 0x1_0000_0000 + 1) % 0x1_0000_0000 == (n + 1) % 0x1_0000_0000
  {
  }

  lemma CountedNoCollision(s: State, step: Step)
    requires Matched(s) && Counted(s) && |s.calls| <= 0x1_0000_0000
    ensures NoCollision(s, step)
  {
    hide AllOwn;
    hide ReaderOwn;
    if step.Register? && step.k < |s.calls| && s.calls[step.k].phase == Fresh && s.calls[step.k].id in s.pending {
      var j := s.pending[s.calls[step.k].id];
      DistinctIDs(j, step.k);
    }
  }

  lemma DistinctIDs(j: nat, k: nat)
    requires j < 0x1_0000_0000 && k < 0x1_0000_0000 && j != k
    ensures (j + 1) % 0x1_0000_0000 != (k + 1) % 0x1_0000_0000
  {
  }

  /**
   * Over every interleaving of up to 2^32 calls: the pending map holds exactly the calls in flight, and every
   * reply that a call holds or has returned carries that call's own ID.
   */
  lemma {:induction false} RunMatched(steps: seq<Step>)
    requires |Run(NEW_STATE, steps).calls| <= 0x1_0000_0000
    ensures Matched(Run(NEW_STATE, steps)) && Counted(Run(NEW_STATE, steps))
    decreases |steps|
  {
    hide Matched;
    hide Counted;
    hide Next;
    if steps == [] {
      NewMatched();
    } else {
      var init, step := steps[..|steps| - 1], steps[|steps| - 1];
      RunCounted(init);
      StepCounted(Run(NEW_STATE, init), step);
      RunMatched(init);
      CountedNoCollision(Run(NEW_STATE, init), step);
      StepMatched(Run(NEW_STATE, init), step);
    }
  }

  lemma NewMatched()
    ensures Matched(NEW_STATE) && Counted(NEW_STATE)
  {
  }

  lemma {:induction false} RunCounted(steps: seq<Step>)
    ensures Counted(Run(NEW_STATE, steps))
    decreases |steps|
  {
    hide Counted;
    hide Next;
    if steps == [] {
      NewMatched();
    } else {
      RunCounted(steps[..|steps| - 1]);
      StepCounted(Run(NEW_STATE, steps[..|steps| - 1]), steps[|steps| - 1]);
    }
  }

  /**
   * Beyond that, reuse does harm exactly when it happens: registering keeps the map exact if and only if
   * no call in flight has the same ID.
   */
  lemma RegisterExactly(s: State, k: nat)
    requires Matched(s) && k < |s.calls| && s.calls[k].phase == Fresh
    ensures Matched(Registered(s, k)) <==> s.calls[k].id !in s.pending
  {
    hide AllOwn;
    hide ReaderOwn;
    if s.calls[k].id in s.pending {
      var j := s.pending[s.calls[k].id];
      assert Registered(s, k).calls[j].InFlight() && Registered(s, k).pending[s.calls[j].id] == k != j;
    } else {
      RegisterMatched(s, k);
    }
  }

  // ---- Each call ends once ----

  lemma StepKeepsOutcome(s: State, step: Step, k: nat)
    requires k < |s.calls| && Ended(s.calls[k])
    ensures k < |Next(s, step).calls| && Ended(Next(s, step).calls[k])
    ensures Next(s, step).calls[k].phase.outcome == s.calls[k].phase.outcome
  {
    hide IDOf;
    hide Reached;
  }

  /** Whatever arrives later, a call that has ended keeps its outcome: it receives at most one reply. */
  lemma {:induction false} OutcomeStays(s: State, steps: seq<Step>, k: nat)
    requires k < |s.calls| && Ended(s.calls[k])
    ensures k < |Run(s, steps).calls| && Ended(Run(s, steps).calls[k])
    ensures Run(s, steps).calls[k].phase.outcome == s.calls[k].phase.outcome
    decreases |steps|
  {
    hide Next;
    if steps != [] {
      OutcomeStays(s, steps[..|steps| - 1], k);
      StepKeepsOutcome(Run(s, steps[..|steps| - 1]), steps[|steps| - 1], k);
    }
  }

  /** A reply to a call that is over changes nothing. */
  lemma LateReplyDropped(steps: seq<Step>, k: nat, data: View)
    requires |Run(NEW_STATE, steps).calls| <= 0x1_0000_0000
    requires k < |Run(NEW_STATE, steps).calls| && Run(NEW_STATE, steps).calls[k].phase.Over?
    requires Carries(data, Run(NEW_STATE, steps).calls[k].id)
    ensures Next(Run(NEW_STATE, steps), LookUp(data)) == Run(NEW_STATE, steps)
  {
    hide Run;
    hide IDOf;
    hide AllOwn;
    hide ReaderOwn;
    var s := Run(NEW_STATE, steps);
    RunMatched(steps);
    if s.calls[k].id in s.pending {
      var j := s.pending[s.calls[k].id];
      DistinctIDs(j, k);
    }
  }

  /** A reply that arrives while its call waits with an empty channel is what the call then returns. */
  lemma ReplyDelivered(s: State, k: nat, data: View)
    requires Matched(s) && s.up && s.reader == Idle && k < |s.calls| && s.calls[k].phase == Waiting
    requires s.calls[k].response.None? && Carries(data, s.calls[k].id)
    ensures var s' := Next(Next(Next(s, LookUp(data)), HandOver), Settle(k, Answered(data)));
            k < |s'.calls| && s'.calls[k] == s.calls[k].(phase := Leaving(Answered(data))) && s'.reader == Idle
  {
    hide IDOf;
    hide AllOwn;
    hide ReaderOwn;
    assert s.calls[k].InFlight();
    var s1 := Next(s, LookUp(data));
    assert s1 == s.(reader := Holding(k, data));
    var s2 := Next(s1, HandOver);
    assert s2 == Updated(s, k, s.calls[k].(response := Some(data)));
  }

  /** The call still waits with this reply in its channel, or has ended, with this reply if with any. */
  predicate Keeps(s: State, k: nat, data: View) {
    && k < |s.calls|
    && var call := s.calls[k];
    if call.phase == Waiting then call.response == Some(data)
    else Ended(call) && (call.phase.outcome.Answered? ==> call.phase.outcome.data == data)
  }

  lemma StepKeeps(s: State, step: Step, k: nat, data: View)
    requires Keeps(s, k, data)
    ensures Keeps(Next(s, step), k, data)
  {
    hide IDOf;
    hide Reached;
  }

  /** Of several replies with its ID the first to be handed over counts: in any further run a call returns no other. */
  lemma {:induction false} FirstReplyKept(s: State, steps: seq<Step>, k: nat, data: View)
    requires k < |s.calls| && s.calls[k].phase == Waiting && s.calls[k].response == Some(data)
    ensures var f := Run(s, steps);
            && k < |f.calls|
            && (f.calls[k].phase == Waiting ==> f.calls[k].response == Some(data))
            && (f.calls[k].phase != Waiting ==> Ended(f.calls[k]))
            && (Ended(f.calls[k]) && f.calls[k].phase.outcome.Answered? ==> f.calls[k].phase.outcome == Answered(data))
  {
    hide Run;
    KeptOver(s, steps, k, data);
  }

  lemma {:induction false} KeptOver(s: State, steps: seq<Step>, k: nat, data: View)
    requires Keeps(s, k, data)
    ensures Keeps(Run(s, steps), k, data)
    decreases |steps|
  {
    hide Next;
    hide Keeps;
    if steps != [] {
      KeptOver(s, steps[..|steps| - 1], k, data);
      StepKeeps(Run(s, steps[..|steps| - 1]), steps[|steps| - 1], k, data);
    }
  }

  /** When reading fails, exactly the calls in flight are told. */
  lemma FailureReachesInFlight(s: State, k: nat)
    requires Matched(s) && s.up && s.reader == Idle && k < |s.calls| && !s.calls[k].failure
    ensures |Next(s, Fail).calls| == |s.calls| && (Next(s, Fail).calls[k].failure <==> s.calls[k].InFlight())
  {
    hide AllOwn;
    hide ReaderOwn;
    if s.calls[k].InFlight() {
      assert s.calls[k].id in s.pending && s.pending[s.calls[k].id] == k;
    }
  }

  // ---- After the reader is gone ----

  /** A call that nothing can reach any more. */
  predicate Stranded(s: State, k: nat) {
    s.reader == Gone && k < |s.calls| && s.calls[k].response.None? && !s.calls[k].failure
    && (Ended(s.calls[k]) ==> !s.calls[k].phase.outcome.Answered? && !s.calls[k].phase.outcome.ReadFailed?)
  }

  lemma StepStrands(s: State, step: Step, k: nat)
    requires Stranded(s, k)
    ensures Stranded(Next(s, step), k)
  {
    hide IDOf;
    hide Reached;
  }

  lemma {:induction false} StrandedStays(s: State, steps: seq<Step>, k: nat)
    requires Stranded(s, k)
    ensures Stranded(Run(s, steps), k)
    decreases |steps|
  {
    hide Next;
    hide Stranded;
    if steps != [] {
      StrandedStays(s, steps[..|steps| - 1], k);
      StepStrands(Run(s, steps[..|steps| - 1]), steps[|steps| - 1], k);
    }
  }

  /** How a call ends that nobody can reach. */
  predicate GivenUp(outcome: Outcome) {
    outcome == SendFailed || outcome == TimedOut || outcome == Closed
  }

  /**
   * A call drawn after the read loop has ended: in every further run, whoever else calls, it holds neither a reply
   * nor a failure mark, and if it ends at all it ends by a send error, its timeout or the closing of the connection.
   */
  lemma LateCallStranded(s: State, steps: seq<Step>)
    requires s.up && s.reader == Gone
    ensures var f, k := Run(Next(s, Draw), steps), |s.calls|;
            && k < |f.calls| && f.calls[k].response.None? && !f.calls[k].failure
            && (Ended(f.calls[k]) ==> GivenUp(f.calls[k].phase.outcome))
  {
    hide Run;
    StrandedStays(Next(s, Draw), steps, |s.calls|);
  }

  /**
   * Registering such a call does put it into the pending map, where no one looks any more: it stays there, in every
   * run of up to 2^32 calls, exactly until its caller has given up and unregistered it.
   */
  lemma LateCallPending(before: seq<Step>, after: seq<Step>)
    requires Run(NEW_STATE, before).up && Run(NEW_STATE, before).reader == Gone
    requires |Run(NEW_STATE, before + [Draw] + after).calls| <= 0x1_0000_0000
    ensures var f, k := Run(NEW_STATE, before + [Draw] + after), |Run(NEW_STATE, before).calls|;
            && k < |f.calls|
            && (f.calls[k].InFlight() <==> f.calls[k].id in f.pending && f.pending[f.calls[k].id] == k)
            && (Ended(f.calls[k]) ==> GivenUp(f.calls[k].phase.outcome))
  {
    hide Run;
    hide Next;
    hide AllOwn;
    hide ReaderOwn;
    var s := Run(NEW_STATE, before);
    RunOne(NEW_STATE, before, Draw);
    RunConcat(NEW_STATE, before + [Draw], after);
    LateCallStranded(s, after);
    RunMatched(before + [Draw] + after);
  }

  lemma RunOne(s: State, steps: seq<Step>, step: Step)
    ensures Run(s, steps + [step]) == Next(Run(s, steps), step)
  {
    hide Next;
    assert (steps + [step])[..|steps|] == steps;
  }

  lemma {:induction false} RunConcat(s: State, a: seq<Step>, b: seq<Step>)
    ensures Run(s, a + b) == Run(Run(s, a), b)
    decreases |b|
  {
    hide Next;
    if b == [] {
      assert a + b == a;
    } else {
      var init := b[..|b| - 1];
      RunConcat(s, a, init);
      assert (a + b)[..|a + b| - 1] == a + init;
    }
  }

  /** It happens: the read loop fails on a new connection, and the first call registers behind it. */
  lemma LateCallReachable()
    ensures var f := Run(NEW_STATE, [Fail, Draw, Register(0)]);
            && f.reader == Gone && |f.calls| == 1 && f.calls[0].phase == Waiting
            && f.pending == map[1 := 0] && Stranded(f, 0)
  {
    hide Next;
    RunOne(NEW_STATE, [], Fail);
    assert [] + [Fail] == [Fail];
    RunOne(NEW_STATE, [Fail], Draw);
    assert [Fail] + [Draw] == [Fail, Draw];
    RunOne(NEW_STATE, [Fail, Draw], Register(0));
    assert [Fail, Draw] + [Register(0)] == [Fail, Draw, Register(0)];
    FirstThree();
  }

  lemma FirstThree()
    ensures Next(Next(Next(NEW_STATE, Fail), Draw), Register(0))
         == State(true, 1, map[1 := 0], [Call(1, Waiting, None, false)], Gone)
  {
    var failed := Next(NEW_STATE, Fail);
    assert failed.calls == [];
    assert failed == NEW_STATE.(reader := Gone);
    var drawn := Next(failed, Draw);
    assert drawn == State(true, 1, map[], [Call(1, Fresh, None, false)], Gone);
  }

  // ---- The ID survives request, response and error ----

  lemma LeadingOctet(tag: byte, content: bytes)
    ensures MmsValues.Prim(tag, content)[0] == tag
  {
  }

  /** A positive response carries the invoke ID it was built with, whatever the service and its content. */
  lemma ResponseCarriesID(id: uint32, svc: nat, content: bytes, beyond: bytes)
    requires svc < 31 && |content| < LIMIT - 20
    ensures Carries(View(Confirmed(TAG_CONFIRMED_RESPONSE, id, Service(svc, content)), beyond), id)
  {
    hide ParseConfirmed;
    hide ParseConfirmedError;
    hide MmsValues.Prim;
    ConfirmedRoundTrip(TAG_CONFIRMED_RESPONSE, id, svc, content, beyond);
    LeadingOctet(TAG_CONFIRMED_RESPONSE, UniversalTLV(2, false, TwosComplement(id)) + Service(svc, content));
  }

  /** So does an error response, whatever the error. */
  lemma ErrorCarriesID(id: uint32, mmsErr: int, beyond: bytes)
    ensures Carries(View(BuildErrorResponse(id, mmsErr), beyond), id)
  {
    hide ParseConfirmed;
    hide ParseConfirmedError;
    hide MmsValues.Prim;
    ErrorRoundTrip(id, mmsErr, beyond);
    var (classTag, code) := ErrorClass(mmsErr);
    LeadingOctet(TAG_CONFIRMED_ERROR, Ber.ContextTLV(0, false, TwosComplement(id))
                                    + Ber.ContextTLV(2, true, Ber.ContextTLV(0, true, [classTag, 0x01, code])));
  }

  /**
   * A server that answers with the ID it read out of the request reaches the caller's own entry: the ID drawn for
   * the call comes back in the response and in the error.
   */
  lemma AnswerComesBack(id: uint32, svc: nat, request: bytes, response: bytes, mmsErr: int, beyond: bytes)
    requires svc < 31 && |request| < LIMIT - 20 && |response| < LIMIT - 20
    ensures var read := ParseConfirmed(
              TAG_CONFIRMED_REQUEST, View(Confirmed(TAG_CONFIRMED_REQUEST, id, Service(svc, request)), beyond));
            && read.Ok?
            && Carries(View(Confirmed(TAG_CONFIRMED_RESPONSE, read.value.invokeID, Service(svc, response)), beyond), id)
            && Carries(View(BuildErrorResponse(read.value.invokeID, mmsErr), beyond), id)
  {
    hide ParseConfirmed;
    hide BuildErrorResponse;
    hide Confirmed;
    hide IDOf;
    ConfirmedRoundTrip(TAG_CONFIRMED_REQUEST, id, svc, request, beyond);
    ResponseCarriesID(id, svc, response, beyond);
    ErrorCarriesID(id, mmsErr, beyond);
  }

  /**
   * A received PDU takes the client down if and only if it is a response or an error that claims more octets than the
   * slice it arrived in has capacity for.
   */
  lemma DispatchFaultsExactly(data: View)
    ensures IDOf(data).Panic?
       <==> && |data.seen| >= 2 && (data.seen[0] == TAG_CONFIRMED_RESPONSE || data.seen[0] == TAG_CONFIRMED_ERROR)
            && Overruns(data)
  {
    hide ParseConfirmed;
    hide ParseConfirmedError;
    hide Overruns;
    ConfirmedFaultsExactly(TAG_CONFIRMED_RESPONSE, data);
  }
}
