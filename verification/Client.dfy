/** The client's outstanding calls: drawing invoke IDs, registering, dispatching replies, giving up. */
module Client {
  import opened Bytes
  import opened BerIntegers
  import opened MmsPdus

  /** How sendAndReceive ends. */
  datatype Outcome = Answered(data: View) | ReadFailed | SendFailed | TimedOut | Closed

  /** An ID was drawn; the call is registered; it has its outcome but is still registered; it is over. */
  datatype Phase = Fresh | Waiting | Leaving(outcome: Outcome) | Over(outcome: Outcome)

  /** outstandingCall, with the contents of its two one-element channels. */
  datatype Call = Call(id: uint32, phase: Phase, response: Option<View>, failure: bool) {
    predicate InFlight() {
      phase == Waiting || phase.Leaving?
    }
  }

  /** readLoop: between PDUs, between finding a call and handing it the PDU, or gone. */
  datatype Reader = Idle | Holding(k: nat, data: View) | Gone

  datatype State = State(
    up: bool, invokeIDSeq: uint32, pending: map<uint32, nat>, calls: seq<Call>, reader: Reader)

  const NEW_STATE := State(true, 0, map[], [], Idle)

  /** The invoke ID of a confirmed PDU, as dispatchConfirmedResponse finds it. */
  function IDOf(data: View): Result<uint32> {
    if data.seen == [] then Err
    else if data.seen[0] == TAG_CONFIRMED_ERROR then
      var e :- ParseConfirmedError(data);
      Ok(e.0)
    else
      var r :- ParseConfirmed(TAG_CONFIRMED_RESPONSE, data);
      Ok(r.invokeID)
  }

  function Updated(s: State, k: nat, call: Call): State
    requires k < |s.calls|
  {
    s.(calls := s.calls[k := call])
  }

  /** nextInvokeID. */
  function Drawn(s: State): State {
    var id := (s.invokeIDSeq as int + 1) % 0x1_0000_0000;
    s.(invokeIDSeq := id, calls := s.calls + [Call(id, Fresh, None, false)])
  }

  function Registered(s: State, k: nat): State
    requires k < |s.calls|
  {
    Updated(s, k, s.calls[k].(phase := Waiting)).(pending := s.pending[s.calls[k].id := k])
  }

  /** The select of sendAndReceive takes one of the cases that are ready. */
  function Settled(s: State, k: nat, outcome: Outcome): State
    requires k < |s.calls|
  {
    var call := s.calls[k].(phase := Leaving(outcome));
    match outcome
    case Answered(_) => Updated(s, k, call.(response := None))
    case ReadFailed => Updated(s, k, call.(failure := false))
    case _ => Updated(s, k, call)
  }

  predicate Ready(call: Call, outcome: Outcome) {
    match outcome
    case Answered(data) => call.response == Some(data)
    case ReadFailed => call.failure
    case _ => true
  }

  function Unregistered(s: State, k: nat): State
    requires k < |s.calls| && s.calls[k].phase.Leaving?
  {
    var call := s.calls[k];
    Updated(s, k, call.(phase := Over(call.phase.outcome))).(pending := s.pending - {call.id})
  }

  /** The lookup of dispatchConfirmedResponse; slicing past the capacity of the received slice panics. */
  function LookedUp(s: State, data: View): State {
    match IDOf(data)
    case Err => s
    case Panic => s.(up := false)
    case Ok(id) => if id in s.pending then s.(reader := Holding(s.pending[id], data)) else s
  }

  /** The hand-over: dropped when the channel is full. */
  function HandedOver(s: State): State
    requires s.reader.Holding? && s.reader.k < |s.calls|
  {
    var call := s.calls[s.reader.k];
    (if call.response.None? then Updated(s, s.reader.k, call.(response := Some(s.reader.data))) else s).(reader := Idle)
  }

  /** Which calls the failure path reaches. */
  ghost predicate Reached(pending: map<uint32, nat>, k: nat) {
    exists id :: id in pending && pending[id] == k
  }

  ghost function Failed(s: State): State {
    s.(calls := seq(|s.calls|, k requires 0 <= k < |s.calls| =>
                  if Reached(s.pending, k) then s.calls[k].(failure := true) else s.calls[k]),
       reader := Gone)
  }

  class IedConnection {
    var up: bool
    var invokeIDSeq: uint32
    var pending: map<uint32, nat>
    var calls: seq<Call>
    var reader: Reader

    constructor ()
      ensures Now() == NEW_STATE
    {
      up, invokeIDSeq, pending, calls, reader := true, 0, map[], [], Idle;
    }

    function Now(): State
      reads this
    {
      State(up, invokeIDSeq, pending, calls, reader)
    }

    method NextInvokeID() returns (k: nat)
      modifies this
      ensures Now() == Drawn(old(Now())) && k == |old(calls)|
    {
      k := |calls|;
      invokeIDSeq := (invokeIDSeq as int + 1) % 0x1_0000_0000;
      calls := calls + [Call(invokeIDSeq, Fresh, None, false)];
    }

    /** The first locked section of sendAndReceive. */
    method Register(k: nat)
      requires k < |calls|
      modifies this
      ensures Now() == Registered(old(Now()), k)
    {
      calls := calls[k := calls[k].(phase := Waiting)];
      pending := pending[calls[k].id := k];
    }

    /** The deferred locked section of sendAndReceive. */
    method Unregister(k: nat)
      requires k < |calls| && calls[k].phase.Leaving?
      modifies this
      ensures Now() == Unregistered(old(Now()), k)
    {
      calls := calls[k := calls[k].(phase := Over(calls[k].phase.outcome))];
      pending := pending - {calls[k].id};
    }

    /** dispatchConfirmedResponse without interruption. */
    method DispatchConfirmedResponse(data: View)
      requires reader.Idle? && forall id :: id in pending ==> pending[id] < |calls|
      modifies this
      ensures var s := LookedUp(old(Now()), data);
              Now() == if s.reader.Holding? then HandedOver(s) else s
    {
      var id := IDOf(data);
      if id.Panic? {
        up := false;
        return;
      }
      if id.Err? || id.value !in pending {
        return;
      }
      var k := pending[id.value];
      if calls[k].response.None? {
        calls := calls[k := calls[k].(response := Some(data))];
      }
    }

    /** The failure path of readLoop; the iteration over the pending calls runs in any order. */
    method FailPending()
      requires forall id :: id in pending ==> pending[id] < |calls|
      modifies this
      ensures Now() == Failed(old(Now()))
    {
      ghost var s := Now();
      var left := pending.Keys;
      while left != {}
        invariant left <= pending.Keys && |calls| == |s.calls| && Now() == s.(calls := calls)
        invariant forall k :: 0 <= k < |calls| ==>
                    calls[k] == if exists id :: id in pending && id !in left && pending[id] == k
                                then s.calls[k].(failure := true) else s.calls[k]
        decreases |left|
      {
        var id :| id in left;
        left := left - {id};
        var k := pending[id];
        calls := calls[k := calls[k].(failure := true)];
      }
      reader := Gone;
      assert calls == Failed(s).calls;
    }
  }
}
