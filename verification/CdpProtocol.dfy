/**
 The CDP request/response transport as a state machine: any number of concurrent
 `send` calls, one reader task and a clock, interleaved at every point where the
 program can be suspended or takes the mutex.
 */
module CdpProtocol {
  import opened Base
  import opened Json
  import opened CdpEvents
  import opened CdpShared

  /** Ids come from an `AtomicU64`, which wraps. */
  const ID_SPACE: nat := U64_END

  /** The receiving end of a caller's oneshot channel. */
  datatype Slot = NoReply | Got(reply: Reply) | SenderLost

  datatype Outcome = Responded(reply: Reply) | ChannelDropped | WriteFailed | Expired

  /** Where one `send` future stands. */
  datatype Phase =
    | Fetched                       // has its id, not yet in `pending`
    | Registered                    // in `pending`, frame not yet written
    | Waiting                       // frame written, awaiting the reply under the timeout
    | TimedOut                      // timer fired, own registration not yet withdrawn
    | Done(outcome: Outcome, at: nat)

  /** `registeredAt` counts the messages seen before the insert; `written` is when the write completed. */
  datatype Call = Call(id: nat, phase: Phase, slot: Slot, registeredAt: nat, written: Option<nat>)

  datatype Reader = Running | Stopped | Drained

  datatype Source = FromMessage(index: nat) | FromDrain

  /** One value pushed into a pending sender. */
  datatype Delivery = Delivery(id: nat, caller: nat, reply: Reply, source: Source)

  /** `calls` is indexed by the order in which callers took their ids; `seen` and `log` are history. */
  datatype State = State(
    now: nat, nextId: nat, calls: seq<Call>, shared: SharedState,
    reader: Reader, seen: seq<Json>, log: seq<Delivery>)

  datatype Step =
    | TakeId
    | Register(t: nat)
    | WriteOk(t: nat)
    | WriteFail(t: nat)
    | Receive(t: nat)
    | Expire(t: nat)
    | Withdraw(t: nat)
    | Inbound(msg: Json)
    | Stop
    | Drain(order: seq<nat>)
    | Tick(d: nat)

  function Init(): State {
    State(0, 1, [], CdpShared.Empty(), Running, [], [])
  }

  predicate InPhase(s: State, t: nat, p: Phase) {
    t < |s.calls| && s.calls[t].phase == p
  }

  predicate Enabled(timeout: nat, s: State, step: Step) {
    match step
    case TakeId => true
    case Register(t) => InPhase(s, t, Fetched)
    case WriteOk(t) => InPhase(s, t, Registered)
    case WriteFail(t) => InPhase(s, t, Registered)
    case Receive(t) => InPhase(s, t, Waiting) && !s.calls[t].slot.NoReply?
    case Expire(t) =>
      // The channel is polled before the timer.
      && InPhase(s, t, Waiting) && s.calls[t].slot.NoReply?
      && s.calls[t].written.Some? && s.now >= s.calls[t].written.value + timeout
    case Withdraw(t) => InPhase(s, t, TimedOut)
    case Inbound(_) => s.reader == Running
    case Stop => s.reader == Running
    case Drain(order) =>
      s.reader == Stopped && NoDup(order) && (set id | id in order) == s.shared.pending.Keys
    case Tick(_) => true
  }

  /** Pushing into a sender whose channel is still empty fills it; any other push is lost. */
  function Deliver(calls: seq<Call>, t: nat, content: Slot): seq<Call> {
    if t < |calls| && calls[t].slot.NoReply? then calls[t := calls[t].(slot := content)] else calls
  }

  function DrainCalls(calls: seq<Call>, pending: map<nat, nat>): seq<Call> {
    seq(|calls|, t requires 0 <= t < |calls| =>
      if t in pending.Values && calls[t].slot.NoReply? then calls[t].(slot := Got(SocketClosed)) else calls[t])
  }

  function DrainLog(pending: map<nat, nat>, order: seq<nat>): seq<Delivery> {
    seq(|order|, k requires 0 <= k < |order| =>
      Delivery(order[k], if order[k] in pending then pending[order[k]] else 0, SocketClosed, FromDrain))
  }

  function Apply(timeout: nat, s: State, step: Step): State
    requires Enabled(timeout, s, step)
  {
    match step
    case TakeId =>
      s.(nextId := (s.nextId + 1) % ID_SPACE, calls := s.calls + [Call(s.nextId, Fetched, NoReply, 0, None)])
    case Register(t) =>
      var id := s.calls[t].id;
      // Inserting over an existing id drops the sender that was there.
      var kept := if id in s.shared.pending then Deliver(s.calls, s.shared.pending[id], SenderLost) else s.calls;
      s.(calls := kept[t := kept[t].(phase := Registered, registeredAt := |s.seen|)],
         shared := s.shared.(pending := s.shared.pending[id := t]))
    case WriteOk(t) => s.(calls := s.calls[t := s.calls[t].(phase := Waiting, written := Some(s.now))])
    case WriteFail(t) => s.(calls := s.calls[t := s.calls[t].(phase := Done(WriteFailed, s.now))])
    case Receive(t) =>
      var outcome := if s.calls[t].slot.Got? then Responded(s.calls[t].slot.reply) else ChannelDropped;
      s.(calls := s.calls[t := s.calls[t].(phase := Done(outcome, s.now))])
    case Expire(t) => s.(calls := s.calls[t := s.calls[t].(phase := TimedOut)])
    case Withdraw(t) =>
      s.(calls := s.calls[t := s.calls[t].(phase := Done(Expired, s.now))],
         shared := s.shared.(pending := s.shared.pending - {s.calls[t].id}))
    case Inbound(msg) =>
      var s' := s.(shared := Dispatched(s.shared, msg), seen := s.seen + [msg]);
      (match Target(s.shared, msg)
       case None => s'
       case Some(t) =>
         s'.(calls := Deliver(s.calls, t, Got(ReplyOf(msg))),
             log := s.log + [Delivery(MessageId(msg).value, t, ReplyOf(msg), FromMessage(|s.seen|))]))
    case Stop => s.(reader := Stopped)
    case Drain(order) =>
      s.(reader := Drained, calls := DrainCalls(s.calls, s.shared.pending),
         shared := s.shared.(pending := map[]), log := s.log + DrainLog(s.shared.pending, order))
    case Tick(d) => s.(now := s.now + d)
  }

  /** `steps` can be taken one after the other from the initial state. */
  ghost predicate Feasible(timeout: nat, steps: seq<Step>)
    decreases |steps|, 0
  {
    steps == [] ||
    var front := steps[..|steps| - 1];
    Feasible(timeout, front) && Enabled(timeout, Exec(timeout, front), steps[|steps| - 1])
  }

  /** The state reached by `steps`. */
  ghost function Exec(timeout: nat, steps: seq<Step>): State
    requires Feasible(timeout, steps)
    decreases |steps|, 1
  {
    if steps == [] then Init()
    else Apply(timeout, Exec(timeout, steps[..|steps| - 1]), steps[|steps| - 1])
  }

  // ----- the invariant -----

  /** Registered, and no sender has been consumed for it: exactly the calls `pending` should hold. */
  predicate InFlight(c: Call) {
    c.slot.NoReply? &&
    (c.phase.Registered? || c.phase.Waiting? || c.phase.TimedOut? || (c.phase.Done? && c.phase.outcome == WriteFailed))
  }

  ghost predicate IdsInv(s: State) {
    && s.nextId == (|s.calls| + 1) % ID_SPACE
    && forall t :: 0 <= t < |s.calls| ==> s.calls[t].id == (t + 1) % ID_SPACE
  }

  ghost predicate PendingInv(s: State) {
    && (forall id :: id in s.shared.pending ==>
         var t := s.shared.pending[id]; t < |s.calls| && s.calls[t].id == id && InFlight(s.calls[t]))
    && (forall t :: 0 <= t < |s.calls| && InFlight(s.calls[t]) ==>
         s.calls[t].id in s.shared.pending && s.shared.pending[s.calls[t].id] == t)
  }

  predicate CallOk(c: Call) {
    && !c.slot.SenderLost?
    && (c.phase.Fetched? ==> c.slot.NoReply?)
    && (c.phase.Done? && c.phase.outcome.Responded? ==> c.slot == Got(c.phase.outcome.reply))
    && (c.phase.Done? ==> !c.phase.outcome.ChannelDropped?)
    && (c.phase.Waiting? || c.phase.TimedOut? ==> c.written.Some?)
  }

  /** No message in `seen[from..to]` answers `id`. */
  predicate Unanswered(seen: seq<Json>, from: nat, to: nat, id: nat)
    requires to <= |seen|
  {
    forall j :: from <= j < to ==> MessageId(seen[j]) != Some(id)
  }

  ghost predicate CallsInv(s: State) {
    forall t {:trigger s.calls[t]} :: 0 <= t < |s.calls| ==>
      && CallOk(s.calls[t])
      && s.calls[t].registeredAt <= |s.seen|
      && (InFlight(s.calls[t]) ==> Unanswered(s.seen, s.calls[t].registeredAt, |s.seen|, s.calls[t].id))
  }

  /** A delivery came from the first message after registration that carries the caller's own id, or from the drain. */
  ghost predicate DeliveryOk(s: State, d: Delivery) {
    && d.caller < |s.calls|
    && s.calls[d.caller].id == d.id
    && s.calls[d.caller].slot == Got(d.reply)
    && match d.source
       case FromDrain =>
         && d.reply == SocketClosed && s.reader == Drained && s.calls[d.caller].registeredAt <= |s.seen|
         && Unanswered(s.seen, s.calls[d.caller].registeredAt, |s.seen|, d.id)
       case FromMessage(i) =>
         && s.calls[d.caller].registeredAt <= i < |s.seen|
         && MessageId(s.seen[i]) == Some(d.id) && d.reply == ReplyOf(s.seen[i])
         && Unanswered(s.seen, s.calls[d.caller].registeredAt, i, d.id)
  }

  /** Somebody pushed into the channel of caller `t`. */
  ghost predicate Logged(log: seq<Delivery>, t: nat) {
    exists k :: 0 <= k < |log| && log[k].caller == t
  }

  ghost predicate DistinctIds(log: seq<Delivery>) {
    forall i, j :: 0 <= i < j < |log| ==> log[i].id != log[j].id
  }

  ghost predicate LogInv(s: State) {
    && (forall d :: d in s.log ==> DeliveryOk(s, d))
    && DistinctIds(s.log)
    && (forall t :: 0 <= t < |s.calls| && s.calls[t].slot.Got? ==> Logged(s.log, t))
  }

  ghost predicate Inv(s: State) {
    IdsInv(s) && PendingInv(s) && CallsInv(s) && LogInv(s)
  }

  /** Up to 2^64 calls, ids are distinct. */
  lemma IdsDistinct(s: State, t: nat, u: nat)
    requires IdsInv(s) && |s.calls| <= ID_SPACE && t < |s.calls| && u < |s.calls|
    requires s.calls[t].id == s.calls[u].id
    ensures t == u
  {
  }

  // ----- every step keeps the invariant -----

  /** The log stays justified by any step that neither delivers nor consumes a channel. */
  lemma LogFrame(s: State, s': State)
    requires LogInv(s) && s'.log == s.log && s'.seen == s.seen
    requires s.reader == Drained ==> s'.reader == Drained
    requires |s.calls| <= |s'.calls|
    requires forall t {:trigger s'.calls[t]} :: 0 <= t < |s.calls| ==>
               s'.calls[t].id == s.calls[t].id && s'.calls[t].slot == s.calls[t].slot &&
               (s.calls[t].slot.Got? ==> s'.calls[t].registeredAt == s.calls[t].registeredAt)
    requires forall t :: |s.calls| <= t < |s'.calls| ==> s'.calls[t].slot.NoReply?
    ensures LogInv(s')
  {
    forall d | d in s.log ensures DeliveryOk(s', d) {
      assert DeliveryOk(s, d);
      assert s'.calls[d.caller].id == d.id;
    }
    forall t | 0 <= t < |s'.calls| && s'.calls[t].slot.Got? ensures Logged(s'.log, t) {
      assert s.calls[t].slot.Got?;
    }
  }

  lemma LoggedAlso(log: seq<Delivery>, more: seq<Delivery>, t: nat)
    requires Logged(log, t) || Logged(more, t)
    ensures Logged(log + more, t)
  {
    if Logged(log, t) {
      var k :| 0 <= k < |log| && log[k].caller == t;
      assert (log + more)[k].caller == t;
    } else {
      var k :| 0 <= k < |more| && more[k].caller == t;
      assert (log + more)[|log| + k].caller == t;
    }
  }

  /** A step that only moves one call along its own path, keeping its channel and registration. */
  lemma LocalStepInv(s: State, t: nat, c: Call)
    requires Inv(s) && t < |s.calls|
    requires c.id == s.calls[t].id && c.slot == s.calls[t].slot && c.registeredAt == s.calls[t].registeredAt
    requires InFlight(c) == InFlight(s.calls[t]) && CallOk(c)
    ensures Inv(s.(calls := s.calls[t := c]))
  {
    LogFrame(s, s.(calls := s.calls[t := c]));
  }

  lemma TakeIdInv(s: State)
    requires Inv(s) && |s.calls| < ID_SPACE
    ensures Inv(s.(nextId := (s.nextId + 1) % ID_SPACE, calls := s.calls + [Call(s.nextId, Fetched, NoReply, 0, None)]))
  {
    var s' := s.(nextId := (s.nextId + 1) % ID_SPACE, calls := s.calls + [Call(s.nextId, Fetched, NoReply, 0, None)]);
    LogFrame(s, s');
    assert forall t :: 0 <= t < |s.calls| ==> s'.calls[t] == s.calls[t];
  }

  /** A caller about to register has an id nobody else holds, so no sender is displaced. */
  lemma RegisterFresh(s: State, t: nat)
    requires IdsInv(s) && PendingInv(s) && |s.calls| <= ID_SPACE && InPhase(s, t, Fetched)
    ensures s.calls[t].id !in s.shared.pending
  {
    var id := s.calls[t].id;
    if id in s.shared.pending { IdsDistinct(s, s.shared.pending[id], t); }
  }

  lemma RegisterInv(s: State, t: nat)
    requires Inv(s) && |s.calls| <= ID_SPACE && InPhase(s, t, Fetched)
    ensures Inv(s.(calls := s.calls[t := s.calls[t].(phase := Registered, registeredAt := |s.seen|)],
                   shared := s.shared.(pending := s.shared.pending[s.calls[t].id := t])))
  {
    RegisterFresh(s, t);
    assert CallOk(s.calls[t]);
    LogFrame(s, s.(calls := s.calls[t := s.calls[t].(phase := Registered, registeredAt := |s.seen|)],
                   shared := s.shared.(pending := s.shared.pending[s.calls[t].id := t])));
  }

  /** Withdrawing its own id removes nobody else's registration. */
  lemma WithdrawPending(s: State, t: nat)
    requires IdsInv(s) && PendingInv(s) && |s.calls| <= ID_SPACE && InPhase(s, t, TimedOut)
    ensures PendingInv(s.(calls := s.calls[t := s.calls[t].(phase := Done(Expired, s.now))],
                          shared := s.shared.(pending := s.shared.pending - {s.calls[t].id})))
  {
    forall u | 0 <= u < |s.calls| && u != t ensures s.calls[u].id != s.calls[t].id {
      if s.calls[u].id == s.calls[t].id { IdsDistinct(s, t, u); }
    }
  }

  lemma WithdrawInv(s: State, t: nat)
    requires Inv(s) && |s.calls| <= ID_SPACE && InPhase(s, t, TimedOut)
    ensures Inv(s.(calls := s.calls[t := s.calls[t].(phase := Done(Expired, s.now))],
                   shared := s.shared.(pending := s.shared.pending - {s.calls[t].id})))
  {
    WithdrawPending(s, t);
    LogFrame(s, s.(calls := s.calls[t := s.calls[t].(phase := Done(Expired, s.now))],
                   shared := s.shared.(pending := s.shared.pending - {s.calls[t].id})));
  }

  /** A delivery logged earlier stays justified when messages and deliveries are appended. */
  lemma DeliveryKept(s: State, s': State, d: Delivery)
    requires DeliveryOk(s, d)
    requires |s'.seen| >= |s.seen| && s'.seen[..|s.seen|] == s.seen
    requires d.source.FromDrain? ==> s'.seen == s.seen
    requires |s'.calls| == |s.calls|
    requires s'.calls[d.caller].id == s.calls[d.caller].id && s'.calls[d.caller].slot == s.calls[d.caller].slot
    requires s'.calls[d.caller].registeredAt == s.calls[d.caller].registeredAt
    requires s.reader == Drained ==> s'.reader == Drained
    ensures DeliveryOk(s', d)
  {
    forall j | 0 <= j < |s.seen| ensures s'.seen[j] == s.seen[j] {
      assert s'.seen[..|s.seen|][j] == s.seen[j];
    }
  }

  /** A response removes exactly its own caller; every other registration stands. */
  lemma InboundPending(timeout: nat, s: State, msg: Json)
    requires Inv(s) && |s.calls| <= ID_SPACE && Enabled(timeout, s, Inbound(msg))
    ensures var s' := Apply(timeout, s, Inbound(msg));
            && PendingInv(s')
            && forall u :: 0 <= u < |s'.calls| && InFlight(s'.calls[u]) ==>
                s.calls[u] == s'.calls[u] && MessageId(msg) != Some(s.calls[u].id)
  {
  }

  lemma InboundCalls(timeout: nat, s: State, msg: Json)
    requires Inv(s) && |s.calls| <= ID_SPACE && Enabled(timeout, s, Inbound(msg))
    ensures CallsInv(Apply(timeout, s, Inbound(msg)))
  {
    InboundPending(timeout, s, msg);
    var s' := Apply(timeout, s, Inbound(msg));
    forall u {:trigger s'.calls[u]} | 0 <= u < |s'.calls|
      ensures CallOk(s'.calls[u]) && s'.calls[u].registeredAt <= |s'.seen|
      ensures InFlight(s'.calls[u]) ==> Unanswered(s'.seen, s'.calls[u].registeredAt, |s'.seen|, s'.calls[u].id)
    {
      assert CallOk(s.calls[u]);
      assert InFlight(s'.calls[u]) ==> InFlight(s.calls[u]) && MessageId(msg) != Some(s.calls[u].id);
    }
  }

  /** A message that resolves nobody adds no delivery, and keeps every channel. */
  lemma InboundQuiet(timeout: nat, s: State, msg: Json)
    requires Inv(s) && Enabled(timeout, s, Inbound(msg)) && Target(s.shared, msg).None?
    ensures LogInv(Apply(timeout, s, Inbound(msg)))
  {
    var s' := Apply(timeout, s, Inbound(msg));
    assert s'.seen[..|s.seen|] == s.seen;
    forall d | d in s.log ensures DeliveryOk(s', d) {
      assert DeliveryOk(s, d);
      DeliveryKept(s, s', d);
    }
  }

  /** The delivery a response makes: to the in-flight caller that registered its id. */
  lemma InboundDelivery(timeout: nat, s: State, msg: Json)
    requires Inv(s) && Enabled(timeout, s, Inbound(msg)) && Target(s.shared, msg).Some?
    ensures var s', t := Apply(timeout, s, Inbound(msg)), Target(s.shared, msg).value;
            var d := Delivery(MessageId(msg).value, t, ReplyOf(msg), FromMessage(|s.seen|));
            && t < |s.calls| && InFlight(s.calls[t]) && s.calls[t].id == d.id
            && s'.log == s.log + [d]
            && s'.calls == s.calls[t := s.calls[t].(slot := Got(d.reply))]
            && DeliveryOk(s', d)
  {
    var t := Target(s.shared, msg).value;
    assert Unanswered(s.seen, s.calls[t].registeredAt, |s.seen|, s.calls[t].id);
  }

  lemma InboundResolves(timeout: nat, s: State, msg: Json)
    requires Inv(s) && |s.calls| <= ID_SPACE && Enabled(timeout, s, Inbound(msg)) && Target(s.shared, msg).Some?
    ensures LogInv(Apply(timeout, s, Inbound(msg)))
  {
    InboundDelivery(timeout, s, msg);
    var s', t := Apply(timeout, s, Inbound(msg)), Target(s.shared, msg).value;
    var d := Delivery(MessageId(msg).value, t, ReplyOf(msg), FromMessage(|s.seen|));
    assert s'.seen[..|s.seen|] == s.seen;
    forall e | e in s.log ensures DeliveryOk(s', e) && e.id != d.id {
      assert DeliveryOk(s, e);
      assert e.caller != t;
      if e.id == d.id { IdsDistinct(s, t, e.caller); }
      DeliveryKept(s, s', e);
    }
    forall u | 0 <= u < |s'.calls| && s'.calls[u].slot.Got? ensures Logged(s'.log, u) {
      if u == t { assert [d][0].caller == t; }
      LoggedAlso(s.log, [d], u);
    }
  }

  lemma InboundInv(timeout: nat, s: State, msg: Json)
    requires Inv(s) && |s.calls| <= ID_SPACE && Enabled(timeout, s, Inbound(msg))
    ensures Inv(Apply(timeout, s, Inbound(msg)))
  {
    InboundPending(timeout, s, msg);
    InboundCalls(timeout, s, msg);
    if Target(s.shared, msg).None? { InboundQuiet(timeout, s, msg); } else { InboundResolves(timeout, s, msg); }
  }

  /** The drain resolves every in-flight call and touches no other. */
  lemma DrainResolves(timeout: nat, s: State, order: seq<nat>)
    requires PendingInv(s) && Enabled(timeout, s, Drain(order))
    ensures forall t :: 0 <= t < |s.calls| ==>
              Apply(timeout, s, Drain(order)).calls[t] ==
                if InFlight(s.calls[t]) then s.calls[t].(slot := Got(SocketClosed)) else s.calls[t]
    ensures forall id :: id in order <==> id in s.shared.pending
  {
    var pending := s.shared.pending;
    forall id ensures id in order <==> id in pending {
      assert id in order <==> id in (set i | i in order);
    }
    forall t | 0 <= t < |s.calls|
      ensures t in pending.Values && s.calls[t].slot.NoReply? <==> InFlight(s.calls[t])
    {
      if InFlight(s.calls[t]) { assert pending[s.calls[t].id] == t; }
      if t in pending.Values {
        var id :| id in pending && pending[id] == t;
      }
    }
  }

  lemma DrainDeliveries(timeout: nat, s: State, order: seq<nat>)
    requires Inv(s) && |s.calls| <= ID_SPACE && Enabled(timeout, s, Drain(order))
    ensures var s' := Apply(timeout, s, Drain(order)); forall d :: d in s'.log ==> DeliveryOk(s', d)
  {
    var s' := Apply(timeout, s, Drain(order));
    DrainResolves(timeout, s, order);
    assert s'.seen[..|s.seen|] == s.seen;
    forall d | d in s'.log ensures DeliveryOk(s', d) {
      if d in s.log {
        assert DeliveryOk(s, d);
        DeliveryKept(s, s', d);
      } else {
        var k :| 0 <= k < |order| && DrainLog(s.shared.pending, order)[k] == d;
        assert order[k] in order;
      }
    }
  }

  lemma DrainLogs(pending: map<nat, nat>, order: seq<nat>, id: nat)
    requires id in order && id in pending
    ensures Logged(DrainLog(pending, order), pending[id])
  {
    var k :| 0 <= k < |order| && order[k] == id;
    assert DrainLog(pending, order)[k].caller == pending[id];
  }

  lemma DrainAllLogged(timeout: nat, s: State, order: seq<nat>, t: nat)
    requires Inv(s) && |s.calls| <= ID_SPACE && Enabled(timeout, s, Drain(order))
    requires t < |s.calls| && (s.calls[t].slot.Got? || InFlight(s.calls[t]))
    ensures Logged(s.log + DrainLog(s.shared.pending, order), t)
  {
    DrainResolves(timeout, s, order);
    if InFlight(s.calls[t]) { DrainLogs(s.shared.pending, order, s.calls[t].id); }
    LoggedAlso(s.log, DrainLog(s.shared.pending, order), t);
  }

  lemma DrainLogInv(timeout: nat, s: State, order: seq<nat>)
    requires Inv(s) && |s.calls| <= ID_SPACE && Enabled(timeout, s, Drain(order))
    ensures LogInv(Apply(timeout, s, Drain(order)))
  {
    var s' := Apply(timeout, s, Drain(order));
    DrainResolves(timeout, s, order);
    DrainDeliveries(timeout, s, order);
    forall t | 0 <= t < |s'.calls| && s'.calls[t].slot.Got? ensures Logged(s'.log, t) {
      DrainAllLogged(timeout, s, order, t);
    }
    forall i, id | 0 <= i < |s.log| && id in order ensures s.log[i].id != id {
      DrainedUnlogged(s, i, id);
    }
    DrainDistinct(s.log, s.shared.pending, order);
  }

  lemma DrainDistinct(log: seq<Delivery>, pending: map<nat, nat>, order: seq<nat>)
    requires DistinctIds(log) && NoDup(order)
    requires forall i, id :: 0 <= i < |log| && id in order ==> log[i].id != id
    ensures DistinctIds(log + DrainLog(pending, order))
  {
    var all := log + DrainLog(pending, order);
    forall i, j | 0 <= i < j < |all| ensures all[i].id != all[j].id {
      if i >= |log| { assert order[i - |log|] != order[j - |log|]; }
      else if j >= |log| { assert order[j - |log|] in order; }
    }
  }

  /** An id still pending has no delivery in the log. */
  lemma DrainedUnlogged(s: State, i: nat, id: nat)
    requires Inv(s) && |s.calls| <= ID_SPACE && i < |s.log| && id in s.shared.pending
    ensures s.log[i].id != id
  {
    assert s.log[i] in s.log && DeliveryOk(s, s.log[i]);
    if s.log[i].id == id { IdsDistinct(s, s.log[i].caller, s.shared.pending[id]); }
  }

  /** After the drain no call is in flight, and each kept its own history. */
  lemma DrainIdle(timeout: nat, s: State, order: seq<nat>)
    requires Inv(s) && Enabled(timeout, s, Drain(order))
    ensures var s' := Apply(timeout, s, Drain(order));
            && |s'.calls| == |s.calls|
            && forall u {:trigger s'.calls[u]} :: 0 <= u < |s.calls| ==>
                 && s'.calls[u].id == s.calls[u].id && CallOk(s'.calls[u])
                 && s'.calls[u].registeredAt <= |s.seen| && !InFlight(s'.calls[u])
  {
    DrainResolves(timeout, s, order);
    var s' := Apply(timeout, s, Drain(order));
    forall u {:trigger s'.calls[u]} | 0 <= u < |s'.calls|
      ensures s'.calls[u].id == s.calls[u].id && CallOk(s'.calls[u])
      ensures s'.calls[u].registeredAt <= |s.seen| && !InFlight(s'.calls[u])
    {
      assert CallOk(s.calls[u]);
    }
  }

  lemma DrainInv(timeout: nat, s: State, order: seq<nat>)
    requires Inv(s) && |s.calls| <= ID_SPACE && Enabled(timeout, s, Drain(order))
    ensures Inv(Apply(timeout, s, Drain(order)))
  {
    DrainIdle(timeout, s, order);
    DrainLogInv(timeout, s, order);
  }

  lemma StepInv(timeout: nat, s: State, step: Step)
    requires Inv(s) && Enabled(timeout, s, step)
    requires |Apply(timeout, s, step).calls| <= ID_SPACE
    ensures Inv(Apply(timeout, s, step))
  {
    match step
    case TakeId => TakeIdInv(s);
    case Register(t) => RegisterFresh(s, t); RegisterInv(s, t);
    case Withdraw(t) => WithdrawInv(s, t);
    case Inbound(msg) => InboundInv(timeout, s, msg);
    case Drain(order) => DrainInv(timeout, s, order);
    case Stop => LogFrame(s, s.(reader := Stopped));
    case Tick(d) => LogFrame(s, s.(now := s.now + d));
    case _ => CallerStepInv(timeout, s, step);
  }

  lemma CallerStepInv(timeout: nat, s: State, step: Step)
    requires Inv(s) && Enabled(timeout, s, step)
    requires step.WriteOk? || step.WriteFail? || step.Receive? || step.Expire?
    ensures Inv(Apply(timeout, s, step))
  {
    assert CallOk(s.calls[step.t]);
    match step
    case WriteOk(t) => LocalStepInv(s, t, s.calls[t].(phase := Waiting, written := Some(s.now)));
    case WriteFail(t) => LocalStepInv(s, t, s.calls[t].(phase := Done(WriteFailed, s.now)));
    case Receive(t) => LocalStepInv(s, t, s.calls[t].(phase := Done(Responded(s.calls[t].slot.reply), s.now)));
    case Expire(t) => LocalStepInv(s, t, s.calls[t].(phase := TimedOut));
  }

  /** Every reachable state of a run with at most 2^64 calls satisfies the invariant. */
  lemma {:induction false} Reachable(timeout: nat, steps: seq<Step>)
    requires Feasible(timeout, steps) && |Exec(timeout, steps).calls| <= ID_SPACE
    ensures Inv(Exec(timeout, steps))
    decreases |steps|
  {
    if steps == [] {
    } else {
      var front := steps[..|steps| - 1];
      assert |Exec(timeout, front).calls| <= |Exec(timeout, steps).calls|;
      Reachable(timeout, front);
      StepInv(timeout, Exec(timeout, front), steps[|steps| - 1]);
    }
  }

  // ----- what the transport promises -----

  /** Message `i` is the first after `from` that carries `id`. */
  ghost predicate FirstWith(seen: seq<Json>, from: nat, i: nat, id: nat) {
    from <= i < |seen| && HasId(seen[i], id) && forall j :: from <= j < i ==> !HasId(seen[j], id)
  }

  /** What a caller that registered after `from` messages under `id` is told, once it is told anything. */
  ghost predicate ToldBy(seen: seq<Json>, from: nat, id: nat, drained: bool, reply: Reply) {
    if exists i: nat :: FirstWith(seen, from, i, id)
    then exists i: nat :: FirstWith(seen, from, i, id) && Carries(seen[i], reply)
    else drained && reply == SocketClosed
  }

  lemma IdsOf(seen: seq<Json>, id: nat)
    ensures forall i :: 0 <= i < |seen| ==> (MessageId(seen[i]) == Some(id) <==> HasId(seen[i], id))
  {
    forall i | 0 <= i < |seen| ensures MessageId(seen[i]) == Some(id) <==> HasId(seen[i], id) { IdExactly(seen[i]); }
  }

  lemma DeliveryTells(s: State, d: Delivery)
    requires DeliveryOk(s, d)
    ensures ToldBy(s.seen, s.calls[d.caller].registeredAt, d.id, s.reader == Drained, d.reply)
  {
    IdsOf(s.seen, d.id);
    if d.source.FromMessage? {
      var i := d.source.index;
      ReplyExactly(s.seen[i], d.reply);
      assert FirstWith(s.seen, s.calls[d.caller].registeredAt, i, d.id);
    }
  }

  /**
   A call that ended with a response was told what the first message after its registration with its
   own id carries: the error if it has one, else the result. Only when there was no such message
   is it told that the socket closed.
   */
  lemma Correlation(timeout: nat, steps: seq<Step>, t: nat)
    requires Feasible(timeout, steps) && |Exec(timeout, steps).calls| <= ID_SPACE
    requires t < |Exec(timeout, steps).calls|
    requires Exec(timeout, steps).calls[t].phase.Done? && Exec(timeout, steps).calls[t].phase.outcome.Responded?
    ensures var s := Exec(timeout, steps);
            var c := s.calls[t];
            ToldBy(s.seen, c.registeredAt, c.id, s.reader == Drained, c.phase.outcome.reply)
  {
    Reachable(timeout, steps);
    var s := Exec(timeout, steps);
    assert CallOk(s.calls[t]);
    assert Logged(s.log, t);
    var k :| 0 <= k < |s.log| && s.log[k].caller == t;
    assert s.log[k] in s.log && DeliveryOk(s, s.log[k]);
    DeliveryTells(s, s.log[k]);
  }

  /** A call gives up only after its whole timeout, and only while no message with its id has come. */
  lemma ExpiresUnanswered(timeout: nat, steps: seq<Step>, t: nat)
    requires Feasible(timeout, steps) && |Exec(timeout, steps).calls| <= ID_SPACE
    requires Enabled(timeout, Exec(timeout, steps), Expire(t))
    ensures var s := Exec(timeout, steps);
            && s.calls[t].written.Some? && s.now >= s.calls[t].written.value + timeout
            && forall i :: s.calls[t].registeredAt <= i < |s.seen| ==> !HasId(s.seen[i], s.calls[t].id)
  {
    Reachable(timeout, steps);
    var s := Exec(timeout, steps);
    assert CallOk(s.calls[t]) && InFlight(s.calls[t]);
    IdsOf(s.seen, s.calls[t].id);
  }

  /** No id is ever resolved twice, and no caller receives two values. */
  lemma ResolvedOnce(timeout: nat, steps: seq<Step>, i: nat, j: nat)
    requires Feasible(timeout, steps) && |Exec(timeout, steps).calls| <= ID_SPACE
    requires i < j < |Exec(timeout, steps).log|
    ensures Exec(timeout, steps).log[i].id != Exec(timeout, steps).log[j].id
    ensures Exec(timeout, steps).log[i].caller != Exec(timeout, steps).log[j].caller
  {
    Reachable(timeout, steps);
    var s := Exec(timeout, steps);
    assert s.log[i] in s.log && s.log[j] in s.log;
    assert DeliveryOk(s, s.log[i]) && DeliveryOk(s, s.log[j]);
  }

  /** `pending` holds exactly the in-flight calls, each under its own id. */
  lemma PendingExactly(timeout: nat, steps: seq<Step>, id: nat, t: nat)
    requires Feasible(timeout, steps) && |Exec(timeout, steps).calls| <= ID_SPACE
    ensures var s := Exec(timeout, steps);
            (id in s.shared.pending && s.shared.pending[id] == t)
            <==> (t < |s.calls| && s.calls[t].id == id && InFlight(s.calls[t]))
  {
    Reachable(timeout, steps);
  }

  predicate Returned(s: State) {
    forall c :: c in s.calls ==> c.phase.Done?
  }

  /**
   Once every caller has returned, `pending` is empty exactly when no failed write is
   still unanswered: a failed write is the one path that leaves its entry behind.
   */
  lemma LeakExactly(timeout: nat, steps: seq<Step>)
    requires Feasible(timeout, steps) && |Exec(timeout, steps).calls| <= ID_SPACE
    requires Returned(Exec(timeout, steps))
    ensures var s := Exec(timeout, steps);
            (s.shared.pending == map[]) <==>
              forall c :: c in s.calls && c.phase.outcome == WriteFailed ==> !c.slot.NoReply?
  {
    Reachable(timeout, steps);
    var s := Exec(timeout, steps);
    if s.shared.pending == map[] {
      forall c | c in s.calls && c.phase.outcome == WriteFailed ensures !c.slot.NoReply? {
        var t :| 0 <= t < |s.calls| && s.calls[t] == c;
        assert !InFlight(s.calls[t]);
      }
    } else {
      var id :| id in s.shared.pending;
      var c := s.calls[s.shared.pending[id]];
      assert c in s.calls && InFlight(c);
    }
  }

  /** The drain leaves nothing pending and hands every registered, unanswered caller the disconnect error. */
  lemma DrainStrandsNobody(timeout: nat, steps: seq<Step>, order: seq<nat>, t: nat)
    requires Feasible(timeout, steps + [Drain(order)]) && |Exec(timeout, steps + [Drain(order)]).calls| <= ID_SPACE
    ensures (steps + [Drain(order)])[..|steps|] == steps && Feasible(timeout, steps)
    ensures var s, s' := Exec(timeout, steps), Exec(timeout, steps + [Drain(order)]);
            && s'.shared.pending == map[]
            && (t < |s.calls| && InFlight(s.calls[t]) ==> s'.calls[t].slot == Got(SocketClosed))
            && (t < |s.calls| && !InFlight(s.calls[t]) ==> s'.calls[t] == s.calls[t])
  {
    assert (steps + [Drain(order)])[..|steps|] == steps;
    Reachable(timeout, steps);
    DrainResolves(timeout, Exec(timeout, steps), order);
  }
}
