/** Guarantees of the CDP transport over whole runs: observations, time, and the limit of the id space. */
module CdpGuarantees {
  import opened Base
  import opened Json
  import opened CdpEvents
  import opened CdpShared
  import opened CdpProtocol

  // ----- observations -----

  function Arrival(step: Step): Option<Json> {
    if step.Inbound? then Some(step.msg) else None
  }

  /** The messages that reached the reader, in order. */
  function Arrived(steps: seq<Step>): seq<Json> {
    FilterMap(Arrival, steps)
  }

  lemma ObserveStep(timeout: nat, s: State, step: Step)
    requires Enabled(timeout, s, step) && Observes(s.shared, s.seen)
    ensures var s' := Apply(timeout, s, step);
            Observes(s'.shared, s'.seen) && s'.seen == s.seen + FilterMap(Arrival, [step])
  {
    FilterMapOne(Arrival, step);
    if step.Inbound? {
      DispatchObserves(s.shared, s.seen, step.msg);
    } else {
      assert s.seen + [] == s.seen;
    }
  }

  lemma {:induction false} ObservedRun(timeout: nat, steps: seq<Step>)
    requires Feasible(timeout, steps)
    ensures Exec(timeout, steps).seen == Arrived(steps)
    ensures Observes(Exec(timeout, steps).shared, Exec(timeout, steps).seen)
    decreases |steps|
  {
    if steps == [] {
    } else {
      var front, last := steps[..|steps| - 1], steps[|steps| - 1];
      ObservedRun(timeout, front);
      assert steps == front + [last];
      FilterMapAppend(Arrival, front, [last]);
      ObserveStep(timeout, Exec(timeout, front), last);
    }
  }

  /** However responses interleave, the accessors are projections of the inbound stream. */
  lemma Projections(timeout: nat, steps: seq<Step>)
    requires Feasible(timeout, steps)
    ensures var sh := Exec(timeout, steps).shared;
            && RedirectHopsFromEvents(sh.requestEvents) == FilterMap(HopOf, Arrived(steps))
            && MainStatusFromEvents(sh.responseEvents) == FindMap(StatusOf, Arrived(steps))
            && sh.consoleEvents == Suffix(FilterMap(ConsoleOf, Arrived(steps)), 50)
            && (sh.loadFired <==> exists i :: 0 <= i < |Arrived(steps)| && IsLoadEvent(Arrived(steps)[i]))
  {
    ObservedRun(timeout, steps);
    HopsOfStream(Arrived(steps));
    StatusOfStream(Arrived(steps));
  }

  // ----- time -----

  /** Calls an armed timer or a pending clean-up belongs to. */
  predicate Busy(c: Call) { c.phase.Waiting? || c.phase.TimedOut? }

  /** The clock may advance by `d` without leaving any timer or clean-up behind by more than `lag`. */
  predicate MayPass(timeout: nat, lag: nat, s: State, d: nat) {
    forall c :: c in s.calls && Busy(c) && c.written.Some? ==> s.now + d <= c.written.value + timeout + lag
  }

  /** Feasible runs on an executor that is at most `lag` late in firing timers and running the tasks they wake. */
  ghost predicate Timely(timeout: nat, lag: nat, steps: seq<Step>)
    decreases |steps|
  {
    Feasible(timeout, steps) &&
    (steps == [] ||
     var front, last := steps[..|steps| - 1], steps[|steps| - 1];
     Timely(timeout, lag, front) && (last.Tick? ==> MayPass(timeout, lag, Exec(timeout, front), last.d)))
  }

  predicate Within(limit: nat, now: nat, c: Call) {
    && (c.phase.Done? && c.written.Some? ==> c.phase.at <= c.written.value + limit)
    && (Busy(c) ==> c.written.Some? && now <= c.written.value + limit)
    && (c.phase.Fetched? || c.phase.Registered? ==> c.written.None?)
  }

  ghost predicate AllWithin(limit: nat, s: State) {
    forall c :: c in s.calls ==> Within(limit, s.now, c)
  }

  lemma TimelyStep(timeout: nat, lag: nat, s: State, step: Step)
    requires Enabled(timeout, s, step) && AllWithin(timeout + lag, s)
    requires step.Tick? ==> MayPass(timeout, lag, s, step.d)
    ensures AllWithin(timeout + lag, Apply(timeout, s, step))
  {
    var s' := Apply(timeout, s, step);
    forall t | 0 <= t < |s'.calls| ensures Within(timeout + lag, s'.now, s'.calls[t]) {
      if t < |s.calls| {
        assert s.calls[t] in s.calls;
        assert Within(timeout + lag, s.now, s.calls[t]);
      }
    }
  }

  /** Every call that ends does so at most `timeout` and the lag after its write, whatever the reader does. */
  lemma {:induction false} EndsInTime(timeout: nat, lag: nat, steps: seq<Step>)
    requires Timely(timeout, lag, steps)
    ensures AllWithin(timeout + lag, Exec(timeout, steps))
    decreases |steps|
  {
    if steps == [] {
    } else {
      var front := steps[..|steps| - 1];
      EndsInTime(timeout, lag, front);
      TimelyStep(timeout, lag, Exec(timeout, front), steps[|steps| - 1]);
    }
  }

  /** The steps waiting calls can take without the reader and without any new call. */
  predicate OwnStep(step: Step) { step.Tick? || step.Receive? || step.Expire? || step.Withdraw? }

  predicate OwnSteps(more: seq<Step>) { forall i :: 0 <= i < |more| ==> OwnStep(more[i]) }

  lemma FeasibleSnoc(timeout: nat, steps: seq<Step>, step: Step)
    requires Feasible(timeout, steps) && Enabled(timeout, Exec(timeout, steps), step)
    ensures Feasible(timeout, steps + [step])
    ensures Exec(timeout, steps + [step]) == Apply(timeout, Exec(timeout, steps), step)
  {
    assert (steps + [step])[..|steps|] == steps;
  }

  lemma TimelySnoc(timeout: nat, lag: nat, steps: seq<Step>, step: Step)
    requires Timely(timeout, lag, steps) && Enabled(timeout, Exec(timeout, steps), step)
    requires step.Tick? ==> MayPass(timeout, lag, Exec(timeout, steps), step.d)
    ensures Timely(timeout, lag, steps + [step])
  {
    assert (steps + [step])[..|steps|] == steps;
  }

  /** How long call `t` still has to wait for its timer. */
  function Remaining(timeout: nat, s: State, t: nat): nat
    requires t < |s.calls| && s.calls[t].written.Some?
  {
    var due := s.calls[t].written.value + timeout;
    if due > s.now then due - s.now else 0
  }

  /** `s'` is `s` with call `t` ended, no other call touched, and time not turned back. */
  ghost predicate Ended(s: State, s': State, t: nat) {
    && t < |s.calls| == |s'.calls| && s.now <= s'.now
    && s'.calls[t].phase.Done? && s'.calls[t].written == s.calls[t].written
    && forall v :: 0 <= v < |s.calls| && v != t ==> s'.calls[v] == s.calls[v]
  }

  /** A delivered reply is taken at once, else the timer is waited out. */
  function FinishSteps(timeout: nat, s: State, t: nat): seq<Step>
    requires t < |s.calls| && s.calls[t].written.Some?
  {
    if s.calls[t].slot.NoReply? then [Tick(Remaining(timeout, s, t)), Expire(t), Withdraw(t)] else [Receive(t)]
  }

  lemma FinishByTimer(timeout: nat, lag: nat, steps: seq<Step>, t: nat)
    requires Feasible(timeout, steps) && InPhase(Exec(timeout, steps), t, Waiting)
    requires Exec(timeout, steps).calls[t].slot.NoReply? && Exec(timeout, steps).calls[t].written.Some?
    ensures var s := Exec(timeout, steps);
            var wait := Remaining(timeout, s, t);
            var more := [Tick(wait), Expire(t), Withdraw(t)];
            && Feasible(timeout, steps + more)
            && Ended(s, Exec(timeout, steps + more), t)
            && Exec(timeout, steps + more).calls[t].phase.at == s.now + wait
            && (Timely(timeout, lag, steps) && MayPass(timeout, lag, s, wait) ==> Timely(timeout, lag, steps + more))
  {
    var s := Exec(timeout, steps);
    var wait := Remaining(timeout, s, t);
    Snoc3(timeout, steps, Tick(wait), Expire(t), Withdraw(t));
    if Timely(timeout, lag, steps) && MayPass(timeout, lag, s, wait) {
      TimelySnoc3(timeout, lag, steps, wait, Expire(t), Withdraw(t));
    }
  }

  /** No step is another call's. */
  predicate OnlyOf(more: seq<Step>, t: nat) {
    OwnSteps(more) && |more| <= 3 && forall i :: 0 <= i < |more| && !more[i].Tick? ==> more[i].t == t
  }

  /**
   From any reachable state, even after the drain, a waiting call can finish on its own by its
   deadline, or now if that has passed; in good time unless its wait would make another call late.
   */
  lemma FinishAlone(timeout: nat, lag: nat, steps: seq<Step>, t: nat) returns (more: seq<Step>)
    requires Feasible(timeout, steps) && |Exec(timeout, steps).calls| <= ID_SPACE
    requires InPhase(Exec(timeout, steps), t, Waiting)
    ensures OnlyOf(more, t) && Feasible(timeout, steps + more)
    ensures var s, s' := Exec(timeout, steps), Exec(timeout, steps + more);
            && Ended(s, s', t) && s.calls[t].written.Some?
            && (s'.calls[t].phase.at <= s.now || s'.calls[t].phase.at == s.calls[t].written.value + timeout)
            && (Timely(timeout, lag, steps) && MayPass(timeout, lag, s, Remaining(timeout, s, t)) ==>
                  Timely(timeout, lag, steps + more))
  {
    Reachable(timeout, steps);
    var s := Exec(timeout, steps);
    assert CallOk(s.calls[t]);
    more := FinishSteps(timeout, s, t);
    if s.calls[t].slot.NoReply? {
      FinishByTimer(timeout, lag, steps, t);
    } else {
    }
  }

  lemma TimelySnoc3(timeout: nat, lag: nat, steps: seq<Step>, d: nat, y: Step, z: Step)
    requires Timely(timeout, lag, steps) && MayPass(timeout, lag, Exec(timeout, steps), d)
    requires !y.Tick? && Enabled(timeout, Apply(timeout, Exec(timeout, steps), Tick(d)), y)
    requires !z.Tick? && Enabled(timeout, Apply(timeout, Apply(timeout, Exec(timeout, steps), Tick(d)), y), z)
    ensures Timely(timeout, lag, steps + [Tick(d), y, z])
  {
    FeasibleSnoc(timeout, steps, Tick(d));
    TimelySnoc(timeout, lag, steps, Tick(d));
    FeasibleSnoc(timeout, steps + [Tick(d)], y);
    TimelySnoc(timeout, lag, steps + [Tick(d)], y);
    TimelySnoc(timeout, lag, steps + [Tick(d)] + [y], z);
    assert steps + [Tick(d), y, z] == steps + [Tick(d)] + [y] + [z];
  }

  /** `more` continues the timely run `steps` in good time, by own steps only. */
  ghost predicate GoesOn(timeout: nat, lag: nat, steps: seq<Step>, more: seq<Step>) {
    OwnSteps(more) && Timely(timeout, lag, steps + more)
  }

  lemma GoesOnAlso(timeout: nat, lag: nat, steps: seq<Step>, a: seq<Step>, b: seq<Step>)
    requires GoesOn(timeout, lag, steps, a) && GoesOn(timeout, lag, steps + a, b)
    ensures GoesOn(timeout, lag, steps, a + b) && Exec(timeout, steps + (a + b)) == Exec(timeout, steps + a + b)
  {
    assert steps + (a + b) == steps + a + b;
  }

  function Open(s: State): set<nat> { set t | 0 <= t < |s.calls| && Busy(s.calls[t]) }

  /** The open call that was written first. */
  lemma {:induction false} Earliest(s: State, open: set<nat>) returns (u: nat)
    requires open != {} && forall t :: t in open ==> t < |s.calls| && s.calls[t].written.Some?
    ensures u in open && forall t :: t in open ==> s.calls[u].written.value <= s.calls[t].written.value
    decreases |open|
  {
    u :| u in open;
    if open - {u} == {} {
      assert open == {u};
    } else {
      var v := Earliest(s, open - {u});
      if s.calls[v].written.value < s.calls[u].written.value { u := v; }
      assert forall t :: t in open ==> t in open - {u} || t == u || t == v;
    }
  }

  /** One more open call ended, in good time. */
  lemma SettleOne(timeout: nat, lag: nat, steps: seq<Step>) returns (more: seq<Step>, u: nat)
    requires Timely(timeout, lag, steps) && |Exec(timeout, steps).calls| <= ID_SPACE
    requires Open(Exec(timeout, steps)) != {}
    ensures GoesOn(timeout, lag, steps, more)
    ensures u in Open(Exec(timeout, steps)) && Ended(Exec(timeout, steps), Exec(timeout, steps + more), u)
  {
    var s := Exec(timeout, steps);
    EndsInTime(timeout, lag, steps);
    forall t | t in Open(s) ensures s.calls[t].written.Some? {
      assert s.calls[t] in s.calls && Within(timeout + lag, s.now, s.calls[t]);
    }
    u := Earliest(s, Open(s));
    if s.calls[u].phase.TimedOut? {
      more := [Withdraw(u)];
      FeasibleSnoc(timeout, steps, Withdraw(u));
      TimelySnoc(timeout, lag, steps, Withdraw(u));
    } else {
      more := FinishAlone(timeout, lag, steps, u);
    }
  }

  /** `s'` is `s` with every open call ended and the others untouched. */
  ghost predicate Settled(s: State, s': State) {
    && |s'.calls| == |s.calls| && s.now <= s'.now
    && forall t :: 0 <= t < |s.calls| ==>
         && s'.calls[t].written == s.calls[t].written
         && if Busy(s.calls[t]) then s'.calls[t].phase.Done? else s'.calls[t] == s.calls[t]
  }

  lemma {:induction false} SettleAll(timeout: nat, lag: nat, steps: seq<Step>) returns (more: seq<Step>)
    requires Timely(timeout, lag, steps) && |Exec(timeout, steps).calls| <= ID_SPACE
    ensures GoesOn(timeout, lag, steps, more)
    ensures Settled(Exec(timeout, steps), Exec(timeout, steps + more))
    decreases |Open(Exec(timeout, steps))|
  {
    var s := Exec(timeout, steps);
    if Open(s) == {} {
      more := [];
      assert steps + more == steps;
      NothingOpen(s);
    } else {
      var first, u := SettleOne(timeout, lag, steps);
      OpenLess(s, Exec(timeout, steps + first), u);
      var rest := SettleAll(timeout, lag, steps + first);
      more := first + rest;
      GoesOnAlso(timeout, lag, steps, first, rest);
    }
  }

  lemma NothingOpen(s: State)
    requires Open(s) == {}
    ensures Settled(s, s)
  {
    assert forall t :: 0 <= t < |s.calls| && Busy(s.calls[t]) ==> t in Open(s);
  }

  lemma OpenLess(s: State, s': State, u: nat)
    requires u in Open(s) && Ended(s, s', u)
    ensures |Open(s')| < |Open(s)| && |s'.calls| == |s.calls| && Busy(s.calls[u])
  {
    assert Open(s') == Open(s) - {u};
  }

  /** Call `t`, written in `s`, has ended in `s'` at most `limit` after its write. */
  predicate EndedInTime(limit: nat, s: State, s': State, t: nat) {
    && t < |s.calls| == |s'.calls| && s.calls[t].written.Some? && s'.calls[t].written == s.calls[t].written
    && s'.calls[t].phase.Done? && s'.calls[t].phase.at <= s.calls[t].written.value + limit
  }

  /**
   No timely run is ever stuck: without the reader and without a new call it goes on, timely, past
   any later moment, and by then every call that was waiting has ended within `timeout` and the lag.
   */
  lemma WaitersEnd(timeout: nat, lag: nat, steps: seq<Step>, d: nat) returns (more: seq<Step>)
    requires Timely(timeout, lag, steps) && |Exec(timeout, steps).calls| <= ID_SPACE
    ensures GoesOn(timeout, lag, steps, more)
    ensures var s, s' := Exec(timeout, steps), Exec(timeout, steps + more);
            && |s'.calls| == |s.calls| && s'.now >= s.now + d
            && forall t: nat :: InPhase(s, t, Waiting) ==> EndedInTime(timeout + lag, s, s', t)
  {
    var settle := SettleAll(timeout, lag, steps);
    var s, mid := Exec(timeout, steps), Exec(timeout, steps + settle);
    FeasibleSnoc(timeout, steps + settle, Tick(d));
    TimelySnoc(timeout, lag, steps + settle, Tick(d));
    EndsInTime(timeout, lag, steps);
    EndsInTime(timeout, lag, steps + settle);
    SettledInTime(timeout + lag, s, mid);
    more := settle + [Tick(d)];
    assert steps + (settle + [Tick(d)]) == steps + settle + [Tick(d)];
  }

  lemma SettledInTime(limit: nat, s: State, s': State)
    requires Settled(s, s') && AllWithin(limit, s) && AllWithin(limit, s')
    ensures forall t: nat :: InPhase(s, t, Waiting) ==> EndedInTime(limit, s, s', t)
  {
    forall t: nat | InPhase(s, t, Waiting) ensures EndedInTime(limit, s, s', t) {
      assert s.calls[t] in s.calls && s'.calls[t] in s'.calls;
      assert Within(limit, s.now, s.calls[t]) && Within(limit, s'.now, s'.calls[t]);
    }
  }

  lemma Snoc3(timeout: nat, steps: seq<Step>, x: Step, y: Step, z: Step)
    requires Feasible(timeout, steps) && Enabled(timeout, Exec(timeout, steps), x)
    requires Enabled(timeout, Apply(timeout, Exec(timeout, steps), x), y)
    requires Enabled(timeout, Apply(timeout, Apply(timeout, Exec(timeout, steps), x), y), z)
    ensures Feasible(timeout, steps + [x, y, z])
    ensures Exec(timeout, steps + [x, y, z])
        == Apply(timeout, Apply(timeout, Apply(timeout, Exec(timeout, steps), x), y), z)
  {
    FeasibleSnoc(timeout, steps, x);
    FeasibleSnoc(timeout, steps + [x], y);
    FeasibleSnoc(timeout, steps + [x] + [y], z);
    assert steps + [x, y, z] == steps + [x] + [y] + [z];
  }

  /** One failed write is enough to leave an entry behind after every caller has returned. */
  lemma FailedWriteLeaks(timeout: nat) returns (steps: seq<Step>)
    ensures Feasible(timeout, steps) && Returned(Exec(timeout, steps)) && Exec(timeout, steps).shared.pending != map[]
  {
    assert Feasible(timeout, []);
    Snoc3(timeout, [], TakeId, Register(0), WriteFail(0));
    steps := [] + [TakeId, Register(0), WriteFail(0)];
    assert 1 in Exec(timeout, steps).shared.pending;
  }

  // ----- the id space -----

  lemma IdsKept(timeout: nat, s: State, step: Step)
    requires Enabled(timeout, s, step) && !step.TakeId?
    ensures var s' := Apply(timeout, s, step);
            && s'.nextId == s.nextId && |s'.calls| == |s.calls|
            && forall t {:trigger s'.calls[t]} :: 0 <= t < |s.calls| ==> s'.calls[t].id == s.calls[t].id
  {
  }

  lemma IdTaken(timeout: nat, s: State)
    requires IdsInv(s)
    ensures IdsInv(Apply(timeout, s, TakeId))
  {
    var s' := Apply(timeout, s, TakeId);
    assert forall t :: 0 <= t < |s.calls| ==> s'.calls[t] == s.calls[t];
  }

  lemma IdsStep(timeout: nat, s: State, step: Step)
    requires IdsInv(s) && Enabled(timeout, s, step)
    ensures IdsInv(Apply(timeout, s, step))
  {
    if step.TakeId? { IdTaken(timeout, s); } else { IdsKept(timeout, s, step); }
  }

  lemma {:induction false} IdsAlways(timeout: nat, steps: seq<Step>)
    requires Feasible(timeout, steps)
    ensures IdsInv(Exec(timeout, steps))
    decreases |steps|
  {
    if steps == [] {
    } else {
      var front := steps[..|steps| - 1];
      IdsAlways(timeout, front);
      IdsStep(timeout, Exec(timeout, front), steps[|steps| - 1]);
    }
  }

  ghost predicate AllIdsDistinct(s: State) {
    forall t, u :: 0 <= t < u < |s.calls| ==> s.calls[t].id != s.calls[u].id
  }

  /** Ids are distinct exactly as long as at most 2^64 calls have been made. */
  lemma IdsDistinctIff(timeout: nat, steps: seq<Step>)
    requires Feasible(timeout, steps)
    ensures AllIdsDistinct(Exec(timeout, steps)) <==> |Exec(timeout, steps).calls| <= ID_SPACE
  {
    IdsAlways(timeout, steps);
    var s := Exec(timeout, steps);
    if |s.calls| <= ID_SPACE {
      forall t, u | 0 <= t < u < |s.calls| ensures s.calls[t].id != s.calls[u].id {
        if s.calls[t].id == s.calls[u].id { IdsDistinct(s, t, u); }
      }
    } else {
      assert s.calls[0].id == s.calls[ID_SPACE].id;
    }
  }

  /** Within the id space the "response channel dropped" error cannot occur. */
  lemma NeverDropped(timeout: nat, steps: seq<Step>, c: Call)
    requires Feasible(timeout, steps) && |Exec(timeout, steps).calls| <= ID_SPACE
    requires c in Exec(timeout, steps).calls && c.phase.Done?
    ensures c.phase.outcome != ChannelDropped
  {
    Reachable(timeout, steps);
    assert CallOk(c);
  }

  /** `n` calls that take an id and then stall. */
  function Takes(n: nat): seq<Step> {
    if n == 0 then [] else Takes(n - 1) + [TakeId]
  }

  /** `s'` is `s` after `n` callers have only taken their ids. */
  ghost predicate Stalled(s: State, s': State, n: nat) {
    && |s'.calls| == |s.calls| + n && s'.calls[..|s.calls|] == s.calls
    && s'.shared == s.shared && s'.now == s.now && s'.seen == s.seen
    && forall t :: |s.calls| <= t < |s'.calls| ==> s'.calls[t].phase == Fetched
  }

  lemma {:induction false} TakeMany(timeout: nat, steps: seq<Step>, n: nat)
    requires Feasible(timeout, steps)
    ensures Feasible(timeout, steps + Takes(n))
    ensures Stalled(Exec(timeout, steps), Exec(timeout, steps + Takes(n)), n)
  {
    if n == 0 {
      assert steps + Takes(n) == steps;
    } else {
      TakeMany(timeout, steps, n - 1);
      var less := steps + Takes(n - 1);
      FeasibleSnoc(timeout, less, TakeId);
      StalledMore(timeout, Exec(timeout, steps), Exec(timeout, less), n - 1);
      assert steps + Takes(n) == less + [TakeId];
    }
  }

  lemma StalledMore(timeout: nat, s: State, s': State, n: nat)
    requires Stalled(s, s', n)
    ensures Stalled(s, Apply(timeout, s', TakeId), n + 1)
  {
  }

  /** A caller that registers over a waiting caller's id takes its sender away. */
  lemma Displaced(timeout: nat, s: State, u: nat)
    requires InPhase(s, 0, Waiting) && s.calls[0].slot.NoReply? && InPhase(s, u, Fetched)
    requires s.calls[u].id in s.shared.pending && s.shared.pending[s.calls[u].id] == 0
    ensures var s' := Apply(timeout, s, Register(u));
            && Enabled(timeout, s', Receive(0))
            && InPhase(Apply(timeout, s', Receive(0)), 0, Done(ChannelDropped, s.now))
            && |Apply(timeout, s', Receive(0)).calls| == |s.calls|
  {
  }

  /** One call past the id space, the first caller can lose its sender to a stranger's insert. */
  lemma DroppedBeyondIdSpace(timeout: nat) returns (steps: seq<Step>)
    ensures Feasible(timeout, steps) && |Exec(timeout, steps).calls| == ID_SPACE + 1
    ensures InPhase(Exec(timeout, steps), 0, Done(ChannelDropped, 0))
  {
    assert Feasible(timeout, []);
    Snoc3(timeout, [], TakeId, Register(0), WriteOk(0));
    var first := [] + [TakeId, Register(0), WriteOk(0)];
    TakeMany(timeout, first, ID_SPACE);
    var all := first + Takes(ID_SPACE);
    IdsAlways(timeout, all);
    var a, b := Exec(timeout, first), Exec(timeout, all);
    assert b.calls[0] == b.calls[..1][0] == a.calls[0];
    Displaced(timeout, b, ID_SPACE);
    FeasibleSnoc(timeout, all, Register(ID_SPACE));
    FeasibleSnoc(timeout, all + [Register(ID_SPACE)], Receive(0));
    steps := all + [Register(ID_SPACE)] + [Receive(0)];
  }
}
