/**
 The chromium process singleton: a lazily started browser behind a mutex, reaped when idle.
 Uses, process deaths, failed starts, reaper ticks and the clock interleave wherever the mutex
 is free or its holder is waiting for the browser to answer.
 */
module Chromium {
  import opened Base

  /** Durations in milliseconds. */
  const IDLE_TIMEOUT: nat := 300_000
  const REAP_INTERVAL: nat := 30_000

  datatype Running = Running(pid: nat, lastUsed: nat)

  /** What `try_wait` says of the child; it may fail whatever the child is doing. */
  datatype Probe = Alive | Exited | Unknown

  /**
   `starting` is the child whose start-up the holder of the mutex awaits, so the mutex is free
   exactly when it is `None`. `owing` counts the callers that were served and are yet to call
   `start_reaper`. `asleepSince` is when the reaper last went to sleep.
   */
  datatype World = World(
    state: Option<Running>, starting: Option<nat>, reaperStarted: bool, reapers: nat, owing: nat,
    live: set<nat>, nextPid: nat, now: nat, asleepSince: nat)

  datatype Step =
    | Use(probe: Probe, spawns: bool)
    | Ready(ok: bool)
    | StartReaper
    | Reap
    | Death(pid: nat)
    | Advance(d: nat)

  predicate IsIdle(lastUsed: nat, now: nat) {
    (if now >= lastUsed then now - lastUsed else 0) >= IDLE_TIMEOUT
  }

  function Init(): World { World(None, None, false, 0, 0, {}, 0, 0, 0) }

  predicate Enabled(w: World, step: Step) {
    match step
    case Use(probe, _) =>
      w.starting.None? &&
      (w.state.Some? ==> probe.Unknown? || (probe.Alive? <==> w.state.value.pid in w.live))
    case Ready(_) => w.starting.Some?
    case StartReaper => w.owing > 0
    case Reap => w.reapers > 0 && w.starting.None? && w.now >= w.asleepSince + REAP_INTERVAL
    case Death(pid) => pid in w.live
    case Advance(_) => true
  }

  predicate Reuses(w: World, probe: Probe) { w.state.Some? && probe.Alive? }

  predicate Reaps(w: World) { w.state.Some? && IsIdle(w.state.value.lastUsed, w.now) }

  /** Dropping a child kills it. */
  function Dropped(w: World): set<nat> {
    if w.state.Some? then w.live - {w.state.value.pid} else w.live
  }

  function Apply(w: World, step: Step): World
    requires Enabled(w, step)
  {
    match step
    case Use(probe, spawns) =>
      if Reuses(w, probe) then w.(state := Some(w.state.value.(lastUsed := w.now)), owing := w.owing + 1)
      else if spawns then w.(starting := Some(w.nextPid), live := w.live + {w.nextPid}, nextPid := w.nextPid + 1)
      else w
    case Ready(ok) =>
      var pid := w.starting.value;
      if ok then w.(state := Some(Running(pid, w.now)), starting := None, live := Dropped(w), owing := w.owing + 1)
      else w.(starting := None, live := w.live - {pid})
    case StartReaper =>
      if w.reaperStarted then w.(owing := w.owing - 1)
      else w.(owing := w.owing - 1, reaperStarted := true, reapers := w.reapers + 1, asleepSince := w.now)
    case Reap =>
      if Reaps(w) then w.(state := None, live := Dropped(w), asleepSince := w.now) else w.(asleepSince := w.now)
    case Death(pid) => w.(live := w.live - {pid})
    case Advance(d) => w.(now := w.now + d)
  }

  /** The singleton as the program keeps it, with the processes and the clock around it. */
  class ChromiumSingleton {
    var state: Option<Running>
    var starting: Option<nat>
    var reaperStarted: bool
    var reapers: nat
    var owing: nat
    var live: set<nat>
    var nextPid: nat
    var now: nat
    var asleepSince: nat

    function View(): World
      reads this
    {
      World(state, starting, reaperStarted, reapers, owing, live, nextPid, now, asleepSince)
    }

    constructor ()
      ensures View() == Init()
    {
      state, starting, reaperStarted, reapers, owing := None, None, false, 0, 0;
      live, nextPid, now, asleepSince := {}, 0, 0, 0;
    }

    /** `ensure_running` up to the wait for the browser; `served` when the warm process is reused. */
    method EnsureRunning(probe: Probe, spawns: bool) returns (served: Option<nat>)
      requires Enabled(View(), Use(probe, spawns))
      modifies this
      ensures View() == Apply(old(View()), Use(probe, spawns))
      ensures served == Serves(old(View()), Use(probe, spawns))
    {
      if state.Some? {
        if probe == Alive {
          state := Some(state.value.(lastUsed := now));
          owing := owing + 1;
          return Some(state.value.pid);
        }
      }
      served := None;
      if spawns {
        starting := Some(nextPid);
        live := live + {nextPid};
        nextPid := nextPid + 1;
      }
    }

    /** The rest of `ensure_running`, after the wait. */
    method FinishStart(ok: bool) returns (served: Option<nat>)
      requires Enabled(View(), Ready(ok))
      modifies this
      ensures View() == Apply(old(View()), Ready(ok))
      ensures served == Serves(old(View()), Ready(ok))
    {
      var pid := starting.value;
      starting := None;
      if !ok {
        live := live - {pid};
        return None;
      }
      if state.Some? { live := live - {state.value.pid}; }
      state := Some(Running(pid, now));
      owing := owing + 1;
      served := Some(pid);
    }

    method StartReaperOnce()
      requires Enabled(View(), StartReaper)
      modifies this
      ensures View() == Apply(old(View()), StartReaper)
    {
      owing := owing - 1;
      var already := reaperStarted;
      reaperStarted := true;
      if already { return; }
      reapers := reapers + 1;
      asleepSince := now;
    }

    /** One turn of the reaper's loop. */
    method ReaperTurn()
      requires Enabled(View(), Reap)
      modifies this
      ensures View() == Apply(old(View()), Reap)
    {
      asleepSince := now;
      if state.Some? && IsIdle(state.value.lastUsed, now) {
        live := live - {state.value.pid};
        state := None;
      }
    }
  }

  ghost predicate Feasible(steps: seq<Step>)
    decreases |steps|, 0
  {
    steps == [] ||
    var front := steps[..|steps| - 1];
    Feasible(front) && Enabled(Exec(front), steps[|steps| - 1])
  }

  ghost function Exec(steps: seq<Step>): World
    requires Feasible(steps)
    decreases |steps|, 1
  {
    if steps == [] then Init() else Apply(Exec(steps[..|steps| - 1]), steps[|steps| - 1])
  }

  lemma {:induction false} FeasiblePrefix(steps: seq<Step>, n: nat)
    requires Feasible(steps) && n <= |steps|
    ensures Feasible(steps[..n])
  {
    if n < |steps| {
      FeasiblePrefix(steps[..|steps| - 1], n);
      assert steps[..|steps| - 1][..n] == steps[..n];
    } else {
      assert steps[..n] == steps;
    }
  }

  // ----- what every step keeps -----

  /** The processes the singleton can still reach. */
  function Held(w: World): set<nat> {
    (if w.state.Some? then {w.state.value.pid} else {}) + (if w.starting.Some? then {w.starting.value} else {})
  }

  predicate Inv(w: World) {
    && w.live <= Held(w)
    && (forall pid :: pid in Held(w) ==> pid < w.nextPid)
    && (w.state.Some? && w.starting.Some? ==> w.state.value.pid < w.starting.value)
    && w.reapers == (if w.reaperStarted then 1 else 0)
    && (w.state.Some? ==> w.reaperStarted || w.owing > 0)
  }

  lemma StepInv(w: World, step: Step)
    requires Inv(w) && Enabled(w, step)
    ensures Inv(Apply(w, step))
  {
  }

  lemma {:induction false} Reachable(steps: seq<Step>)
    requires Feasible(steps)
    ensures Inv(Exec(steps))
  {
    if steps == [] {
    } else {
      var front := steps[..|steps| - 1];
      Reachable(front);
      StepInv(Exec(front), steps[|steps| - 1]);
    }
  }

  /** A browser on record and another one starting, both alive. */
  predicate Two(w: World) {
    w.state.Some? && w.starting.Some? && w.state.value.pid in w.live && w.starting.value in w.live
  }

  lemma SizeOfHeld(w: World)
    requires Inv(w)
    ensures |w.live| <= (if w.state.Some? then 1 else 0) + (if w.starting.Some? then 1 else 0)
    ensures |w.live| == 2 <==> Two(w)
  {
    Sizes(w.live, Held(w));
    if |w.live| == 2 { SubsetEqual(w.live, Held(w)); }
    if Two(w) {
      assert w.live == {w.state.value.pid, w.starting.value};
    }
  }

  lemma {:induction false} Sizes(a: set<nat>, b: set<nat>)
    requires a <= b
    ensures |a| <= |b|
    decreases b
  {
    if b == {} {
    } else {
      var x :| x in b;
      Sizes(a - {x}, b - {x});
    }
  }

  lemma SubsetEqual(a: set<nat>, b: set<nat>)
    requires a <= b && |a| >= |b|
    ensures a == b
  {
    if x :| x in b && x !in a { Sizes(a, b - {x}); }
  }

  // ----- one browser, one reaper -----

  /** A probe that could not tell, about a process that is alive, followed by a spawn. */
  predicate Doubles(w: World, step: Step) {
    step.Use? && step.probe.Unknown? && step.spawns && w.state.Some? && w.state.value.pid in w.live
  }

  /**
   Two browsers are alive after a step exactly when there were two already and neither went, or
   the step spawned one beside a live one that a failed probe took for dead.
   */
  lemma StepSize(w: World, step: Step)
    requires Inv(w) && Enabled(w, step)
    ensures |Apply(w, step).live| == 2 ==> |w.live| == 2 || Doubles(w, step)
    ensures Doubles(w, step) ==> |Apply(w, step).live| == 2
  {
    SizeOfHeld(w);
    StepInv(w, step);
    SizeOfHeld(Apply(w, step));
    StepTwo(w, step);
  }

  lemma StepTwo(w: World, step: Step)
    requires Inv(w) && Enabled(w, step)
    ensures Two(Apply(w, step)) ==> Two(w) || Doubles(w, step)
    ensures Doubles(w, step) ==> Two(Apply(w, step))
  {
  }

  ghost predicate Faithful(steps: seq<Step>)
    requires Feasible(steps)
  {
    forall n {:trigger steps[n]} :: 0 <= n < |steps| ==>
      (FeasiblePrefix(steps, n); !Doubles(Exec(steps[..n]), steps[n]))
  }

  ghost predicate AtMostOne(steps: seq<Step>)
    requires Feasible(steps)
  {
    forall n {:trigger steps[..n]} :: 0 <= n <= |steps| ==> (FeasiblePrefix(steps, n); |Exec(steps[..n]).live| <= 1)
  }

  /** At most one browser is ever alive, exactly when no probe failed on a live one before a spawn. */
  lemma OneChromium(steps: seq<Step>)
    requires Feasible(steps)
    ensures AtMostOne(steps) <==> Faithful(steps)
  {
    if AtMostOne(steps) {
      forall n {:trigger steps[n]} | 0 <= n < |steps|
        ensures (FeasiblePrefix(steps, n); !Doubles(Exec(steps[..n]), steps[n]))
      {
        FeasiblePrefix(steps, n);
        FeasiblePrefix(steps, n + 1);
        Reachable(steps[..n]);
        assert steps[..n + 1][..n] == steps[..n];
        StepSize(Exec(steps[..n]), steps[n]);
      }
    }
    if Faithful(steps) {
      forall n {:trigger steps[..n]} | 0 <= n <= |steps|
        ensures (FeasiblePrefix(steps, n); |Exec(steps[..n]).live| <= 1)
      {
        FeasiblePrefix(steps, n);
        FaithfulSize(steps, n);
      }
    }
  }

  /** A first use, then a probe that cannot tell about the live process, and a second browser is alive. */
  lemma TwoAlive()
    ensures var steps := [Use(Exited, true), Ready(true), Use(Unknown, true)];
            Feasible(steps) && Exec(steps).live == {0, 1} && !AtMostOne(steps)
  {
    var one, two, three :=
        [Use(Exited, true)], [Use(Exited, true), Ready(true)], [Use(Exited, true), Ready(true), Use(Unknown, true)];
    assert one[..0] == [] && two[..1] == one && three[..2] == two;
    assert Feasible([]) && Exec([]) == Init();
    assert Feasible(one) && Exec(one).live == {0} && Exec(one).starting == Some(0);
    assert Feasible(two) && Exec(two).state == Some(Running(0, 0)) && Exec(two).live == {0};
    assert Feasible(three) && Exec(three).live == {0, 1};
    assert three[..3] == three && |Exec(three).live| == 2;
  }

  lemma {:induction false} FaithfulSize(steps: seq<Step>, n: nat)
    requires Feasible(steps) && Faithful(steps) && n <= |steps| && Feasible(steps[..n])
    ensures |Exec(steps[..n]).live| <= 1
  {
    Reachable(steps[..n]);
    SizeOfHeld(Exec(steps[..n]));
    if n == 0 {
    } else {
      FeasiblePrefix(steps, n - 1);
      FaithfulSize(steps, n - 1);
      Reachable(steps[..n - 1]);
      assert steps[..n][..n - 1] == steps[..n - 1];
      assert !Doubles(Exec(steps[..n - 1]), steps[n - 1]);
      StepSize(Exec(steps[..n - 1]), steps[n - 1]);
    }
  }

  /**
   Whatever the probes say: never more than two browsers, at most one whenever the mutex is free,
   and it is the one on record. At most one reaper, running whenever a browser is on record
   and every served caller has gone on to start it.
   */
  lemma Ownership(steps: seq<Step>)
    requires Feasible(steps)
    ensures var w := Exec(steps);
            && |w.live| <= 2
            && (w.starting.None? ==> |w.live| <= 1)
            && (w.starting.None? ==> forall pid :: pid in w.live ==> w.state.Some? && w.state.value.pid == pid)
            && w.reapers <= 1
            && (w.state.Some? && w.owing == 0 ==> w.reapers == 1)
  {
    Reachable(steps);
    SizeOfHeld(Exec(steps));
  }

  // ----- when the reaper strikes -----

  /** The process a step hands to its caller. */
  function Serves(w: World, step: Step): Option<nat> {
    match step
    case Use(probe, _) => if Reuses(w, probe) then Some(w.state.value.pid) else None
    case Ready(ok) => if ok then w.starting else None
    case _ => None
  }

  /** When `pid` was last handed to a caller. */
  ghost function LastServed(steps: seq<Step>, pid: nat): Option<nat>
    requires Feasible(steps)
  {
    if steps == [] then None
    else
      var front := steps[..|steps| - 1];
      if Serves(Exec(front), steps[|steps| - 1]) == Some(pid) then Some(Exec(front).now) else LastServed(front, pid)
  }

  lemma {:induction false} ServedKnown(steps: seq<Step>, pid: nat)
    requires Feasible(steps)
    ensures LastServed(steps, pid).Some? ==>
        pid < Exec(steps).nextPid && LastServed(steps, pid).value <= Exec(steps).now
  {
    if steps == [] {
    } else {
      var front := steps[..|steps| - 1];
      ServedKnown(front, pid);
      Reachable(front);
    }
  }

  lemma {:induction false} Recorded(steps: seq<Step>, pid: nat)
    requires Feasible(steps)
    ensures var w := Exec(steps);
            && (w.state.Some? && w.state.value.pid == pid ==> LastServed(steps, pid) == Some(w.state.value.lastUsed))
            && (w.starting == Some(pid) ==> LastServed(steps, pid) == None)
  {
    if steps == [] {
    } else {
      var front := steps[..|steps| - 1];
      Recorded(front, pid);
      ServedKnown(front, pid);
    }
  }

  /** The reaper never takes a process within IDLE_TIMEOUT of the last time it was handed out. */
  lemma NeverReapedEarly(steps: seq<Step>, pid: nat)
    requires Feasible(steps) && Enabled(Exec(steps), Reap)
    requires pid in Exec(steps).live && pid !in Apply(Exec(steps), Reap).live
    ensures LastServed(steps, pid).Some? && Exec(steps).now >= LastServed(steps, pid).value + IDLE_TIMEOUT
  {
    Recorded(steps, pid);
  }

  /** Served callers start the reaper at once, and it is never asleep (or kept waiting) for more than `gap`. */
  ghost predicate Prompt(steps: seq<Step>, gap: nat)
    requires Feasible(steps)
  {
    steps == [] ||
    var front := steps[..|steps| - 1];
    && Prompt(front, gap)
    && (steps[|steps| - 1].Advance? ==> Exec(front).owing == 0)
    && (Exec(steps).reaperStarted ==> Exec(steps).now <= Exec(steps).asleepSince + gap)
  }

  predicate Watched(w: World) {
    && (w.state.Some? ==> w.state.value.lastUsed <= w.now)
    && (w.state.Some? && w.owing > 0 && !w.reaperStarted ==> w.state.value.lastUsed == w.now)
    && (w.state.Some? && w.reaperStarted ==> w.asleepSince < w.state.value.lastUsed + IDLE_TIMEOUT)
    && (w.reaperStarted ==> w.asleepSince <= w.now)
  }

  lemma {:induction false} PromptWatched(steps: seq<Step>, gap: nat)
    requires Feasible(steps) && Prompt(steps, gap)
    ensures Watched(Exec(steps))
  {
    if steps == [] {
    } else {
      var front := steps[..|steps| - 1];
      PromptWatched(front, gap);
      Reachable(front);
    }
  }

  /**
   While the reaper is never kept from its turn for more than `gap`, a process that was handed
   out is dead within IDLE_TIMEOUT + `gap` of the last time.
   */
  lemma GoneInTime(steps: seq<Step>, gap: nat, pid: nat)
    requires Feasible(steps) && Prompt(steps, gap)
    requires LastServed(steps, pid).Some? && pid in Exec(steps).live
    ensures Exec(steps).now < LastServed(steps, pid).value + IDLE_TIMEOUT + gap
  {
    Recorded(steps, pid);
    Reachable(steps);
    PromptWatched(steps, gap);
  }

  /** With a reaper that is never late: not before five minutes, and gone after five and a half. */
  lemma ReapTimes(steps: seq<Step>, pid: nat)
    requires Feasible(steps) && Prompt(steps, REAP_INTERVAL)
    requires LastServed(steps, pid).Some? && pid in Exec(steps).live
    ensures Exec(steps).now < LastServed(steps, pid).value + 330_000
    ensures Enabled(Exec(steps), Reap) && pid !in Apply(Exec(steps), Reap).live ==>
              Exec(steps).now >= LastServed(steps, pid).value + 300_000
  {
    GoneInTime(steps, REAP_INTERVAL, pid);
    if Enabled(Exec(steps), Reap) && pid !in Apply(Exec(steps), Reap).live { NeverReapedEarly(steps, pid); }
  }

  // ----- every prompt run goes on -----

  /** The singleton's own steps and the clock: no new use, no death, and a start-up only ends by giving up. */
  predicate Quiet(step: Step) { step == StartReaper || step == Ready(false) || step.Advance? || step == Reap }

  /** `all` goes on from `steps`, promptly and quietly. */
  ghost predicate GoesOn(all: seq<Step>, steps: seq<Step>, gap: nat) {
    && |steps| <= |all| && all[..|steps|] == steps
    && Feasible(all) && Prompt(all, gap)
    && forall i :: |steps| <= i < |all| ==> Quiet(all[i])
  }

  lemma OneMore(steps: seq<Step>, step: Step, gap: nat)
    requires Feasible(steps) && Prompt(steps, gap) && Enabled(Exec(steps), step) && Quiet(step)
    requires step.Advance? ==> Exec(steps).owing == 0
    requires var w := Apply(Exec(steps), step); w.reaperStarted ==> w.now <= w.asleepSince + gap
    ensures GoesOn(steps + [step], steps, gap) && Exec(steps + [step]) == Apply(Exec(steps), step)
  {
    assert (steps + [step])[..|steps|] == steps;
  }

  lemma GoesOnTransitive(all: seq<Step>, mid: seq<Step>, steps: seq<Step>, gap: nat)
    requires GoesOn(all, mid, gap) && GoesOn(mid, steps, gap)
    ensures GoesOn(all, steps, gap)
  {
    assert all[..|mid|][..|steps|] == all[..|steps|];
    assert forall i :: |steps| <= i < |mid| ==> all[i] == mid[i];
  }

  lemma NotOverslept(steps: seq<Step>, gap: nat)
    requires Feasible(steps) && Prompt(steps, gap)
    ensures Exec(steps).reaperStarted ==> Exec(steps).now <= Exec(steps).asleepSince + gap
  {
  }

  predicate Settled(w: World) { w.owing == 0 && w.starting.None? }

  /** The served callers start the reaper, and a start-up gives up. */
  lemma {:induction false} Settle(steps: seq<Step>, gap: nat) returns (all: seq<Step>)
    requires Feasible(steps) && Prompt(steps, gap)
    ensures GoesOn(all, steps, gap) && Settled(Exec(all))
    decreases Exec(steps).owing, Exec(steps).starting.Some?
  {
    var w := Exec(steps);
    NotOverslept(steps, gap);
    if Settled(w) {
      all := steps;
    } else {
      var step := if w.owing > 0 then StartReaper else Ready(false);
      OneMore(steps, step, gap);
      all := Settle(steps + [step], gap);
      GoesOnTransitive(all, steps + [step], steps, gap);
    }
  }

  /** The reaper wakes after its interval and takes its turn. */
  lemma Turn(steps: seq<Step>, gap: nat) returns (all: seq<Step>)
    requires Feasible(steps) && Prompt(steps, gap) && gap >= REAP_INTERVAL
    requires Settled(Exec(steps)) && Exec(steps).reaperStarted
    ensures GoesOn(all, steps, gap) && Settled(Exec(all)) && Exec(all).reaperStarted
    ensures Exec(all).asleepSince >= Exec(steps).asleepSince + REAP_INTERVAL
  {
    var w := Exec(steps);
    NotOverslept(steps, gap);
    Reachable(steps);
    var wake := w.asleepSince + REAP_INTERVAL;
    var rest := if w.now < wake then wake - w.now else 0;
    OneMore(steps, Advance(rest), gap);
    OneMore(steps + [Advance(rest)], Reap, gap);
    all := steps + [Advance(rest)] + [Reap];
    GoesOnTransitive(all, steps + [Advance(rest)], steps, gap);
  }

  lemma {:induction false} Pass(steps: seq<Step>, gap: nat, moment: nat) returns (all: seq<Step>)
    requires Feasible(steps) && Prompt(steps, gap) && gap >= REAP_INTERVAL && Settled(Exec(steps))
    ensures GoesOn(all, steps, gap) && Settled(Exec(all)) && Exec(all).now >= moment
    decreases moment - Exec(steps).asleepSince
  {
    var w := Exec(steps);
    PromptWatched(steps, gap);
    if w.now >= moment {
      all := steps;
    } else if !w.reaperStarted {
      OneMore(steps, Advance(moment - w.now), gap);
      all := steps + [Advance(moment - w.now)];
    } else {
      var turn := Turn(steps, gap);
      all := Pass(turn, gap, moment);
      GoesOnTransitive(all, turn, steps, gap);
    }
  }

  /** However a prompt run goes on without another use: after IDLE_TIMEOUT + `gap` no browser is alive. */
  lemma NobodyLeft(all: seq<Step>, steps: seq<Step>, gap: nat)
    requires Feasible(steps) && GoesOn(all, steps, gap) && Exec(all).starting.None?
    requires Exec(all).now >= Exec(steps).now + IDLE_TIMEOUT + gap
    ensures Exec(all).live == {}
  {
    Reachable(all);
    var w := Exec(all);
    if w.state.Some? {
      var pid := w.state.value.pid;
      Recorded(all, pid);
      NotServed(all, steps, gap, pid);
      if pid in w.live { GoneInTime(all, gap, pid); }
    }
  }

  /**
   With at least the reaper's interval allowed, every prompt run goes on promptly past any moment,
   without another use; and once IDLE_TIMEOUT + `gap` have gone by, no browser is alive.
   */
  lemma EndsQuietly(steps: seq<Step>, gap: nat, moment: nat)
    requires Feasible(steps) && Prompt(steps, gap) && gap >= 30_000
    requires moment >= Exec(steps).now + IDLE_TIMEOUT + gap
    ensures exists all :: GoesOn(all, steps, gap) && Exec(all).now >= moment && Exec(all).live == {}
  {
    var mid := Settle(steps, gap);
    var all := Pass(mid, gap, moment);
    GoesOnTransitive(all, mid, steps, gap);
    NobodyLeft(all, steps, gap);
  }

  /** A quiet run hands out no browser. */
  lemma {:induction false} NotServed(all: seq<Step>, steps: seq<Step>, gap: nat, pid: nat)
    requires GoesOn(all, steps, gap) && Feasible(steps)
    ensures LastServed(all, pid).Some? ==> LastServed(all, pid).value <= Exec(steps).now
    decreases |all|
  {
    if all == steps {
      ServedKnown(steps, pid);
    } else {
      var front := all[..|all| - 1];
      assert front[..|steps|] == steps;
      assert Quiet(all[|all| - 1]);
      NotServed(front, steps, gap, pid);
    }
  }

  /** With less than the reaper's interval allowed, a prompt run stops the clock once the reaper runs. */
  lemma {:induction false} TooShortAGap(all: seq<Step>, steps: seq<Step>, gap: nat)
    requires Feasible(steps) && Feasible(all) && Prompt(all, gap) && gap < 30_000
    requires |steps| <= |all| && all[..|steps|] == steps && Exec(steps).reaperStarted
    ensures Exec(all).reaperStarted && Exec(all).asleepSince == Exec(steps).asleepSince
    ensures Exec(all).now <= Exec(steps).asleepSince + gap
    decreases |all|
  {
    NotOverslept(all, gap);
    if all == steps {
    } else {
      var front := all[..|all| - 1];
      assert front[..|steps|] == steps;
      TooShortAGap(front, steps, gap);
    }
  }
}
