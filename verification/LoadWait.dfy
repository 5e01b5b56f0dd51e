/**
 Waiting for the page to load: any number of `wait_for_load` calls against the reader, which sets
 the flag and then notifies whoever is waiting. The steps are the points another thread can get between.
 */
module LoadWait {
  import opened Base

  datatype How = AtOnce | Told | TimedOut

  /** `Armed` from the moment the notification is asked for; it is delivered from then on. */
  datatype Phase =
    | Checked
    | Armed(since: nat)
    | Noticed(since: nat, notice: nat)
    | Returned(at: nat, how: How)

  datatype Waiter = Waiter(timeout: nat, entered: nat, phase: Phase)

  /** `owing`: the reader has set the flag and is yet to notify. */
  datatype World = World(fired: bool, owing: bool, waiters: seq<Waiter>, now: nat)

  datatype Step =
    | Enter(timeout: nat)
    | Arm(i: nat)
    | Wake(i: nat)
    | Expire(i: nat)
    | Fire
    | Notify
    | Advance(d: nat)

  function Init(): World { World(false, false, [], 0) }

  predicate Enabled(w: World, step: Step) {
    match step
    case Enter(_) => true
    case Arm(i) => i < |w.waiters| && w.waiters[i].phase.Checked?
    case Wake(i) => i < |w.waiters| && w.waiters[i].phase.Noticed?
    case Expire(i) =>
      i < |w.waiters| && w.waiters[i].phase.Armed? && w.now >= w.waiters[i].phase.since + w.waiters[i].timeout
    case Fire => !w.owing
    case Notify => w.owing
    case Advance(_) => true
  }

  function At(w: World, i: nat, phase: Phase): World
    requires i < |w.waiters|
  {
    w.(waiters := w.waiters[i := w.waiters[i].(phase := phase)])
  }

  /** A notification reaches the calls that have asked for it, and no others. */
  function NoticedAt(x: Waiter, now: nat): Waiter {
    if x.phase.Armed? then x.(phase := Noticed(x.phase.since, now)) else x
  }

  function Apply(w: World, step: Step): World
    requires Enabled(w, step)
  {
    match step
    case Enter(timeout) =>
      w.(waiters := w.waiters + [Waiter(timeout, w.now, if w.fired then Returned(w.now, AtOnce) else Checked)])
    case Arm(i) => At(w, i, Armed(w.now))
    case Wake(i) => At(w, i, Returned(w.now, Told))
    case Expire(i) => At(w, i, Returned(w.now, TimedOut))
    case Fire => w.(fired := true, owing := true)
    case Notify =>
      w.(owing := false, waiters :=
        seq(|w.waiters|, i requires 0 <= i < |w.waiters| => NoticedAt(w.waiters[i], w.now)))
    case Advance(d) => w.(now := w.now + d)
  }

  ghost predicate Feasible(steps: seq<Step>)
    decreases |steps|, 0
  {
    steps == [] ||
    var front := steps[..|steps| - 1];
    Feasible(front) && Enabled(Exec(front), steps[|steps| - 1])
  }

  ghost function Exec(steps: seq<Step>): World
    requires Feasible(steps)
    decreases |steps|, 1
  {
    if steps == [] then Init() else Apply(Exec(steps[..|steps| - 1]), steps[|steps| - 1])
  }

  // ----- what a call saw and heard -----

  /** The load event had set the flag when call `i` looked. */
  ghost predicate SawFlag(steps: seq<Step>, i: nat)
    requires Feasible(steps)
  {
    steps != [] &&
    var front, step := steps[..|steps| - 1], steps[|steps| - 1];
    SawFlag(front, i) || (step.Enter? && |Exec(front).waiters| == i && Fire in front)
  }

  /** A notification came after call `i` asked for it and before it gave up. */
  predicate Heard(steps: seq<Step>, i: nat) {
    steps != [] &&
    var front, step := steps[..|steps| - 1], steps[|steps| - 1];
    Heard(front, i) || (step == Notify && Arm(i) in front && Expire(i) !in front)
  }

  /** A load event was dispatched after call `i` looked at the flag and before it asked to be told. */
  ghost predicate SlippedBy(steps: seq<Step>, i: nat)
    requires Feasible(steps)
  {
    steps != [] &&
    var front, step := steps[..|steps| - 1], steps[|steps| - 1];
    || SlippedBy(front, i)
    || (step == Notify && i < |Exec(front).waiters| && !SawFlag(front, i) && Arm(i) !in front)
  }

  /** Where a call stands, from what it saw, heard and did. */
  predicate Stands(x: Waiter, saw: bool, heard: bool, armed: bool, expired: bool) {
    match x.phase
    case Checked => !saw && !heard && !armed && !expired
    case Armed(_) => !saw && !heard && armed && !expired
    case Noticed(_, _) => !saw && heard && armed && !expired
    case Returned(_, how) =>
      if saw then how == AtOnce && !heard && !armed && !expired
      else armed && (if heard then how == Told && !expired else how == TimedOut && expired)
  }

  /** What is true of call `i`, and of one that has not begun. */
  ghost predicate CallInv(steps: seq<Step>, i: nat)
    requires Feasible(steps)
  {
    var w, saw, heard := Exec(steps), SawFlag(steps, i), Heard(steps, i);
    if i < |w.waiters| then Stands(w.waiters[i], saw, heard, Arm(i) in steps, Expire(i) in steps)
    else !saw && !heard && Arm(i) !in steps && Expire(i) !in steps
  }

  lemma {:induction false} FlagIsFire(steps: seq<Step>)
    requires Feasible(steps)
    ensures Exec(steps).fired <==> Fire in steps
    ensures Exec(steps).owing ==> Exec(steps).fired
  {
    if steps == [] {
    } else {
      FlagIsFire(steps[..|steps| - 1]);
    }
  }

  lemma {:induction false} CallStands(steps: seq<Step>, i: nat)
    requires Feasible(steps)
    ensures CallInv(steps, i)
    decreases |steps|
  {
    if steps == [] {
    } else {
      var front := steps[..|steps| - 1];
      CallStands(front, i);
      FlagIsFire(front);
    }
  }

  /**
   A call that has returned did so before its timeout exactly when the flag was set before it looked,
   or a notification came between its asking for one and its giving up.
   */
  lemma EarlyExactly(steps: seq<Step>, i: nat)
    requires Feasible(steps) && i < |Exec(steps).waiters| && Exec(steps).waiters[i].phase.Returned?
    ensures var how := Exec(steps).waiters[i].phase.how;
            && (how == AtOnce <==> SawFlag(steps, i))
            && (how == Told <==> Heard(steps, i))
            && (how == TimedOut <==> !SawFlag(steps, i) && !Heard(steps, i))
  {
    CallStands(steps, i);
  }

  // ----- the load event that is missed -----

  lemma {:induction false} Slips(steps: seq<Step>, i: nat)
    requires Feasible(steps)
    ensures SlippedBy(steps, i) ==> i < |Exec(steps).waiters| && Fire in steps
    ensures i < |Exec(steps).waiters| && !SawFlag(steps, i) && !Heard(steps, i) && Expire(i) !in steps ==>
              (Fire in steps <==> Exec(steps).owing || SlippedBy(steps, i))
    decreases |steps|
  {
    FlagIsFire(steps);
    if steps == [] {
    } else {
      var front := steps[..|steps| - 1];
      Slips(front, i);
      CallStands(front, i);
      FlagIsFire(front);
    }
  }

  /**
   A call times out on a page that has loaded exactly when the load event was dispatched between
   its look at the flag and its asking to be told, or the reader is just about to notify.
   */
  lemma MissedExactly(steps: seq<Step>, i: nat)
    requires Feasible(steps) && Enabled(Exec(steps), Expire(i))
    ensures Exec(steps).fired <==> Exec(steps).owing || SlippedBy(steps, i)
  {
    CallStands(steps, i);
    Slips(steps, i);
    FlagIsFire(steps);
  }

  lemma ArmedTooLate(timeout: nat)
    ensures var steps := [Enter(timeout), Fire, Notify, Arm(0)];
            Feasible(steps) && Exec(steps) == World(true, false, [Waiter(timeout, 0, Armed(0))], 0)
  {
    var one, two, three := [Enter(timeout)], [Enter(timeout), Fire], [Enter(timeout), Fire, Notify];
    Snoc([], Enter(timeout));
    assert [] + [Enter(timeout)] == one && one + [Fire] == two && two + [Notify] == three;
    Snoc(one, Fire);
    Snoc(two, Notify);
    assert Exec(three) == World(true, false, [Waiter(timeout, 0, Checked)], 0);
    Snoc(three, Arm(0));
    assert three + [Arm(0)] == [Enter(timeout), Fire, Notify, Arm(0)];
  }

  /** The event falls between the look and the asking: the call waits out its timeout on a loaded page. */
  lemma LoadMissed(timeout: nat)
    ensures var steps := [Enter(timeout), Fire, Notify, Arm(0), Advance(timeout), Expire(0)];
            && Feasible(steps) && SlippedBy(steps[..5], 0)
            && Exec(steps).waiters == [Waiter(timeout, 0, Returned(timeout, TimedOut))] && Exec(steps).fired
  {
    ArmedTooLate(timeout);
    var armed, steps := [Enter(timeout), Fire, Notify, Arm(0)],
      [Enter(timeout), Fire, Notify, Arm(0), Advance(timeout), Expire(0)];
    var late := armed + [Advance(timeout)];
    Snoc(armed, Advance(timeout));
    MissedExactly(late, 0);
    Snoc(late, Expire(0));
    assert steps[..5] == late && late + [Expire(0)] == steps;
  }

  lemma Snoc(steps: seq<Step>, step: Step)
    requires Feasible(steps) && Enabled(Exec(steps), step)
    ensures Feasible(steps + [step]) && Exec(steps + [step]) == Apply(Exec(steps), step)
  {
    assert (steps + [step])[..|steps|] == steps;
  }

  // ----- the flag is never cleared -----

  /** Once a page has loaded, every later call returns at once, also one that follows another navigation. */
  lemma LaterCallsReturnAtOnce(steps: seq<Step>, timeout: nat)
    requires Feasible(steps) && Fire in steps
    ensures var w := Exec(steps);
            Apply(w, Enter(timeout)).waiters == w.waiters + [Waiter(timeout, w.now, Returned(w.now, AtOnce))]
  {
    FlagIsFire(steps);
  }

  // ----- time -----

  /** Time at which the call is due to take its next step. */
  function Due(x: Waiter): Option<nat> {
    match x.phase
    case Checked => Some(x.entered)
    case Armed(since) => Some(since + x.timeout)
    case Noticed(_, notice) => Some(notice)
    case Returned(_, _) => None
  }

  predicate OnTime(x: Waiter, now: nat, lag: nat) { Due(x).Some? ==> now <= Due(x).value + lag }

  /** No call is kept from a step it is due to take for more than `lag`. */
  ghost predicate Timely(steps: seq<Step>, lag: nat)
    requires Feasible(steps)
  {
    steps != [] ==>
      Timely(steps[..|steps| - 1], lag) && AllOnTime(Exec(steps), lag)
  }

  /** When the call asked to be told, was told, and returned. */
  predicate InTime(x: Waiter, now: nat, lag: nat) {
    match x.phase
    case Checked => x.entered <= now
    case Armed(since) => x.entered <= since <= x.entered + lag && since <= now
    case Noticed(since, notice) =>
      x.entered <= since <= x.entered + lag && since <= notice <= since + x.timeout + lag && notice <= now
    case Returned(at, how) =>
      && at <= now
      && match how
         case AtOnce => at == x.entered
         case Told => x.entered <= at <= x.entered + x.timeout + 3 * lag
         case TimedOut => x.entered + x.timeout <= at <= x.entered + x.timeout + 2 * lag
  }

  lemma StepInTime(w: World, step: Step, i: nat, lag: nat)
    requires Enabled(w, step) && i < |Apply(w, step).waiters|
    requires i < |w.waiters| ==> InTime(w.waiters[i], w.now, lag) && OnTime(w.waiters[i], w.now, lag)
    ensures InTime(Apply(w, step).waiters[i], Apply(w, step).now, lag)
  {
  }

  ghost predicate AllOnTime(w: World, lag: nat) {
    forall i :: 0 <= i < |w.waiters| ==> OnTime(w.waiters[i], w.now, lag)
  }

  ghost predicate AllInTime(w: World, lag: nat) {
    forall i :: 0 <= i < |w.waiters| ==> InTime(w.waiters[i], w.now, lag)
  }

  /** A call returns at once, or when told, or after its timeout, within the lag of the steps on the way. */
  lemma {:induction false} ReturnsInTime(steps: seq<Step>, lag: nat)
    requires Feasible(steps) && Timely(steps, lag)
    ensures AllInTime(Exec(steps), lag)
  {
    if steps == [] {
    } else {
      var front, step := steps[..|steps| - 1], steps[|steps| - 1];
      ReturnsInTime(front, lag);
      var w, w' := Exec(front), Exec(steps);
      assert AllOnTime(w, lag);
      forall i | 0 <= i < |w'.waiters| ensures InTime(w'.waiters[i], w'.now, lag) {
        assert i < |w.waiters| ==> InTime(w.waiters[i], w.now, lag) && OnTime(w.waiters[i], w.now, lag);
        StepInTime(w, step, i, lag);
      }
    }
  }

  /** When call `i` asked to be told. */
  ghost function AskedAt(steps: seq<Step>, i: nat): Option<nat>
    requires Feasible(steps)
  {
    if steps == [] then None
    else
      var front := steps[..|steps| - 1];
      if steps[|steps| - 1] == Arm(i) then Some(Exec(front).now) else AskedAt(front, i)
  }

  lemma {:induction false} AskedIsSince(steps: seq<Step>, i: nat)
    requires Feasible(steps) && i < |Exec(steps).waiters|
    ensures var phase := Exec(steps).waiters[i].phase;
            (phase.Armed? || phase.Noticed? ==> AskedAt(steps, i) == Some(phase.since))
  {
    if steps == [] {
    } else {
      var front := steps[..|steps| - 1];
      if i < |Exec(front).waiters| { AskedIsSince(front, i); }
    }
  }

  /** The timeout counts from the asking: a call gives up only once all of it has passed since. */
  lemma GivesUpAfterTimeout(steps: seq<Step>, i: nat)
    requires Feasible(steps) && Enabled(Exec(steps), Expire(i))
    ensures AskedAt(steps, i).Some?
    ensures Exec(steps).now >= AskedAt(steps, i).value + Exec(steps).waiters[i].timeout
  {
    AskedIsSince(steps, i);
  }

  // ----- every call returns -----

  /** How many steps a call has left. */
  function LeftOf(x: Waiter): nat {
    match x.phase case Checked => 2 case Armed(_) => 1 case Noticed(_, _) => 1 case Returned(_, _) => 0
  }

  function Left(ws: seq<Waiter>): nat {
    if ws == [] then 0 else Left(ws[..|ws| - 1]) + LeftOf(ws[|ws| - 1])
  }

  lemma {:induction false} LeftUpdate(ws: seq<Waiter>, i: nat, x: Waiter)
    requires i < |ws|
    ensures Left(ws[i := x]) + LeftOf(ws[i]) == Left(ws) + LeftOf(x)
  {
    var n := |ws| - 1;
    if i == n {
      assert ws[i := x][..n] == ws[..n];
    } else {
      LeftUpdate(ws[..n], i, x);
      assert ws[i := x][..n] == ws[..n][i := x];
    }
  }

  /** Every open call among `ws` is due at `t` or later. */
  predicate NoneBefore(ws: seq<Waiter>, t: nat) {
    forall i :: 0 <= i < |ws| && Due(ws[i]).Some? ==> t <= Due(ws[i]).value
  }

  predicate IsNext(ws: seq<Waiter>, u: nat) {
    u < |ws| && Due(ws[u]).Some? && NoneBefore(ws, Due(ws[u]).value)
  }

  predicate AllReturned(ws: seq<Waiter>) { forall i :: 0 <= i < |ws| ==> ws[i].phase.Returned? }

  lemma {:induction false} NextDue(ws: seq<Waiter>)
    ensures AllReturned(ws) || exists u: nat :: IsNext(ws, u)
  {
    if ws == [] {
    } else {
      var n := |ws| - 1;
      NextDue(ws[..n]);
      if AllReturned(ws[..n]) {
        assert ws[n].phase.Returned? || IsNext(ws, n);
      } else {
        var u: nat :| IsNext(ws[..n], u);
        var due := Due(ws[n]);
        assert if due.Some? && due.value < Due(ws[u]).value then IsNext(ws, n) else IsNext(ws, u);
      }
    }
  }

  function OwnStep(u: nat, x: Waiter): Step {
    match x.phase case Checked => Arm(u) case Armed(_) => Expire(u) case _ => Wake(u)
  }

  /** `all` goes on from `steps`, timely, by the calls' own steps and the clock. */
  ghost predicate GoesOn(all: seq<Step>, steps: seq<Step>, lag: nat) {
    && |steps| <= |all| && all[..|steps|] == steps && Feasible(all) && Timely(all, lag)
    && forall i :: |steps| <= i < |all| ==> all[i].Advance? || all[i].Arm? || all[i].Expire? || all[i].Wake?
  }

  /** How long the call that is due next may wait. */
  function Wait(w: World, u: nat): nat
    requires IsNext(w.waiters, u)
  {
    if w.now < Due(w.waiters[u]).value then Due(w.waiters[u]).value - w.now else 0
  }

  lemma StepOnTime(w: World, u: nat, lag: nat)
    requires u < |w.waiters| && Due(w.waiters[u]).Some? && w.now >= Due(w.waiters[u]).value && AllOnTime(w, lag)
    ensures var step := OwnStep(u, w.waiters[u]);
            && Enabled(w, step) && AllOnTime(Apply(w, step), lag)
            && Left(Apply(w, step).waiters) < Left(w.waiters)
  {
    LeftUpdate(w.waiters, u, Apply(w, OwnStep(u, w.waiters[u])).waiters[u]);
  }

  /** The call that is due next takes its step, no later than it is due. */
  lemma TakeNext(steps: seq<Step>, lag: nat, u: nat) returns (all: seq<Step>)
    requires Feasible(steps) && Timely(steps, lag) && IsNext(Exec(steps).waiters, u)
    ensures GoesOn(all, steps, lag) && Left(Exec(all).waiters) < Left(Exec(steps).waiters)
  {
    var w := Exec(steps);
    var mid := steps + [Advance(Wait(w, u))];
    StepOnTime(Exec(mid), u, lag);
    var step := OwnStep(u, w.waiters[u]);
    all := mid + [step];
  }

  lemma {:induction false} ReturnAll(steps: seq<Step>, lag: nat) returns (all: seq<Step>)
    requires Feasible(steps) && Timely(steps, lag)
    ensures GoesOn(all, steps, lag) && AllReturned(Exec(all).waiters)
    decreases Left(Exec(steps).waiters)
  {
    NextDue(Exec(steps).waiters);
    if AllReturned(Exec(steps).waiters) {
      all := steps;
    } else {
      var u: nat :| IsNext(Exec(steps).waiters, u);
      var mid := TakeNext(steps, lag, u);
      all := ReturnAll(mid, lag);
    }
  }

  /** Without the reader every timely run goes on, timely, past any moment, and every call returns in time. */
  lemma CallsReturn(steps: seq<Step>, lag: nat, moment: nat)
    requires Feasible(steps) && Timely(steps, lag)
    ensures exists all :: && GoesOn(all, steps, lag) && Exec(all).now >= moment
                          && AllReturned(Exec(all).waiters) && AllInTime(Exec(all), lag)
  {
    var mid := ReturnAll(steps, lag);
    var d := if Exec(mid).now < moment then moment - Exec(mid).now else 0;
    var all := mid + [Advance(d)];
    ReturnsInTime(all, lag);
  }
}
