/** What the rail prints over a whole run of frames of any kind. */
module ChatHistory {
  import opened Base
  import opened Palette
  import opened ChatFrames
  import opened ChatRail

  function RunState(frames: seq<Frame>): RailState {
    if frames == [] then FRESH
    else RenderFrame(RunState(frames[..|frames| - 1]), frames[|frames| - 1]).after
  }

  /** The steps of a HUD frame. */
  function HudOf(f: Frame): Option<seq<Crumb>> {
    if f.Breadcrumb? && f.crumb.steps != [] then Some(f.crumb.steps) else None
  }

  /** The same use of a tool, however far it has got. */
  predicate SameUse(a: Crumb, b: Crumb) { a.toolName == b.toolName && a.detail == b.detail }

  predicate KeysExtend(prev: seq<Crumb>, next: seq<Crumb>) {
    |prev| <= |next| && forall i :: 0 <= i < |prev| ==> SameUse(prev[i], next[i])
  }

  /** The frames of the current HUD message: the longest tail in which each frame extends the one before. */
  function Epoch(huds: seq<seq<Crumb>>): (ep: seq<seq<Crumb>>)
    ensures huds != [] ==> ep != [] && ep[|ep| - 1] == huds[|huds| - 1]
    ensures huds == [] ==> ep == []
  {
    if huds == [] then []
    else
      var front, last := huds[..|huds| - 1], huds[|huds| - 1];
      if front != [] && KeysExtend(front[|front| - 1], last) then Epoch(front) + [last] else [last]
  }

  function CurrentEpoch(frames: seq<Frame>): seq<seq<Crumb>> {
    Epoch(FilterMap(HudOf, frames))
  }

  /** Step `i` as the epoch first showed it. */
  function FirstSeen(ep: seq<seq<Crumb>>, i: nat): Option<Crumb> {
    if ep == [] then None
    else
      var before := FirstSeen(ep[..|ep| - 1], i);
      if before.Some? then before else if i < |ep[|ep| - 1]| then Some(ep[|ep| - 1][i]) else None
  }

  /** Step `i` in the first frame of the epoch that gives it a summary. */
  function FirstSummary(ep: seq<seq<Crumb>>, i: nat): (c: Option<Crumb>)
    ensures c.Some? ==> c.value.summary.Some?
  {
    if ep == [] then None
    else
      var before := FirstSummary(ep[..|ep| - 1], i);
      var last := ep[|ep| - 1];
      if before.Some? then before else if i < |last| && last[i].summary.Some? then Some(last[i]) else None
  }

  function EventOf(p: Piece): Option<RailEvent> {
    match p case Rail(e) => Some(e) case Plain(_) => None
  }

  /** The rail events one frame prints. */
  function EventsOf(st: RailState, f: Frame): seq<RailEvent> {
    FilterMap(EventOf, RenderFrame(st, f).pieces)
  }

  predicate Resets(st: RailState, f: Frame) {
    HudOf(f).Some? && !Extends(st.hud, HudOf(f).value)
  }

  /** The rail events printed since the last HUD reset. */
  function SinceReset(frames: seq<Frame>): seq<RailEvent> {
    if frames == [] then []
    else
      var front, f := frames[..|frames| - 1], frames[|frames| - 1];
      (if Resets(RunState(front), f) then [] else SinceReset(front)) + EventsOf(RunState(front), f)
  }

  // ----- counting events -----

  datatype Mark = StepMark(index: nat) | ResultMark(index: nat)

  function MarkOf(e: RailEvent): Mark {
    match e case StepLine(i, _) => StepMark(i) case ResultLine(i, _, _) => ResultMark(i)
  }

  /** How many events have mark `m`. */
  function Count(es: seq<RailEvent>, m: Mark): nat {
    if es == [] then 0 else Count(es[..|es| - 1], m) + if MarkOf(es[|es| - 1]) == m then 1 else 0
  }

  /** `want` is the one event with mark `m`, or there is none. */
  predicate Once(es: seq<RailEvent>, m: Mark, want: Option<RailEvent>) {
    && Count(es, m) == (if want.Some? then 1 else 0)
    && (want.Some? ==> MarkOf(want.value) == m && want.value in es)
  }

  function Steps(es: seq<RailEvent>): nat {
    if es == [] then 0 else Steps(es[..|es| - 1]) + if es[|es| - 1].StepLine? then 1 else 0
  }

  /** The step lines are numbered `k`, `k + 1`, … in the order they come. */
  predicate InOrder(es: seq<RailEvent>, k: nat) {
    es == [] ||
    var front, e := es[..|es| - 1], es[|es| - 1];
    InOrder(front, k) && (e.StepLine? ==> e.index == k + Steps(front))
  }

  lemma {:induction false} CountAppend(a: seq<RailEvent>, b: seq<RailEvent>, m: Mark)
    ensures Count(a + b, m) == Count(a, m) + Count(b, m)
  {
    if b == [] {
      assert a + b == a;
    } else {
      CountAppend(a, b[..|b| - 1], m);
      assert (a + b)[..|a + b| - 1] == a + b[..|b| - 1];
    }
  }

  lemma {:induction false} OrderAppend(a: seq<RailEvent>, b: seq<RailEvent>, k: nat)
    requires InOrder(a, k) && InOrder(b, k + Steps(a))
    ensures InOrder(a + b, k) && Steps(a + b) == Steps(a) + Steps(b)
  {
    if b == [] {
      assert a + b == a;
    } else {
      OrderAppend(a, b[..|b| - 1], k);
      assert (a + b)[..|a + b| - 1] == a + b[..|b| - 1];
    }
  }

  /** Of two logs at most one has the event. */
  lemma OnceAppend(a: seq<RailEvent>, b: seq<RailEvent>, m: Mark, x: Option<RailEvent>, y: Option<RailEvent>)
    requires Once(a, m, x) && Once(b, m, y) && (x.None? || y.None?)
    ensures Once(a + b, m, if x.Some? then x else y)
  {
    CountAppend(a, b, m);
  }

  lemma Snoc(es: seq<RailEvent>, e: RailEvent, m: Mark)
    ensures Count(es + [e], m) == Count(es, m) + if MarkOf(e) == m then 1 else 0
    ensures Steps(es + [e]) == Steps(es) + if e.StepLine? then 1 else 0
    ensures forall k: nat :: InOrder(es, k) && (e.StepLine? ==> e.index == k + Steps(es)) ==> InOrder(es + [e], k)
  {
    assert (es + [e])[..|es + [e]| - 1] == es;
  }

  lemma OnceSnoc(es: seq<RailEvent>, e: RailEvent, m: Mark, x: Option<RailEvent>)
    requires Once(es, m, x) && (MarkOf(e) == m ==> x.None?)
    ensures Once(es + [e], m, if MarkOf(e) == m then Some(e) else x)
  {
    Snoc(es, e, m);
  }

  /** The late result of mark `m` among the first `n` kept steps. */
  function LateWant(kept: seq<RenderedStep>, steps: seq<Crumb>, n: nat, m: Mark): Option<RailEvent>
    requires n <= |kept| <= |steps|
  {
    if m.ResultMark? && m.index < n && !kept[m.index].resultPrinted && steps[m.index].summary.Some?
    then Some(ResultEvent(steps, m.index)) else None
  }

  lemma {:induction false} LateOnce(kept: seq<RenderedStep>, steps: seq<Crumb>, n: nat, m: Mark)
    requires n <= |kept| <= |steps|
    ensures Once(LateTo(kept, steps, n), m, LateWant(kept, steps, n, m))
    decreases n
  {
    if n == 0 {
    } else {
      LateOnce(kept, steps, n - 1, m);
      if !kept[n - 1].resultPrinted && steps[n - 1].summary.Some? {
        OnceSnoc(LateTo(kept, steps, n - 1), ResultEvent(steps, n - 1), m, LateWant(kept, steps, n - 1, m));
      }
    }
  }

  /** What the steps `from` to `n` print of mark `m`. */
  function NewWant(steps: seq<Crumb>, from: nat, n: nat, m: Mark): Option<RailEvent>
    requires from <= n <= |steps|
  {
    if m.index < from || n <= m.index then None
    else if m.StepMark? then Some(StepLine(m.index, steps[m.index]))
    else if steps[m.index].summary.Some? then Some(ResultEvent(steps, m.index)) else None
  }

  lemma StepAddedOnce(front: seq<RailEvent>, steps: seq<Crumb>, from: nat, i: nat, m: Mark)
    requires from <= i < |steps| && Once(front, m, NewWant(steps, from, i, m))
    ensures Once(StepAdded(front, steps, i), m, NewWant(steps, from, i + 1, m))
  {
    var step, x := StepLine(i, steps[i]), NewWant(steps, from, i, m);
    OnceSnoc(front, step, m, x);
    if steps[i].summary.Some? {
      OnceSnoc(front + [step], ResultEvent(steps, i), m, if m == StepMark(i) then Some(step) else x);
    }
  }

  lemma NothingOnce(m: Mark)
    ensures Once([], m, None)
  {
  }

  lemma {:induction false} NewOnce(steps: seq<Crumb>, from: nat, n: nat, m: Mark)
    requires from <= n <= |steps|
    ensures Once(NewTo(steps, from, n), m, NewWant(steps, from, n, m))
    decreases n
  {
    if n == from {
      NothingOnce(m);
    } else {
      NewOnce(steps, from, n - 1, m);
      StepAddedOnce(NewTo(steps, from, n - 1), steps, from, n - 1, m);
    }
  }

  lemma {:induction false} LateOrder(kept: seq<RenderedStep>, steps: seq<Crumb>, n: nat, k: nat)
    requires n <= |kept| <= |steps|
    ensures InOrder(LateTo(kept, steps, n), k) && Steps(LateTo(kept, steps, n)) == 0
    decreases n
  {
    if n == 0 {
    } else {
      LateOrder(kept, steps, n - 1, k);
      if !kept[n - 1].resultPrinted && steps[n - 1].summary.Some? {
        Snoc(LateTo(kept, steps, n - 1), ResultEvent(steps, n - 1), ResultMark(0));
      }
    }
  }

  lemma StepAddedOrder(front: seq<RailEvent>, steps: seq<Crumb>, from: nat, i: nat)
    requires from <= i < |steps| && InOrder(front, from) && Steps(front) == i - from
    ensures InOrder(StepAdded(front, steps, i), from) && Steps(StepAdded(front, steps, i)) == i + 1 - from
  {
    var step := StepLine(i, steps[i]);
    Snoc(front, step, ResultMark(0));
    if steps[i].summary.Some? { Snoc(front + [step], ResultEvent(steps, i), ResultMark(0)); }
  }

  lemma {:induction false} NewOrder(steps: seq<Crumb>, from: nat, n: nat)
    requires from <= n <= |steps|
    ensures InOrder(NewTo(steps, from, n), from) && Steps(NewTo(steps, from, n)) == n - from
    decreases n
  {
    if n == from {
    } else {
      NewOrder(steps, from, n - 1);
      StepAddedOrder(NewTo(steps, from, n - 1), steps, from, n - 1);
    }
  }

  function HudWant(hud: seq<RenderedStep>, steps: seq<Crumb>, m: Mark): Option<RailEvent> {
    var kept := Kept(hud, steps);
    if m.index < |kept| then LateWant(kept, steps, |kept|, m) else NewWant(steps, |kept|, |steps|, m)
  }

  lemma HudOnce(hud: seq<RenderedStep>, steps: seq<Crumb>, m: Mark)
    ensures Once(HudEvents(hud, steps), m, HudWant(hud, steps, m))
  {
    var kept := Kept(hud, steps);
    LateOnce(kept, steps, |kept|, m);
    NewOnce(steps, |kept|, |steps|, m);
    OnceAppend(LateTo(kept, steps, |kept|), NewTo(steps, |kept|, |steps|), m,
               LateWant(kept, steps, |kept|, m), NewWant(steps, |kept|, |steps|, m));
  }

  lemma HudOrder(hud: seq<RenderedStep>, steps: seq<Crumb>)
    ensures var kept := Kept(hud, steps);
            InOrder(HudEvents(hud, steps), |kept|) && Steps(HudEvents(hud, steps)) == |steps| - |kept|
  {
    var kept := Kept(hud, steps);
    LateOrder(kept, steps, |kept|, |kept|);
    NewOrder(steps, |kept|, |steps|);
    OrderAppend(LateTo(kept, steps, |kept|), NewTo(steps, |kept|, |steps|), |kept|);
  }

  // ----- the rail state over a run -----

  lemma {:induction false} RailEvents(es: seq<RailEvent>)
    ensures FilterMap(EventOf, Rails(es)) == es
  {
    if es == [] {
    } else {
      RailEvents(es[1..]);
      assert Rails(es)[1..] == Rails(es[1..]);
    }
  }

  lemma {:induction false} NoRailEvents(ps: seq<Piece>)
    requires forall i :: 0 <= i < |ps| ==> ps[i].Plain?
    ensures FilterMap(EventOf, ps) == []
  {
    if ps == [] {
    } else {
      NoRailEvents(ps[1..]);
    }
  }

  /** A frame that is not a HUD aggregate neither prints rail events nor touches the rail. */
  lemma OtherFrame(st: RailState, f: Frame)
    requires HudOf(f).None?
    ensures EventsOf(st, f) == [] && RenderFrame(st, f).after.hud == st.hud && !Resets(st, f)
    ensures RenderFrame(st, f).after.status == st.status && !RenderFrame(st, f).statusChanged
  {
    NoRailEvents(RenderFrame(st, f).pieces);
  }

  lemma HudFrame(st: RailState, f: Frame)
    requires HudOf(f).Some?
    ensures EventsOf(st, f) == HudEvents(st.hud, HudOf(f).value)
    ensures RenderFrame(st, f).after.hud == HudAfter(st.hud, HudOf(f).value)
  {
    RailEvents(HudEvents(st.hud, HudOf(f).value));
  }

  /** Rail entry `i` agrees with the epoch: its key, whether it was shown, whether its result was. */
  ghost predicate EntryMirrors(hud: seq<RenderedStep>, ep: seq<seq<Crumb>>, i: nat) {
    if i < |hud| then
      && ep != [] && i < |ep[|ep| - 1]| && hud[i].key == Key(ep[|ep| - 1][i])
      && FirstSeen(ep, i).Some? && Key(FirstSeen(ep, i).value) == hud[i].key
      && (hud[i].resultPrinted <==> FirstSummary(ep, i).Some?)
    else
      FirstSeen(ep, i).None? && FirstSummary(ep, i).None?
  }

  /** The rendered rail mirrors the last HUD frame of the epoch. */
  ghost predicate RailMirrors(hud: seq<RenderedStep>, ep: seq<seq<Crumb>>) {
    && |hud| == (if ep == [] then 0 else |ep[|ep| - 1]|)
    && forall i: nat :: EntryMirrors(hud, ep, i)
  }

  function NextEpoch(hud: seq<RenderedStep>, ep: seq<seq<Crumb>>, steps: seq<Crumb>): seq<seq<Crumb>> {
    (if Extends(hud, steps) then ep else []) + [steps]
  }

  /** The keys the rail holds are those of the last HUD frame. */
  lemma KeysOfLast(hud: seq<RenderedStep>, ep: seq<seq<Crumb>>)
    requires ep != [] && RailMirrors(hud, ep)
    ensures var last := ep[|ep| - 1]; |hud| == |last| && forall i :: 0 <= i < |hud| ==> hud[i].key == Key(last[i])
  {
    forall i | 0 <= i < |hud| ensures hud[i].key == Key(ep[|ep| - 1][i]) { assert EntryMirrors(hud, ep, i); }
  }

  lemma ExtendsLast(hud: seq<RenderedStep>, ep: seq<seq<Crumb>>, steps: seq<Crumb>)
    requires RailMirrors(hud, ep)
    ensures Extends(hud, steps) <==> ep == [] || KeysExtend(ep[|ep| - 1], steps)
  {
    if ep != [] { KeysOfLast(hud, ep); }
  }

  /** The next epoch: extended by the frame, or started over with it. */
  lemma EpochStep(huds: seq<seq<Crumb>>, steps: seq<Crumb>, hud: seq<RenderedStep>)
    requires RailMirrors(hud, Epoch(huds))
    ensures Epoch(huds + [steps]) == NextEpoch(hud, Epoch(huds), steps)
  {
    assert (huds + [steps])[..|huds|] == huds;
    ExtendsLast(hud, Epoch(huds), steps);
  }

  lemma MirrorStep(hud: seq<RenderedStep>, ep: seq<seq<Crumb>>, steps: seq<Crumb>)
    requires RailMirrors(hud, ep)
    ensures RailMirrors(HudAfter(hud, steps), NextEpoch(hud, ep, steps))
  {
    var ep' := NextEpoch(hud, ep, steps);
    assert ep'[..|ep'| - 1] == if Extends(hud, steps) then ep else [];
    forall i: nat ensures EntryMirrors(HudAfter(hud, steps), ep', i) {
      assert EntryMirrors(hud, ep, i);
    }
  }

  /** What the log of an epoch holds of each mark. */
  function Expected(ep: seq<seq<Crumb>>, m: Mark): Option<RailEvent> {
    match m
    case StepMark(i) => (match FirstSeen(ep, i) case Some(c) => Some(StepLine(i, c)) case None => None)
    case ResultMark(i) =>
      (match FirstSummary(ep, i) case Some(c) => Some(ResultLine(i, c.summary.value, c.status)) case None => None)
  }

  ghost predicate PrintedExactly(es: seq<RailEvent>, ep: seq<seq<Crumb>>) {
    forall m: Mark :: Once(es, m, Expected(ep, m))
  }

  lemma ExpectedStep(hud: seq<RenderedStep>, ep: seq<seq<Crumb>>, kept: seq<seq<Crumb>>, steps: seq<Crumb>, m: Mark)
    requires EntryMirrors(hud, ep, m.index) && |hud| == (if ep == [] then 0 else |ep[|ep| - 1]|)
    requires kept == if Extends(hud, steps) then ep else []
    ensures var x, y := Expected(kept, m), HudWant(hud, steps, m);
            (x.None? || y.None?) && Expected(kept + [steps], m) == if x.Some? then x else y
  {
    assert (kept + [steps])[..|kept + [steps]| - 1] == kept;
  }

  lemma PrintStep(hud: seq<RenderedStep>, ep: seq<seq<Crumb>>, es: seq<RailEvent>, steps: seq<Crumb>)
    requires RailMirrors(hud, ep) && PrintedExactly(es, ep)
    ensures PrintedExactly((if Extends(hud, steps) then es else []) + HudEvents(hud, steps), NextEpoch(hud, ep, steps))
  {
    var prior, kept := if Extends(hud, steps) then es else [], if Extends(hud, steps) then ep else [];
    forall m: Mark ensures Once(prior + HudEvents(hud, steps), m, Expected(kept + [steps], m)) {
      assert EntryMirrors(hud, ep, m.index);
      ExpectedStep(hud, ep, kept, steps, m);
      HudOnce(hud, steps, m);
      OnceAppend(prior, HudEvents(hud, steps), m, Expected(kept, m), HudWant(hud, steps, m));
    }
  }

  /**
   Over any run of frames of any kind: since the last HUD reset, the rail has printed each
   step of the last HUD frame exactly once, as first seen, and exactly one result for each
   step that ever had a summary, bearing the first summary seen.
   */
  lemma {:induction false} RailExactlyOnce(frames: seq<Frame>)
    ensures PrintedExactly(SinceReset(frames), CurrentEpoch(frames))
    ensures RailMirrors(RunState(frames).hud, CurrentEpoch(frames))
    decreases |frames|
  {
    if frames == [] {
    } else {
      var front, f := frames[..|frames| - 1], frames[|frames| - 1];
      RailExactlyOnce(front);
      assert frames == front + [f];
      FilterMapSnoc(HudOf, front, f);
      var st := RunState(front);
      if HudOf(f).None? {
        OtherFrame(st, f);
        assert SinceReset(frames) == SinceReset(front);
      } else {
        var steps := HudOf(f).value;
        HudFrame(st, f);
        EpochStep(FilterMap(HudOf, front), steps, st.hud);
        MirrorStep(st.hud, CurrentEpoch(front), steps);
        PrintStep(st.hud, CurrentEpoch(front), SinceReset(front), steps);
      }
    }
  }

  lemma OrderStep(hud: seq<RenderedStep>, es: seq<RailEvent>, steps: seq<Crumb>)
    requires InOrder(es, 0) && Steps(es) == |hud|
    ensures var all := (if Extends(hud, steps) then es else []) + HudEvents(hud, steps);
            InOrder(all, 0) && Steps(all) == |steps|
  {
    HudOrder(hud, steps);
    OrderAppend(if Extends(hud, steps) then es else [], HudEvents(hud, steps), 0);
  }

  /** The step lines since the last reset come in rail order, one for each step of the last HUD frame. */
  lemma {:induction false} StepsInOrder(frames: seq<Frame>)
    ensures InOrder(SinceReset(frames), 0)
    ensures Steps(SinceReset(frames)) == |RunState(frames).hud|
    decreases |frames|
  {
    if frames == [] {
    } else {
      var front, f := frames[..|frames| - 1], frames[|frames| - 1];
      StepsInOrder(front);
      if HudOf(f).None? {
        OtherFrame(RunState(front), f);
        assert SinceReset(frames) == SinceReset(front);
      } else {
        HudFrame(RunState(front), f);
        OrderStep(RunState(front).hud, SinceReset(front), HudOf(f).value);
      }
    }
  }

  /** A breadcrumb frame rendered again right away prints nothing and changes nothing. */
  lemma RepeatIsSilent(st: RailState, f: Frame)
    requires f.Breadcrumb?
    ensures var r := RenderFrame(st, f);
            RenderFrame(r.after, f) == Rendering([], false, r.after)
  {
    var r := RenderFrame(st, f);
    if HudOf(f).Some? { RepeatHud(st.hud, f.crumb.steps); }
  }

  lemma RepeatHud(hud: seq<RenderedStep>, steps: seq<Crumb>)
    ensures var after := HudAfter(hud, steps);
            && Extends(after, steps) && HudEvents(after, steps) == [] && HudAfter(after, steps) == after
  {
    var after := HudAfter(hud, steps);
    assert Extends(after, steps) && Kept(after, steps) == after;
    SilentLate(after, steps, |steps|);
  }

  lemma {:induction false} SilentLate(hud: seq<RenderedStep>, steps: seq<Crumb>, n: nat)
    requires n <= |hud| <= |steps|
    requires forall i :: 0 <= i < n && steps[i].summary.Some? ==> hud[i].resultPrinted
    ensures LateTo(hud, steps, n) == []
  {
    if n == 0 {
    } else {
      SilentLate(hud, steps, n - 1);
    }
  }

  // ----- the status line -----

  /** A HUD frame's own summary, else the use of the tool it is about. */
  function HudStatus(f: Frame): Option<string> {
    if HudOf(f).None? then None
    else if f.crumb.summary.Some? then f.crumb.summary
    else if f.crumb.detail.None? then Some(f.crumb.toolName)
    else Some(f.crumb.toolName + "(" + f.crumb.detail.value + ")")
  }

  /** A sequence without its immediate repetitions. */
  function Dedup(s: seq<string>): seq<string> {
    if |s| <= 1 then s
    else Dedup(s[..|s| - 1]) + if s[|s| - 1] == s[|s| - 2] then [] else [s[|s| - 1]]
  }

  /** The status line a frame reports as changed, if it does. */
  function ChangeOf(st: RailState, f: Frame): seq<string> {
    var r := RenderFrame(st, f);
    if r.statusChanged && r.after.status.Some? then [r.after.status.value] else []
  }

  /** The status lines reported as changed over a run. */
  function StatusChanges(frames: seq<Frame>): seq<string> {
    if frames == [] then []
    else
      var front, f := frames[..|frames| - 1], frames[|frames| - 1];
      StatusChanges(front) + ChangeOf(RunState(front), f)
  }

  function LastOf(ss: seq<string>): Option<string> {
    if ss == [] then None else Some(ss[|ss| - 1])
  }

  lemma StatusStep(st: RailState, f: Frame, ss: seq<string>)
    requires st.status == LastOf(ss)
    ensures match HudStatus(f)
            case None => RenderFrame(st, f).after.status == st.status && ChangeOf(st, f) == []
            case Some(text) =>
              && RenderFrame(st, f).after.status == Some(text)
              && Dedup(ss + [text]) == Dedup(ss) + ChangeOf(st, f)
  {
    if HudOf(f).None? {
      OtherFrame(st, f);
    } else {
      assert (ss + [StatusText(f.crumb)])[..|ss|] == ss;
    }
  }

  lemma StatusesSnoc(frames: seq<Frame>)
    requires frames != []
    ensures var front, f := frames[..|frames| - 1], frames[|frames| - 1];
            FilterMap(HudStatus, frames) ==
              FilterMap(HudStatus, front) + match HudStatus(f) case Some(t) => [t] case None => []
  {
    var front, f := frames[..|frames| - 1], frames[|frames| - 1];
    assert frames == front + [f];
    FilterMapAppend(HudStatus, front, [f]);
    FilterMapOne(HudStatus, f);
  }

  lemma {:induction false} StatusIsLast(frames: seq<Frame>)
    ensures RunState(frames).status == LastOf(FilterMap(HudStatus, frames))
    decreases |frames|
  {
    if frames == [] {
    } else {
      var front, f := frames[..|frames| - 1], frames[|frames| - 1];
      StatusIsLast(front);
      StatusesSnoc(frames);
      StatusStep(RunState(front), f, FilterMap(HudStatus, front));
    }
  }

  /** The status line is that of the last HUD frame, and each change of it is reported exactly once. */
  lemma {:induction false} StatusTracksHud(frames: seq<Frame>)
    ensures RunState(frames).status == LastOf(FilterMap(HudStatus, frames))
    ensures StatusChanges(frames) == Dedup(FilterMap(HudStatus, frames))
    decreases |frames|
  {
    StatusIsLast(frames);
    if frames == [] {
    } else {
      var front, f := frames[..|frames| - 1], frames[|frames| - 1];
      var before := FilterMap(HudStatus, front);
      StatusTracksHud(front);
      StatusesSnoc(frames);
      StatusStep(RunState(front), f, before);
      if HudStatus(f).None? {
        assert FilterMap(HudStatus, frames) == before;
        assert StatusChanges(frames) == StatusChanges(front) + [] == StatusChanges(front);
      } else {
        assert FilterMap(HudStatus, frames) == before + [HudStatus(f).value];
        assert StatusChanges(frames) == StatusChanges(front) + ChangeOf(RunState(front), f);
      }
    }
  }
}
