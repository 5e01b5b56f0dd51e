/** When the rail of one HUD message is told from that of the message before. */
module ChatMessages {
  import opened Base
  import opened ChatFrames
  import opened ChatRail
  import opened ChatHistory

  /** A frame and the message it creates or edits. */
  datatype Sent = Sent(message: nat, frame: Frame)

  function FramesOf(run: seq<Sent>): seq<Frame> {
    seq(|run|, i requires 0 <= i < |run| => run[i].frame)
  }

  datatype Hud = Hud(message: nat, steps: seq<Crumb>)

  function TaggedHud(s: Sent): Option<Hud> {
    match HudOf(s.frame) case Some(steps) => Some(Hud(s.message, steps)) case None => None
  }

  function LastHud(run: seq<Sent>): Option<Hud> {
    if run == [] then None
    else
      var hud := TaggedHud(run[|run| - 1]);
      if hud.Some? then hud else LastHud(run[..|run| - 1])
  }

  /** `hud` belongs to another message than the HUD frame before it. */
  predicate Starts(run: seq<Sent>, hud: Hud) {
    LastHud(run).Some? && LastHud(run).value.message != hud.message
  }

  predicate Continues(run: seq<Sent>, hud: Hud) {
    LastHud(run).Some? ==> KeysExtend(LastHud(run).value.steps, hud.steps)
  }

  /** The HUD frames of the message the last one belongs to, back to where it started. */
  function LastMessage(run: seq<Sent>): seq<seq<Crumb>> {
    if run == [] then []
    else
      var front, hud := run[..|run| - 1], TaggedHud(run[|run| - 1]);
      if hud.None? then LastMessage(front)
      else if Starts(front, hud.value) then [hud.value.steps]
      else LastMessage(front) + [hud.value.steps]
  }

  /** The rail starts over exactly with the frames that start a message. */
  predicate ToldApart(run: seq<Sent>) {
    run == [] ||
    var front, last := run[..|run| - 1], run[|run| - 1];
    && ToldApart(front)
    && (TaggedHud(last).Some? ==>
          (Resets(RunState(FramesOf(front)), last.frame) <==> Starts(front, TaggedHud(last).value)))
  }

  /** An edit extends the frame it edits, and a new message does not extend the message before it. */
  predicate Distinguished(run: seq<Sent>) {
    run == [] ||
    var front, last := run[..|run| - 1], run[|run| - 1];
    && Distinguished(front)
    && (TaggedHud(last).Some? ==>
          (Continues(front, TaggedHud(last).value) <==> !Starts(front, TaggedHud(last).value)))
  }

  lemma FramesSnoc(run: seq<Sent>)
    requires run != []
    ensures var n := |run| - 1; FramesOf(run)[..n] == FramesOf(run[..n]) && FramesOf(run)[n] == run[n].frame
    ensures var n := |run| - 1; FramesOf(run) == FramesOf(run[..n]) + [run[n].frame]
  {
  }

  /** The HUD frames of the run, without their messages. */
  function HudSteps(run: seq<Sent>): seq<seq<Crumb>> { FilterMap(HudOf, FramesOf(run)) }

  lemma {:induction false} LastHudIsLast(run: seq<Sent>)
    ensures LastHud(run).Some? <==> HudSteps(run) != []
    ensures LastHud(run).Some? ==> LastHud(run).value.steps == HudSteps(run)[|HudSteps(run)| - 1]
    decreases |run|
  {
    if run == [] {
    } else {
      var front, last := run[..|run| - 1], run[|run| - 1];
      LastHudIsLast(front);
      FramesSnoc(run);
      FilterMapSnoc(HudOf, FramesOf(front), last.frame);
    }
  }

  /** The rail starts over exactly when the frame does not extend the HUD frame before it. */
  lemma ResetsExactly(run: seq<Sent>, s: Sent)
    requires TaggedHud(s).Some?
    ensures Resets(RunState(FramesOf(run)), s.frame) <==> !Continues(run, TaggedHud(s).value)
  {
    RailExactlyOnce(FramesOf(run));
    LastHudIsLast(run);
    ExtendsLast(RunState(FramesOf(run)).hud, Epoch(HudSteps(run)), HudOf(s.frame).value);
  }

  /**
   For any frames of any messages: the rail tells each message from the one before exactly when
   every edit extends what it edits and no new message extends the last frame of another.
   */
  lemma {:induction false} MessagesToldApart(run: seq<Sent>)
    ensures ToldApart(run) <==> Distinguished(run)
    decreases |run|
  {
    if run == [] {
    } else {
      var front, last := run[..|run| - 1], run[|run| - 1];
      MessagesToldApart(front);
      if TaggedHud(last).Some? { ResetsExactly(front, last); }
    }
  }

  lemma EpochSnoc(run: seq<Sent>, steps: seq<Crumb>)
    ensures Epoch(HudSteps(run) + [steps]) ==
              if LastHud(run).Some? && KeysExtend(LastHud(run).value.steps, steps)
              then Epoch(HudSteps(run)) + [steps] else [steps]
  {
    var huds := HudSteps(run);
    LastHudIsLast(run);
    assert (huds + [steps])[..|huds|] == huds;
  }

  lemma {:induction false} EpochIsMessage(run: seq<Sent>)
    requires Distinguished(run)
    ensures CurrentEpoch(FramesOf(run)) == LastMessage(run)
    decreases |run|
  {
    if run == [] {
    } else {
      var front, last := run[..|run| - 1], run[|run| - 1];
      EpochIsMessage(front);
      FramesSnoc(run);
      FilterMapSnoc(HudOf, FramesOf(front), last.frame);
      if HudOf(last.frame).Some? { EpochSnoc(front, HudOf(last.frame).value); }
      LastHudIsLast(front);
    }
  }

  /** Then each message is printed for itself: every step and every result of it exactly once, as first seen. */
  lemma MessageExactlyOnce(run: seq<Sent>)
    requires Distinguished(run)
    ensures PrintedExactly(SinceReset(FramesOf(run)), LastMessage(run))
  {
    RailExactlyOnce(FramesOf(run));
    EpochIsMessage(run);
  }

  /** A message whose first frame extends the last one of another prints none of those steps again. */
  lemma MergedIsSilent(run: seq<Sent>, s: Sent, i: nat)
    requires TaggedHud(s).Some? && Starts(run, TaggedHud(s).value) && Continues(run, TaggedHud(s).value)
    requires i < |LastHud(run).value.steps|
    ensures Count(EventsOf(RunState(FramesOf(run)), s.frame), StepMark(i)) == 0
  {
    var st := RunState(FramesOf(run));
    ResetsExactly(run, s);
    RailExactlyOnce(FramesOf(run));
    LastHudIsLast(run);
    HudFrame(st, s.frame);
    HudOnce(st.hud, HudOf(s.frame).value, StepMark(i));
  }

  function OneStep(): Frame {
    Breadcrumb(Crumb("sh", None, Running, None, [Crumb("sh", None, Running, None, [])]))
  }

  /** Two messages that each run one tool the same way: the second prints nothing. */
  lemma TwoMessagesAlike()
    ensures !Distinguished([Sent(1, OneStep()), Sent(2, OneStep())])
    ensures EventsOf(RunState([OneStep()]), OneStep()) == []
  {
    var run := [Sent(1, OneStep()), Sent(2, OneStep())];
    assert run[..1] == [run[0]] && [run[0]][..0] == [] && [OneStep()][..0] == [];
    RepeatIsSilent(FRESH, OneStep());
  }
}
