/** Single tool chips over a run of frames, and what one log line is taken for. */
module ChatChips {
  import opened Base
  import opened Palette
  import opened Rendition
  import opened ChatFrames
  import opened ChatRail
  import opened ChatHistory
  import opened ChatShown

  /** The chip frame last seen: a breadcrumb without steps. */
  function LastChip(frames: seq<Frame>): Option<Crumb> {
    if frames == [] then None
    else
      var front, f := frames[..|frames| - 1], frames[|frames| - 1];
      if f.Breadcrumb? && f.crumb.steps == [] then Some(f.crumb) else LastChip(front)
  }

  lemma {:induction false} SingleIsLast(frames: seq<Frame>)
    ensures RunState(frames).single == match LastChip(frames)
                                       case Some(c) => Some(((c.toolName, c.detail), c.status))
                                       case None => None
  {
    if frames == [] {
    } else {
      SingleIsLast(frames[..|frames| - 1]);
    }
  }

  /** What a terminal shows of the lines the chip `c` prints after `frames`. */
  function ChipSeen(frames: seq<Frame>, c: Crumb): seq<seq<Glyph>> {
    SeenAll(PieceLines(RenderFrame(RunState(frames), Breadcrumb(c)).pieces))
  }

  ghost predicate ShowsStep(g: seq<Glyph>, c: Crumb) { ReadStep(g) == Some((c.status, c.toolName, c.detail)) }

  /** The result of a finished chip: its summary, else how it ended. */
  function ResultText(c: Crumb): string {
    if c.summary.Some? then c.summary.value else if c.status == Failed then "failed" else "done"
  }

  /** The lines are those of a chip that follows the chip `prev`. */
  ghost predicate ChipShown(prev: Option<Crumb>, c: Crumb, lines: seq<seq<Glyph>>) {
    if prev.Some? && SameUse(prev.value, c) && prev.value.status == c.status then lines == []
    else if prev.Some? && SameUse(prev.value, c) && prev.value.status == Running
    then |lines| == 1 && ShowsResult(lines[0], ResultText(c), c.status == Failed)
    else
      && lines != [] && ShowsStep(lines[0], c)
      && if c.status != Running && c.summary.Some?
         then |lines| == 2 && ShowsResult(lines[1], c.summary.value, c.status == Failed)
         else |lines| == 1
  }

  /** The step and result lines a chip prints after the chip `prev`. */
  function ChipPrinted<A>(prev: Option<Crumb>, c: Crumb, step: A, result: A): seq<A> {
    if prev.Some? && SameUse(prev.value, c) && prev.value.status == c.status then []
    else if prev.Some? && SameUse(prev.value, c) && prev.value.status == Running then [result]
    else if c.status != Running && c.summary.Some? then [step, result] else [step]
  }

  lemma ChipPiecesAre(frames: seq<Frame>, c: Crumb)
    requires c.steps == []
    ensures RenderFrame(RunState(frames), Breadcrumb(c)).pieces ==
              ChipPrinted(LastChip(frames), c, Plain(StepSpans(c)), Plain(ResultSpans(ResultText(c), c.status)))
  {
    SingleIsLast(frames);
  }

  lemma PlainSeen(prev: Option<Crumb>, c: Crumb, step: Line, result: Line)
    ensures SeenAll(PieceLines(ChipPrinted(prev, c, Plain(step), Plain(result))))
         == ChipPrinted(prev, c, Seen(step), Seen(result))
  {
    var pieces := ChipPrinted(prev, c, Plain(step), Plain(result));
    assert PieceLines(pieces) == ChipPrinted(prev, c, step, result);
  }

  lemma ChipCases(prev: Option<Crumb>, c: Crumb, step: seq<Glyph>, result: seq<Glyph>)
    requires ShowsStep(step, c) && ShowsResult(result, ResultText(c), c.status == Failed)
    ensures ChipShown(prev, c, ChipPrinted(prev, c, step, result))
  {
  }

  /**
   For any run of frames: a chip prints nothing exactly if the chip before it was the same in the same
   state; if that one was still running it prints one result line; else one step line, with a result
   line exactly if it has ended and has a summary.
   */
  lemma ChipsOnce(frames: seq<Frame>, c: Crumb)
    requires c.steps == [] && CrumbClean(ESC, c)
    ensures ChipShown(LastChip(frames), c, ChipSeen(frames, c))
  {
    StepReadsBack(c);
    ResultReadsBack(ResultText(c), c.status);
    ChipPiecesAre(frames, c);
    PlainSeen(LastChip(frames), c, StepSpans(c), ResultSpans(ResultText(c), c.status));
    ChipCases(LastChip(frames), c, Seen(StepSpans(c)), Seen(ResultSpans(ResultText(c), c.status)));
  }

  /** What a line of the rail shows: the step it stands for, or the result under it. */
  ghost predicate ShowsEvent(g: seq<Glyph>, e: RailEvent) {
    match e
    case StepLine(_, step) => ShowsStep(g, step)
    case ResultLine(_, summary, status) => ShowsResult(g, summary, status == Failed)
  }

  lemma EventShown(e: RailEvent)
    requires EventClean(ESC, e)
    ensures ShowsEvent(Seen(EventLine(e)), e)
  {
    match e
    case StepLine(_, step) => StepReadsBack(step);
    case ResultLine(_, summary, status) => ResultReadsBack(summary, status);
  }

  /** Every other frame, rendered in any state, shows on a terminal what it holds. */
  lemma FrameRendered(st: RailState, f: Frame)
    requires !f.Breadcrumb? && FrameClean(ESC, f)
    ensures Shows(SeenAll(PieceLines(RenderFrame(st, f).pieces)), f)
  {
    FrameShown(f);
    assert PieceLines(RenderFrame(st, f).pieces) == PlainFrameLines(f);
  }

  // ----- one log line -----

  /** Carriage returns and line feeds only. */
  predicate LineEnd(s: string) { forall i :: 0 <= i < |s| ==> s[i] == '\r' || s[i] == '\n' }

  lemma {:induction false} TrimEolExactly(body: string, end: string)
    requires LineEnd(end) && (body == "" || !LineEnd([body[|body| - 1]]))
    ensures TrimEol(body + end) == body
    decreases |end|
  {
    var raw := body + end;
    if end == "" {
      assert raw == body;
      if body != "" { assert [body[|body| - 1]][0] == body[|body| - 1]; }
    } else {
      assert raw[..|raw| - 1] == body + end[..|end| - 1];
      TrimEolExactly(body, end[..|end| - 1]);
    }
  }

  /**
   A log line without its end: nothing for an empty one, the frame if it starts with a brace and
   parses, and otherwise the line itself, printed as it is.
   */
  lemma LogLineKinds(parse: Parser, st: RailState, body: string, end: string)
    requires LineEnd(end) && (body == "" || !LineEnd([body[|body| - 1]]))
    ensures var r := RenderLogLine(parse, st, body + end);
            if body == "" then r == Rendering([], false, st)
            else if body[0] == '{' && parse(body).Some? then r == RenderFrame(st, parse(body).value)
            else r.after == st && !r.statusChanged && ShowAll(Palette(false), PieceLines(r.pieces)) == [body]
  {
    TrimEolExactly(body, end);
    var line := [Text(body)];
    assert line[1..] == [] && body + "" == body;
    assert Show(Palette(false), line) == body;
    assert PieceLines([Plain(line)]) == [line];
  }
}
