/** Breadcrumb frames: the client-side dedupe of the tool rail and the bottom status line. */
module ChatRail {
  import opened Base
  import opened Palette
  import opened ChatFrames

  /** Identity of a rail step: lifecycle and summary are left out, so an edit frame matches what it edits. */
  type StepKey = (string, Option<string>)

  function Key(c: Crumb): StepKey {
    (c.toolName, c.detail)
  }

  datatype RenderedStep = RenderedStep(key: StepKey, resultPrinted: bool)

  datatype RailState = RailState(
    hud: seq<RenderedStep>, status: Option<string>, single: Option<(StepKey, Status)>)

  const FRESH: RailState := RailState([], None, None)

  /** What the rail of a HUD message prints: step `index`, or the result under it. */
  datatype RailEvent =
    | StepLine(index: nat, step: Crumb)
    | ResultLine(index: nat, summary: string, status: Status)

  /** One transcript line, tagged when it belongs to the HUD rail. */
  datatype Piece = Rail(event: RailEvent) | Plain(line: Line)

  // ----- the text of rail lines -----

  function Marker(status: Status): Span {
    match status
    case Running => Styled(Yellow, "\U{25CB}")
    case Done => Styled(Green, "\U{23FA}")
    case Failed => Styled(Red, "\U{D7}")
  }

  function StepSpans(c: Crumb): Line {
    [Marker(c.status), Text(" "), Styled(Bold, c.toolName)]
    + match c.detail case Some(d) => [Text("("), Styled(Dim, d), Text(")")] case None => []
  }

  function ResultSpans(summary: string, status: Status): Line {
    [Text("  "), Styled(Dim, "\U{23BF}"), Text(" "), Styled(if status == Failed then Red else Dim, summary)]
  }

  function EventLine(e: RailEvent): Line {
    match e
    case StepLine(_, step) => StepSpans(step)
    case ResultLine(_, summary, status) => ResultSpans(summary, status)
  }

  function PieceLine(p: Piece): Line {
    match p case Rail(e) => EventLine(e) case Plain(line) => line
  }

  function PieceLines(ps: seq<Piece>): seq<Line> {
    seq(|ps|, i requires 0 <= i < |ps| => PieceLine(ps[i]))
  }

  function Rails(es: seq<RailEvent>): seq<Piece> {
    seq(|es|, i requires 0 <= i < |es| => Rail(es[i]))
  }

  function StatusWord(status: Status): string {
    match status case Running => "running" case Done => "done" case Failed => "failed"
  }

  // ----- single chips -----

  function ChipPieces(single: Option<(StepKey, Status)>, c: Crumb): seq<Piece> {
    if single == Some((Key(c), c.status)) then []
    else if single == Some((Key(c), Running)) then
      [Plain(ResultSpans(if c.summary.Some? then c.summary.value else StatusWord(c.status), c.status))]
    else
      [Plain(StepSpans(c))]
      + if c.status != Running && c.summary.Some? then [Plain(ResultSpans(c.summary.value, c.status))] else []
  }

  // ----- HUD aggregates -----

  predicate Extends(hud: seq<RenderedStep>, steps: seq<Crumb>) {
    |hud| <= |steps| && forall i :: 0 <= i < |hud| ==> hud[i].key == Key(steps[i])
  }

  /** What of the rendered rail the frame continues: all of it, or nothing when it is a new HUD message. */
  function Kept(hud: seq<RenderedStep>, steps: seq<Crumb>): (kept: seq<RenderedStep>)
    ensures |kept| <= |steps|
  {
    if Extends(hud, steps) then hud else []
  }

  function ResultEvent(steps: seq<Crumb>, i: nat): RailEvent
    requires i < |steps| && steps[i].summary.Some?
  {
    ResultLine(i, steps[i].summary.value, steps[i].status)
  }

  /** Late results of the first `n` kept steps. */
  function LateTo(kept: seq<RenderedStep>, steps: seq<Crumb>, n: nat): seq<RailEvent>
    requires n <= |kept| <= |steps|
  {
    if n == 0 then []
    else if kept[n - 1].resultPrinted || steps[n - 1].summary.None? then LateTo(kept, steps, n - 1)
    else LateTo(kept, steps, n - 1) + [ResultEvent(steps, n - 1)]
  }

  /** `front` with step `i` and its result, if it has one. */
  function StepAdded(front: seq<RailEvent>, steps: seq<Crumb>, i: nat): seq<RailEvent>
    requires i < |steps|
  {
    var shown := front + [StepLine(i, steps[i])];
    if steps[i].summary.None? then shown else shown + [ResultEvent(steps, i)]
  }

  /** Steps `from` to `n`, each followed by its result if it has one. */
  function NewTo(steps: seq<Crumb>, from: nat, n: nat): seq<RailEvent>
    requires from <= n <= |steps|
  {
    if n == from then [] else StepAdded(NewTo(steps, from, n - 1), steps, n - 1)
  }

  function HudEvents(hud: seq<RenderedStep>, steps: seq<Crumb>): seq<RailEvent> {
    var kept := Kept(hud, steps);
    LateTo(kept, steps, |kept|) + NewTo(steps, |kept|, |steps|)
  }

  function HudAfter(hud: seq<RenderedStep>, steps: seq<Crumb>): seq<RenderedStep> {
    var kept := Kept(hud, steps);
    seq(|steps|, i requires 0 <= i < |steps| =>
      RenderedStep(Key(steps[i]), (i < |kept| && kept[i].resultPrinted) || steps[i].summary.Some?))
  }

  /** The bottom status line of a HUD frame. */
  function StatusText(c: Crumb): string {
    match c.summary
    case Some(s) => s
    case None => match c.detail case Some(d) => c.toolName + "(" + d + ")" case None => c.toolName
  }

  datatype Rendering = Rendering(pieces: seq<Piece>, statusChanged: bool, after: RailState)

  function RenderCrumb(st: RailState, c: Crumb): Rendering {
    if c.steps == [] then
      Rendering(ChipPieces(st.single, c), false, st.(single := Some((Key(c), c.status))))
    else
      Rendering(Rails(HudEvents(st.hud, c.steps)), st.status != Some(StatusText(c)),
        st.(hud := HudAfter(st.hud, c.steps), status := Some(StatusText(c))))
  }

  function RenderFrame(st: RailState, f: Frame): Rendering {
    match f
    case Breadcrumb(c) => RenderCrumb(st, c)
    case _ =>
      var lines := PlainFrameLines(f);
      Rendering(seq(|lines|, i requires 0 <= i < |lines| => Plain(lines[i])), false, st)
  }

  function TrimEol(s: string): string {
    if s != "" && (s[|s| - 1] == '\r' || s[|s| - 1] == '\n') then TrimEol(s[..|s| - 1]) else s
  }

  /** Reading a `{` line as a frame; `None` when it does not parse. */
  type Parser = string -> Option<Frame>

  /** The frame a log line holds, if any. */
  function FrameOf(parse: Parser, raw: string): Option<Frame> {
    var t := TrimEol(raw);
    if t != "" && t[0] == '{' then parse(t) else None
  }

  /** One raw log line: a frame, or verbatim text. */
  function RenderLogLine(parse: Parser, st: RailState, raw: string): Rendering {
    var t := TrimEol(raw);
    if t == "" then Rendering([], false, st)
    else match FrameOf(parse, raw)
      case Some(f) => RenderFrame(st, f)
      case None => Rendering([Plain([Text(t)])], false, st)
  }

  predicate LogsAnything(r: Rendering) {
    r.pieces != [] || r.statusChanged
  }

  function RailText(p: Palette, es: seq<RailEvent>): seq<string> {
    ShowAll(p, PieceLines(Rails(es)))
  }

  lemma RailTextAppend(p: Palette, a: seq<RailEvent>, b: seq<RailEvent>)
    ensures RailText(p, a + b) == RailText(p, a) + RailText(p, b)
  {
    assert PieceLines(Rails(a + b)) == PieceLines(Rails(a)) + PieceLines(Rails(b));
  }

  /** The dedupe state the chat client keeps between frames. */
  class ChatRenderState {
    var hudSteps: seq<RenderedStep>
    var statusLine: Option<string>
    var lastSingle: Option<(StepKey, Status)>

    ghost function View(): RailState
      reads this
    {
      RailState(hudSteps, statusLine, lastSingle)
    }

    constructor ()
      ensures View() == FRESH
    {
      hudSteps, statusLine, lastSingle := [], None, None;
    }

    /** A single tool chip. */
    method RenderChip(c: Crumb, p: Palette) returns (lines: seq<string>)
      modifies this`lastSingle
      ensures View() == old(View()).(single := Some((Key(c), c.status)))
      ensures lines == ShowAll(p, PieceLines(ChipPieces(old(lastSingle), c)))
    {
      lines := [];
      var key := Key(c);
      if lastSingle == Some((key, c.status)) {
        return;
      }
      if lastSingle == Some((key, Running)) {
        var summary := if c.summary.Some? then c.summary.value else StatusWord(c.status);
        lines := [Show(p, ResultSpans(summary, c.status))];
        lastSingle := Some((key, c.status));
        return;
      }
      lines := [Show(p, StepSpans(c))];
      if c.status != Running && c.summary.Some? {
        lines := lines + [Show(p, ResultSpans(c.summary.value, c.status))];
      }
      lastSingle := Some((key, c.status));
    }

    /** Late result lines for kept steps that have completed since. */
    method PrintLate(steps: seq<Crumb>, p: Palette) returns (lines: seq<string>)
      requires |hudSteps| <= |steps|
      modifies this`hudSteps
      ensures lines == RailText(p, LateTo(old(hudSteps), steps, |old(hudSteps)|))
      ensures |hudSteps| == |old(hudSteps)|
      ensures forall i :: 0 <= i < |hudSteps| ==>
                hudSteps[i] == old(hudSteps)[i].(resultPrinted := old(hudSteps)[i].resultPrinted
                    || steps[i].summary.Some?)
    {
      ghost var kept := hudSteps;
      lines := [];
      var i := 0;
      while i < |hudSteps|
        invariant 0 <= i <= |hudSteps| == |kept|
        invariant lines == RailText(p, LateTo(kept, steps, i))
        invariant forall j :: 0 <= j < i ==>
                    hudSteps[j] == kept[j].(resultPrinted := kept[j].resultPrinted || steps[j].summary.Some?)
        invariant forall j :: i <= j < |kept| ==> hudSteps[j] == kept[j]
      {
        if !hudSteps[i].resultPrinted && steps[i].summary.Some? {
          lines := lines + [Show(p, ResultSpans(steps[i].summary.value, steps[i].status))];
          hudSteps := hudSteps[i := hudSteps[i].(resultPrinted := true)];
        }
        i := i + 1;
      }
    }

    /** Steps not yet in the transcript. */
    method PrintNew(steps: seq<Crumb>, p: Palette) returns (lines: seq<string>)
      requires |hudSteps| <= |steps|
      modifies this`hudSteps
      ensures lines == RailText(p, NewTo(steps, |old(hudSteps)|, |steps|))
      ensures |hudSteps| == |steps| && hudSteps[..|old(hudSteps)|] == old(hudSteps)
      ensures forall i :: |old(hudSteps)| <= i < |steps| ==>
                hudSteps[i] == RenderedStep(Key(steps[i]), steps[i].summary.Some?)
    {
      var from := |hudSteps|;
      lines := [];
      var i := from;
      while i < |steps|
        invariant from <= i <= |steps| && |hudSteps| == i
        invariant lines == RailText(p, NewTo(steps, from, i))
        invariant hudSteps[..from] == old(hudSteps)
        invariant forall j :: from <= j < i ==> hudSteps[j] == RenderedStep(Key(steps[j]), steps[j].summary.Some?)
      {
        lines := lines + [Show(p, StepSpans(steps[i]))];
        var printed := false;
        if steps[i].summary.Some? {
          lines := lines + [Show(p, ResultSpans(steps[i].summary.value, steps[i].status))];
          printed := true;
        }
        hudSteps := hudSteps + [RenderedStep(Key(steps[i]), printed)];
        i := i + 1;
      }
    }

    method RenderBreadcrumb(c: Crumb, p: Palette) returns (lines: seq<string>, statusChanged: bool)
      modifies this
      ensures var r := RenderCrumb(old(View()), c);
              View() == r.after && lines == ShowAll(p, PieceLines(r.pieces)) && statusChanged == r.statusChanged
    {
      if c.steps == [] {
        lines := RenderChip(c, p);
        statusChanged := false;
        return;
      }
      if !Extends(hudSteps, c.steps) {
        hudSteps := [];
      }
      ghost var kept := hudSteps;
      lines := PrintLate(c.steps, p);
      var more := PrintNew(c.steps, p);
      lines := lines + more;
      RailTextAppend(p, LateTo(kept, c.steps, |kept|), NewTo(c.steps, |kept|, |c.steps|));
      assert hudSteps == HudAfter(old(hudSteps), c.steps);
      var text := StatusText(c);
      statusChanged := statusLine != Some(text);
      if statusChanged {
        statusLine := Some(text);
      }
    }

    method Render(f: Frame, p: Palette) returns (lines: seq<string>, statusChanged: bool)
      modifies this
      ensures var r := RenderFrame(old(View()), f);
              View() == r.after && lines == ShowAll(p, PieceLines(r.pieces)) && statusChanged == r.statusChanged
    {
      if f.Breadcrumb? {
        lines, statusChanged := RenderBreadcrumb(f.crumb, p);
      } else {
        lines := ShowAll(p, PlainFrameLines(f));
        statusChanged := false;
        assert PieceLines(RenderFrame(View(), f).pieces) == PlainFrameLines(f);
      }
    }

    method RenderLine(parse: Parser, raw: string, p: Palette) returns (lines: seq<string>, statusChanged: bool)
      modifies this
      ensures var r := RenderLogLine(parse, old(View()), raw);
              View() == r.after && lines == ShowAll(p, PieceLines(r.pieces)) && statusChanged == r.statusChanged
    {
      var t := TrimEol(raw);
      lines, statusChanged := [], false;
      if t == "" {
        return;
      }
      if t[0] == '{' {
        var parsed := parse(t);
        if parsed.Some? {
          lines, statusChanged := Render(parsed.value, p);
          return;
        }
      }
      lines := [Show(p, [Text(t)])];
    }
  }

  // ----- text free of a control character -----

  predicate EventClean(bad: Control, e: RailEvent) {
    match e
    case StepLine(_, step) => CrumbClean(bad, step)
    case ResultLine(_, summary, _) => Free(bad, summary)
  }

  predicate EventsClean(bad: Control, es: seq<RailEvent>) {
    forall i :: 0 <= i < |es| ==> EventClean(bad, es[i])
  }

  lemma StepSpansClean(bad: Control, c: Crumb)
    requires CrumbClean(bad, c)
    ensures LineFree(bad, StepSpans(c))
  {
  }

  lemma ResultSpansClean(bad: Control, summary: string, status: Status)
    requires Free(bad, summary)
    ensures LineFree(bad, ResultSpans(summary, status))
  {
  }

  lemma {:induction false} LateClean(bad: Control, kept: seq<RenderedStep>, steps: seq<Crumb>, n: nat)
    requires n <= |kept| <= |steps| && forall i :: 0 <= i < |steps| ==> CrumbClean(bad, steps[i])
    ensures EventsClean(bad, LateTo(kept, steps, n))
  {
    if n == 0 {
    } else {
      LateClean(bad, kept, steps, n - 1);
    }
  }

  lemma {:induction false} NewClean(bad: Control, steps: seq<Crumb>, from: nat, n: nat)
    requires from <= n <= |steps| && forall i :: 0 <= i < |steps| ==> CrumbClean(bad, steps[i])
    ensures EventsClean(bad, NewTo(steps, from, n))
  {
    if n == from {
    } else {
      NewClean(bad, steps, from, n - 1);
    }
  }

  lemma HudClean(bad: Control, hud: seq<RenderedStep>, c: Crumb)
    requires CrumbClean(bad, c)
    ensures LinesClean(bad, PieceLines(Rails(HudEvents(hud, c.steps))))
  {
    var kept := Kept(hud, c.steps);
    LateClean(bad, kept, c.steps, |kept|);
    NewClean(bad, c.steps, |kept|, |c.steps|);
    var es := HudEvents(hud, c.steps);
    forall i | 0 <= i < |es| ensures LineFree(bad, EventLine(es[i])) {
      assert EventClean(bad, es[i]);
      match es[i]
      case StepLine(_, step) => StepSpansClean(bad, step);
      case ResultLine(_, summary, status) => ResultSpansClean(bad, summary, status);
    }
  }

  lemma ChipClean(bad: Control, single: Option<(StepKey, Status)>, c: Crumb)
    requires CrumbClean(bad, c)
    ensures LinesClean(bad, PieceLines(ChipPieces(single, c)))
  {
    StepSpansClean(bad, c);
    ResultSpansClean(bad, StatusWord(c.status), c.status);
    if c.summary.Some? { ResultSpansClean(bad, c.summary.value, c.status); }
  }

  /** A clean frame prints clean lines and leaves a clean status. */
  lemma FrameRendersClean(bad: Control, st: RailState, f: Frame)
    requires FrameClean(bad, f)
    ensures LinesClean(bad, PieceLines(RenderFrame(st, f).pieces))
    ensures OptionClean(bad, st.status) ==> OptionClean(bad, RenderFrame(st, f).after.status)
  {
    if f.Breadcrumb? {
      if f.crumb.steps == [] { ChipClean(bad, st.single, f.crumb); } else { HudClean(bad, st.hud, f.crumb); }
    } else {
      PlainFrameClean(bad, f);
      assert PieceLines(RenderFrame(st, f).pieces) == PlainFrameLines(f);
    }
  }

  /** What a log line contributes is free of `bad`: the frame's strings, or the line without its end. */
  predicate LogClean(bad: Control, parse: Parser, raw: string) {
    match FrameOf(parse, raw) case Some(f) => FrameClean(bad, f) case None => Free(bad, TrimEol(raw))
  }

  lemma LogRendersClean(bad: Control, parse: Parser, st: RailState, raw: string)
    requires LogClean(bad, parse, raw)
    ensures LinesClean(bad, PieceLines(RenderLogLine(parse, st, raw).pieces))
    ensures OptionClean(bad, st.status) ==> OptionClean(bad, RenderLogLine(parse, st, raw).after.status)
  {
    match FrameOf(parse, raw)
    case Some(f) => FrameRendersClean(bad, st, f);
    case None =>
  }

  /**
   For every log line, every kind of frame and every state: the coloured rendering with its
   styling codes erased is the plain rendering. The next state never depends on the palette.
   */
  lemma ColouredEqualsPlain(parse: Parser, st: RailState, raw: string, i: nat)
    requires LogClean(ESC, parse, raw) && i < |RenderLogLine(parse, st, raw).pieces|
    ensures var lines := PieceLines(RenderLogLine(parse, st, raw).pieces);
            StripSgr(ShowAll(Palette(true), lines)[i]) == ShowAll(Palette(false), lines)[i]
  {
    LogRendersClean(ESC, parse, st, raw);
    StripLine(PieceLines(RenderLogLine(parse, st, raw).pieces)[i]);
  }
}
