/** The chat client off a terminal (piped, replayed or with colour off): stdout over a whole log. */
module ChatPiped {
  import opened Base
  import opened Palette
  import opened ChatFrames
  import opened ChatRail
  import opened ChatHistory
  import opened Terminal
  import opened Printing

  const PLAIN: Palette := Palette(false)

  function StateAfter(parse: Parser, raws: seq<string>): RailState {
    if raws == [] then FRESH
    else RenderLogLine(parse, StateAfter(parse, raws[..|raws| - 1]), raws[|raws| - 1]).after
  }

  /** What one log line makes a printer write, with the bottom line up or not. */
  function LineWrites(p: Palette, drawn: bool, parse: Parser, st: RailState, raw: string): seq<Output> {
    var r := RenderLogLine(parse, st, raw);
    EmitOutputs(p, drawn, ShowAll(p, PieceLines(r.pieces)), r.statusChanged, r.after.status)
  }

  /** Is the bottom line up after the log `raws`? */
  function DrawnAfter(p: Palette, parse: Parser, raws: seq<string>): bool {
    if raws == [] then false
    else
      var front, last := raws[..|raws| - 1], raws[|raws| - 1];
      DrawnAfter(p, parse, front) || (p.color && LogsAnything(RenderLogLine(parse, StateAfter(parse, front), last)))
  }

  /** Everything written while the log `raws` is printed. */
  function Written(p: Palette, parse: Parser, raws: seq<string>): seq<Output> {
    if raws == [] then []
    else
      var front, last := raws[..|raws| - 1], raws[|raws| - 1];
      Written(p, parse, front) + LineWrites(p, DrawnAfter(p, parse, front), parse, StateAfter(parse, front), last)
  }

  function OutputsOf(parse: Parser, st: RailState, raw: string): seq<Output> {
    LineWrites(PLAIN, false, parse, st, raw)
  }

  /** The same off a terminal, where there is no bottom line. */
  function Piped(parse: Parser, raws: seq<string>): seq<Output> {
    if raws == [] then []
    else
      var front := raws[..|raws| - 1];
      Piped(parse, front) + OutputsOf(parse, StateAfter(parse, front), raws[|raws| - 1])
  }

  lemma {:induction false} PipedWritten(parse: Parser, raws: seq<string>)
    ensures Written(PLAIN, parse, raws) == Piped(parse, raws) && !DrawnAfter(PLAIN, parse, raws)
    decreases |raws|
  {
    if raws == [] {
    } else {
      PipedWritten(parse, raws[..|raws| - 1]);
    }
  }

  /** Render state, bottom line and writes after the log `raws`. */
  predicate Replayed(p: Palette, parse: Parser, raws: seq<string>, st: RailState, drawn: bool, written: seq<Output>) {
    st == StateAfter(parse, raws) && drawn == DrawnAfter(p, parse, raws) && written == Written(p, parse, raws)
  }

  /** One turn of the loop. */
  method ReplayLine(parse: Parser, raw: string, state: ChatRenderState, printer: ChatPrinter)
    requires printer.Valid()
    modifies state, printer
    ensures printer.Valid() && state.View() == RenderLogLine(parse, old(state.View()), raw).after
    ensures printer.written ==
              old(printer.written) +
                  LineWrites(printer.palette, old(printer.bottomDrawn), parse, old(state.View()), raw)
    ensures printer.bottomDrawn ==
              (old(printer.bottomDrawn)
                  || (printer.palette.color && LogsAnything(RenderLogLine(parse, old(state.View()), raw))))
  {
    var lines, statusChanged := state.RenderLine(parse, raw, printer.palette);
    printer.Emit(lines, statusChanged, state.statusLine);
  }

  /** The replay loop: render every line of the log and print it. */
  method ReplayLog(parse: Parser, raws: seq<string>, state: ChatRenderState, printer: ChatPrinter)
    requires printer.Valid()
    requires Replayed(printer.palette, parse, [], state.View(), printer.bottomDrawn, printer.written)
    modifies state, printer
    ensures printer.Valid()
    ensures Replayed(printer.palette, parse, raws, state.View(), printer.bottomDrawn, printer.written)
  {
    var i := 0;
    while i < |raws|
      invariant 0 <= i <= |raws| && printer.Valid()
      invariant Replayed(printer.palette, parse, raws[..i], state.View(), printer.bottomDrawn, printer.written)
    {
      assert raws[..i + 1] == raws[..i] + [raws[i]];
      ReplayLine(parse, raws[i], state, printer);
      i := i + 1;
    }
    assert raws[..|raws|] == raws;
  }

  /** The whole replay; the bottom line is taken down at the end. */
  method Replay(parse: Parser, raws: seq<string>, p: Palette) returns (printer: ChatPrinter)
    ensures fresh(printer) && printer.Valid() && printer.palette == p
    ensures printer.written == Written(p, parse, raws) + ClearOutputs(p, DrawnAfter(p, parse, raws))
    ensures !p.color ==> printer.written == Piped(parse, raws)
  {
    var state := new ChatRenderState();
    printer := new ChatPrinter(p);
    ReplayLog(parse, raws, state, printer);
    printer.Finish();
    PlainWritten(p, parse, raws);
  }

  lemma PlainWritten(p: Palette, parse: Parser, raws: seq<string>)
    ensures !p.color ==> Written(p, parse, raws) + ClearOutputs(p, DrawnAfter(p, parse, raws)) == Piped(parse, raws)
  {
    if !p.color {
      assert p == PLAIN;
      PipedWritten(parse, raws);
    }
  }

  /** The frames a log holds. */
  function FramesOf(parse: Parser, raws: seq<string>): seq<Frame> {
    if raws == [] then []
    else
      var front, last := raws[..|raws| - 1], raws[|raws| - 1];
      FramesOf(parse, front) + match FrameOf(parse, last) case Some(f) => [f] case None => []
  }

  lemma LogLineState(parse: Parser, st: RailState, raw: string)
    ensures RenderLogLine(parse, st, raw).after ==
              match FrameOf(parse, raw) case Some(f) => RenderFrame(st, f).after case None => st
  {
  }

  lemma RunStateSnoc(frames: seq<Frame>, f: Frame)
    ensures RunState(frames + [f]) == RenderFrame(RunState(frames), f).after
    ensures StatusChanges(frames + [f]) == StatusChanges(frames) + ChangeOf(RunState(frames), f)
  {
    assert (frames + [f])[..|frames|] == frames;
  }

  /** A log line that holds no frame leaves the state alone, so the log's state is that of its frames. */
  lemma {:induction false} LogState(parse: Parser, raws: seq<string>)
    ensures StateAfter(parse, raws) == RunState(FramesOf(parse, raws))
    decreases |raws|
  {
    if raws == [] {
    } else {
      var front, raw := raws[..|raws| - 1], raws[|raws| - 1];
      LogState(parse, front);
      LogLineState(parse, StateAfter(parse, front), raw);
      match FrameOf(parse, raw)
      case None => assert FramesOf(parse, raws) == FramesOf(parse, front);
      case Some(f) => RunStateSnoc(FramesOf(parse, front), f);
    }
  }

  /** The texts written as part of `who`, in order. */
  function Texts(outs: seq<Output>, who: Origin): seq<string> {
    if outs == [] then []
    else
      var front, last := outs[..|outs| - 1], outs[|outs| - 1];
      if last.who == who then Texts(front, who) + [last.text] else Texts(front, who)
  }

  lemma {:induction false} TextsAppend(a: seq<Output>, b: seq<Output>, who: Origin)
    ensures Texts(a + b, who) == Texts(a, who) + Texts(b, who)
  {
    if b == [] {
      assert a + b == a;
    } else {
      assert (a + b)[..|a + b| - 1] == a + b[..|b| - 1];
      TextsAppend(a, b[..|b| - 1], who);
    }
  }

  lemma {:induction false} NoTexts(outs: seq<Output>, who: Origin)
    requires forall i :: 0 <= i < |outs| ==> outs[i].who != who
    ensures Texts(outs, who) == []
  {
    if outs == [] {
    } else {
      NoTexts(outs[..|outs| - 1], who);
    }
  }

  lemma {:induction false} LineTexts(lines: seq<string>)
    ensures Texts(LineOutputs(lines), Transcript) == EachLine(lines)
  {
    if lines == [] {
    } else {
      var front := lines[..|lines| - 1];
      LineTexts(front);
      assert LineOutputs(lines)[..|lines| - 1] == LineOutputs(front);
      assert EachLine(lines) == EachLine(front) + [lines[|lines| - 1] + "\n"];
    }
  }

  function EachLine(texts: seq<string>): seq<string> {
    seq(|texts|, i requires 0 <= i < |texts| => texts[i] + "\n")
  }

  function StatusOf(r: Rendering): Option<string> {
    if r.statusChanged then r.after.status else None
  }

  lemma StatusTextsOf(lines: seq<string>, status: Option<string>)
    ensures Texts(LineOutputs(lines) + StatusOutputs(PLAIN, true, status), Bottom)
        == (match status case Some(s) => [s + "\n"] case None => [])
  {
    var outs := LineOutputs(lines);
    NoTexts(outs, Bottom);
    match status
    case Some(s) =>
      var last := Output(Stdout, Bottom, s + "\n");
      assert (outs + [last])[..|outs|] == outs;
      assert StatusOutputs(PLAIN, true, status) == [last];
    case None => assert outs + [] == outs;
  }

  lemma OutputsSplit(parse: Parser, st: RailState, raw: string)
    ensures var r := RenderLogLine(parse, st, raw);
            OutputsOf(parse, st, raw)
                == LineOutputs(ShowAll(PLAIN, PieceLines(r.pieces))) + StatusOutputs(PLAIN, true, StatusOf(r))
  {
  }

  lemma OutputStatus(parse: Parser, st: RailState, raw: string)
    ensures Texts(OutputsOf(parse, st, raw), Bottom) ==
              EachLine(match FrameOf(parse, raw) case Some(f) => ChangeOf(st, f) case None => [])
  {
    var r := RenderLogLine(parse, st, raw);
    OutputsSplit(parse, st, raw);
    StatusTextsOf(ShowAll(PLAIN, PieceLines(r.pieces)), StatusOf(r));
  }

  lemma EachLineAppend(a: seq<string>, b: seq<string>)
    ensures EachLine(a + b) == EachLine(a) + EachLine(b)
  {
  }

  lemma ChangesSnoc(parse: Parser, raws: seq<string>)
    requires raws != []
    ensures var front, raw := raws[..|raws| - 1], raws[|raws| - 1];
            StatusChanges(FramesOf(parse, raws)) == StatusChanges(FramesOf(parse, front)) +
              match FrameOf(parse, raw) case Some(f) => ChangeOf(RunState(FramesOf(parse, front)), f) case None => []
  {
    var front, raw := raws[..|raws| - 1], raws[|raws| - 1];
    match FrameOf(parse, raw)
    case None => assert FramesOf(parse, raws) == FramesOf(parse, front);
    case Some(f) => RunStateSnoc(FramesOf(parse, front), f);
  }

  lemma {:induction false} PipedStatuses(parse: Parser, raws: seq<string>)
    ensures Texts(Piped(parse, raws), Bottom) == EachLine(StatusChanges(FramesOf(parse, raws)))
    decreases |raws|
  {
    if raws == [] {
    } else {
      var front, raw := raws[..|raws| - 1], raws[|raws| - 1];
      var st := StateAfter(parse, front);
      PipedStatuses(parse, front);
      LogState(parse, front);
      OutputStatus(parse, st, raw);
      TextsAppend(Piped(parse, front), OutputsOf(parse, st, raw), Bottom);
      ChangesSnoc(parse, raws);
      EachLineAppend(StatusChanges(FramesOf(parse, front)),
                     match FrameOf(parse, raw) case Some(f) => ChangeOf(st, f) case None => []);
    }
  }

  /**
   Off a terminal, the status lines on stdout are those of the HUD frames without immediate
   repetitions: each change is printed exactly once.
   */
  lemma StatusPrintedOnce(parse: Parser, raws: seq<string>)
    ensures Texts(Piped(parse, raws), Bottom) == EachLine(Dedup(FilterMap(HudStatus, FramesOf(parse, raws))))
  {
    PipedStatuses(parse, raws);
    StatusTracksHud(FramesOf(parse, raws));
  }

  /** The plain transcript lines of a log. */
  function PlainLines(parse: Parser, raws: seq<string>): seq<string> {
    if raws == [] then []
    else
      var front := raws[..|raws| - 1];
      PlainLines(parse, front) +
          ShowAll(PLAIN, PieceLines(RenderLogLine(parse, StateAfter(parse, front), raws[|raws| - 1]).pieces))
  }

  lemma OutputTranscript(parse: Parser, st: RailState, raw: string)
    ensures Texts(OutputsOf(parse, st, raw), Transcript)
        == EachLine(ShowAll(PLAIN, PieceLines(RenderLogLine(parse, st, raw).pieces)))
  {
    var r := RenderLogLine(parse, st, raw);
    var lines := ShowAll(PLAIN, PieceLines(r.pieces));
    OutputsSplit(parse, st, raw);
    LineTexts(lines);
    NoTexts(StatusOutputs(PLAIN, true, StatusOf(r)), Transcript);
    TextsAppend(LineOutputs(lines), StatusOutputs(PLAIN, true, StatusOf(r)), Transcript);
    assert EachLine(lines) + [] == EachLine(lines);
  }

  /** Off a terminal, the transcript writes are exactly the plain lines of the log, each ended by a line feed. */
  lemma {:induction false} TranscriptIsPlainLines(parse: Parser, raws: seq<string>)
    ensures Texts(Piped(parse, raws), Transcript) == EachLine(PlainLines(parse, raws))
    decreases |raws|
  {
    if raws == [] {
    } else {
      var front, raw := raws[..|raws| - 1], raws[|raws| - 1];
      var st := StateAfter(parse, front);
      TranscriptIsPlainLines(parse, front);
      OutputTranscript(parse, st, raw);
      TextsAppend(Piped(parse, front), OutputsOf(parse, st, raw), Transcript);
      EachLineAppend(PlainLines(parse, front), ShowAll(PLAIN, PieceLines(RenderLogLine(parse, st, raw).pieces)));
    }
  }

  predicate AllLogClean(bad: Control, parse: Parser, raws: seq<string>) {
    forall i :: 0 <= i < |raws| ==> LogClean(bad, parse, raws[i])
  }

  predicate PlainOutput(bad: Control, o: Output) {
    o.sink == Stdout && Free(bad, o.text)
  }

  lemma OutputPlain(bad: Control, parse: Parser, st: RailState, raw: string)
    requires LogClean(bad, parse, raw) && OptionClean(bad, st.status)
    ensures forall i :: 0 <= i < |OutputsOf(parse, st, raw)| ==> PlainOutput(bad, OutputsOf(parse, st, raw)[i])
    ensures OptionClean(bad, RenderLogLine(parse, st, raw).after.status)
  {
    LogRendersClean(bad, parse, st, raw);
    ShownClean(bad, PieceLines(RenderLogLine(parse, st, raw).pieces));
  }

  /** A log free of ESC, or of CR, is printed free of it, entirely on stdout: no prompt, no repaint, no colour. */
  lemma {:induction false} PipedIsPlain(bad: Control, parse: Parser, raws: seq<string>)
    requires AllLogClean(bad, parse, raws)
    ensures OptionClean(bad, StateAfter(parse, raws).status)
    ensures forall i :: 0 <= i < |Piped(parse, raws)| ==> PlainOutput(bad, Piped(parse, raws)[i])
    decreases |raws|
  {
    if raws == [] {
    } else {
      var front, raw := raws[..|raws| - 1], raws[|raws| - 1];
      PipedIsPlain(bad, parse, front);
      OutputPlain(bad, parse, StateAfter(parse, front), raw);
    }
  }

  lemma {:induction false} ShownLineClean(bad: Control, line: Line)
    requires LineFree(bad, line)
    ensures Free(bad, Show(PLAIN, line))
  {
    if line == [] {
    } else {
      ShownLineClean(bad, line[1..]);
    }
  }

  lemma ShownClean(bad: Control, lines: seq<Line>)
    requires LinesClean(bad, lines)
    ensures AllClean(bad, ShowAll(PLAIN, lines))
  {
    forall i | 0 <= i < |lines| ensures Free(bad, ShowAll(PLAIN, lines)[i]) { ShownLineClean(bad, lines[i]); }
  }
}
