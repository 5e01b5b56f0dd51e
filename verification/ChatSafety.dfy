/** What every session keeps: no transcript row is lost, changed or shared, and what is left behind is known. */
module ChatSafety {
  import opened Base
  import opened Palette
  import opened ChatFrames
  import opened ChatRail
  import opened Terminal
  import opened TerminalRows
  import opened Printing
  import opened ChatSession

  /** The transcript rows on screen are those of the lines printed, and only a broken status leaves rows behind. */
  ghost predicate Ledger(s: Session) {
    && OnlyTranscript(s.screen.rows) == AllRowsOf(s.emitted)
    && (HasBottomRow(s.screen.rows) <==> BrokenStatus(s.painted))
  }

  lemma PaintedMore(painted: seq<Option<string>>, status: Option<string>)
    ensures BrokenStatus(painted + [status]) <==> BrokenStatus(painted) || (status.Some? && '\n' in status.value)
  {
    assert (painted + [status])[|painted|] == status;
    assert forall k :: 0 <= k < |painted| ==> (painted + [status])[k] == painted[k];
  }

  /** The status line only changes when the frame says so. */
  lemma UnchangedStatus(parse: Parser, st: RailState, raw: string)
    requires !RenderLogLine(parse, st, raw).statusChanged
    ensures RenderLogLine(parse, st, raw).after.status == st.status
  {
  }

  /** The screen after an emit: cleared, printed, redrawn. */
  lemma EmitScreen(sc: Screen, lines: seq<Line>, statusChanged: bool, status: Option<string>)
    requires Terminal.Valid(sc) && sc.mode == Ground
    requires Unmixed(sc.rows) && LinesClean(ESC, lines) && OptionClean(ESC, status)
    requires lines != [] || statusChanged
    ensures var sc' := Display(sc, EmitOutputs(LIVE, true, ShowAll(LIVE, lines), statusChanged, status));
            && sc'.mode == Ground && Unmixed(sc'.rows) && AllOn(sc'.cur, false)
            && OnlyTranscript(sc'.rows) == OnlyTranscript(sc.rows) + AllRowsOf(ShowAll(Palette(false), lines))
            && (HasBottomRow(sc'.rows) <==> HasBottomRow(sc.rows) || (status.Some? && '\n' in status.value))
  {
    var texts := ShowAll(Palette(false), lines);
    var blank := sc.(cur := [], col := 0);
    var mid := Display(blank, LineOutputs(ShowAll(LIVE, lines)));
    EmitParts(sc, ShowAll(LIVE, lines), statusChanged, status);
    WriteLines(blank, lines);
    WriteLinesRows(blank, lines);
    AllRowsEnds(texts);
    MoreTranscript(sc.rows, AllRowsOf(texts));
    LinesNoBottom(sc, AllRowsOf(texts));
    DrawStays(mid, status);
    DrawRows(mid, status);
  }

  lemma {:induction false} AllRowsEnds(texts: seq<string>)
    ensures forall i :: 0 <= i < |AllRowsOf(texts)| ==> AllRowsOf(texts)[i].endedBy == Transcript
  {
    if texts == [] {
    } else {
      AllRowsEnds(texts[..|texts| - 1]);
      WriteEnds(BLANK, texts[|texts| - 1] + "\n", Transcript);
    }
  }

  lemma LogStep(parse: Parser, s: Session, raw: string)
    requires Terminal.Valid(s.screen) && Calm(s) && Ledger(s) && LogClean(ESC, parse, raw)
    ensures Calm(Step(parse, s, LogLine(raw))) && Ledger(Step(parse, s, LogLine(raw)))
  {
    var r := RenderLogLine(parse, s.rail, raw);
    var lines := PieceLines(r.pieces);
    LogRendersClean(ESC, parse, s.rail, raw);
    if LogsAnything(r) {
      EmitScreen(s.screen, lines, r.statusChanged, r.after.status);
      PaintedMore(s.painted, r.after.status);
      AllRowsAppend(s.emitted, ShowAll(Palette(false), lines));
    } else {
      UnchangedStatus(parse, s.rail, raw);
      assert EmitOutputs(LIVE, true, ShowAll(LIVE, lines), false, r.after.status) == [];
    }
  }

  lemma InputStep(parse: Parser, s: Session)
    requires Terminal.Valid(s.screen) && Calm(s) && Ledger(s)
    ensures Calm(Step(parse, s, InputHandled)) && Ledger(Step(parse, s, InputHandled))
  {
    DrawStays(s.screen, s.rail.status);
    DrawRows(s.screen, s.rail.status);
    PaintedMore(s.painted, s.rail.status);
  }

  /**
   Over every interleaving: no row ever mixes transcript text with the status, the prompt
   or typed text; the transcript rows are exactly those of the lines printed, in order; the
   last painted status is the current one; and a row of the bottom line is left behind,
   other than by the user's Enter, exactly when some painted status contains a line break.
   */
  lemma {:induction false} SessionSafe(parse: Parser, events: seq<Event>)
    requires AllEventsClean(parse, events)
    ensures Calm(Run(parse, events)) && Ledger(Run(parse, events))
    decreases |events|
  {
    if events == [] {
      DrawStays(BLANK, None);
      DrawRows(BLANK, None);
    } else {
      SessionSafe(parse, events[..|events| - 1]);
      var s, e := Run(parse, events[..|events| - 1]), events[|events| - 1];
      assert ChatSession.EventClean(parse, e);
      match e
      case LogLine(raw) => LogStep(parse, s, raw);
      case Key(c) =>
      case Enter =>
      case InputHandled => InputStep(parse, s);
    }
  }

  lemma StepGrows(parse: Parser, s: Session, e: Event)
    requires Terminal.Valid(s.screen)
    ensures s.screen.rows <= Step(parse, s, e).screen.rows
  {
    match e
    case LogLine(raw) =>
      var r := RenderLogLine(parse, s.rail, raw);
      DisplayGrows(s.screen,
          EmitOutputs(LIVE, s.drawn, ShowAll(LIVE, PieceLines(r.pieces)), r.statusChanged, r.after.status));
    case InputHandled => DisplayGrows(s.screen, BottomOutputs(LIVE, s.rail.status));
    case _ =>
  }

  /** A finished row is never erased or changed by anything that happens later. */
  lemma {:induction false} NothingErased(parse: Parser, events: seq<Event>, n: nat)
    requires n <= |events|
    ensures Run(parse, events[..n]).screen.rows <= Run(parse, events).screen.rows
    decreases |events|
  {
    if n == |events| {
      assert events[..n] == events;
    } else {
      var front := events[..|events| - 1];
      assert front[..n] == events[..n];
      NothingErased(parse, front, n);
      StepGrows(parse, Run(parse, front), events[|events| - 1]);
    }
  }

  /** A line without control characters becomes one row with exactly its text. */
  lemma PrintableRow(text: string)
    requires Printable(text)
    ensures RowsOf(text) == [Row(Cells(text, Transcript), Transcript)]
  {
    WriteAppend(BLANK, text, "\n", Transcript);
    WritePrintable(BLANK, text, Transcript);
    Write1(Write(BLANK, text, Transcript), '\n', Transcript);
    assert [] + Cells(text, Transcript) == Cells(text, Transcript);
  }
}
