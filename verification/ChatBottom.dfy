/** The row under the transcript: status, prompt and what the user has typed, over a whole session. */
module ChatBottom {
  import opened Base
  import opened Palette
  import opened ChatFrames
  import opened ChatRail
  import opened Terminal
  import opened TerminalRows
  import opened Printing
  import opened ChatSession
  import opened ChatSafety

  // ----- drawing the bottom line -----

  function BottomText(status: Option<string>): string {
    (match status case Some(t) => t + " " case None => "") + "> "
  }

  function BottomCells(status: Option<string>): seq<Cell> { Cells(BottomText(status), Bottom) }

  predicate AtEnd(sc: Screen) { sc.mode == Ground && sc.col == |sc.cur| }

  /** `sc` with more cells at the end of its row. */
  function Appended(sc: Screen, cells: seq<Cell>): Screen {
    sc.(cur := sc.cur + cells, col := sc.col + |cells|)
  }

  lemma StatusAtEnd(sc: Screen, text: string)
    requires AtEnd(sc) && Printable(text)
    ensures Write(sc, LIVE.Paint(Dim, text) + " ", Bottom) == Appended(sc, Cells(text + " ", Bottom))
  {
    WriteAppend(sc, LIVE.Paint(Dim, text), " ", Bottom);
    WriteSpan(sc, Styled(Dim, text), Bottom);
    WriteAppend(sc, text, " ", Bottom);
    WritePrintable(sc, text + " ", Bottom);
  }

  /** Drawing the bottom line at the end of the row appends status and prompt to it. */
  lemma BottomAtEnd(sc: Screen, status: Option<string>)
    requires AtEnd(sc) && (status.Some? ==> Printable(status.value))
    ensures Display(sc, BottomOutputs(LIVE, status)) == Appended(sc, BottomCells(status))
  {
    var prompt := Output(Stderr, Bottom, "> ");
    match status
    case None =>
      assert BottomOutputs(LIVE, status) == [prompt] && BottomText(status) == "> ";
    case Some(text) =>
      var out, shown := Output(Stdout, Bottom, LIVE.Paint(Dim, text) + " "), Cells(text + " ", Bottom);
      assert BottomOutputs(LIVE, status) == [out] + [prompt];
      DisplayAppend(sc, [out], [prompt]);
      DisplayOne(sc, out);
      StatusAtEnd(sc, text);
      Associate(sc.cur, shown, Cells("> ", Bottom));
      assert shown + Cells("> ", Bottom) == BottomCells(status);
  }

  /** The current row holds `cells`, and writing goes on after them. */
  predicate RowIs(sc: Screen, cells: seq<Cell>) { (sc.cur, sc.col, sc.mode) == (cells, |cells|, Ground) }

  lemma BottomOnFresh(sc: Screen, status: Option<string>)
    requires Fresh(sc) && (status.Some? ==> Printable(status.value))
    ensures RowIs(Display(sc, BottomOutputs(LIVE, status)), BottomCells(status))
  {
    BottomAtEnd(sc, status);
    assert [] + BottomCells(status) == BottomCells(status);
  }

  /** Right after an emit, the current row shows the current status and the prompt, and nothing else. */
  lemma BottomShown(sc: Screen, lines: seq<Line>, statusChanged: bool, status: Option<string>)
    requires Terminal.Valid(sc) && sc.mode == Ground && Unmixed(sc.rows) && LinesClean(ESC, lines)
    requires lines != [] || statusChanged
    requires status.Some? ==> Printable(status.value)
    ensures var outs := EmitOutputs(LIVE, true, ShowAll(LIVE, lines), statusChanged, status);
            RowIs(Display(sc, outs), BottomCells(status))
  {
    var blank := sc.(cur := [], col := 0);
    EmitParts(sc, ShowAll(LIVE, lines), statusChanged, status);
    WriteLines(blank, lines);
    BottomOnFresh(Display(blank, LineOutputs(ShowAll(LIVE, lines))), status);
  }

  // ----- the row over a session -----

  predicate Prints(parse: Parser, s: Session, raw: string) { LogsAnything(RenderLogLine(parse, s.rail, raw)) }

  /**
   What an event makes of the row: a log line that prints anything repaints it, a key is echoed on it,
   Enter leaves it, and handled input draws the bottom line on it without clearing it first.
   */
  function RowAfter(parse: Parser, s: Session, e: Event, row: seq<Cell>): seq<Cell> {
    match e
    case LogLine(raw) =>
      if Prints(parse, s, raw) then BottomCells(RenderLogLine(parse, s.rail, raw).after.status) else row
    case Key(c) => row + [Cell(c, Typed)]
    case Enter => []
    case InputHandled => row + BottomCells(s.rail.status)
  }

  /** The current row after `events`. */
  function CurrentRow(parse: Parser, events: seq<Event>): seq<Cell> {
    if events == [] then BottomCells(None)
    else
      var front := events[..|events| - 1];
      RowAfter(parse, Run(parse, front), events[|events| - 1], CurrentRow(parse, front))
  }

  predicate PrintableStatus(status: Option<string>) { status.Some? ==> Printable(status.value) }

  predicate AllPrintable(painted: seq<Option<string>>) {
    forall k :: 0 <= k < |painted| ==> PrintableStatus(painted[k])
  }

  lemma PaintedGrows(parse: Parser, s: Session, e: Event)
    requires Terminal.Valid(s.screen) && AllPrintable(Step(parse, s, e).painted)
    ensures AllPrintable(s.painted)
  {
    var after := Step(parse, s, e).painted;
    forall k | 0 <= k < |s.painted| ensures PrintableStatus(s.painted[k]) {
      assert after[k] == s.painted[k];
    }
  }

  lemma RowAfterLog(parse: Parser, s: Session, raw: string)
    requires Terminal.Valid(s.screen) && Calm(s) && LogClean(ESC, parse, raw) && Prints(parse, s, raw)
    requires PrintableStatus(RenderLogLine(parse, s.rail, raw).after.status)
    ensures var s' := Step(parse, s, LogLine(raw)); RowIs(s'.screen, BottomCells(s'.rail.status))
  {
    var r := RenderLogLine(parse, s.rail, raw);
    LogRendersClean(ESC, parse, s.rail, raw);
    BottomShown(s.screen, PieceLines(r.pieces), r.statusChanged, r.after.status);
  }

  lemma SilentLog(parse: Parser, s: Session, raw: string)
    requires Terminal.Valid(s.screen) && Calm(s) && !Prints(parse, s, raw)
    ensures Step(parse, s, LogLine(raw)).screen == s.screen && Step(parse, s, LogLine(raw)).rail.status == s.rail.status
  {
    UnchangedStatus(parse, s.rail, raw);
    var r := RenderLogLine(parse, s.rail, raw);
    assert EmitOutputs(LIVE, true, ShowAll(LIVE, PieceLines(r.pieces)), false, r.after.status) == [];
  }

  lemma RowDrawn(sc: Screen, row: seq<Cell>, status: Option<string>)
    requires RowIs(sc, row) && PrintableStatus(status)
    ensures RowIs(Display(sc, BottomOutputs(LIVE, status)), row + BottomCells(status))
  {
    BottomAtEnd(sc, status);
  }

  lemma RowStep(parse: Parser, s: Session, e: Event, row: seq<Cell>)
    requires RowIs(s.screen, row) && Calm(s) && ChatSession.EventClean(parse, e)
    requires PrintableStatus(s.rail.status) && PrintableStatus(Step(parse, s, e).rail.status)
    ensures RowIs(Step(parse, s, e).screen, RowAfter(parse, s, e, row))
  {
    match e
    case LogLine(raw) => if Prints(parse, s, raw) { RowAfterLog(parse, s, raw); } else { SilentLog(parse, s, raw); }
    case Key(_) =>
    case Enter =>
    case InputHandled => RowDrawn(s.screen, row, s.rail.status);
  }

  /** As long as no painted status has a control character, that is what the screen shows. */
  lemma {:induction false} RowShown(parse: Parser, events: seq<Event>)
    requires AllEventsClean(parse, events) && AllPrintable(Run(parse, events).painted)
    ensures RowIs(Run(parse, events).screen, CurrentRow(parse, events))
    decreases |events|
  {
    SessionSafe(parse, events);
    if events == [] {
      RowDrawn(BLANK, [], None);
      assert [] + BottomCells(None) == BottomCells(None);
    } else {
      var front, e := events[..|events| - 1], events[|events| - 1];
      var s := Run(parse, front);
      PaintedGrows(parse, s, e);
      RowShown(parse, front);
      SessionSafe(parse, front);
      var painted, later := s.painted, Run(parse, events).painted;
      assert PrintableStatus(painted[|painted| - 1]) && PrintableStatus(later[|later| - 1]);
      assert ChatSession.EventClean(parse, e);
      RowStep(parse, s, e, CurrentRow(parse, front));
    }
  }

  // ----- when the row is one bottom line and what was typed after it -----

  /** Repainted by a log line, or drawn on an empty row; and the user has not pressed Enter since. */
  predicate Tidy(parse: Parser, events: seq<Event>) {
    if events == [] then true
    else
      var front := events[..|events| - 1];
      match events[|events| - 1]
      case LogLine(raw) => Prints(parse, Run(parse, front), raw) || Tidy(parse, front)
      case Key(_) => Tidy(parse, front)
      case Enter => false
      case InputHandled => CurrentRow(parse, front) == []
  }

  ghost predicate OneBottomLine(row: seq<Cell>, status: Option<string>) {
    exists typed: string :: row == BottomCells(status) + Cells(typed, Typed)
  }

  function Painted(row: seq<Cell>): nat {
    if row == [] then 0 else Painted(row[..|row| - 1]) + if row[|row| - 1].who == Bottom then 1 else 0
  }

  lemma {:induction false} PaintedAppend(a: seq<Cell>, b: seq<Cell>)
    ensures Painted(a + b) == Painted(a) + Painted(b)
  {
    if b == [] {
      assert a + b == a;
    } else {
      PaintedAppend(a, b[..|b| - 1]);
      assert (a + b)[..|a + b| - 1] == a + b[..|b| - 1];
    }
  }

  lemma {:induction false} PaintedCells(text: string, who: Origin)
    ensures Painted(Cells(text, who)) == if who == Bottom then |text| else 0
  {
    if text == "" {
    } else {
      PaintedCells(text[..|text| - 1], who);
      assert Cells(text, who)[..|text| - 1] == Cells(text[..|text| - 1], who);
    }
  }

  /** Empty, begun by typing, or drawn upon more than once. */
  predicate Untidy(row: seq<Cell>, status: Option<string>) {
    row == [] || row[0].who == Typed || Painted(row) > |BottomCells(status)|
  }

  lemma UntidyIsNotOne(row: seq<Cell>, status: Option<string>)
    requires Untidy(row, status)
    ensures !OneBottomLine(row, status)
  {
    forall typed: string ensures row != BottomCells(status) + Cells(typed, Typed) {
      var one := BottomCells(status) + Cells(typed, Typed);
      PaintedAppend(BottomCells(status), Cells(typed, Typed));
      PaintedCells(BottomText(status), Bottom);
      PaintedCells(typed, Typed);
      assert one[0] == BottomCells(status)[0];
    }
  }

  lemma TypeOn(row: seq<Cell>, status: Option<string>, c: char)
    ensures OneBottomLine(row, status) ==> OneBottomLine(row + [Cell(c, Typed)], status)
    ensures Untidy(row, status) ==> Untidy(row + [Cell(c, Typed)], status)
  {
    if OneBottomLine(row, status) {
      var typed: string :| row == BottomCells(status) + Cells(typed, Typed);
      assert row + [Cell(c, Typed)] == BottomCells(status) + Cells(typed + [c], Typed);
    }
    PaintedAppend(row, [Cell(c, Typed)]);
  }

  lemma DrawOn(row: seq<Cell>, status: Option<string>)
    requires OneBottomLine(row, status) || Untidy(row, status)
    ensures if row == [] then OneBottomLine(row + BottomCells(status), status)
        else Untidy(row + BottomCells(status), status)
  {
    PaintedAppend(row, BottomCells(status));
    PaintedCells(BottomText(status), Bottom);
    if row == [] {
      FreshLine(status);
      assert row + BottomCells(status) == BottomCells(status);
    } else if OneBottomLine(row, status) {
      var typed: string :| row == BottomCells(status) + Cells(typed, Typed);
      PaintedAppend(BottomCells(status), Cells(typed, Typed));
    }
  }

  lemma FreshLine(status: Option<string>)
    ensures OneBottomLine(BottomCells(status), status)
  {
    assert BottomCells(status) == BottomCells(status) + Cells("", Typed);
  }

  lemma {:induction false} TidyOrNot(parse: Parser, events: seq<Event>)
    requires AllEventsClean(parse, events)
    ensures var row, status := CurrentRow(parse, events), Run(parse, events).rail.status;
            if Tidy(parse, events) then OneBottomLine(row, status) else Untidy(row, status)
    decreases |events|
  {
    if events == [] {
      FreshLine(None);
    } else {
      var front, e := events[..|events| - 1], events[|events| - 1];
      var row, s := CurrentRow(parse, front), Run(parse, front);
      TidyOrNot(parse, front);
      SessionSafe(parse, front);
      match e
      case LogLine(raw) =>
        if Prints(parse, s, raw) {
          FreshLine(RenderLogLine(parse, s.rail, raw).after.status);
        } else {
          SilentLog(parse, s, raw);
        }
      case Key(c) => TypeOn(row, s.rail.status, c);
      case Enter =>
      case InputHandled => DrawOn(row, s.rail.status);
    }
  }

  /**
   The row shows the current status and prompt once, followed by what was typed since, exactly when
   it was last repainted by a log line or drawn while empty, and not left by Enter since.
   */
  lemma TidyExactly(parse: Parser, events: seq<Event>)
    requires AllEventsClean(parse, events)
    ensures Tidy(parse, events) <==> OneBottomLine(CurrentRow(parse, events), Run(parse, events).rail.status)
  {
    TidyOrNot(parse, events);
    if !Tidy(parse, events) { UntidyIsNotOne(CurrentRow(parse, events), Run(parse, events).rail.status); }
  }

  function NoFrame(raw: string): Option<Frame> { None }

  /** Without frames there is never a status. */
  lemma {:induction false} NoStatus(events: seq<Event>)
    ensures var s := Run(NoFrame, events);
            s.rail.status == None && forall k :: 0 <= k < |s.painted| ==> s.painted[k] == None
    decreases |events|
  {
    if events == [] {
    } else {
      NoStatus(events[..|events| - 1]);
    }
  }

  /** A log line between Enter and the handling of the input: the screen shows the prompt twice on one row. */
  lemma PromptTwice()
    ensures Run(NoFrame, [Enter, LogLine("hi"), InputHandled]).screen.cur == Cells("> > ", Bottom)
  {
    var events := [Enter, LogLine("hi"), InputHandled];
    NoStatus(events);
    assert TrimEol("hi") == "hi";
    RowShown(NoFrame, events);
  }

  // ----- a status that leaves rows behind -----

  /** A log whose one frame has a status of two lines. */
  function TwoLineStatus(raw: string): Option<Frame> {
    Some(Breadcrumb(Crumb("sh", None, Running, Some("a\nb"), [Crumb("sh", None, Running, None, [])])))
  }

  lemma TwoLineClean()
    ensures AllEventsClean(TwoLineStatus, [LogLine("{")])
  {
    var step := Crumb("sh", None, Running, None, []);
    assert CrumbClean(ESC, step);
    assert CrumbClean(ESC, Crumb("sh", None, Running, Some("a\nb"), [step]));
    assert TrimEol("{") == "{";
  }

  lemma StatusLeftBehind()
    ensures HasBottomRow(Run(TwoLineStatus, [LogLine("{")]).screen.rows)
  {
    TwoLineClean();
    SessionSafe(TwoLineStatus, [LogLine("{")]);
    var painted := Run(TwoLineStatus, [LogLine("{")]).painted;
    assert "a\nb"[1] == '\n' && painted[1] == Some("a\nb");
  }
}
