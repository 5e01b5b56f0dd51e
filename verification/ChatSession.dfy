/**
 The live chat loop on a terminal: log lines, keystrokes, Enter presses and the handling
 of submitted input, in any order. A keystroke is echoed when it is typed; the loop sees
 the submitted line later, and other log lines may be handled in between.
 */
module ChatSession {
  import opened Base
  import opened Palette
  import opened ChatFrames
  import opened ChatRail
  import opened Terminal
  import opened TerminalRows
  import opened Printing

  datatype Event =
    | LogLine(raw: string)
    | Key(c: char)
    | Enter
    | InputHandled

  /** `painted` lists the statuses drawn and `emitted` the plain transcript lines printed so far. */
  datatype Session = Session(
    rail: RailState, drawn: bool, screen: Screen, painted: seq<Option<string>>, emitted: seq<string>)

  const LIVE: Palette := Palette(true)

  function Start(): Session {
    Session(FRESH, true, Display(BLANK, BottomOutputs(LIVE, None)), [None], [])
  }

  function Step(parse: Parser, s: Session, e: Event): Session
    requires Terminal.Valid(s.screen)
    ensures Terminal.Valid(Step(parse, s, e).screen)
  {
    match e
    case LogLine(raw) =>
      var r := RenderLogLine(parse, s.rail, raw);
      var lines := PieceLines(r.pieces);
      var outs := EmitOutputs(LIVE, s.drawn, ShowAll(LIVE, lines), r.statusChanged, r.after.status);
      if LogsAnything(r) then
        Session(r.after, true, Display(s.screen, outs), s.painted + [r.after.status],
                s.emitted + ShowAll(Palette(false), lines))
      else s.(rail := r.after, screen := Display(s.screen, outs))
    case Key(c) => s.(screen := Put(s.screen, c, Typed))
    case Enter => s.(screen := Put(s.screen, '\n', Typed))
    case InputHandled =>
      s.(drawn := true, screen := Display(s.screen, BottomOutputs(LIVE, s.rail.status)),
         painted := s.painted + [s.rail.status])
  }

  function Run(parse: Parser, events: seq<Event>): (s: Session)
    ensures Terminal.Valid(s.screen)
  {
    if events == [] then Start()
    else Step(parse, Run(parse, events[..|events| - 1]), events[|events| - 1])
  }

  /** Log text free of ESC, and keystrokes the terminal echoes as ordinary characters. */
  predicate EventClean(parse: Parser, e: Event) {
    match e
    case LogLine(raw) => LogClean(ESC, parse, raw)
    case Key(c) => c != ESC && c != '\n' && c != '\r'
    case _ => true
  }

  predicate AllEventsClean(parse: Parser, events: seq<Event>) {
    forall i :: 0 <= i < |events| ==> EventClean(parse, events[i])
  }

  // ----- one write group at a time -----

  /** The current row holds nothing of the transcript, and the bottom line is known to be up. */
  ghost predicate Calm(s: Session) {
    && s.drawn && s.screen.mode == Ground
    && Unmixed(s.screen.rows) && AllOn(s.screen.cur, false)
    && OptionClean(ESC, s.rail.status)
    && s.painted != [] && s.painted[|s.painted| - 1] == s.rail.status
  }

  predicate Fresh(sc: Screen) {
    sc.mode == Ground && sc.cur == [] && sc.col == 0
  }

  lemma DisplayOne(sc: Screen, out: Output)
    requires Terminal.Valid(sc)
    ensures Display(sc, [out]) == Write(sc, out.text, out.who)
  {
    assert [out][1..] == [];
  }

  /** One transcript line starts on an empty row and ends on an empty row. */
  lemma WriteLine(sc: Screen, line: Line)
    requires Terminal.Valid(sc) && Fresh(sc) && Unmixed(sc.rows) && LineFree(ESC, line)
    ensures var sc' := Write(sc, Show(LIVE, line) + "\n", Transcript);
            Fresh(sc') && Unmixed(sc'.rows) && sc' == Write(sc, Show(Palette(false), line) + "\n", Transcript)
  {
    WriteAppend(sc, Show(LIVE, line), "\n", Transcript);
    WriteAppend(sc, Show(Palette(false), line), "\n", Transcript);
    WriteStyled(sc, line, Transcript);
    Write1(Write(sc, Show(LIVE, line), Transcript), '\n', Transcript);
    WriteUnmixed(sc, Show(LIVE, line) + "\n", Transcript);
  }

  /** The rows `text` leaves behind when printed as a line of its own. */
  function RowsOf(text: string): seq<Row> {
    Write(BLANK, text + "\n", Transcript).rows
  }

  function AllRowsOf(texts: seq<string>): seq<Row> {
    if texts == [] then [] else AllRowsOf(texts[..|texts| - 1]) + RowsOf(texts[|texts| - 1])
  }

  lemma {:induction false} AllRowsAppend(a: seq<string>, b: seq<string>)
    ensures AllRowsOf(a + b) == AllRowsOf(a) + AllRowsOf(b)
  {
    if b == [] {
      assert a + b == a;
    } else {
      assert (a + b)[..|a + b| - 1] == a + b[..|b| - 1];
      AllRowsAppend(a, b[..|b| - 1]);
    }
  }

  /** What is written does not depend on the rows above. */
  lemma {:induction false} WriteShift(sc: Screen, rows: seq<Row>, text: string, who: Origin)
    requires Terminal.Valid(sc)
    ensures Write(sc.(rows := rows + sc.rows), text, who)
        == Write(sc, text, who).(rows := rows + Write(sc, text, who).rows)
    decreases |text|
  {
    if text == "" {
    } else {
      var next := Put(sc, text[0], who);
      assert Put(sc.(rows := rows + sc.rows), text[0], who) == next.(rows := rows + next.rows);
      WriteShift(next, rows, text[1..], who);
    }
  }

  lemma WriteLineRows(sc: Screen, line: Line)
    requires Terminal.Valid(sc) && Fresh(sc) && LineFree(ESC, line)
    ensures Write(sc, Show(LIVE, line) + "\n", Transcript).rows == sc.rows + RowsOf(Show(Palette(false), line))
  {
    WriteAppend(sc, Show(LIVE, line), "\n", Transcript);
    WriteAppend(sc, Show(Palette(false), line), "\n", Transcript);
    WriteStyled(sc, line, Transcript);
    WriteShift(BLANK, sc.rows, Show(Palette(false), line) + "\n", Transcript);
    assert BLANK.(rows := sc.rows + BLANK.rows) == sc;
  }

  lemma LinesSnoc(sc: Screen, front: seq<Line>, last: Line)
    requires Terminal.Valid(sc)
    ensures Display(sc, LineOutputs(ShowAll(LIVE, front + [last]))) ==
              Write(Display(sc, LineOutputs(ShowAll(LIVE, front))), Show(LIVE, last) + "\n", Transcript)
  {
    var out := Output(Stdout, Transcript, Show(LIVE, last) + "\n");
    assert LineOutputs(ShowAll(LIVE, front + [last])) == LineOutputs(ShowAll(LIVE, front)) + [out];
    DisplayAppend(sc, LineOutputs(ShowAll(LIVE, front)), [out]);
    DisplayOne(Display(sc, LineOutputs(ShowAll(LIVE, front))), out);
  }

  lemma RowsSnoc(front: seq<Line>, last: Line)
    ensures AllRowsOf(ShowAll(Palette(false), front + [last])) ==
              AllRowsOf(ShowAll(Palette(false), front)) + RowsOf(Show(Palette(false), last))
  {
    var plain := ShowAll(Palette(false), front + [last]);
    assert plain[..|plain| - 1] == ShowAll(Palette(false), front);
  }

  /** A block of transcript lines starts and ends on an empty row. */
  lemma {:induction false} WriteLines(sc: Screen, lines: seq<Line>)
    requires Terminal.Valid(sc) && Fresh(sc) && Unmixed(sc.rows) && LinesClean(ESC, lines)
    ensures var sc' := Display(sc, LineOutputs(ShowAll(LIVE, lines))); Fresh(sc') && Unmixed(sc'.rows)
    decreases |lines|
  {
    if lines == [] {
      assert LineOutputs(ShowAll(LIVE, lines)) == [];
    } else {
      var front, last := lines[..|lines| - 1], lines[|lines| - 1];
      assert lines == front + [last];
      WriteLines(sc, front);
      LinesSnoc(sc, front, last);
      WriteLine(Display(sc, LineOutputs(ShowAll(LIVE, front))), last);
    }
  }

  /** It occupies rows of its own, those of its plain text. */
  lemma {:induction false} WriteLinesRows(sc: Screen, lines: seq<Line>)
    requires Terminal.Valid(sc) && Fresh(sc) && Unmixed(sc.rows) && LinesClean(ESC, lines)
    ensures Display(sc, LineOutputs(ShowAll(LIVE, lines))).rows == sc.rows + AllRowsOf(ShowAll(Palette(false), lines))
    decreases |lines|
  {
    if lines == [] {
      assert LineOutputs(ShowAll(LIVE, lines)) == [];
    } else {
      var front, last := lines[..|lines| - 1], lines[|lines| - 1];
      assert lines == front + [last];
      WriteLinesRows(sc, front);
      WriteLines(sc, front);
      LinesSnoc(sc, front, last);
      var mid := Display(sc, LineOutputs(ShowAll(LIVE, front)));
      WriteLineRows(mid, last);
      RowsSnoc(front, last);
      Associate(sc.rows, AllRowsOf(ShowAll(Palette(false), front)), RowsOf(Show(Palette(false), last)));
    }
  }

  /** Painting the bottom line stays clear of the transcript's rows. */
  lemma DrawStays(sc: Screen, status: Option<string>)
    requires Terminal.Valid(sc) && sc.mode == Ground
    requires Unmixed(sc.rows) && AllOn(sc.cur, false) && OptionClean(ESC, status)
    ensures var sc' := Display(sc, BottomOutputs(LIVE, status));
            sc'.mode == Ground && Unmixed(sc'.rows) && AllOn(sc'.cur, false)
  {
    var mid := sc;
    if status.Some? {
      DrawStatus(sc, status.value);
      mid := Write(sc, LIVE.Paint(Dim, status.value) + " ", Bottom);
      assert BottomOutputs(LIVE, status)[1..] == [Output(Stderr, Bottom, "> ")];
    }
    DisplayOne(mid, Output(Stderr, Bottom, "> "));
    WriteUnmixed(mid, "> ", Bottom);
    WriteGround(mid, "> ", Bottom);
  }

  lemma DrawStatus(sc: Screen, text: string)
    requires Terminal.Valid(sc) && sc.mode == Ground && Unmixed(sc.rows) && AllOn(sc.cur, false) && Free(ESC, text)
    ensures var sc' := Write(sc, LIVE.Paint(Dim, text) + " ", Bottom);
            sc'.mode == Ground && Unmixed(sc'.rows) && AllOn(sc'.cur, false)
  {
    WriteUnmixed(sc, LIVE.Paint(Dim, text) + " ", Bottom);
    WriteAppend(sc, LIVE.Paint(Dim, text), " ", Bottom);
    WriteSpan(sc, Styled(Dim, text), Bottom);
    WriteGround(Write(sc, text, Bottom), " ", Bottom);
  }

  ghost predicate BrokenStatus(painted: seq<Option<string>>) {
    exists k :: 0 <= k < |painted| && painted[k].Some? && '\n' in painted[k].value
  }

  // ----- the parts of one emit and of one redraw -----

  lemma EmitParts(sc: Screen, lines: seq<string>, statusChanged: bool, status: Option<string>)
    requires Terminal.Valid(sc) && sc.mode == Ground && (lines != [] || statusChanged)
    ensures Display(sc, EmitOutputs(LIVE, true, lines, statusChanged, status)) ==
              Display(Display(sc.(cur := [], col := 0), LineOutputs(lines)), BottomOutputs(LIVE, status))
  {
    var clear := [Output(Stdout, Bottom, REPAINT)];
    assert ClearOutputs(LIVE, true) == clear;
    assert EmitOutputs(LIVE, true, lines, statusChanged, status)
        == clear + (LineOutputs(lines) + BottomOutputs(LIVE, status));
    DisplayAppend(sc, clear, LineOutputs(lines) + BottomOutputs(LIVE, status));
    DisplayOne(sc, clear[0]);
    WriteRepaint(sc, Bottom);
    DisplayAppend(sc.(cur := [], col := 0), LineOutputs(lines), BottomOutputs(LIVE, status));
  }

  /** Drawing the bottom line adds no transcript row, and a row of its own only for a line break in the status. */
  lemma DrawRows(sc: Screen, status: Option<string>)
    requires Terminal.Valid(sc) && sc.mode == Ground && OptionClean(ESC, status)
    ensures var rows := Display(sc, BottomOutputs(LIVE, status)).rows;
            && OnlyTranscript(rows) == OnlyTranscript(sc.rows)
            && (HasBottomRow(rows) <==> HasBottomRow(sc.rows) || (status.Some? && '\n' in status.value))
  {
    var prompt := Output(Stderr, Bottom, "> ");
    var mid := sc;
    if status.Some? {
      var out := Output(Stdout, Bottom, LIVE.Paint(Dim, status.value) + " ");
      mid := Write(sc, out.text, Bottom);
      assert BottomOutputs(LIVE, status) == [out] + [prompt];
      DisplayAppend(sc, [out], [prompt]);
      DisplayOne(sc, out);
      WriteOthers(sc, out.text, Bottom);
      WriteAppend(sc, LIVE.Paint(Dim, status.value), " ", Bottom);
      WriteSpan(sc, Styled(Dim, status.value), Bottom);
      WriteBottomRow(sc, status.value);
      WriteBottomRow(Write(sc, status.value, Bottom), " ");
      WriteGround(Write(sc, status.value, Bottom), " ", Bottom);
    }
    DisplayOne(mid, prompt);
    WriteOthers(mid, "> ", Bottom);
    WriteBottomRow(mid, "> ");
  }
}
