/**
 A terminal as the chat client uses it: finished rows above one current row. It knows
 LF, CR, Erase in Line to the end (ECMA-48 section 8.3.41) and SGR (section 8.3.117).
 Every cell remembers who wrote it.
 */
module Terminal {
  import opened Palette

  datatype Origin = Transcript | Bottom | Typed

  datatype Cell = Cell(ch: char, who: Origin)

  /** A finished row and who ended it. */
  datatype Row = Row(cells: seq<Cell>, endedBy: Origin)

  datatype Mode = Ground | AfterEsc | Csi(params: string)

  datatype Screen = Screen(rows: seq<Row>, cur: seq<Cell>, col: nat, mode: Mode)

  const BLANK: Screen := Screen([], [], 0, Ground)

  predicate Valid(s: Screen) {
    s.col <= |s.cur|
  }

  function Put(s: Screen, c: char, who: Origin): (s': Screen)
    requires Valid(s)
    ensures Valid(s')
  {
    match s.mode
    case Ground =>
      if c == ESC then s.(mode := AfterEsc)
      else if c == '\n' then Screen(s.rows + [Row(s.cur, who)], [], 0, Ground)
      else if c == '\r' then s.(col := 0)
      else if s.col < |s.cur| then s.(cur := s.cur[s.col := Cell(c, who)], col := s.col + 1)
      else s.(cur := s.cur + [Cell(c, who)], col := s.col + 1)
    case AfterEsc => s.(mode := if c == '[' then Csi("") else Ground)
    case Csi(params) =>
      if IsParam(c) then s.(mode := Csi(params + [c]))
      else if c == 'K' && params == "" then s.(cur := s.cur[..s.col], mode := Ground)
      else s.(mode := Ground)
  }

  function Write(s: Screen, text: string, who: Origin): (s': Screen)
    requires Valid(s)
    ensures Valid(s')
    decreases |text|
  {
    if text == "" then s else Write(Put(s, text[0], who), text[1..], who)
  }

  lemma {:induction false} WriteAppend(s: Screen, a: string, b: string, who: Origin)
    requires Valid(s)
    ensures Write(s, a + b, who) == Write(Write(s, a, who), b, who)
    decreases |a|
  {
    if a == "" {
      assert a + b == b;
    } else {
      assert (a + b)[1..] == a[1..] + b;
      WriteAppend(Put(s, a[0], who), a[1..], b, who);
    }
  }

  // ----- escape sequences -----

  lemma {:induction false} WriteParams(s: Screen, seen: string, params: string, who: Origin)
    requires Valid(s) && s.mode == Csi(seen)
    requires forall i :: 0 <= i < |params| ==> IsParam(params[i])
    ensures Write(s, params, who) == s.(mode := Csi(seen + params))
    decreases |params|
  {
    if params == "" {
      assert seen + params == seen;
    } else {
      WriteParams(s.(mode := Csi(seen + [params[0]])), seen + [params[0]], params[1..], who);
      assert seen + [params[0]] + params[1..] == seen + params;
    }
  }

  /** Styling codes do not move the cursor or touch a cell. */
  lemma WriteSgr(s: Screen, params: string, who: Origin)
    requires Valid(s) && s.mode == Ground
    requires forall i :: 0 <= i < |params| ==> IsParam(params[i])
    ensures Write(s, Sgr(params), who) == s
  {
    var s1 := s.(mode := Csi(""));
    WriteAppend(s, [ESC, '['] + params, ['m'], who);
    WriteAppend(s, [ESC, '['], params, who);
    Write2(s, ESC, '[', who);
    WriteParams(s1, "", params, who);
    assert "" + params == params;
    Write1(s1.(mode := Csi(params)), 'm', who);
  }

  lemma Write1(s: Screen, c: char, who: Origin)
    requires Valid(s)
    ensures Write(s, [c], who) == Put(s, c, who)
  {
    assert [c][1..] == "";
  }

  lemma Write2(s: Screen, c: char, d: char, who: Origin)
    requires Valid(s)
    ensures Write(s, [c, d], who) == Put(Put(s, c, who), d, who)
  {
    assert [c, d] == [c] + [d];
    WriteAppend(s, [c], [d], who);
    Write1(s, c, who);
    Write1(Put(s, c, who), d, who);
  }

  /** The repaint prefix blanks the current row and nothing else. */
  lemma WriteRepaint(s: Screen, who: Origin)
    requires Valid(s) && s.mode == Ground
    ensures Write(s, REPAINT, who) == s.(cur := [], col := 0)
  {
    assert REPAINT == ['\r', ESC] + ['[', 'K'];
    WriteAppend(s, ['\r', ESC], ['[', 'K'], who);
    Write2(s, '\r', ESC, who);
    Write2(Put(Put(s, '\r', who), ESC, who), '[', 'K', who);
  }

  /** Text free of ESC leaves the terminal out of any escape sequence. */
  lemma {:induction false} WriteGround(s: Screen, text: string, who: Origin)
    requires Valid(s) && s.mode == Ground && Free(ESC, text)
    ensures Write(s, text, who).mode == Ground
    decreases |text|
  {
    if text == "" {
    } else {
      WriteGround(Put(s, text[0], who), text[1..], who);
    }
  }

  lemma WriteSpan(s: Screen, span: Span, who: Origin)
    requires Valid(s) && s.mode == Ground && Free(ESC, span.text)
    ensures Write(s, ShowSpan(Palette(true), span), who) == Write(s, span.text, who)
    ensures Write(s, span.text, who).mode == Ground
  {
    WriteGround(s, span.text, who);
    if span.Styled? {
      var on, off := Sgr(Params(span.style)), Sgr(RESET);
      WriteAppend(s, on + span.text, off, who);
      WriteAppend(s, on, span.text, who);
      WriteSgr(s, Params(span.style), who);
      WriteSgr(Write(s, span.text, who), RESET, who);
    }
  }

  /** A coloured line leaves the same cells as the plain line. */
  lemma {:induction false} WriteStyled(s: Screen, line: Line, who: Origin)
    requires Valid(s) && s.mode == Ground && LineFree(ESC, line)
    ensures Write(s, Show(Palette(true), line), who) == Write(s, Show(Palette(false), line), who)
    ensures Write(s, Show(Palette(false), line), who).mode == Ground
    decreases |line|
  {
    if line == [] {
    } else {
      WriteAppend(s, ShowSpan(Palette(true), line[0]), Show(Palette(true), line[1..]), who);
      WriteAppend(s, ShowSpan(Palette(false), line[0]), Show(Palette(false), line[1..]), who);
      WriteSpan(s, line[0], who);
      WriteStyled(Write(s, line[0].text, who), line[1..], who);
    }
  }

  // ----- rows -----

  /** Finished rows are never touched again. */
  lemma {:induction false} RowsGrow(s: Screen, text: string, who: Origin)
    requires Valid(s)
    ensures s.rows <= Write(s, text, who).rows
    decreases |text|
  {
    if text == "" {
    } else {
      RowsGrow(Put(s, text[0], who), text[1..], who);
    }
  }

  /** Cells written by the transcript, or cells written by anyone else. */
  predicate AllOn(cells: seq<Cell>, transcript: bool) {
    forall i :: 0 <= i < |cells| ==> ((cells[i].who == Transcript) == transcript)
  }

  /** No row mixes transcript cells with cells of the bottom line or the user's typing. */
  predicate Unmixed(rows: seq<Row>) {
    forall i :: 0 <= i < |rows| ==> AllOn(rows[i].cells, rows[i].endedBy == Transcript)
  }

  /** Writing on a row of the writer's own side keeps every row unmixed. */
  lemma {:induction false} WriteUnmixed(s: Screen, text: string, who: Origin)
    requires Valid(s) && Unmixed(s.rows) && AllOn(s.cur, who == Transcript)
    ensures var s' := Write(s, text, who); Unmixed(s'.rows) && AllOn(s'.cur, who == Transcript)
    decreases |text|
  {
    if text == "" {
    } else {
      PutUnmixed(s, text[0], who);
      WriteUnmixed(Put(s, text[0], who), text[1..], who);
    }
  }

  lemma PutUnmixed(s: Screen, c: char, who: Origin)
    requires Valid(s) && Unmixed(s.rows) && AllOn(s.cur, who == Transcript)
    ensures var s' := Put(s, c, who); Unmixed(s'.rows) && AllOn(s'.cur, who == Transcript)
  {
  }

  function Cells(text: string, who: Origin): seq<Cell> {
    seq(|text|, i requires 0 <= i < |text| => Cell(text[i], who))
  }

  /** Text without control characters the terminal acts on. */
  predicate Printable(text: string) {
    forall i :: 0 <= i < |text| ==> text[i] != ESC && text[i] != '\n' && text[i] != '\r'
  }

  /** Printable text at the end of the row is appended as it is. */
  lemma {:induction false} WritePrintable(s: Screen, text: string, who: Origin)
    requires Valid(s) && s.mode == Ground && s.col == |s.cur| && Printable(text)
    ensures Write(s, text, who) == s.(cur := s.cur + Cells(text, who), col := s.col + |text|)
    decreases |text|
  {
    if text == "" {
      assert s.cur + Cells(text, who) == s.cur;
    } else {
      WritePrintable(Put(s, text[0], who), text[1..], who);
      assert s.cur + [Cell(text[0], who)] + Cells(text[1..], who) == s.cur + Cells(text, who);
    }
  }
}
