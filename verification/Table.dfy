/** The padded text table `cclaw` prints for a list of objects, or for one. */
module Table {
  import opened Base
  import opened Strings
  import opened Decimal
  import opened Json
  import opened Palette

  // ----- one row -----

  function Fill(c: char, n: nat): string { seq(n, _ => c) }

  function Spaces(n: nat): string { Fill(' ', n) }

  function Dashes(n: nat): string { Fill('-', n) }

  function Width(widths: seq<nat>, i: nat): nat { if i < |widths| then widths[i] else 0 }

  /** Where column `i` starts. */
  function Offset(widths: seq<nat>, i: nat): nat {
    if i == 0 then 0 else Offset(widths, i - 1) + Width(widths, i - 1) + 2
  }

  /** The last cell is not padded. */
  function CellText(cells: seq<string>, widths: seq<nat>, i: nat): string
    requires i < |cells|
  {
    var pad := if i + 1 != |cells| && |cells[i]| < Width(widths, i) then Width(widths, i) - |cells[i]| else 0;
    (if i > 0 then "  " else "") + cells[i] + Spaces(pad)
  }

  function RowPrefix(cells: seq<string>, widths: seq<nat>, i: nat): string
    requires i <= |cells|
  {
    if i == 0 then "" else RowPrefix(cells, widths, i - 1) + CellText(cells, widths, i - 1)
  }

  function RowText(cells: seq<string>, widths: seq<nat>): string { RowPrefix(cells, widths, |cells|) }

  method PushFill(before: string, c: char, n: nat) returns (out: string)
    ensures out == before + Fill(c, n)
  {
    out := before;
    var k := 0;
    while k < n
      invariant 0 <= k <= n && |out| == |before| + k
      invariant forall i :: 0 <= i < |out| ==> out[i] == if i < |before| then before[i] else c
    {
      out := out + [c];
      k := k + 1;
    }
  }

  method PushCell(before: string, cells: seq<string>, widths: seq<nat>, i: nat) returns (out: string)
    requires i < |cells|
    ensures out == before + CellText(cells, widths, i)
  {
    ghost var gap := if i > 0 then "  " else "";
    out := if i > 0 then before + "  " else before;
    assert out == before + gap;
    out := out + cells[i];
    var pad := if i < |widths| then widths[i] else 0;
    var n := if i + 1 != |cells| && |cells[i]| < pad then pad - |cells[i]| else 0;
    out := PushFill(out, ' ', n);
    AssociateFour(before, gap, cells[i], Spaces(n));
  }

  method WriteRow(before: string, cells: seq<string>, widths: seq<nat>) returns (out: string)
    ensures out == before + RowText(cells, widths) + "\n"
  {
    out := before;
    assert out == before + RowPrefix(cells, widths, 0);
    var i := 0;
    while i < |cells|
      invariant 0 <= i <= |cells|
      invariant out == before + RowPrefix(cells, widths, i)
    {
      Associate(before, RowPrefix(cells, widths, i), CellText(cells, widths, i));
      out := PushCell(out, cells, widths, i);
      i := i + 1;
    }
    out := out + "\n";
  }

  function DashCells(widths: seq<nat>): seq<string> {
    seq(|widths|, i requires 0 <= i < |widths| => Dashes(widths[i]))
  }

  /** The separator is the row whose every cell fills its column. */
  method WriteSeparator(before: string, widths: seq<nat>) returns (out: string)
    ensures out == before + RowText(DashCells(widths), widths) + "\n"
  {
    out := before;
    ghost var cells := DashCells(widths);
    assert out == before + RowPrefix(cells, widths, 0);
    var i := 0;
    while i < |widths|
      invariant 0 <= i <= |widths|
      invariant out == before + RowPrefix(cells, widths, i)
    {
      Associate(before, RowPrefix(cells, widths, i), CellText(cells, widths, i));
      out := PushDashes(out, widths, i);
      i := i + 1;
    }
    out := out + "\n";
  }

  method PushDashes(before: string, widths: seq<nat>, i: nat) returns (out: string)
    requires i < |widths|
    ensures out == before + CellText(DashCells(widths), widths, i)
  {
    ghost var gap := if i > 0 then "  " else "";
    out := if i > 0 then before + "  " else before;
    assert out == before + gap;
    out := PushFill(out, '-', widths[i]);
    Associate(before, gap, Dashes(widths[i]));
    assert CellText(DashCells(widths), widths, i) == gap + Dashes(widths[i]);
  }

  // ----- alignment -----

  /** Every cell that something is printed after fits its column. */
  predicate Fits(cells: seq<string>, widths: seq<nat>) {
    forall i :: 0 <= i < |cells| - 1 ==> |cells[i]| <= Width(widths, i)
  }

  /** Cell `i` stands in `line` at its column's offset. */
  predicate At(line: string, cells: seq<string>, widths: seq<nat>, i: nat) {
    i < |cells| &&
    var o := Offset(widths, i);
    o + |cells[i]| <= |line| && line[o..o + |cells[i]|] == cells[i]
  }

  /** Position `p` belongs to one of the first `n` cells. */
  ghost predicate InCells(cells: seq<string>, widths: seq<nat>, n: nat, p: nat) {
    n <= |cells| &&
    exists i {:trigger Offset(widths, i)} :: 0 <= i < n && Offset(widths, i) <= p < Offset(widths, i) + |cells[i]|
  }

  predicate BlankAt(line: string, p: nat) { p < |line| && line[p] == ' ' }

  /** The first `n` cells stand in `line` at their columns' offsets, with blanks around them. */
  ghost predicate Laid(line: string, cells: seq<string>, widths: seq<nat>, n: nat)
    requires n <= |cells|
  {
    && (forall i {:trigger At(line, cells, widths, i)} :: 0 <= i < n ==> At(line, cells, widths, i))
    && (forall p {:trigger BlankAt(line, p)} {:trigger InCells(cells, widths, n, p)} ::
          0 <= p < |line| ==> BlankAt(line, p) || InCells(cells, widths, n, p))
  }

  lemma AtLonger(line: string, more: string, cells: seq<string>, widths: seq<nat>, i: nat)
    requires i < |cells| && At(line, cells, widths, i)
    ensures At(line + more, cells, widths, i)
  {
    var o := Offset(widths, i);
    assert (line + more)[o..o + |cells[i]|] == line[o..o + |cells[i]|];
  }

  lemma LaidStep(line: string, cells: seq<string>, widths: seq<nat>, n: nat, gap: nat, pad: nat)
    requires n < |cells| && Laid(line, cells, widths, n) && |line| + gap == Offset(widths, n)
    ensures Laid(line + (Spaces(gap) + cells[n] + Spaces(pad)), cells, widths, n + 1)
  {
    var longer := line + (Spaces(gap) + cells[n] + Spaces(pad));
    forall i | 0 <= i < n ensures At(longer, cells, widths, i) {
      AtLonger(line, Spaces(gap) + cells[n] + Spaces(pad), cells, widths, i);
    }
    forall p | 0 <= p < |longer| ensures BlankAt(longer, p) || InCells(cells, widths, n + 1, p) {
      if p < |line| {
        assert BlankAt(line, p) || InCells(cells, widths, n, p);
      }
    }
  }

  lemma {:induction false} RowLaid(cells: seq<string>, widths: seq<nat>, n: nat)
    requires n <= |cells| && Fits(cells, widths)
    ensures Laid(RowPrefix(cells, widths, n), cells, widths, n)
    ensures n > 0 ==>
              |RowPrefix(cells, widths, n)| == Offset(widths, n - 1) + if n == |cells| then |cells[n - 1]|
                  else Width(widths, n - 1)
  {
    if n == 0 {
    } else {
      RowLaid(cells, widths, n - 1);
      var line := RowPrefix(cells, widths, n - 1);
      var gap := if n - 1 > 0 then 2 else 0;
      var pad := if n != |cells| then Width(widths, n - 1) - |cells[n - 1]| else 0;
      assert CellText(cells, widths, n - 1) == Spaces(gap) + cells[n - 1] + Spaces(pad);
      LaidStep(line, cells, widths, n - 1, gap, pad);
    }
  }

  /** A whole row: its cells at their offsets, blanks elsewhere, nothing after the last cell. */
  ghost predicate Aligned(line: string, cells: seq<string>, widths: seq<nat>) {
    && Laid(line, cells, widths, |cells|)
    && |line| == if cells == [] then 0 else Offset(widths, |cells| - 1) + |cells[|cells| - 1]|
  }

  lemma RowAligned(cells: seq<string>, widths: seq<nat>)
    requires Fits(cells, widths)
    ensures Aligned(RowText(cells, widths), cells, widths)
  {
    RowLaid(cells, widths, |cells|);
  }

  // ----- the table -----

  /** The least width of column `i` that holds its header (in bytes) and every cell (in characters). */
  ghost predicate LeastWidth(w: nat, header: string, rows: seq<seq<string>>, i: nat) {
    && Utf8Len(header) <= w
    && (forall r :: 0 <= r < |rows| && i < |rows[r]| ==> |rows[r][i]| <= w)
    && (w == Utf8Len(header) || exists r :: 0 <= r < |rows| && i < |rows[r]| && w == |rows[r][i]|)
  }

  ghost predicate LeastWidths(widths: seq<nat>, headers: seq<string>, rows: seq<seq<string>>) {
    |widths| == |headers| && forall i :: 0 <= i < |widths| ==> LeastWidth(widths[i], headers[i], rows, i)
  }

  method Measure(headers: seq<string>, rows: seq<seq<string>>) returns (widths: seq<nat>)
    ensures LeastWidths(widths, headers, rows)
  {
    widths := seq(|headers|, i requires 0 <= i < |headers| => Utf8Len(headers[i]));
    var r := 0;
    while r < |rows|
      invariant 0 <= r <= |rows|
      invariant LeastWidths(widths, headers, rows[..r])
    {
      widths := Widen(widths, headers, rows, r);
      r := r + 1;
    }
    assert rows[..r] == rows;
  }

  method Widen(widths0: seq<nat>, headers: seq<string>, rows: seq<seq<string>>, r: nat) returns (widths: seq<nat>)
    requires r < |rows| && LeastWidths(widths0, headers, rows[..r])
    ensures LeastWidths(widths, headers, rows[..r + 1])
  {
    widths := widths0;
    var row := rows[r];
    var i := 0;
    while i < |row|
      invariant 0 <= i <= |row|
      invariant |widths| == |widths0|
      invariant forall j :: 0 <= j < |widths| ==>
                  widths[j] == if j < i && |row[j]| > widths0[j] then |row[j]| else widths0[j]
    {
      if i < |widths| && |row[i]| > widths[i] { widths := widths[i := |row[i]|]; }
      i := i + 1;
    }
  }

  function TrimNewlines(s: string): string {
    if s != "" && s[|s| - 1] == '\n' then TrimNewlines(s[..|s| - 1]) else s
  }

  function RowsText(rows: seq<seq<string>>, widths: seq<nat>): string {
    if rows == [] then "" else RowsText(rows[..|rows| - 1], widths) + RowText(rows[|rows| - 1], widths) + "\n"
  }

  function HeaderText(headers: seq<string>, widths: seq<nat>): string {
    TrimNewlines(RowText(headers, widths) + "\n")
  }

  function TableText(headers: seq<string>, rows: seq<seq<string>>, widths: seq<nat>, p: Palette): string {
    p.Paint(Bold, HeaderText(headers, widths)) + "\n" + RowText(DashCells(widths), widths) + "\n" +
        RowsText(rows, widths)
  }

  /** `out` is the table of `rows` under the least widths; nothing without columns. */
  ghost predicate IsTable(out: string, headers: seq<string>, rows: seq<seq<string>>, p: Palette) {
    exists widths :: LeastWidths(widths, headers, rows) && out == if headers == [] then ""
        else TableText(headers, rows, widths, p)
  }

  method FormatTable(headers: seq<string>, rows: seq<seq<string>>, p: Palette) returns (out: string)
    ensures IsTable(out, headers, rows, p)
  {
    var ws := Measure(headers, rows);
    if headers == [] { return ""; }
    var headerLine := WriteRow("", headers, ws);
    assert headerLine == RowText(headers, ws) + "\n";
    out := p.Paint(Bold, TrimNewlines(headerLine)) + "\n";
    out := WriteSeparator(out, ws);
    ghost var head := out;
    var i := 0;
    while i < |rows|
      invariant 0 <= i <= |rows|
      invariant out == head + RowsText(rows[..i], ws)
    {
      assert rows[..i + 1][..i] == rows[..i];
      out := WriteRow(out, rows[i], ws);
      i := i + 1;
    }
    assert rows[..i] == rows;
  }

  lemma {:induction false} BytesCover(s: string)
    ensures |s| <= Utf8Len(s)
  {
    if s == "" {
    } else {
      BytesCover(s[1..]);
    }
  }

  /**
   In a table whose rows have a cell per header, the header, the separator and every row put
   cell `i` at offset sum over j < i of (width j + 2), and the separator fills every column.
   */
  lemma TableAligned(headers: seq<string>, rows: seq<seq<string>>, widths: seq<nat>)
    requires LeastWidths(widths, headers, rows) && forall r :: 0 <= r < |rows| ==> |rows[r]| == |headers|
    ensures Aligned(RowText(headers, widths), headers, widths)
    ensures forall r :: 0 <= r < |rows| ==> Aligned(RowText(rows[r], widths), rows[r], widths)
    ensures Aligned(RowText(DashCells(widths), widths), DashCells(widths), widths)
    ensures headers != [] ==> |RowText(DashCells(widths), widths)| + 2 == Offset(widths, |headers|)
  {
    HeadersFit(headers, rows, widths);
    RowAligned(headers, widths);
    forall r | 0 <= r < |rows| ensures Aligned(RowText(rows[r], widths), rows[r], widths) {
      RowAligned(rows[r], widths);
    }
    RowAligned(DashCells(widths), widths);
    SeparatorFills(widths);
  }

  lemma SeparatorFills(widths: seq<nat>)
    ensures widths != [] ==> |RowText(DashCells(widths), widths)| + 2 == Offset(widths, |widths|)
  {
    RowAligned(DashCells(widths), widths);
  }

  lemma HeadersFit(headers: seq<string>, rows: seq<seq<string>>, widths: seq<nat>)
    requires LeastWidths(widths, headers, rows)
    ensures Fits(headers, widths)
  {
    forall i | 0 <= i < |headers| ensures |headers[i]| <= widths[i] {
      BytesCover(headers[i]);
      assert LeastWidth(widths[i], headers[i], rows, i);
    }
  }

  /** No printed row is longer than the separator. */
  lemma WithinSeparator(headers: seq<string>, rows: seq<seq<string>>, widths: seq<nat>, r: nat)
    requires LeastWidths(widths, headers, rows) && forall r :: 0 <= r < |rows| ==> |rows[r]| == |headers|
    requires r < |rows| && headers != []
    ensures |RowText(rows[r], widths)| <= |RowText(DashCells(widths), widths)|
  {
    TableAligned(headers, rows, widths);
  }

  lemma {:induction false} TrimShorter(s: string)
    ensures |TrimNewlines(s)| <= |s|
    ensures s != "" && s[|s| - 1] == '\n' ==> |TrimNewlines(s)| < |s|
  {
    if s == "" || s[|s| - 1] != '\n' {
    } else {
      TrimShorter(s[..|s| - 1]);
    }
  }

  /** The header line is the header row exactly when the last header does not end in a line break. */
  lemma HeaderShown(headers: seq<string>, widths: seq<nat>)
    requires headers != []
    ensures var last := headers[|headers| - 1];
            HeaderText(headers, widths) == RowText(headers, widths) <==> last == "" || last[|last| - 1] != '\n'
  {
    var n := |headers|;
    var row, last := RowText(headers, widths), headers[n - 1];
    var line := row + "\n";
    assert line[..|line| - 1] == row;
    assert CellText(headers, widths, n - 1) == (if n > 1 then "  " else "") + last;
    assert row == RowPrefix(headers, widths, n - 1) + CellText(headers, widths, n - 1);
    assert n == 1 ==> row == last;
    assert last != "" ==> row[|row| - 1] == last[|last| - 1];
    assert last == "" && n > 1 ==> row[|row| - 1] == ' ';
    TrimShorter(row);
  }

  // ----- the lines of the table -----

  predicate OneLine(s: string) { '\n' !in s }

  predicate OneLineCells(cells: seq<string>) { forall i :: 0 <= i < |cells| ==> OneLine(cells[i]) }

  lemma {:induction false} PrefixOneLine(cells: seq<string>, widths: seq<nat>, n: nat)
    requires n <= |cells| && OneLineCells(cells)
    ensures OneLine(RowPrefix(cells, widths, n))
  {
    if n == 0 {
    } else {
      PrefixOneLine(cells, widths, n - 1);
      assert OneLine(cells[n - 1]);
    }
  }

  lemma PaintOneLine(p: Palette, style: Style, text: string)
    requires OneLine(text)
    ensures OneLine(p.Paint(style, text))
  {
  }

  function RowTexts(rows: seq<seq<string>>, widths: seq<nat>): seq<string> {
    seq(|rows|, r requires 0 <= r < |rows| => RowText(rows[r], widths))
  }

  lemma RowTextsSnoc(rows: seq<seq<string>>, widths: seq<nat>)
    requires rows != []
    ensures var n := |rows| - 1; RowTexts(rows, widths) == RowTexts(rows[..n], widths) + [RowText(rows[n], widths)]
  {
  }

  lemma {:induction false} SplitRows(rows: seq<seq<string>>, widths: seq<nat>, tail: string)
    requires forall r :: 0 <= r < |rows| ==> OneLine(RowText(rows[r], widths))
    ensures Split(RowsText(rows, widths) + tail, '\n') == RowTexts(rows, widths) + Split(tail, '\n')
    decreases |rows|
  {
    if rows == [] {
      assert RowsText(rows, widths) + tail == tail;
      assert RowTexts(rows, widths) + Split(tail, '\n') == Split(tail, '\n');
    } else {
      var n := |rows| - 1;
      var last := RowText(rows[n], widths);
      SplitRows(rows[..n], widths, last + "\n" + tail);
      SplitMore(RowsText(rows[..n], widths), RowTexts(rows[..n], widths), last, tail);
      RowTextsSnoc(rows, widths);
    }
  }

  /** One more line after a text that splits into `before`. */
  lemma SplitMore(front: string, before: seq<string>, last: string, tail: string)
    requires OneLine(last)
    requires Split(front + (last + "\n" + tail), '\n') == before + Split(last + "\n" + tail, '\n')
    ensures Split(front + last + "\n" + tail, '\n') == before + [last] + Split(tail, '\n')
  {
    SplitStep(last, tail, '\n');
    AssociateFour(front, last, "\n", tail);
    Associate(last, "\n", tail);
    Associate(before, [last], Split(tail, '\n'));
  }

  lemma SplitTable(head: string, sep: string, rest: string)
    requires OneLine(head) && OneLine(sep)
    ensures Split(head + "\n" + sep + "\n" + rest, '\n') == [head, sep] + Split(rest, '\n')
  {
    SplitStep(sep, rest, '\n');
    SplitStep(head, sep + "\n" + rest, '\n');
    AssociateFour(head + "\n", sep, "\n", rest);
    Associate(sep, "\n", rest);
    Associate([head], [sep], Split(rest, '\n'));
  }

  /** What the lines of the printed table are. */
  predicate LinesAre(out: string, head: string, widths: seq<nat>, rows: seq<seq<string>>) {
    Split(out, '\n') == [head, RowText(DashCells(widths), widths)] + (RowTexts(rows, widths) + [""])
  }

  /** The lines of the printed table are the header, the separator and the rows in order. */
  lemma TableLines(out: string, headers: seq<string>, rows: seq<seq<string>>, p: Palette)
    requires IsTable(out, headers, rows, p) && headers != []
    requires OneLineCells(headers) && forall r :: 0 <= r < |rows| ==> OneLineCells(rows[r])
    ensures exists widths :: LeastWidths(widths, headers, rows)
              && LinesAre(out, p.Paint(Bold, RowText(headers, widths)), widths, rows)
  {
    var widths :| LeastWidths(widths, headers, rows) && out == TableText(headers, rows, widths, p);
    var dashes := DashCells(widths);
    HeaderShown(headers, widths);
    assert OneLine(headers[|headers| - 1]);
    PrefixOneLine(headers, widths, |headers|);
    PaintOneLine(p, Bold, RowText(headers, widths));
    PrefixOneLine(dashes, widths, |dashes|);
    forall r | 0 <= r < |rows| ensures OneLine(RowText(rows[r], widths)) {
      PrefixOneLine(rows[r], widths, |rows[r]|);
    }
    LinesOf(p.Paint(Bold, RowText(headers, widths)), widths, rows);
  }

  lemma LinesOf(head: string, widths: seq<nat>, rows: seq<seq<string>>)
    requires OneLine(head) && OneLine(RowText(DashCells(widths), widths))
    requires forall r :: 0 <= r < |rows| ==> OneLine(RowText(rows[r], widths))
    ensures var out := head + "\n" + RowText(DashCells(widths), widths) + "\n" + RowsText(rows, widths);
            LinesAre(out, head, widths, rows)
  {
    SplitTable(head, RowText(DashCells(widths), widths), RowsText(rows, widths));
    SplitRows(rows, widths, "");
    assert RowsText(rows, widths) + "" == RowsText(rows, widths);
    assert Split("", '\n') == [""];
  }

  // ----- from JSON -----

  /** Every key of every object, in the order they are met. */
  function KeyStream(items: seq<Json>): seq<string> {
    if items == [] then [] else KeyStream(items[..|items| - 1]) + KeysOf(items[|items| - 1])
  }

  function KeysOf(item: Json): seq<string> {
    if item.JObj? then seq(|item.fields|, i requires 0 <= i < |item.fields| => item.fields[i].key) else []
  }

  function FirstAt(stream: seq<string>, key: string): nat {
    if stream == [] || stream[0] == key then 0 else 1 + FirstAt(stream[1..], key)
  }

  lemma {:induction false} FirstAtFirst(stream: seq<string>, key: string)
    ensures var i := FirstAt(stream, key);
            && i <= |stream| && (i < |stream| <==> key in stream) && (i < |stream| ==> stream[i] == key)
            && forall j :: 0 <= j < i ==> stream[j] != key
  {
    if stream == [] || stream[0] == key {
    } else {
      FirstAtFirst(stream[1..], key);
    }
  }

  /** Each key of the stream once, in the order of first appearance. */
  ghost predicate FirstSeen(columns: seq<string>, stream: seq<string>) {
    && (forall k :: k in columns <==> k in stream)
    && forall i, j :: 0 <= i < j < |columns| ==> FirstAt(stream, columns[i]) < FirstAt(stream, columns[j])
  }

  lemma {:induction false} FirstAtAppend(stream: seq<string>, more: seq<string>, key: string)
    ensures FirstAt(stream + more, key) == if key in stream then FirstAt(stream, key) else |stream| + FirstAt(more, key)
  {
    if stream == [] {
      assert stream + more == more;
    } else {
      assert (stream + more)[1..] == stream[1..] + more;
      FirstAtAppend(stream[1..], more, key);
    }
  }

  lemma SeenStep(columns: seq<string>, stream: seq<string>, key: string)
    requires FirstSeen(columns, stream)
    ensures FirstSeen(if key in columns then columns else columns + [key], stream + [key])
  {
    forall k | k in columns ensures FirstAt(stream + [key], k) == FirstAt(stream, k) < |stream| {
      FirstAtAppend(stream, [key], k);
      FirstAtFirst(stream, k);
    }
    FirstAtAppend(stream, [key], key);
  }

  method Columns(items: seq<Json>) returns (columns: seq<string>)
    ensures FirstSeen(columns, KeyStream(items))
  {
    columns := [];
    var r := 0;
    while r < |items|
      invariant 0 <= r <= |items|
      invariant FirstSeen(columns, KeyStream(items[..r]))
    {
      assert KeyStream(items[..r + 1]) == KeyStream(items[..r]) + KeysOf(items[r]) by {
        assert items[..r + 1][..r] == items[..r];
      }
      columns := AddColumns(columns, KeysOf(items[r]), KeyStream(items[..r]));
      r := r + 1;
    }
    assert items[..r] == items;
  }

  method AddColumns(columns0: seq<string>, keys: seq<string>, ghost before: seq<string>) returns (columns: seq<string>)
    requires FirstSeen(columns0, before)
    ensures FirstSeen(columns, before + keys)
  {
    columns := columns0;
    ghost var stream := before;
    var i := 0;
    while i < |keys|
      invariant 0 <= i <= |keys|
      invariant stream == before + keys[..i]
      invariant FirstSeen(columns, stream)
    {
      SeenStep(columns, stream, keys[i]);
      stream := stream + [keys[i]];
      if keys[i] !in columns { columns := columns + [keys[i]]; }
      i := i + 1;
    }
    assert stream == before + keys;
  }

  /** `dump` is how nested values are printed. */
  function Stringify(v: Json, dump: Json -> string): string {
    match v
    case JNull => ""
    case JBool(b) => if b then "true" else "false"
    case JInt(n) => IntText(n)
    case JFloat(text) => text
    case JStr(s) => s
    case _ => dump(v)
  }

  function CellOf(item: Json, column: string, dump: Json -> string): string {
    match Get(item, column) case Some(v) => Stringify(v, dump) case None => ""
  }

  /** What a cell says of a value: text as it is, numbers and truth values as such, nothing for a null. */
  predicate Says(text: string, v: Json, dump: Json -> string) {
    match v
    case JNull => text == ""
    case JBool(b) => text == if b then "true" else "false"
    case JInt(n) => ParseInt(text) == Some(n)
    case JFloat(shown) => text == shown
    case JStr(s) => text == s
    case _ => text == dump(v)
  }

  /** The cell of an object in the column of a key: its value there, or nothing. */
  ghost predicate CellSays(text: string, item: Json, key: string, dump: Json -> string) {
    if Lacks(item, key) then text == "" else exists v :: Has(item, key, v) && Says(text, v, dump)
  }

  lemma CellExactly(item: Json, key: string, dump: Json -> string)
    ensures CellSays(CellOf(item, key, dump), item, key, dump)
  {
    GetExactly(item, key);
    if v :| Get(item, key) == Some(v) {
      if v.JInt? { IntRoundTrip(v.n); }
      assert Has(item, key, v) && Says(CellOf(item, key, dump), v, dump);
    }
  }

  // ----- where a key first appears -----

  predicate KeyAt(items: seq<Json>, r: nat, c: nat, key: string) {
    r < |items| && items[r].JObj? && c < |items[r].fields| && items[r].fields[c].key == key
  }

  /** Where the keys of row `r` start in the stream. */
  function RowStart(items: seq<Json>, r: nat): nat
    requires r <= |items|
  {
    |KeyStream(items[..r])|
  }

  lemma {:induction false} StreamGrows(items: seq<Json>, r: nat)
    requires r <= |items|
    ensures KeyStream(items[..r]) <= KeyStream(items)
    decreases |items| - r
  {
    if r == |items| {
      assert items[..r] == items;
    } else {
      StreamGrows(items, r + 1);
      assert items[..r + 1][..r] == items[..r];
    }
  }

  /** A key at a place of the table is at the matching place of the stream. */
  lemma KeyInStream(items: seq<Json>, r: nat, c: nat, key: string)
    requires KeyAt(items, r, c, key)
    ensures RowStart(items, r) + c < RowStart(items, r + 1) <= |KeyStream(items)|
    ensures KeyStream(items)[RowStart(items, r) + c] == key
  {
    assert items[..r + 1][..r] == items[..r];
    assert KeyStream(items[..r + 1]) == KeyStream(items[..r]) + KeysOf(items[r]);
    StreamGrows(items, r + 1);
    assert KeyStream(items)[RowStart(items, r) + c] == KeyStream(items[..r + 1])[RowStart(items, r) + c];
  }

  /** Every place of the stream is a place of the table. */
  lemma {:induction false} PlaceOf(items: seq<Json>, i: nat) returns (r: nat, c: nat)
    requires i < |KeyStream(items)|
    ensures KeyAt(items, r, c, KeyStream(items)[i]) && i == RowStart(items, r) + c
    decreases |items|
  {
    var n := |items| - 1;
    var front := items[..n];
    if i < |KeyStream(front)| {
      r, c := PlaceOf(front, i);
      assert front[..r] == items[..r];
    } else {
      r, c := n, i - |KeyStream(front)|;
    }
  }

  lemma {:induction false} RowsInOrder(items: seq<Json>, r: nat, s: nat)
    requires r <= s <= |items|
    ensures RowStart(items, r) <= RowStart(items, s)
    decreases s - r
  {
    if r == s {
    } else {
      RowsInOrder(items, r, s - 1);
      StreamGrows(items[..s], s - 1);
      assert items[..s][..s - 1] == items[..s - 1];
    }
  }

  /** `key` appears in an earlier row, or further left in row `r`. */
  ghost predicate MetBefore(items: seq<Json>, key: string, r: nat, c: nat) {
    exists s: nat, d: nat :: KeyAt(items, s, d, key) && (s < r || (s == r && d < c))
  }

  /** The columns are the keys of the objects, one that appears earlier standing further left. */
  ghost predicate ColumnsAsMet(columns: seq<string>, items: seq<Json>) {
    && (forall k :: k in columns <==> exists r: nat, c: nat :: KeyAt(items, r, c, k))
    && (forall i, j :: 0 <= i < j < |columns| ==> columns[i] != columns[j])
    && forall i, j, r: nat, c: nat :: 0 <= i < j < |columns| && KeyAt(items, r, c, columns[j]) ==>
         MetBefore(items, columns[i], r, c)
  }

  lemma EarlierAt(items: seq<Json>, left: string, right: string, r: nat, c: nat)
    requires KeyAt(items, r, c, right) && FirstAt(KeyStream(items), left) < FirstAt(KeyStream(items), right)
    ensures MetBefore(items, left, r, c)
  {
    var stream := KeyStream(items);
    KeyInStream(items, r, c, right);
    FirstAtFirst(stream, right);
    FirstAtFirst(stream, left);
    var i := FirstAt(stream, left);
    var s, d := PlaceOf(items, i);
    assert i < RowStart(items, r) + c;
    if s > r { RowsInOrder(items, r + 1, s); }
    assert KeyAt(items, s, d, left);
  }

  lemma ColumnsExactly(columns: seq<string>, items: seq<Json>)
    requires FirstSeen(columns, KeyStream(items))
    ensures ColumnsAsMet(columns, items)
  {
    var stream := KeyStream(items);
    forall k ensures k in columns <==> exists r: nat, c: nat :: KeyAt(items, r, c, k) {
      if k in stream {
        var i :| 0 <= i < |stream| && stream[i] == k;
        var r, c := PlaceOf(items, i);
        assert KeyAt(items, r, c, k);
      }
      if r: nat, c: nat :| KeyAt(items, r, c, k) { KeyInStream(items, r, c, k); }
    }
    forall i, j, r: nat, c: nat | 0 <= i < j < |columns| && KeyAt(items, r, c, columns[j])
      ensures MetBefore(items, columns[i], r, c)
    {
      EarlierAt(items, columns[i], columns[j], r, c);
    }
  }

  function RowOf(item: Json, columns: seq<string>, dump: Json -> string): seq<string> {
    seq(|columns|, i requires 0 <= i < |columns| => CellOf(item, columns[i], dump))
  }

  function RowsOf(items: seq<Json>, columns: seq<string>, dump: Json -> string): seq<seq<string>> {
    seq(|items|, r requires 0 <= r < |items| => RowOf(items[r], columns, dump))
  }

  function Headers(columns: seq<string>, upper: string -> string): seq<string> {
    seq(|columns|, i requires 0 <= i < |columns| => upper(columns[i]))
  }

  /** A header for each column, and a row for each object that says what it has under each key. */
  ghost predicate TableOf(items: seq<Json>, columns: seq<string>, headers: seq<string>, rows: seq<seq<string>>,
      upper: string -> string, dump: Json -> string)
  {
    && |headers| == |columns| && |rows| == |items|
    && (forall i :: 0 <= i < |columns| ==> headers[i] == upper(columns[i]))
    && (forall r :: 0 <= r < |rows| ==> |rows[r]| == |columns|)
    && forall r, i :: 0 <= r < |rows| && 0 <= i < |columns| ==> CellSays(rows[r][i], items[r], columns[i], dump)
  }

  lemma RowsSay(items: seq<Json>, columns: seq<string>, upper: string -> string, dump: Json -> string)
    ensures TableOf(items, columns, Headers(columns, upper), RowsOf(items, columns, dump), upper, dump)
  {
    forall r, i | 0 <= r < |items| && 0 <= i < |columns|
      ensures CellSays(RowsOf(items, columns, dump)[r][i], items[r], columns[i], dump)
    {
      CellExactly(items[r], columns[i], dump);
    }
  }

  method BuildRow(item: Json, cols: seq<string>, dump: Json -> string) returns (row: seq<string>)
    ensures row == RowOf(item, cols, dump)
  {
    row := [];
    var i := 0;
    while i < |cols|
      invariant 0 <= i <= |cols| && |row| == i
      invariant forall k :: 0 <= k < i ==> row[k] == CellOf(item, cols[k], dump)
    {
      row := row + [CellOf(item, cols[i], dump)];
      i := i + 1;
    }
  }

  /** `render_table`: a column per key, a row per object. */
  method RenderTable(items: seq<Json>, p: Palette, upper: string -> string, dump: Json -> string)
    returns (out: string)
    requires forall r :: 0 <= r < |items| ==> items[r].JObj?
    ensures items == [] ==> out == "(empty)"
    ensures items != [] ==> exists columns, headers, rows ::
              && ColumnsAsMet(columns, items) && TableOf(items, columns, headers, rows, upper, dump)
              && IsTable(out, headers, rows, p)
  {
    if items == [] { return "(empty)"; }
    var cols := Columns(items);
    var rows: seq<seq<string>> := [];
    var r := 0;
    while r < |items|
      invariant 0 <= r <= |items| && |rows| == r
      invariant forall k :: 0 <= k < r ==> rows[k] == RowOf(items[k], cols, dump)
    {
      var row := BuildRow(items[r], cols, dump);
      rows := rows + [row];
      r := r + 1;
    }
    assert rows == RowsOf(items, cols, dump);
    out := FormatTable(Headers(cols, upper), rows, p);
    ColumnsExactly(cols, items);
    RowsSay(items, cols, upper, dump);
  }
}
