/** The finished rows of a terminal by who ended them. */
module TerminalRows {
  import opened Base
  import opened Palette
  import opened Terminal

  function OnlyTranscript(rows: seq<Row>): seq<Row> {
    if rows == [] then []
    else
      var front, last := rows[..|rows| - 1], rows[|rows| - 1];
      if last.endedBy == Transcript then OnlyTranscript(front) + [last] else OnlyTranscript(front)
  }

  lemma {:induction false} MoreTranscript(rows: seq<Row>, more: seq<Row>)
    requires forall i :: 0 <= i < |more| ==> more[i].endedBy == Transcript
    ensures OnlyTranscript(rows + more) == OnlyTranscript(rows) + more
    decreases |more|
  {
    if more == [] {
      assert rows + more == rows;
    } else {
      var front, last := more[..|more| - 1], more[|more| - 1];
      MoreTranscript(rows, front);
      assert (rows + more)[..|rows + more| - 1] == rows + front;
      Associate(OnlyTranscript(rows), front, [last]);
      assert front + [last] == more;
    }
  }

  lemma {:induction false} NoMoreTranscript(rows: seq<Row>, more: seq<Row>)
    requires forall i :: 0 <= i < |more| ==> more[i].endedBy != Transcript
    ensures OnlyTranscript(rows + more) == OnlyTranscript(rows)
    decreases |more|
  {
    if more == [] {
      assert rows + more == rows;
    } else {
      NoMoreTranscript(rows, more[..|more| - 1]);
      assert (rows + more)[..|rows + more| - 1] == rows + more[..|more| - 1];
    }
  }

  /** The rows finished while writing were all ended by the writer. */
  lemma {:induction false} WriteEnds(sc: Screen, text: string, who: Origin)
    requires Valid(sc)
    ensures var rows := Write(sc, text, who).rows;
            sc.rows <= rows && forall i :: |sc.rows| <= i < |rows| ==> rows[i].endedBy == who
    decreases |text|
  {
    if text == "" {
    } else {
      WriteEnds(Put(sc, text[0], who), text[1..], who);
    }
  }

  lemma WriteOthers(sc: Screen, text: string, who: Origin)
    requires Valid(sc) && who != Transcript
    ensures OnlyTranscript(Write(sc, text, who).rows) == OnlyTranscript(sc.rows)
  {
    WriteEnds(sc, text, who);
    var rows := Write(sc, text, who).rows;
    assert rows == sc.rows + rows[|sc.rows|..];
    NoMoreTranscript(sc.rows, rows[|sc.rows|..]);
  }

  ghost predicate HasBottomRow(rows: seq<Row>) {
    exists i :: 0 <= i < |rows| && rows[i].endedBy == Bottom
  }

  lemma WriteNoBottomRow(sc: Screen, text: string, who: Origin)
    requires Valid(sc) && who != Bottom
    ensures HasBottomRow(Write(sc, text, who).rows) <==> HasBottomRow(sc.rows)
  {
    WriteEnds(sc, text, who);
    var rows := Write(sc, text, who).rows;
    assert forall i :: 0 <= i < |sc.rows| ==> rows[i] == sc.rows[i];
  }

  lemma {:induction false} WriteBottomRow(sc: Screen, text: string)
    requires Valid(sc) && sc.mode == Ground && Free(ESC, text)
    ensures HasBottomRow(Write(sc, text, Bottom).rows) <==> HasBottomRow(sc.rows) || '\n' in text
    decreases |text|
  {
    if text == "" {
    } else {
      var next := Put(sc, text[0], Bottom);
      WriteBottomRow(next, text[1..]);
      assert '\n' in text <==> text[0] == '\n' || '\n' in text[1..];
      if text[0] == '\n' {
        assert next.rows[|sc.rows|].endedBy == Bottom;
      }
    }
  }

  lemma LinesNoBottom(sc: Screen, rows: seq<Row>)
    requires forall i :: 0 <= i < |rows| ==> rows[i].endedBy == Transcript
    ensures HasBottomRow(sc.rows + rows) <==> HasBottomRow(sc.rows)
  {
    assert forall i :: 0 <= i < |sc.rows| ==> (sc.rows + rows)[i] == sc.rows[i];
    assert forall i :: |sc.rows| <= i < |sc.rows + rows| ==> (sc.rows + rows)[i] == rows[i - |sc.rows|];
  }
}
