/**
 The incremental rail against a batch rendering of the last frame: when do both print the same
 step and result lines, in some order?
 */
module ChatBatch {
  import opened Base
  import opened Palette
  import opened ChatFrames
  import opened ChatRail
  import opened ChatHistory

  // ----- what is printed, as a multiset -----

  /** A printed rail line: which step or result it is, and its text. */
  type Printed = (Mark, string)

  function TextOf(p: Palette, e: RailEvent): string { Show(p, EventLine(e)) }

  function PrintedLines(p: Palette, es: seq<RailEvent>): seq<Printed> {
    seq(|es|, i requires 0 <= i < |es| => (MarkOf(es[i]), TextOf(p, es[i])))
  }

  function Marks(es: seq<RailEvent>): seq<Mark> {
    seq(|es|, i requires 0 <= i < |es| => MarkOf(es[i]))
  }

  lemma {:induction false} MarkCount(es: seq<RailEvent>, m: Mark)
    ensures multiset(Marks(es))[m] == Count(es, m)
  {
    if es == [] {
    } else {
      MarkCount(es[..|es| - 1], m);
      assert Marks(es) == Marks(es[..|es| - 1]) + [MarkOf(es[|es| - 1])];
    }
  }

  /** The events of mark `m` that print something else than `text`. */
  function Others(p: Palette, es: seq<RailEvent>, m: Mark, text: string): nat {
    if es == [] then 0
    else
      var front, e := es[..|es| - 1], es[|es| - 1];
      Others(p, front, m, text) + if MarkOf(e) == m && TextOf(p, e) != text then 1 else 0
  }

  lemma PrintedSnoc(p: Palette, es: seq<RailEvent>, m: Mark, text: string)
    requires es != []
    ensures var front, e := es[..|es| - 1], es[|es| - 1];
            multiset(PrintedLines(p, es))[(m, text)] ==
              multiset(PrintedLines(p, front))[(m, text)] + if MarkOf(e) == m && TextOf(p, e) == text then 1 else 0
  {
    var front, e := es[..|es| - 1], es[|es| - 1];
    assert PrintedLines(p, es) == PrintedLines(p, front) + [(MarkOf(e), TextOf(p, e))];
  }

  lemma {:induction false} PrintedCount(p: Palette, es: seq<RailEvent>, m: Mark, text: string)
    ensures multiset(PrintedLines(p, es))[(m, text)] + Others(p, es, m, text) == Count(es, m)
  {
    if es == [] {
    } else {
      PrintedCount(p, es[..|es| - 1], m, text);
      PrintedSnoc(p, es, m, text);
    }
  }

  lemma {:induction false} PrintedSome(p: Palette, es: seq<RailEvent>, e: RailEvent, text: string)
    requires e in es
    ensures if TextOf(p, e) == text then multiset(PrintedLines(p, es))[(MarkOf(e), text)] > 0
        else Others(p, es, MarkOf(e), text) > 0
  {
    var front, last := es[..|es| - 1], es[|es| - 1];
    PrintedSnoc(p, es, MarkOf(e), text);
    if e !in front {
      assert e == last;
    } else {
      PrintedSome(p, front, e, text);
    }
  }

  function WantText(p: Palette, want: Option<RailEvent>): Option<string> {
    match want case Some(e) => Some(TextOf(p, e)) case None => None
  }

  lemma OncePrinted(p: Palette, es: seq<RailEvent>, m: Mark, want: Option<RailEvent>, text: string)
    requires Once(es, m, want)
    ensures multiset(PrintedLines(p, es))[(m, text)] == if WantText(p, want) == Some(text) then 1 else 0
  {
    PrintedCount(p, es, m, text);
    if want.Some? { PrintedSome(p, es, want.value, text); }
  }

  /** `wants` gives for every mark the one event `es` has of it, or none. */
  ghost predicate Lists(es: seq<RailEvent>, wants: Mark -> Option<RailEvent>) {
    forall m: Mark :: Once(es, m, wants(m))
  }

  /** Two logs print the same lines, in some order, exactly when they want the same text of every mark. */
  lemma SamePrinted(p: Palette, a: seq<RailEvent>, b: seq<RailEvent>, x: Mark -> Option<RailEvent>,
      y: Mark -> Option<RailEvent>)
    requires Lists(a, x) && Lists(b, y)
    ensures multiset(PrintedLines(p, a)) == multiset(PrintedLines(p, b))
       <==> forall m: Mark :: WantText(p, x(m)) == WantText(p, y(m))
  {
    var left, right := multiset(PrintedLines(p, a)), multiset(PrintedLines(p, b));
    forall m: Mark, text: string
      ensures left[(m, text)] == if WantText(p, x(m)) == Some(text) then 1 else 0
      ensures right[(m, text)] == if WantText(p, y(m)) == Some(text) then 1 else 0
    {
      assert Once(a, m, x(m)) && Once(b, m, y(m));
      OncePrinted(p, a, m, x(m), text);
      OncePrinted(p, b, m, y(m), text);
    }
    if left == right {
      forall m: Mark ensures WantText(p, x(m)) == WantText(p, y(m)) {
        if WantText(p, x(m)).Some? { assert left[(m, WantText(p, x(m)).value)] == 1; }
        if WantText(p, y(m)).Some? { assert right[(m, WantText(p, y(m)).value)] == 1; }
      }
    }
    if forall m: Mark :: WantText(p, x(m)) == WantText(p, y(m)) {
      forall line: Printed ensures left[line] == right[line] {
        assert line == (line.0, line.1);
      }
    }
  }

  /** The same for the bare marks. */
  lemma SameMarks(a: seq<RailEvent>, b: seq<RailEvent>, x: Mark -> Option<RailEvent>, y: Mark -> Option<RailEvent>)
    requires Lists(a, x) && Lists(b, y)
    ensures multiset(Marks(a)) == multiset(Marks(b)) <==> forall m: Mark :: x(m).Some? <==> y(m).Some?
  {
    forall m: Mark
      ensures multiset(Marks(a))[m] == if x(m).Some? then 1 else 0
      ensures multiset(Marks(b))[m] == if y(m).Some? then 1 else 0
    {
      MarkCount(a, m);
      MarkCount(b, m);
      assert Once(a, m, x(m)) && Once(b, m, y(m));
    }
    if multiset(Marks(a)) == multiset(Marks(b)) {
      forall m: Mark ensures x(m).Some? <==> y(m).Some? {
        assert multiset(Marks(a))[m] == multiset(Marks(b))[m];
      }
    }
  }

  // ----- when two rail lines have the same text -----

  lemma Cancel(a: string, b: string, c: string)
    requires a + b == a + c
    ensures b == c
  {
    assert (a + b)[|a|..] == b && (a + c)[|a|..] == c;
  }

  /** The marker of a status can be read off its first characters. */
  lemma MarkersDiffer(p: Palette, s: Status, t: Status, x: string, y: string)
    requires ShowSpan(p, Marker(s)) + x == ShowSpan(p, Marker(t)) + y
    ensures s == t
  {
    var a, b := ShowSpan(p, Marker(s)), ShowSpan(p, Marker(t));
    var k := if p.color then 3 else 0;
    assert (a + x)[k] == a[k] && (b + y)[k] == b[k];
  }

  /** A step line shows the key and the status, and nothing else of the step. */
  lemma StepTexts(p: Palette, a: Crumb, b: Crumb)
    requires Key(a) == Key(b)
    ensures Show(p, StepSpans(a)) == Show(p, StepSpans(b)) <==> a.status == b.status
  {
    var rest := Show(p, StepSpans(a)[1..]);
    assert StepSpans(a)[1..] == StepSpans(b)[1..];
    assert Show(p, StepSpans(a)) == ShowSpan(p, Marker(a.status)) + rest;
    assert Show(p, StepSpans(b)) == ShowSpan(p, Marker(b.status)) + rest;
    if Show(p, StepSpans(a)) == Show(p, StepSpans(b)) { MarkersDiffer(p, a.status, b.status, rest, rest); }
  }

  function ResultStyle(status: Status): Style { if status == Failed then Red else Dim }

  function ResultHead(p: Palette): string { "  " + (p.Paint(Dim, "\U{23BF}") + " ") }

  lemma ResultShown(p: Palette, summary: string, status: Status)
    ensures Show(p, ResultSpans(summary, status)) == ResultHead(p) + p.Paint(ResultStyle(status), summary)
  {
    var lead, rest := p.Paint(Dim, "\U{23BF}"), p.Paint(ResultStyle(status), summary);
    var line := ResultSpans(summary, status);
    assert line == [Text("  "), Styled(Dim, "\U{23BF}"), Text(" "), Styled(ResultStyle(status), summary)];
    ShowFour(p, line);
    Associate(lead, " ", rest);
    Associate("  ", lead + " ", rest);
  }

  lemma ShowFour(p: Palette, line: Line)
    requires |line| == 4
    ensures Show(p, line)
        == ShowSpan(p, line[0]) + (ShowSpan(p, line[1]) + (ShowSpan(p, line[2]) + ShowSpan(p, line[3])))
  {
    var tail, pair, last := [line[1], line[2], line[3]], [line[2], line[3]], [line[3]];
    assert line[1..] == tail && tail[1..] == pair && pair[1..] == last && last[1..] == [];
    assert Show(p, last) == ShowSpan(p, line[3]) + "" == ShowSpan(p, line[3]);
    assert Show(p, pair) == ShowSpan(p, line[2]) + Show(p, last);
    assert Show(p, tail) == ShowSpan(p, line[1]) + Show(p, pair);
  }

  lemma PaintTexts(p: Palette, a: string, s: Style, b: string, t: Style)
    requires s in {Red, Dim} && t in {Red, Dim}
    ensures p.Paint(s, a) == p.Paint(t, b) <==> a == b && (p.color ==> s == t)
  {
    if p.color && p.Paint(s, a) == p.Paint(t, b) {
      assert p.Paint(s, a)[2] == Params(s)[0] && p.Paint(t, b)[2] == Params(t)[0];
      assert s == t;
      var on, off := Sgr(Params(s)), Sgr(RESET);
      Associate(on, a, off);
      Associate(on, b, off);
      Cancel(on, a + off, b + off);
      assert (a + off)[..|a|] == a && (b + off)[..|b|] == b;
    }
  }

  /** A result line shows the summary and, in colour, whether the step failed. */
  predicate SameResult(p: Palette, a: Crumb, b: Crumb) {
    a.summary == b.summary && (p.color ==> (a.status == Failed <==> b.status == Failed))
  }

  lemma ResultTexts(p: Palette, a: Crumb, b: Crumb)
    requires a.summary.Some? && b.summary.Some?
    ensures Show(p, ResultSpans(a.summary.value, a.status)) == Show(p, ResultSpans(b.summary.value, b.status))
        <==> SameResult(p, a, b)
  {
    var x, y := p.Paint(ResultStyle(a.status), a.summary.value), p.Paint(ResultStyle(b.status), b.summary.value);
    ResultShown(p, a.summary.value, a.status);
    ResultShown(p, b.summary.value, b.status);
    PaintTexts(p, a.summary.value, ResultStyle(a.status), b.summary.value, ResultStyle(b.status));
    if ResultHead(p) + x == ResultHead(p) + y { Cancel(ResultHead(p), x, y); }
  }

  // ----- incremental against batch -----

  /** All HUD frames of the run belong to one HUD message. */
  predicate OneMessage(frames: seq<Frame>) {
    CurrentEpoch(frames) == FilterMap(HudOf, frames) != []
  }

  /** The last frame shows every step with the status it was first shown with, and every result as first shown. */
  predicate LastAgrees(p: Palette, ep: seq<seq<Crumb>>) {
    ep != [] &&
    var last := ep[|ep| - 1];
    forall i :: 0 <= i < |last| ==>
      && (FirstSeen(ep, i).Some? ==> FirstSeen(ep, i).value.status == last[i].status)
      && (FirstSummary(ep, i).Some? ==> SameResult(p, FirstSummary(ep, i).value, last[i]))
  }

  /** The last frame still shows a summary for every step that ever had one. */
  predicate NothingWithdrawn(ep: seq<seq<Crumb>>) {
    ep != [] &&
    var last := ep[|ep| - 1];
    forall i :: 0 <= i < |last| && FirstSummary(ep, i).Some? ==> last[i].summary.Some?
  }

  /** What the history of one HUD message and its last frame have in common. */
  ghost predicate Followed(ep: seq<seq<Crumb>>, last: seq<Crumb>) {
    forall i: nat ::
      && (FirstSeen(ep, i).Some? <==> i < |last|)
      && (i < |last| ==> Key(FirstSeen(ep, i).value) == Key(last[i]))
      && (FirstSummary(ep, i).Some? ==> i < |last|)
      && (i < |last| && last[i].summary.Some? ==> FirstSummary(ep, i).Some?)
  }

  lemma MirrorsLast(hud: seq<RenderedStep>, ep: seq<seq<Crumb>>)
    requires RailMirrors(hud, ep) && ep != []
    ensures Followed(ep, ep[|ep| - 1])
  {
    var last := ep[|ep| - 1];
    forall i: nat
      ensures FirstSeen(ep, i).Some? <==> i < |last|
      ensures i < |last| ==> Key(FirstSeen(ep, i).value) == Key(last[i])
      ensures FirstSummary(ep, i).Some? ==> i < |last|
      ensures i < |last| && last[i].summary.Some? ==> FirstSummary(ep, i).Some?
    {
      assert EntryMirrors(hud, ep, i);
    }
  }

  function Incremental(ep: seq<seq<Crumb>>): Mark -> Option<RailEvent> { (m: Mark) => Expected(ep, m) }

  function Batch(last: seq<Crumb>): Mark -> Option<RailEvent> { (m: Mark) => HudWant([], last, m) }

  lemma BothListed(frames: seq<Frame>)
    requires CurrentEpoch(frames) != []
    ensures var ep := CurrentEpoch(frames);
            && Lists(SinceReset(frames), Incremental(ep))
            && Lists(HudEvents([], ep[|ep| - 1]), Batch(ep[|ep| - 1]))
            && Followed(ep, ep[|ep| - 1])
  {
    var ep := CurrentEpoch(frames);
    var last := ep[|ep| - 1];
    RailExactlyOnce(frames);
    MirrorsLast(RunState(frames).hud, ep);
    forall m: Mark ensures Once(SinceReset(frames), m, Incremental(ep)(m)) {
      assert Once(SinceReset(frames), m, Expected(ep, m));
    }
    forall m: Mark ensures Once(HudEvents([], last), m, Batch(last)(m)) {
      HudOnce([], last, m);
    }
  }

  /** One step agrees in both its lines exactly when the condition on it holds. */
  lemma AgreesAt(p: Palette, ep: seq<seq<Crumb>>, i: nat)
    requires ep != [] && Followed(ep, ep[|ep| - 1]) && i < |ep[|ep| - 1]|
    ensures var last := ep[|ep| - 1];
            && (WantText(p, Expected(ep, StepMark(i))) == WantText(p, HudWant([], last, StepMark(i)))
                <==> FirstSeen(ep, i).value.status == last[i].status)
            && (WantText(p, Expected(ep, ResultMark(i))) == WantText(p, HudWant([], last, ResultMark(i)))
                <==> (FirstSummary(ep, i).Some? ==> SameResult(p, FirstSummary(ep, i).value, last[i])))
  {
    var last := ep[|ep| - 1];
    StepTexts(p, FirstSeen(ep, i).value, last[i]);
    if FirstSummary(ep, i).Some? && last[i].summary.Some? { ResultTexts(p, FirstSummary(ep, i).value, last[i]); }
  }

  lemma AgreeExactly(p: Palette, ep: seq<seq<Crumb>>)
    requires ep != [] && Followed(ep, ep[|ep| - 1])
    ensures (forall m: Mark :: WantText(p, Incremental(ep)(m)) == WantText(p, Batch(ep[|ep| - 1])(m)))
        <==> LastAgrees(p, ep)
  {
    var last := ep[|ep| - 1];
    forall i: nat | i < |last|
      ensures WantText(p, Incremental(ep)(StepMark(i))) == WantText(p, Batch(last)(StepMark(i)))
         <==> FirstSeen(ep, i).value.status == last[i].status
      ensures WantText(p, Incremental(ep)(ResultMark(i))) == WantText(p, Batch(last)(ResultMark(i)))
         <==> (FirstSummary(ep, i).Some? ==> SameResult(p, FirstSummary(ep, i).value, last[i]))
    {
      AgreesAt(p, ep, i);
    }
    if LastAgrees(p, ep) {
      forall m: Mark ensures WantText(p, Incremental(ep)(m)) == WantText(p, Batch(last)(m)) {
        assert m == StepMark(m.index) || m == ResultMark(m.index);
        if m.index < |last| { AgreesAt(p, ep, m.index); }
      }
    }
  }

  /**
   For the frames of one HUD message, the incremental client prints the same step and result
   lines, in some order, as rendering only the last frame from a fresh state, exactly when the
   last frame shows every step and every result as it was first shown.
   */
  lemma IncrementalEqualsBatch(p: Palette, frames: seq<Frame>)
    requires OneMessage(frames)
    ensures var ep := CurrentEpoch(frames);
            var batch := HudEvents([], ep[|ep| - 1]);
            multiset(PrintedLines(p, SinceReset(frames))) == multiset(PrintedLines(p, batch)) <==> LastAgrees(p, ep)
  {
    var ep := CurrentEpoch(frames);
    var last := ep[|ep| - 1];
    BothListed(frames);
    SamePrinted(p, SinceReset(frames), HudEvents([], last), Incremental(ep), Batch(last));
    AgreeExactly(p, ep);
  }

  /** Whatever the lines say, they are about the same steps and results exactly when no summary was withdrawn. */
  lemma SamePositions(frames: seq<Frame>)
    requires OneMessage(frames)
    ensures var ep := CurrentEpoch(frames);
            var batch := HudEvents([], ep[|ep| - 1]);
            multiset(Marks(SinceReset(frames))) == multiset(Marks(batch)) <==> NothingWithdrawn(ep)
  {
    var ep := CurrentEpoch(frames);
    var last := ep[|ep| - 1];
    BothListed(frames);
    SameMarks(SinceReset(frames), HudEvents([], last), Incremental(ep), Batch(last));
    WithdrawnExactly(ep);
  }

  lemma WithdrawnExactly(ep: seq<seq<Crumb>>)
    requires ep != [] && Followed(ep, ep[|ep| - 1])
    ensures (forall m: Mark :: Incremental(ep)(m).Some? <==> Batch(ep[|ep| - 1])(m).Some?) <==> NothingWithdrawn(ep)
  {
    var last := ep[|ep| - 1];
    if NothingWithdrawn(ep) {
      forall m: Mark ensures Incremental(ep)(m).Some? <==> Batch(last)(m).Some? {
        assert m == StepMark(m.index) || m == ResultMark(m.index);
      }
    } else {
      var i :| 0 <= i < |last| && FirstSummary(ep, i).Some? && last[i].summary.None?;
      assert Incremental(ep)(ResultMark(i)).Some? && Batch(last)(ResultMark(i)).None?;
    }
  }

  // ----- the two renderings can differ -----

  function Sh(status: Status, summary: Option<string>): Crumb { Crumb("sh", None, status, summary, []) }

  function Hud(step: Crumb): Frame { Breadcrumb(Crumb("run", None, step.status, None, [step])) }

  lemma TwoHuds(a: Crumb, b: Crumb)
    requires Key(a) == Key(b)
    ensures var frames := [Hud(a), Hud(b)];
            OneMessage(frames) && CurrentEpoch(frames) == [[a], [b]]
  {
    var frames := [Hud(a), Hud(b)];
    FilterMapOne(HudOf, Hud(b));
    assert frames[1..] == [Hud(b)];
    assert FilterMap(HudOf, frames) == [[a]] + [[b]];
    OneStepEpoch(a, b);
  }

  lemma OneStepEpoch(a: Crumb, b: Crumb)
    requires Key(a) == Key(b)
    ensures Epoch([[a], [b]]) == [[a], [b]]
    ensures FirstSeen([[a], [b]], 0) == Some(a)
    ensures FirstSummary([[a], [b]], 0) == if a.summary.Some? then Some(a)
        else if b.summary.Some? then Some(b) else None
  {
    var one, two := [[a]], [[a], [b]];
    assert one[..0] == [] && two[..1] == one;
    assert Epoch(one) == one && FirstSeen(one, 0) == Some(a);
    assert FirstSummary(one, 0) == if a.summary.Some? then Some(a) else None;
    assert one + [[b]] == two;
  }

  /** A step first shown running and then done prints another marker than a batch rendering of it. */
  lemma RunningThenDone(p: Palette)
    ensures var frames := [Hud(Sh(Running, None)), Hud(Sh(Done, Some("ok")))];
            && OneMessage(frames)
            && multiset(PrintedLines(p, SinceReset(frames)))
                != multiset(PrintedLines(p, HudEvents([], [Sh(Done, Some("ok"))])))
  {
    TwoHuds(Sh(Running, None), Sh(Done, Some("ok")));
    OneStepEpoch(Sh(Running, None), Sh(Done, Some("ok")));
    IncrementalEqualsBatch(p, [Hud(Sh(Running, None)), Hud(Sh(Done, Some("ok")))]);
  }

  /** A summary taken back leaves a result line that a batch rendering does not have. */
  lemma SummaryWithdrawn()
    ensures var frames := [Hud(Sh(Done, Some("ok"))), Hud(Sh(Done, None))];
            && OneMessage(frames)
            && multiset(Marks(SinceReset(frames))) != multiset(Marks(HudEvents([], [Sh(Done, None)])))
  {
    TwoHuds(Sh(Done, Some("ok")), Sh(Done, None));
    OneStepEpoch(Sh(Done, Some("ok")), Sh(Done, None));
    SamePositions([Hud(Sh(Done, Some("ok"))), Hud(Sh(Done, None))]);
  }
}
