/** Reading frames back from what a terminal shows of them, character by character. */
module ChatShown {
  import opened Base
  import opened Strings
  import opened Decimal
  import opened Palette
  import opened Rendition
  import opened ChatFrames
  import opened ChatRail

  // ----- a step and its result -----

  function MarkerStatus(g: Glyph): Option<Status> {
    if g == Glyph('\U{25CB}', Some(Yellow)) then Some(Running)
    else if g == Glyph('\U{23FA}', Some(Green)) then Some(Done)
    else if g == Glyph('\U{D7}', Some(Red)) then Some(Failed)
    else None
  }

  /** A step line: a marker, the tool in bold and, in parentheses, the detail dimmed. */
  function ReadStep(g: seq<Glyph>): Option<(Status, string, Option<string>)> {
    if g == [] || MarkerStatus(g[0]).None? then None
    else
      var tool, dimmed, rest := Picked(g[1..], Some(Bold)), Picked(g[1..], Some(Dim)), Picked(g[1..], None);
      if rest == " " then Some((MarkerStatus(g[0]).value, tool, None))
      else if rest == " ()" then Some((MarkerStatus(g[0]).value, tool, Some(dimmed)))
      else None
  }

  lemma PickedSpan(span: Span, rest: Line, style: Option<Style>)
    ensures Picked(Spans([span] + rest), style) ==
              (if StyleOf(span) == style then span.text else "") + Picked(Spans(rest), style)
  {
    assert ([span] + rest)[1..] == rest;
    PickedAppend(In(StyleOf(span), span.text), Spans(rest), style);
    PickedIn(StyleOf(span), span.text, style);
  }

  /** What is shown after the marker, in one style. */
  lemma AfterMarker(c: Crumb, style: Option<Style>)
    ensures var g := Spans(StepSpans(c));
            && g != [] && MarkerStatus(g[0]) == Some(c.status)
            && Picked(g[1..], style) ==
                 if style == Some(Bold) then c.toolName
                 else if style == Some(Dim) && c.detail.Some? then c.detail.value
                 else if style == None then if c.detail.Some? then " ()" else " "
                 else ""
  {
    var tail := match c.detail case Some(d) => [Text("("), Styled(Dim, d), Text(")")] case None => [];
    var body := [Text(" ")] + ([Styled(Bold, c.toolName)] + tail);
    assert StepSpans(c) == [Marker(c.status)] + body;
    assert ([Marker(c.status)] + body)[1..] == body;
    assert Spans(StepSpans(c)) == In(StyleOf(Marker(c.status)), Marker(c.status).text) + Spans(body);
    assert Spans(StepSpans(c))[1..] == Spans(body);
    PickedSpan(Text(" "), [Styled(Bold, c.toolName)] + tail, style);
    PickedSpan(Styled(Bold, c.toolName), tail, style);
    TailPicked(c.detail, style);
  }

  lemma TailPicked(detail: Option<string>, style: Option<Style>)
    ensures var tail := match detail case Some(d) => [Text("("), Styled(Dim, d), Text(")")] case None => [];
            Picked(Spans(tail), style) ==
              if detail.Some? && style == Some(Dim) then detail.value
              else if detail.Some? && style == None then "()" else ""
  {
    if detail.Some? {
      var d := detail.value;
      assert [Text("("), Styled(Dim, d), Text(")")] == [Text("(")] + ([Styled(Dim, d)] + ([Text(")")] + []));
      PickedSpan(Text("("), [Styled(Dim, d)] + ([Text(")")] + []), style);
      PickedSpan(Styled(Dim, d), [Text(")")] + [], style);
      PickedSpan(Text(")"), [], style);
    }
  }

  /** Every step line shows the status, the tool and the detail it was made from. */
  lemma StepReadsBack(c: Crumb)
    requires CrumbClean(ESC, c)
    ensures ReadStep(Seen(StepSpans(c))) == Some((c.status, c.toolName, c.detail))
  {
    StepSpansClean(ESC, c);
    LineSeen(StepSpans(c));
    AfterMarker(c, Some(Bold));
    AfterMarker(c, Some(Dim));
    AfterMarker(c, None);
  }

  /** A result line: the leader, then the text in red if the step failed and dimmed if not. */
  ghost predicate ShowsResult(g: seq<Glyph>, text: string, failed: bool) {
    g == In(None, "  ") + In(Some(Dim), "\U{23BF}") + In(None, " ") + In(Some(if failed then Red else Dim), text)
  }

  lemma ResultReadsBack(summary: string, status: Status)
    requires Free(ESC, summary)
    ensures ShowsResult(Seen(ResultSpans(summary, status)), summary, status == Failed)
  {
    var line := ResultSpans(summary, status);
    ResultSpansClean(ESC, summary, status);
    LineSeen(line);
    var three, two := [line[1], line[2], line[3]], [line[2], line[3]];
    assert line == [line[0]] + three && three == [line[1]] + two && two == [line[2]] + [line[3]];
    SpansCons(line[0], three);
    SpansCons(line[1], two);
    SpansCons(line[2], [line[3]]);
    SpansOne(line[3]);
    AssociateFour(In(None, "  "), In(Some(Dim), "\U{23BF}"), In(None, " "), In(StyleOf(line[3]), summary));
    Associate(In(Some(Dim), "\U{23BF}"), In(None, " "), In(StyleOf(line[3]), summary));
  }

  // ----- diffs -----

  /** All of `g` in one style. */
  predicate AllIn(g: seq<Glyph>, style: Option<Style>) {
    forall i :: 0 <= i < |g| ==> g[i].style == style
  }

  function TextOf(g: seq<Glyph>): string {
    seq(|g|, i requires 0 <= i < |g| => g[i].ch)
  }

  /** Green with a plus, red with a minus, or plain with a blank. */
  function ReadDiffLine(g: seq<Glyph>): Option<DiffLine> {
    if g == [] then None
    else if AllIn(g, Some(Green)) && g[0].ch == '+' then Some(DiffLine(Add, TextOf(g[1..])))
    else if AllIn(g, Some(Red)) && g[0].ch == '-' then Some(DiffLine(Remove, TextOf(g[1..])))
    else if AllIn(g, None) && g[0].ch == ' ' then Some(DiffLine(Context, TextOf(g[1..])))
    else None
  }

  lemma DiffLineReadsBack(l: DiffLine)
    requires Free(ESC, l.text)
    ensures ReadDiffLine(Seen(DiffTextLine(l))) == Some(l)
  {
    match l.kind
    case Add =>
      OneSpan(Some(Green), "+" + l.text);
      SignedText(Some(Green), '+', l.text);
    case Remove =>
      OneSpan(Some(Red), "-" + l.text);
      SignedText(Some(Red), '-', l.text);
    case Context =>
      OneSpan(None, " " + l.text);
      SignedText(None, ' ', l.text);
  }

  lemma SignedText(style: Option<Style>, sign: char, text: string)
    ensures var g := In(style, [sign] + text);
            g != [] && AllIn(g, style) && g[0] == Glyph(sign, style) && TextOf(g[1..]) == text
  {
  }

  /** `@@ -a,b +c,d @@` with the four numbers of a hunk. */
  ghost predicate ShowsHunk(g: seq<Glyph>, h: Hunk) {
    exists a, b, c, d ::
      && ParseNat(a) == Some(h.oldStart) && ParseNat(b) == Some(h.oldLines)
      && ParseNat(c) == Some(h.newStart) && ParseNat(d) == Some(h.newLines)
      && g == In(Some(Dim), "@@ -" + a + "," + b + " +" + c + "," + d + " @@")
  }

  lemma OneSpan(style: Option<Style>, text: string)
    requires Free(ESC, text)
    ensures Seen([if style.None? then Text(text) else Styled(style.value, text)]) == In(style, text)
  {
    var line := [if style.None? then Text(text) else Styled(style.value, text)];
    LineSeen(line);
    assert line[1..] == [];
    assert In(style, text) + [] == In(style, text);
  }

  lemma HunkShown(h: Hunk)
    ensures ShowsHunk(Seen([Styled(Dim, HunkHeader(h))]), h)
  {
    HunkHeaderClean(ESC, h);
    OneSpan(Some(Dim), HunkHeader(h));
    NatRoundTrip(h.oldStart);
    NatRoundTrip(h.oldLines);
    NatRoundTrip(h.newStart);
    NatRoundTrip(h.newLines);
  }

  /** Hunk by hunk: the header, then its lines in order; at the end whether the diff was cut. */
  ghost predicate ShowsHunks(lines: seq<seq<Glyph>>, hunks: seq<Hunk>, truncated: bool) {
    if hunks == [] then lines == if truncated then [In(Some(Dim), "[diff truncated]")] else []
    else
      var n := 1 + |hunks[0].lines|;
      && |lines| >= n
      && ShowsHunk(lines[0], hunks[0])
      && (forall i :: 1 <= i < n ==> ReadDiffLine(lines[i]) == Some(hunks[0].lines[i - 1]))
      && ShowsHunks(lines[n..], hunks[1..], truncated)
  }

  /** The lines of a frame as a terminal shows them. */
  function SeenAll(lines: seq<Line>): seq<seq<Glyph>> {
    seq(|lines|, i requires 0 <= i < |lines| => Seen(lines[i]))
  }

  lemma SeenAppend(a: seq<Line>, b: seq<Line>)
    ensures SeenAll(a + b) == SeenAll(a) + SeenAll(b)
  {
  }

  function CutNote(truncated: bool): seq<Line> {
    if truncated then [[Styled(Dim, "[diff truncated]")]] else []
  }

  function HunkOwn(h: Hunk): seq<Line> {
    [[Styled(Dim, HunkHeader(h))]] + seq(|h.lines|, i requires 0 <= i < |h.lines| => DiffTextLine(h.lines[i]))
  }

  /** The lines of one hunk. */
  ghost predicate ShowsOwn(lines: seq<seq<Glyph>>, h: Hunk) {
    && |lines| == 1 + |h.lines| && ShowsHunk(lines[0], h)
    && forall i :: 1 <= i < |lines| ==> ReadDiffLine(lines[i]) == Some(h.lines[i - 1])
  }

  lemma OwnShown(h: Hunk)
    requires HunkClean(ESC, h)
    ensures ShowsOwn(SeenAll(HunkOwn(h)), h)
  {
    var own := HunkOwn(h);
    HunkShown(h);
    assert own[0] == [Styled(Dim, HunkHeader(h))];
    forall i | 1 <= i < |own| ensures ReadDiffLine(Seen(own[i])) == Some(h.lines[i - 1]) {
      assert own[i] == DiffTextLine(h.lines[i - 1]);
      DiffLineReadsBack(h.lines[i - 1]);
    }
    OwnSeen(own, h);
  }

  lemma OwnSeen(own: seq<Line>, h: Hunk)
    requires |own| == 1 + |h.lines| && ShowsHunk(Seen(own[0]), h)
    requires forall i :: 1 <= i < |own| ==> ReadDiffLine(Seen(own[i])) == Some(h.lines[i - 1])
    ensures ShowsOwn(SeenAll(own), h)
  {
  }

  lemma HunksStep(own: seq<seq<Glyph>>, rest: seq<seq<Glyph>>, hunks: seq<Hunk>, truncated: bool)
    requires hunks != [] && ShowsOwn(own, hunks[0]) && ShowsHunks(rest, hunks[1..], truncated)
    ensures ShowsHunks(own + rest, hunks, truncated)
  {
    assert (own + rest)[|own|..] == rest;
  }

  lemma {:induction false} HunksShown(hunks: seq<Hunk>, truncated: bool)
    requires forall i :: 0 <= i < |hunks| ==> HunkClean(ESC, hunks[i])
    ensures ShowsHunks(SeenAll(HunkLines(hunks) + CutNote(truncated)), hunks, truncated)
  {
    if hunks == [] {
      assert HunkLines(hunks) + CutNote(truncated) == CutNote(truncated);
      OneSpan(Some(Dim), "[diff truncated]");
    } else {
      var own, rest := HunkOwn(hunks[0]), HunkLines(hunks[1..]);
      Associate(own, rest, CutNote(truncated));
      SeenAppend(own, rest + CutNote(truncated));
      HunksShown(hunks[1..], truncated);
      OwnShown(hunks[0]);
      HunksStep(SeenAll(own), SeenAll(rest + CutNote(truncated)), hunks, truncated);
    }
  }

  /** `path (+A -R)` in bold. */
  ghost predicate ShowsDiffTitle(g: seq<Glyph>, path: string, added: nat, removed: nat) {
    exists a, r :: ParseNat(a) == Some(added) && ParseNat(r) == Some(removed)
      && g == In(Some(Bold), path + " (+" + a + " -" + r + ")")
  }

  ghost predicate ShowsDiff(lines: seq<seq<Glyph>>, f: Frame)
    requires f.Diff?
  {
    && lines != [] && ShowsDiffTitle(lines[0], f.path, f.added, f.removed)
    && ShowsHunks(lines[1..], f.hunks, f.truncated)
  }

  function DiffTitle(path: string, added: nat, removed: nat): string {
    path + " (+" + NatText(added) + " -" + NatText(removed) + ")"
  }

  lemma DiffTitleShown(path: string, added: nat, removed: nat)
    requires Free(ESC, path)
    ensures ShowsDiffTitle(Seen([Styled(Bold, DiffTitle(path, added, removed))]), path, added, removed)
  {
    DigitsClean(ESC, added);
    DigitsClean(ESC, removed);
    OneSpan(Some(Bold), DiffTitle(path, added, removed));
    NatRoundTrip(added);
    NatRoundTrip(removed);
  }

  lemma DiffShown(f: Frame)
    requires f.Diff? && FrameClean(ESC, f)
    ensures ShowsDiff(SeenAll(PlainFrameLines(f)), f)
  {
    var title := [[Styled(Bold, DiffTitle(f.path, f.added, f.removed))]];
    DiffTitleShown(f.path, f.added, f.removed);
    HunksShown(f.hunks, f.truncated);
    var rest := HunkLines(f.hunks) + CutNote(f.truncated);
    Associate(title, HunkLines(f.hunks), CutNote(f.truncated));
    SeenAppend(title, rest);
    DiffRows(SeenAll(title), SeenAll(rest), f);
  }

  lemma DiffRows(title: seq<seq<Glyph>>, rest: seq<seq<Glyph>>, f: Frame)
    requires f.Diff? && |title| == 1 && ShowsDiffTitle(title[0], f.path, f.added, f.removed)
    requires ShowsHunks(rest, f.hunks, f.truncated)
    ensures ShowsDiff(title + rest, f)
  {
    assert (title + rest)[1..] == rest;
  }

  // ----- checklists -----

  function BoxStatus(box: string): Option<TodoStatus> {
    if box == "[ ] " then Some(Pending)
    else if box == "[~] " then Some(InProgress)
    else if box == "[!] " then Some(Blocked)
    else if box == "[x] " then Some(Completed)
    else None
  }

  /** The style of an item's text: struck through once completed, dimmed while pending. */
  function ItemStyle(status: TodoStatus): Option<Style> {
    match status case Completed => Some(Strike) case Pending => Some(Dim) case _ => None
  }

  /** The box, the text, and for a blocked item the reason, unless that is blank. */
  ghost predicate ShowsItem(g: seq<Glyph>, item: TodoItem) {
    exists box, note ::
      && BoxStatus(box) == Some(item.status)
      && g == In(None, box) + (In(ItemStyle(item.status), item.text) + In(Some(Dim), note))
      && note == if item.status == Blocked && item.blockedReason.Some? && Trim(item.blockedReason.value) != ""
                 then " \U{2014} " + Trim(item.blockedReason.value) else ""
  }

  lemma ItemShown(item: TodoItem)
    requires Free(ESC, item.text) && OptionClean(ESC, item.blockedReason)
    ensures ShowsItem(Seen(TodoLine(item)), item)
  {
    var line, box := TodoLine(item), TodoGlyph(item.status) + " ";
    TodoLineClean(ESC, item);
    LineSeen(line);
    assert line[1..][1..] == BlockedNote(item) && line[1..][0] == TodoText(item);
    var note := if BlockedNote(item) == [] then "" else BlockedNote(item)[0].text;
    assert BlockedNote(item) != [] ==> BlockedNote(item)[1..] == [];
    assert Spans(BlockedNote(item)) == In(Some(Dim), note);
    BoxShown(item.status);
  }

  lemma BoxShown(status: TodoStatus)
    ensures BoxStatus(TodoGlyph(status) + " ") == Some(status)
  {
    assert (TodoGlyph(status) + " ")[1] == TodoGlyph(status)[1];
    assert TodoGlyph(status) + " " == match status
        case Pending => "[ ] " case InProgress => "[~] " case Blocked => "[!] " case Completed => "[x] ";
  }

  ghost predicate ShowsTitle(lines: seq<seq<Glyph>>, title: Option<string>) {
    title.Some? ==> lines != [] && lines[0] == In(Some(Bold), title.value)
  }

  function After(lines: seq<seq<Glyph>>, title: Option<string>): seq<seq<Glyph>> {
    if title.Some? && lines != [] then lines[1..] else lines
  }

  ghost predicate ShowsTodo(lines: seq<seq<Glyph>>, f: Frame)
    requires f.TodoList?
  {
    var rows := After(lines, f.title);
    && ShowsTitle(lines, f.title) && |rows| == |f.items|
    && forall i :: 0 <= i < |rows| ==> ShowsItem(rows[i], f.items[i])
  }

  lemma TitleShown(title: Option<string>, rest: seq<Line>)
    requires OptionClean(ESC, title)
    ensures var lines := SeenAll(Optional(Bold, title) + rest);
            ShowsTitle(lines, title) && After(lines, title) == SeenAll(rest)
  {
    SeenAppend(Optional(Bold, title), rest);
    if title.Some? {
      OneSpan(Some(Bold), title.value);
      assert Optional(Bold, title) == [[Styled(Bold, title.value)]];
    } else {
      assert Optional(Bold, title) + rest == rest;
    }
  }

  lemma TodoShown(f: Frame)
    requires f.TodoList? && FrameClean(ESC, f)
    ensures ShowsTodo(SeenAll(PlainFrameLines(f)), f)
  {
    var rows := seq(|f.items|, i requires 0 <= i < |f.items| => TodoLine(f.items[i]));
    TitleShown(f.title, rows);
    forall i | 0 <= i < |rows| ensures ShowsItem(SeenAll(rows)[i], f.items[i]) { ItemShown(f.items[i]); }
  }

  // ----- text, cards, errors -----

  /** Each text on a line of its own, in one style. */
  function Each(style: Option<Style>, texts: seq<string>): seq<seq<Glyph>> {
    seq(|texts|, i requires 0 <= i < |texts| => In(style, texts[i]))
  }

  lemma EachShown(style: Option<Style>, texts: seq<string>)
    requires AllClean(ESC, texts)
    ensures style.None? ==> SeenAll(Verbatim(texts)) == Each(style, texts)
    ensures style.Some? ==> SeenAll(InStyle(style.value, texts)) == Each(style, texts)
  {
    forall i | 0 <= i < |texts|
      ensures style.None? ==> Seen(Verbatim(texts)[i]) == In(style, texts[i])
      ensures style.Some? ==> Seen(InStyle(style.value, texts)[i]) == In(style, texts[i])
    {
      OneSpan(style, texts[i]);
    }
  }

  /** A caption in bold, then a colon and the value. */
  ghost predicate ShowsField(g: seq<Glyph>, f: Field) {
    g == In(Some(Bold), f.caption) + In(None, ": " + f.value)
  }

  lemma FieldShown(f: Field)
    requires Free(ESC, f.caption) && Free(ESC, f.value)
    ensures ShowsField(Seen(FieldLine(f)), f)
  {
    LineSeen(FieldLine(f));
    assert FieldLine(f) == [Styled(Bold, f.caption)] + [Text(": " + f.value)];
    SpansCons(Styled(Bold, f.caption), [Text(": " + f.value)]);
    SpansOne(Text(": " + f.value));
  }

  ghost predicate ShowsCard(lines: seq<seq<Glyph>>, f: Frame)
    requires f.Card?
  {
    var rows, body := After(lines, f.title), if f.body.Some? then Lines(f.body.value) else [];
    && ShowsTitle(lines, f.title) && |rows| == |body| + |f.fields|
    && rows[..|body|] == Each(None, body)
    && forall i :: 0 <= i < |f.fields| ==> ShowsField(rows[|body| + i], f.fields[i])
  }

  function FieldLines(fields: seq<Field>): seq<Line> {
    seq(|fields|, i requires 0 <= i < |fields| => FieldLine(fields[i]))
  }

  lemma FieldsShown(fields: seq<Field>)
    requires forall i :: 0 <= i < |fields| ==> Free(ESC, fields[i].caption) && Free(ESC, fields[i].value)
    ensures forall i :: 0 <= i < |fields| ==> ShowsField(SeenAll(FieldLines(fields))[i], fields[i])
  {
    forall i | 0 <= i < |fields| ensures ShowsField(SeenAll(FieldLines(fields))[i], fields[i]) {
      FieldShown(fields[i]);
    }
  }

  lemma CardShown(f: Frame)
    requires f.Card? && FrameClean(ESC, f)
    ensures ShowsCard(SeenAll(PlainFrameLines(f)), f)
  {
    var body := if f.body.Some? then Lines(f.body.value) else [];
    if f.body.Some? { LinesOfClean(ESC, f.body.value); }
    EachShown(None, body);
    FieldsShown(f.fields);
    CardParts(f.title, body, f.fields);
    TitleShown(f.title, Verbatim(body) + FieldLines(f.fields));
    SeenAppend(Verbatim(body), FieldLines(f.fields));
    CardRows(SeenAll(PlainFrameLines(f)), f, body, SeenAll(FieldLines(f.fields)));
  }

  lemma CardRows(lines: seq<seq<Glyph>>, f: Frame, body: seq<string>, rows: seq<seq<Glyph>>)
    requires f.Card? && body == if f.body.Some? then Lines(f.body.value) else []
    requires ShowsTitle(lines, f.title) && After(lines, f.title) == Each(None, body) + rows
    requires |rows| == |f.fields| && forall i :: 0 <= i < |rows| ==> ShowsField(rows[i], f.fields[i])
    ensures ShowsCard(lines, f)
  {
  }

  lemma CardParts(title: Option<string>, body: seq<string>, fields: seq<Field>)
    ensures Optional(Bold, title) + Verbatim(body) + FieldLines(fields)
         == Optional(Bold, title) + (Verbatim(body) + FieldLines(fields))
  {
  }

  function KindNamed(name: string): Option<ErrorKind> {
    if name == "tool" then Some(Internal)
    else if name == "provider" then Some(Provider)
    else if name == "delivery" then Some(Delivery)
    else None
  }

  ghost predicate ShowsHeadline(g: seq<Glyph>, kind: ErrorKind, title: string, summary: string) {
    exists name :: KindNamed(name) == Some(kind)
      && g == In(Some(Red), "[" + name + " error] " + title + ": " + summary)
  }

  /** A red headline, the details dimmed, and a note when it will be retried. */
  ghost predicate ShowsError(lines: seq<seq<Glyph>>, f: Frame)
    requires f.Error?
  {
    var details := if f.details.Some? then Lines(f.details.value) else [];
    && lines != [] && ShowsHeadline(lines[0], f.kind, f.headline, f.summary)
    && lines[1..] == Each(Some(Dim), details + if f.retryable then ["(will retry automatically)"] else [])
  }

  lemma HeadlineShown(kind: ErrorKind, title: string, summary: string)
    requires Free(ESC, title) && Free(ESC, summary)
    ensures ShowsHeadline(Seen([Styled(Red, ErrorHeadline(kind, title, summary))]), kind, title, summary)
  {
    assert Free(ESC, ErrorLabel(kind));
    OneSpan(Some(Red), ErrorHeadline(kind, title, summary));
    assert KindNamed(ErrorLabel(kind)) == Some(kind);
  }

  function Notes(details: Option<string>, retryable: bool): seq<string> {
    (if details.Some? then Lines(details.value) else []) + if retryable then ["(will retry automatically)"] else []
  }

  lemma NotesShown(details: Option<string>, retryable: bool)
    requires OptionClean(ESC, details)
    ensures SeenAll(ErrorDetails(details) + RetryNote(retryable)) == Each(Some(Dim), Notes(details, retryable))
  {
    if details.Some? { LinesOfClean(ESC, details.value); }
    EachShown(Some(Dim), Notes(details, retryable));
    assert ErrorDetails(details) + RetryNote(retryable) == InStyle(Dim, Notes(details, retryable));
  }

  lemma ErrorShown(f: Frame)
    requires f.Error? && FrameClean(ESC, f)
    ensures ShowsError(SeenAll(PlainFrameLines(f)), f)
  {
    var head := [[Styled(Red, ErrorHeadline(f.kind, f.headline, f.summary))]];
    HeadlineShown(f.kind, f.headline, f.summary);
    NotesShown(f.details, f.retryable);
    Associate(head, ErrorDetails(f.details), RetryNote(f.retryable));
    SeenAppend(head, ErrorDetails(f.details) + RetryNote(f.retryable));
    ErrorRows(SeenAll(head), SeenAll(ErrorDetails(f.details) + RetryNote(f.retryable)), f);
  }

  lemma ErrorRows(head: seq<seq<Glyph>>, rest: seq<seq<Glyph>>, f: Frame)
    requires f.Error? && |head| == 1 && ShowsHeadline(head[0], f.kind, f.headline, f.summary)
    requires rest == Each(Some(Dim), Notes(f.details, f.retryable))
    ensures ShowsError(head + rest, f)
  {
    assert (head + rest)[1..] == rest;
  }

  // ----- every kind of frame -----

  /** What the lines of a frame that is not a breadcrumb show of it. */
  ghost predicate Shows(lines: seq<seq<Glyph>>, f: Frame)
    requires !f.Breadcrumb?
  {
    match f
    case Chat(text, files) =>
      lines == Each(None, Lines(text)) +
        if files == [] then [] else [In(Some(Dim), "[files: " + Join(files, ", ") + "]")]
    case Collapsible(text, summary) => lines == [In(Some(Dim), summary)] + Each(None, Lines(text))
    case Thinking(text, redacted) => lines == Each(Some(Dim), if redacted then ["[thinking redacted]"] else Lines(text))
    case Card(_, _, _) => ShowsCard(lines, f)
    case Diff(_, _, _, _, _) => ShowsDiff(lines, f)
    case TodoList(_, _) => ShowsTodo(lines, f)
    case Error(_, _, _, _, _) => ShowsError(lines, f)
  }

  lemma ChatShown(text: string, files: seq<string>)
    requires FrameClean(ESC, Chat(text, files))
    ensures Shows(SeenAll(ChatLines(text, files)), Chat(text, files))
  {
    LinesOfClean(ESC, text);
    EachShown(None, Lines(text));
    JoinClean(ESC, files, ", ");
    var note := "[files: " + Join(files, ", ") + "]";
    OneSpan(Some(Dim), note);
    SeenAppend(Verbatim(Lines(text)), if files == [] then [] else [[Styled(Dim, note)]]);
  }

  lemma CollapsibleShown(text: string, summary: string)
    requires Free(ESC, text) && Free(ESC, summary)
    ensures SeenAll([[Styled(Dim, summary)]] + Verbatim(Lines(text)))
         == [In(Some(Dim), summary)] + Each(None, Lines(text))
  {
    LinesOfClean(ESC, text);
    EachShown(None, Lines(text));
    OneSpan(Some(Dim), summary);
    SeenAppend([[Styled(Dim, summary)]], Verbatim(Lines(text)));
  }

  lemma ThinkingShown(text: string, redacted: bool)
    requires Free(ESC, text)
    ensures SeenAll(ThinkingLines(text, redacted))
         == Each(Some(Dim), if redacted then ["[thinking redacted]"] else Lines(text))
  {
    LinesOfClean(ESC, text);
    EachShown(Some(Dim), Lines(text));
    OneSpan(Some(Dim), "[thinking redacted]");
  }

  /** Every frame that is not a breadcrumb can be read off the lines a terminal shows of it. */
  lemma FrameShown(f: Frame)
    requires !f.Breadcrumb? && FrameClean(ESC, f)
    ensures Shows(SeenAll(PlainFrameLines(f)), f)
  {
    match f
    case Card(_, _, _) => CardShown(f);
    case Diff(_, _, _, _, _) => DiffShown(f);
    case TodoList(_, _) => TodoShown(f);
    case Error(_, _, _, _, _) => ErrorShown(f);
    case Chat(text, files) => ChatShown(text, files);
    case Collapsible(text, summary) => CollapsibleShown(text, summary);
    case Thinking(text, redacted) => ThinkingShown(text, redacted);
  }
}
