/** Frames of the chat log and the transcript lines of every frame kind but the breadcrumb. */
module ChatFrames {
  import opened Base
  import opened Strings
  import opened Decimal
  import opened Palette

  datatype Status = Running | Done | Failed

  datatype Crumb = Crumb(
    toolName: string, detail: Option<string>, status: Status, summary: Option<string>, steps: seq<Crumb>)

  datatype Field = Field(caption: string, value: string)

  datatype TodoStatus = Pending | InProgress | Blocked | Completed

  datatype TodoItem = TodoItem(text: string, status: TodoStatus, blockedReason: Option<string>)

  datatype DiffKind = Context | Add | Remove

  datatype DiffLine = DiffLine(kind: DiffKind, text: string)

  datatype Hunk = Hunk(oldStart: nat, oldLines: nat, newStart: nat, newLines: nat, lines: seq<DiffLine>)

  datatype ErrorKind = Internal | Provider | Delivery

  datatype Frame =
    | Chat(text: string, files: seq<string>)
    | Card(title: Option<string>, body: Option<string>, fields: seq<Field>)
    | Breadcrumb(crumb: Crumb)
    | Diff(path: string, added: nat, removed: nat, hunks: seq<Hunk>, truncated: bool)
    | Collapsible(text: string, summary: string)
    | TodoList(title: Option<string>, items: seq<TodoItem>)
    | Error(kind: ErrorKind, headline: string, summary: string, details: Option<string>, retryable: bool)
    | Thinking(text: string, redacted: bool)

  // ----- lines of one frame -----

  function Verbatim(texts: seq<string>): seq<Line> {
    seq(|texts|, i requires 0 <= i < |texts| => [Text(texts[i])])
  }

  function InStyle(style: Style, texts: seq<string>): seq<Line> {
    seq(|texts|, i requires 0 <= i < |texts| => [Styled(style, texts[i])])
  }

  function Optional(style: Style, text: Option<string>): seq<Line> {
    match text case Some(t) => [[Styled(style, t)]] case None => []
  }

  function OptionalBody(text: Option<string>): seq<Line> {
    match text case Some(t) => Verbatim(Lines(t)) case None => []
  }

  function ChatLines(text: string, files: seq<string>): seq<Line> {
    Verbatim(Lines(text)) + if files == [] then [] else [[Styled(Dim, "[files: " + Join(files, ", ") + "]")]]
  }

  function FieldLine(f: Field): Line {
    [Styled(Bold, f.caption), Text(": " + f.value)]
  }

  function CardLines(title: Option<string>, body: Option<string>, fields: seq<Field>): seq<Line> {
    Optional(Bold, title) + OptionalBody(body) + seq(|fields|, i requires 0 <= i < |fields| => FieldLine(fields[i]))
  }

  function TodoGlyph(status: TodoStatus): string {
    match status case Pending => "[ ]" case InProgress => "[~]" case Blocked => "[!]" case Completed => "[x]"
  }

  function TodoText(item: TodoItem): Span {
    match item.status
    case Completed => Styled(Strike, item.text)
    case Pending => Styled(Dim, item.text)
    case _ => Text(item.text)
  }

  /** The reason appended to a blocked item, absent when blank. */
  function BlockedNote(item: TodoItem): Line {
    match item.blockedReason
    case Some(reason) =>
      if item.status == Blocked && Trim(reason) != "" then [Styled(Dim, " \U{2014} " + Trim(reason))] else []
    case None => []
  }

  function TodoLine(item: TodoItem): Line {
    [Text(TodoGlyph(item.status) + " "), TodoText(item)] + BlockedNote(item)
  }

  function TodoLines(title: Option<string>, items: seq<TodoItem>): seq<Line> {
    Optional(Bold, title) + seq(|items|, i requires 0 <= i < |items| => TodoLine(items[i]))
  }

  function DiffTextLine(l: DiffLine): Line {
    match l.kind
    case Add => [Styled(Green, "+" + l.text)]
    case Remove => [Styled(Red, "-" + l.text)]
    case Context => [Text(" " + l.text)]
  }

  function HunkHeader(h: Hunk): string {
    "@@ -" + NatText(h.oldStart) + "," + NatText(h.oldLines) + " +" + NatText(h.newStart) + "," +
        NatText(h.newLines) + " @@"
  }

  function HunkLines(hunks: seq<Hunk>): seq<Line> {
    if hunks == [] then []
    else
      var h := hunks[0];
      [[Styled(Dim, HunkHeader(h))]] + seq(|h.lines|, i requires 0 <= i < |h.lines| => DiffTextLine(h.lines[i]))
      + HunkLines(hunks[1..])
  }

  function DiffLines(path: string, added: nat, removed: nat, hunks: seq<Hunk>, truncated: bool): seq<Line> {
    [[Styled(Bold, path + " (+" + NatText(added) + " -" + NatText(removed) + ")")]] + HunkLines(hunks)
    + if truncated then [[Styled(Dim, "[diff truncated]")]] else []
  }

  function ErrorLabel(kind: ErrorKind): string {
    match kind case Internal => "tool" case Provider => "provider" case Delivery => "delivery"
  }

  function ErrorHeadline(kind: ErrorKind, title: string, summary: string): string {
    "[" + ErrorLabel(kind) + " error] " + title + ": " + summary
  }

  function ErrorDetails(details: Option<string>): seq<Line> {
    match details case Some(d) => InStyle(Dim, Lines(d)) case None => []
  }

  function RetryNote(retryable: bool): seq<Line> {
    if retryable then [[Styled(Dim, "(will retry automatically)")]] else []
  }

  function ErrorLines(kind: ErrorKind, title: string, summary: string, details: Option<string>,
      retryable: bool): seq<Line> {
    [[Styled(Red, ErrorHeadline(kind, title, summary))]] + ErrorDetails(details) + RetryNote(retryable)
  }

  function ThinkingLines(text: string, redacted: bool): seq<Line> {
    if redacted then [[Styled(Dim, "[thinking redacted]")]] else InStyle(Dim, Lines(text))
  }

  /** Lines of a frame that is not a breadcrumb; they do not depend on any state. */
  function PlainFrameLines(f: Frame): seq<Line>
    requires !f.Breadcrumb?
  {
    match f
    case Chat(text, files) => ChatLines(text, files)
    case Card(title, body, fields) => CardLines(title, body, fields)
    case Diff(path, added, removed, hunks, truncated) => DiffLines(path, added, removed, hunks, truncated)
    case Collapsible(text, summary) => [[Styled(Dim, summary)]] + Verbatim(Lines(text))
    case TodoList(title, items) => TodoLines(title, items)
    case Error(kind, title, summary, details, retryable) => ErrorLines(kind, title, summary, details, retryable)
    case Thinking(text, redacted) => ThinkingLines(text, redacted)
  }

  // ----- frames whose text is free of a control character -----

  predicate OptionClean(bad: Control, t: Option<string>) {
    t.Some? ==> Free(bad, t.value)
  }

  predicate CrumbClean(bad: Control, c: Crumb) {
    Free(bad, c.toolName) && OptionClean(bad, c.detail) && OptionClean(bad, c.summary)
    && forall i :: 0 <= i < |c.steps| ==> CrumbClean(bad, c.steps[i])
  }

  predicate AllClean(bad: Control, texts: seq<string>) {
    forall i :: 0 <= i < |texts| ==> Free(bad, texts[i])
  }

  predicate HunkClean(bad: Control, h: Hunk) {
    forall i :: 0 <= i < |h.lines| ==> Free(bad, h.lines[i].text)
  }

  predicate FrameClean(bad: Control, f: Frame) {
    match f
    case Chat(text, files) => Free(bad, text) && AllClean(bad, files)
    case Card(title, body, fields) =>
      OptionClean(bad, title) && OptionClean(bad, body)
      && forall i :: 0 <= i < |fields| ==> Free(bad, fields[i].caption) && Free(bad, fields[i].value)
    case Breadcrumb(crumb) => CrumbClean(bad, crumb)
    case Diff(path, _, _, hunks, _) => Free(bad, path) && forall i :: 0 <= i < |hunks| ==> HunkClean(bad, hunks[i])
    case Collapsible(text, summary) => Free(bad, text) && Free(bad, summary)
    case TodoList(title, items) =>
      OptionClean(bad, title) && forall i :: 0 <= i < |items| ==>
          Free(bad, items[i].text) && OptionClean(bad, items[i].blockedReason)
    case Error(_, title, summary, details, _) => Free(bad, title) && Free(bad, summary) && OptionClean(bad, details)
    case Thinking(text, _) => Free(bad, text)
  }

  predicate LinesClean(bad: Control, lines: seq<Line>) {
    forall i :: 0 <= i < |lines| ==> LineFree(bad, lines[i])
  }

  lemma {:induction false} LinesOfClean(bad: Control, s: string)
    requires Free(bad, s)
    ensures AllClean(bad, Lines(s))
    decreases |s|
  {
    if s == "" || IndexOf(s, '\n') == |s| {
    } else {
      LinesOfClean(bad, s[IndexOf(s, '\n') + 1..]);
    }
  }

  lemma {:induction false} JoinClean(bad: Control, parts: seq<string>, sep: string)
    requires AllClean(bad, parts) && Free(bad, sep)
    ensures Free(bad, Join(parts, sep))
  {
    if |parts| <= 1 {
    } else {
      JoinClean(bad, parts[1..], sep);
    }
  }

  lemma {:induction false} TrimStartClean(bad: Control, s: string)
    requires Free(bad, s)
    ensures Free(bad, TrimStart(s))
  {
    if s == "" || !IsSpace(s[0]) {
    } else {
      TrimStartClean(bad, s[1..]);
    }
  }

  lemma {:induction false} TrimEndClean(bad: Control, s: string)
    requires Free(bad, s)
    ensures Free(bad, TrimEnd(s))
  {
    if s == "" || !IsSpace(s[|s| - 1]) {
    } else {
      TrimEndClean(bad, s[..|s| - 1]);
    }
  }

  lemma DigitsClean(bad: Control, n: nat)
    ensures Free(bad, NatText(n))
  {
    forall i | 0 <= i < |NatText(n)| ensures NatText(n)[i] != bad {
      assert IsDigit(NatText(n)[i]);
    }
  }

  lemma HunkHeaderClean(bad: Control, h: Hunk)
    ensures Free(bad, HunkHeader(h))
  {
    DigitsClean(bad, h.oldStart);
    DigitsClean(bad, h.oldLines);
    DigitsClean(bad, h.newStart);
    DigitsClean(bad, h.newLines);
  }

  lemma {:induction false} HunksClean(bad: Control, hunks: seq<Hunk>)
    requires forall i :: 0 <= i < |hunks| ==> HunkClean(bad, hunks[i])
    ensures LinesClean(bad, HunkLines(hunks))
  {
    if hunks == [] {
    } else {
      HunksClean(bad, hunks[1..]);
      HunkHeaderClean(bad, hunks[0]);
    }
  }

  lemma TodoLineClean(bad: Control, item: TodoItem)
    requires Free(bad, item.text) && OptionClean(bad, item.blockedReason)
    ensures LineFree(bad, TodoLine(item))
  {
    if item.blockedReason.Some? {
      TrimStartClean(bad, item.blockedReason.value);
      TrimEndClean(bad, TrimStart(item.blockedReason.value));
    }
  }

  lemma ChatClean(bad: Control, text: string, files: seq<string>)
    requires Free(bad, text) && AllClean(bad, files)
    ensures LinesClean(bad, ChatLines(text, files))
  {
    LinesOfClean(bad, text);
    JoinClean(bad, files, ", ");
  }

  lemma CardClean(bad: Control, title: Option<string>, body: Option<string>, fields: seq<Field>)
    requires FrameClean(bad, Card(title, body, fields))
    ensures LinesClean(bad, CardLines(title, body, fields))
  {
    if body.Some? { LinesOfClean(bad, body.value); }
    CleanAppend(bad, Optional(Bold, title), OptionalBody(body));
    CleanAppend(bad, Optional(Bold, title) + OptionalBody(body),
                seq(|fields|, i requires 0 <= i < |fields| => FieldLine(fields[i])));
  }

  lemma DiffClean(bad: Control, path: string, added: nat, removed: nat, hunks: seq<Hunk>, truncated: bool)
    requires FrameClean(bad, Diff(path, added, removed, hunks, truncated))
    ensures LinesClean(bad, DiffLines(path, added, removed, hunks, truncated))
  {
    DigitsClean(bad, added);
    DigitsClean(bad, removed);
    HunksClean(bad, hunks);
  }

  lemma TodoClean(bad: Control, title: Option<string>, items: seq<TodoItem>)
    requires FrameClean(bad, TodoList(title, items))
    ensures LinesClean(bad, TodoLines(title, items))
  {
    forall i | 0 <= i < |items| ensures LineFree(bad, TodoLine(items[i])) { TodoLineClean(bad, items[i]); }
  }

  lemma ErrorClean(bad: Control, kind: ErrorKind, title: string, summary: string, details: Option<string>,
      retryable: bool)
    requires Free(bad, title) && Free(bad, summary) && OptionClean(bad, details)
    ensures LinesClean(bad, ErrorLines(kind, title, summary, details, retryable))
  {
    var head := [[Styled(Red, ErrorHeadline(kind, title, summary))]];
    ErrorDetailsClean(bad, details);
    RetryClean(bad, retryable);
    CleanAppend(bad, head, ErrorDetails(details));
    CleanAppend(bad, head + ErrorDetails(details), RetryNote(retryable));
  }

  lemma RetryClean(bad: Control, retryable: bool)
    ensures LinesClean(bad, RetryNote(retryable))
  {
  }

  lemma ErrorDetailsClean(bad: Control, details: Option<string>)
    requires OptionClean(bad, details)
    ensures LinesClean(bad, ErrorDetails(details))
  {
    if details.Some? { LinesOfClean(bad, details.value); }
  }

  lemma CleanAppend(bad: Control, a: seq<Line>, b: seq<Line>)
    requires LinesClean(bad, a) && LinesClean(bad, b)
    ensures LinesClean(bad, a + b)
  {
  }

  /** Clean frames make clean lines. */
  lemma PlainFrameClean(bad: Control, f: Frame)
    requires !f.Breadcrumb? && FrameClean(bad, f)
    ensures LinesClean(bad, PlainFrameLines(f))
  {
    match f
    case Chat(text, files) => ChatClean(bad, text, files);
    case Card(title, body, fields) => CardClean(bad, title, body, fields);
    case Diff(path, added, removed, hunks, truncated) => DiffClean(bad, path, added, removed, hunks, truncated);
    case Collapsible(text, _) => LinesOfClean(bad, text);
    case TodoList(title, items) => TodoClean(bad, title, items);
    case Error(kind, title, summary, details, retryable) => ErrorClean(bad, kind, title, summary, details, retryable);
    case Thinking(text, _) => LinesOfClean(bad, text);
  }
}
