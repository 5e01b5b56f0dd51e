/** What the CDP transport reads out of raw browser events. */
module CdpEvents {
  import opened Base
  import opened Strings
  import opened Json

  const CONSOLE_BUFFER_CAP: nat := 50

  datatype ConsoleLevel = Error | Warning | Log

  datatype ConsoleEntry = ConsoleEntry(level: ConsoleLevel, text: string)

  function LevelOf(kind: string): ConsoleLevel {
    if kind == "error" then Error else if kind == "warning" then Warning else Log
  }

  function ReadableArg(a: Json): Option<string> {
    match GetStr(a, "value") case Some(s) => Some(s) case None => GetStr(a, "description")
  }

  function UnwrapOr(o: Option<string>, default: string): string {
    match o case Some(s) => s case None => default
  }

  function ConsoleApiText(params: Json): string {
    match Get(params, "args")
    case Some(JArr(items)) =>
      var text := Join(FilterMap(ReadableArg, items), " ");
      if text != "" then text else "(console call with no readable args)"
    case _ => "(console call with no readable args)"
  }

  function ThrownText(d: Json): string {
    match Get2Str(d, "exception", "description")
    case Some(s) => s
    case None => UnwrapOr(GetStr(d, "text"), "uncaught exception")
  }

  predicate IsConsoleMethod(m: string) {
    m == "Runtime.consoleAPICalled" || m == "Runtime.exceptionThrown" || m == "Log.entryAdded"
  }

  function ParseConsoleEvent(m: string, params: Json): Option<ConsoleEntry> {
    if m == "Runtime.consoleAPICalled" then
      Some(ConsoleEntry(LevelOf(UnwrapOr(GetStr(params, "type"), "log")), ConsoleApiText(params)))
    else if m == "Runtime.exceptionThrown" then
      match Get(params, "exceptionDetails")
      case None => None
      case Some(details) =>
        Some(ConsoleEntry(Error, ThrownText(details)))
    else if m == "Log.entryAdded" then
      match Get(params, "entry")
      case None => None
      case Some(entry) =>
        Some(ConsoleEntry(LevelOf(UnwrapOr(GetStr(entry, "level"), "info")), UnwrapOr(GetStr(entry, "text"), "")))
    else None
  }

  predicate IsDocument(e: Json) {
    GetStr(e, "type") == Some("Document")
  }

  predicate HasRedirect(e: Json) {
    Get(e, "redirectResponse").Some?
  }

  function RequestUrl(e: Json): Option<string> {
    Get2Str(e, "request", "url")
  }

  function ResponseStatus(e: Json): Option<nat> {
    match Get2(e, "response", "status")
    case None => None
    case Some(v) =>
      match AsU64(v) case Some(s) => (if s < U16_END then Some(s) else None) case None => None
  }

  function RedirectHopsFromEvents(events: seq<Json>): seq<string> {
    FilterMap(RequestUrl, Filter(IsDocument, Filter(HasRedirect, events)))
  }

  function MainStatusFromEvents(events: seq<Json>): Option<nat> {
    FindMap(ResponseStatus, Filter(IsDocument, events))
  }

  /** `push_capped`: evict the oldest entry once the buffer is full, then push. */
  method PushCapped<T>(buf: seq<T>, item: T, cap: nat) returns (out: seq<T>)
    ensures cap == 0 ==> out == buf
    ensures 0 < cap && |buf| <= cap ==> out == Suffix(buf + [item], cap)
    ensures 0 < cap && cap < |buf| ==> out == buf[1..] + [item]
  {
    out := buf;
    if cap == 0 {
      return;
    }
    if |out| >= cap {
      out := out[1..];
    }
    out := out + [item];
  }

  // ----- the same observations, read off one whole inbound message -----

  /** The id of a response; anything whose `id` is not a u64 is an event. */
  function MessageId(msg: Json): Option<nat> {
    match Get(msg, "id") case Some(v) => AsU64(v) case None => None
  }

  /** The params of an event with method `m`. */
  function EventParams(msg: Json, m: string): Option<Json> {
    if MessageId(msg).None? && GetStr(msg, "method") == Some(m) then Get(msg, "params") else None
  }

  function RequestOf(msg: Json): Option<Json> { EventParams(msg, "Network.requestWillBeSent") }

  function ResponseOf(msg: Json): Option<Json> { EventParams(msg, "Network.responseReceived") }

  /** A redirect hop: a Document request that carries a redirect response. */
  function HopOf(msg: Json): Option<string> {
    match RequestOf(msg)
    case Some(p) => if HasRedirect(p) && IsDocument(p) then RequestUrl(p) else None
    case None => None
  }

  /** The status of a Document response, when it fits in 16 bits. */
  function StatusOf(msg: Json): Option<nat> {
    match ResponseOf(msg)
    case Some(p) => if IsDocument(p) then ResponseStatus(p) else None
    case None => None
  }

  function ConsoleOf(msg: Json): Option<ConsoleEntry> {
    match GetStr(msg, "method")
    case Some(m) =>
      if !IsConsoleMethod(m) then None
      else (match EventParams(msg, m) case Some(p) => ParseConsoleEvent(m, p) case None => None)
    case None => None
  }

  predicate IsLoadEvent(msg: Json) {
    MessageId(msg).None? && GetStr(msg, "method") == Some("Page.loadEventFired")
  }

  /** Filtering the stored request params yields the hops of the whole message stream. */
  lemma {:induction false} HopsOfStream(msgs: seq<Json>)
    ensures RedirectHopsFromEvents(FilterMap(RequestOf, msgs)) == FilterMap(HopOf, msgs)
  {
    if msgs == [] {
    } else {
      HopsOfStream(msgs[1..]);
      var head := FilterMap(RequestOf, [msgs[0]]);
      var tail := FilterMap(RequestOf, msgs[1..]);
      assert msgs == [msgs[0]] + msgs[1..];
      FilterMapAppend(RequestOf, [msgs[0]], msgs[1..]);
      FilterAppend(HasRedirect, head, tail);
      FilterAppend(IsDocument, Filter(HasRedirect, head), Filter(HasRedirect, tail));
      FilterMapAppend(RequestUrl, Filter(IsDocument, Filter(HasRedirect, head)),
          Filter(IsDocument, Filter(HasRedirect, tail)));
    }
  }

  lemma {:induction false} StatusOfStream(msgs: seq<Json>)
    ensures MainStatusFromEvents(FilterMap(ResponseOf, msgs)) == FindMap(StatusOf, msgs)
  {
    if msgs == [] {
    } else {
      StatusOfStream(msgs[1..]);
      var head := FilterMap(ResponseOf, [msgs[0]]);
      var tail := FilterMap(ResponseOf, msgs[1..]);
      assert msgs == [msgs[0]] + msgs[1..];
      FilterMapAppend(ResponseOf, [msgs[0]], msgs[1..]);
      FilterAppend(IsDocument, head, tail);
      FindMapAppend(ResponseStatus, Filter(IsDocument, head), Filter(IsDocument, tail));
    }
  }

  // ----- what a message says, member by member -----

  ghost predicate HasId(msg: Json, id: nat) { id < 0x1_0000_0000_0000_0000 && Has(msg, "id", JInt(id)) }

  ghost predicate IsEvent(msg: Json, name: string) {
    (forall id: nat :: !HasId(msg, id)) && Has(msg, "method", JStr(name))
  }

  /** An event `name` with `params`. */
  ghost predicate EventWith(msg: Json, name: string, params: Json) {
    IsEvent(msg, name) && Has(msg, "params", params)
  }

  /** A main-document request that was redirected, now to `url`. */
  ghost predicate HopIs(msg: Json, url: string) {
    exists p, r ::
      && EventWith(msg, "Network.requestWillBeSent", p)
      && !Lacks(p, "redirectResponse") && Has(p, "type", JStr("Document"))
      && Has(p, "request", r) && Has(r, "url", JStr(url))
  }

  /** A main-document response with a 16-bit `status`. */
  ghost predicate StatusIs(msg: Json, status: nat) {
    status < 65536 && exists p, r ::
      && EventWith(msg, "Network.responseReceived", p) && Has(p, "type", JStr("Document"))
      && Has(p, "response", r) && Has(r, "status", JInt(status))
  }

  ghost predicate LevelIs(v: Json, key: string, level: ConsoleLevel) {
    match level
    case Error => Has(v, key, JStr("error"))
    case Warning => Has(v, key, JStr("warning"))
    case Log => !Has(v, key, JStr("error")) && !Has(v, key, JStr("warning"))
  }

  /** The text under `key`, or `default` when there is none. */
  ghost predicate TextIs(v: Json, key: string, default: string, text: string) {
    Has(v, key, JStr(text)) || (NoText(v, key) && text == default)
  }

  /** A console argument reads as its text value, else as its description. */
  ghost predicate ArgIs(a: Json, text: string) {
    Has(a, "value", JStr(text)) || (NoText(a, "value") && Has(a, "description", JStr(text)))
  }

  /** `texts` are the readable ones of `args`, in order. */
  ghost predicate ArgsRead(args: seq<Json>, texts: seq<string>) {
    if args == [] then texts == []
    else if exists t :: ArgIs(args[0], t)
    then texts != [] && ArgIs(args[0], texts[0]) && ArgsRead(args[1..], texts[1..])
    else ArgsRead(args[1..], texts)
  }

  ghost predicate CallText(p: Json, text: string) {
    if exists items, texts :: Has(p, "args", JArr(items)) && ArgsRead(items, texts) && Join(texts, " ") != ""
    then exists items, texts :: Has(p, "args", JArr(items)) && ArgsRead(items, texts) && text == Join(texts, " ")
    else text == "(console call with no readable args)"
  }

  ghost predicate ExceptionText(d: Json, text: string) {
    if exists x, t :: Has(d, "exception", x) && Has(x, "description", JStr(t))
    then exists x :: Has(d, "exception", x) && Has(x, "description", JStr(text))
    else TextIs(d, "text", "uncaught exception", text)
  }

  /** The entry of a console call, an uncaught exception or a log entry. */
  ghost predicate EntryIs(name: string, p: Json, e: ConsoleEntry) {
    || (name == "Runtime.consoleAPICalled" && LevelIs(p, "type", e.level) && CallText(p, e.text))
    || (name == "Runtime.exceptionThrown" && e.level == Error
          && exists d :: Has(p, "exceptionDetails", d) && ExceptionText(d, e.text))
    || (name == "Log.entryAdded"
          && exists x :: Has(p, "entry", x) && LevelIs(x, "level", e.level) && TextIs(x, "text", "", e.text))
  }

  ghost predicate ConsoleIs(msg: Json, e: ConsoleEntry) {
    exists name, p :: EventWith(msg, name, p) && EntryIs(name, p, e)
  }

  lemma IdExactly(msg: Json)
    ensures forall id: nat :: MessageId(msg) == Some(id) <==> HasId(msg, id)
    ensures MessageId(msg).None? <==> forall id: nat :: !HasId(msg, id)
  {
    GetExactly(msg, "id");
    forall id: nat ensures MessageId(msg) == Some(id) <==> HasId(msg, id) {
      assert Get(msg, "id") == Some(JInt(id)) <==> Has(msg, "id", JInt(id));
    }
  }

  lemma EventExactly(msg: Json, name: string)
    ensures forall p :: EventParams(msg, name) == Some(p) <==> EventWith(msg, name, p)
    ensures MessageId(msg).None? && GetStr(msg, "method") == Some(name) <==> IsEvent(msg, name)
  {
    IdExactly(msg);
    GetStrExactly(msg, "method");
    GetExactly(msg, "params");
  }

  lemma HopExactly(msg: Json, url: string)
    ensures HopOf(msg) == Some(url) <==> HopIs(msg, url)
  {
    EventExactly(msg, "Network.requestWillBeSent");
    if p :| RequestOf(msg) == Some(p) {
      GetExactly(p, "redirectResponse");
      GetStrExactly(p, "type");
      GetExactly(p, "request");
      if r :| Get(p, "request") == Some(r) { GetStrExactly(r, "url"); }
    }
  }

  lemma StatusExactly(msg: Json, status: nat)
    ensures StatusOf(msg) == Some(status) <==> StatusIs(msg, status)
  {
    EventExactly(msg, "Network.responseReceived");
    if p :| ResponseOf(msg) == Some(p) {
      GetStrExactly(p, "type");
      GetExactly(p, "response");
      if r :| Get(p, "response") == Some(r) { GetExactly(r, "status"); }
    }
  }

  lemma LoadExactly(msg: Json)
    ensures IsLoadEvent(msg) <==> IsEvent(msg, "Page.loadEventFired")
  {
    EventExactly(msg, "Page.loadEventFired");
  }

  lemma LevelExactly(v: Json, key: string, default: string, level: ConsoleLevel)
    requires default != "error" && default != "warning"
    ensures LevelOf(UnwrapOr(GetStr(v, key), default)) == level <==> LevelIs(v, key, level)
  {
    GetStrExactly(v, key);
  }

  lemma TextExactly(v: Json, key: string, default: string, text: string)
    ensures UnwrapOr(GetStr(v, key), default) == text <==> TextIs(v, key, default, text)
  {
    GetStrExactly(v, key);
  }

  lemma ArgExactly(a: Json)
    ensures forall t :: ReadableArg(a) == Some(t) <==> ArgIs(a, t)
  {
    GetStrExactly(a, "value");
    GetStrExactly(a, "description");
  }

  lemma {:induction false} ArgsExactly(args: seq<Json>, texts: seq<string>)
    ensures FilterMap(ReadableArg, args) == texts <==> ArgsRead(args, texts)
  {
    if args == [] {
    } else {
      ArgExactly(args[0]);
      if ReadableArg(args[0]).Some? {
        if texts != [] { ArgsExactly(args[1..], texts[1..]); }
      } else {
        ArgsExactly(args[1..], texts);
      }
    }
  }

  lemma CallExactly(p: Json, text: string)
    ensures ConsoleApiText(p) == text <==> CallText(p, text)
  {
    GetExactly(p, "args");
    if items :| Get(p, "args") == Some(JArr(items)) {
      forall texts ensures FilterMap(ReadableArg, items) == texts <==> ArgsRead(items, texts) {
        ArgsExactly(items, texts);
      }
    }
  }

  lemma ExceptionExactly(d: Json, text: string)
    ensures ThrownText(d) == text <==> ExceptionText(d, text)
  {
    GetExactly(d, "exception");
    TextExactly(d, "text", "uncaught exception", text);
    if x :| Get(d, "exception") == Some(x) { GetStrExactly(x, "description"); }
  }

  lemma EntryExactly(name: string, p: Json, e: ConsoleEntry)
    ensures ParseConsoleEvent(name, p) == Some(e) <==> EntryIs(name, p, e)
  {
    if name == "Runtime.consoleAPICalled" {
      LevelExactly(p, "type", "log", e.level);
      CallExactly(p, e.text);
    } else if name == "Runtime.exceptionThrown" {
      GetExactly(p, "exceptionDetails");
      if d :| Get(p, "exceptionDetails") == Some(d) { ExceptionExactly(d, e.text); }
    } else if name == "Log.entryAdded" {
      GetExactly(p, "entry");
      if x :| Get(p, "entry") == Some(x) {
        LevelExactly(x, "level", "info", e.level);
        TextExactly(x, "text", "", e.text);
      }
    }
  }

  lemma ConsoleExactly(msg: Json, e: ConsoleEntry)
    ensures ConsoleOf(msg) == Some(e) <==> ConsoleIs(msg, e)
  {
    GetStrExactly(msg, "method");
    forall name, p ensures EventParams(msg, name) == Some(p) <==> EventWith(msg, name, p) {
      EventExactly(msg, name);
    }
    forall name, p ensures ParseConsoleEvent(name, p) == Some(e) <==> EntryIs(name, p, e) {
      EntryExactly(name, p, e);
    }
  }
}
