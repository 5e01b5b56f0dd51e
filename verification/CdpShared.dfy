/** The state behind the transport's mutex: who waits for which id, and what was observed. */
module CdpShared {
  import opened Base
  import opened Json
  import opened CdpEvents

  /** What a caller's oneshot channel can carry. */
  datatype Reply = Value(result: Json) | CdpError(message: string) | SocketClosed

  /** `pending` maps a request id to the caller whose channel sender it holds. */
  datatype SharedState = SharedState(
    pending: map<nat, nat>,
    requestEvents: seq<Json>,
    responseEvents: seq<Json>,
    loadFired: bool,
    consoleEvents: seq<ConsoleEntry>)

  function Empty(): SharedState {
    SharedState(map[], [], [], false, [])
  }

  /** The reply a response message carries: its error if it has one, else its result. */
  function ReplyOf(msg: Json): Reply {
    match Get(msg, "error")
    case Some(err) => CdpError("CDP error: " + UnwrapOr(GetStr(err, "message"), "unknown CDP error"))
    case None => Value(match Get(msg, "result") case Some(v) => v case None => JObj([]))
  }

  /** What a response message tells its caller, read off its members: an error wins over a result. */
  ghost predicate Carries(msg: Json, reply: Reply) {
    match reply
    case Value(r) => Lacks(msg, "error") && (Has(msg, "result", r) || (Lacks(msg, "result") && r == JObj([])))
    case CdpError(text) => exists err, why ::
      Has(msg, "error", err) && TextIs(err, "message", "unknown CDP error", why) && text == "CDP error: " + why
    case SocketClosed => false
  }

  lemma ReplyExactly(msg: Json, reply: Reply)
    ensures ReplyOf(msg) == reply <==> Carries(msg, reply)
  {
    GetExactly(msg, "error");
    GetExactly(msg, "result");
    match Get(msg, "error")
    case None =>
      assert forall err :: !Has(msg, "error", err);
    case Some(err) =>
      var why := UnwrapOr(GetStr(err, "message"), "unknown CDP error");
      TextExactly(err, "message", "unknown CDP error", why);
      ErrorExactly(msg, err, why, reply);
  }

  lemma ErrorExactly(msg: Json, err: Json, why: string, reply: Reply)
    requires Has(msg, "error", err) && TextIs(err, "message", "unknown CDP error", why)
    ensures Carries(msg, reply) <==> reply == CdpError("CDP error: " + why)
  {
    GetExactly(msg, "error");
    if reply.CdpError? && Carries(msg, reply) {
      var other, text :| Has(msg, "error", other) && TextIs(other, "message", "unknown CDP error", text)
        && reply.message == "CDP error: " + text;
      assert Get(msg, "error") == Some(err) == Some(other);
      TextExactly(err, "message", "unknown CDP error", why);
      TextExactly(err, "message", "unknown CDP error", text);
    }
  }

  /** The caller a message resolves, if any. */
  function Target(s: SharedState, msg: Json): Option<nat> {
    match MessageId(msg)
    case Some(id) => if id in s.pending then Some(s.pending[id]) else None
    case None => None
  }

  /** State after one inbound message. */
  function Dispatched(s: SharedState, msg: Json): SharedState {
    match MessageId(msg)
    case Some(id) => s.(pending := s.pending - {id})
    case None =>
      s.(requestEvents := Pushed(s.requestEvents, RequestOf(msg)),
         responseEvents := Pushed(s.responseEvents, ResponseOf(msg)),
         loadFired := s.loadFired || IsLoadEvent(msg),
         consoleEvents := Suffix(Pushed(s.consoleEvents, ConsoleOf(msg)), CONSOLE_BUFFER_CAP))
  }

  function Pushed<A>(s: seq<A>, x: Option<A>): seq<A> {
    match x case Some(a) => s + [a] case None => s
  }

  /** A message is recorded as its own kind of event and as no other. */
  lemma KindsApart(msg: Json, name: string)
    requires MessageId(msg).None? && GetStr(msg, "method") == Some(name)
    ensures RequestOf(msg) == if name == "Network.requestWillBeSent" then Get(msg, "params") else None
    ensures ResponseOf(msg) == if name == "Network.responseReceived" then Get(msg, "params") else None
    ensures IsLoadEvent(msg) <==> name == "Page.loadEventFired"
    ensures !IsConsoleMethod(name) ==> ConsoleOf(msg) == None
    ensures IsConsoleMethod(name) ==>
              name != "Network.requestWillBeSent" && name != "Network.responseReceived" && name != "Page.loadEventFired"
  {
    assert "Network.requestWillBeSent"[10] != "Network.responseReceived"[10] && |"Page.loadEventFired"| == 19;
  }

  class Shared {
    var pending: map<nat, nat>
    var requestEvents: seq<Json>
    var responseEvents: seq<Json>
    var loadFired: bool
    var consoleEvents: seq<ConsoleEntry>

    ghost function View(): SharedState
      reads this
    {
      SharedState(pending, requestEvents, responseEvents, loadFired, consoleEvents)
    }

    constructor ()
      ensures View() == Empty()
    {
      pending, requestEvents, responseEvents, loadFired, consoleEvents := map[], [], [], false, [];
    }

    /** Register a caller; returns the caller whose sender the insert displaced, if any. */
    method Insert(id: nat, caller: nat) returns (displaced: Option<nat>)
      modifies this
      ensures View() == old(View()).(pending := old(pending)[id := caller])
      ensures displaced == if id in old(pending) then Some(old(pending)[id]) else None
    {
      displaced := if id in pending then Some(pending[id]) else None;
      pending := pending[id := caller];
    }

    /** A timed-out caller withdraws its registration. */
    method Withdraw(id: nat)
      modifies this
      ensures View() == old(View()).(pending := old(pending) - {id})
    {
      pending := pending - {id};
    }

    /** Route one inbound message: a response resolves its caller, an event is recorded. */
    method Dispatch(msg: Json) returns (sent: Option<(nat, Reply)>)
      requires |consoleEvents| <= CONSOLE_BUFFER_CAP
      modifies this
      ensures View() == Dispatched(old(View()), msg)
      ensures |consoleEvents| <= CONSOLE_BUFFER_CAP
      ensures match Target(old(View()), msg)
              case Some(caller) => sent == Some((caller, ReplyOf(msg)))
              case None => sent == None
      ensures forall id: nat :: HasId(msg, id) ==>
                && (sent.Some? <==> id in old(pending))
                && (sent.Some? ==> sent.value.0 == old(pending)[id] && Carries(msg, sent.value.1))
      ensures (forall id: nat :: !HasId(msg, id)) ==> sent == None && pending == old(pending)
    {
      IdExactly(msg);
      ReplyExactly(msg, ReplyOf(msg));
      sent := None;
      var id := MessageId(msg);
      if id.Some? {
        if id.value in pending {
          var caller := pending[id.value];
          pending := pending - {id.value};
          var err := Get(msg, "error");
          if err.Some? {
            var m := UnwrapOr(GetStr(err.value, "message"), "unknown CDP error");
            sent := Some((caller, CdpError("CDP error: " + m)));
          } else {
            var res := Get(msg, "result");
            sent := Some((caller, Value(if res.Some? then res.value else JObj([]))));
          }
        } else {
          assert pending - {id.value} == pending;
        }
        return;
      }
      RecordEvent(msg);
    }

    /** An event message, recorded by its kind. */
    method RecordEvent(msg: Json)
      requires MessageId(msg).None? && |consoleEvents| <= CONSOLE_BUFFER_CAP
      modifies this
      ensures View() == Dispatched(old(View()), msg)
      ensures |consoleEvents| <= CONSOLE_BUFFER_CAP
    {
      var name := GetStr(msg, "method");
      if name.Some? { KindsApart(msg, name.value); }
      if name == Some("Network.requestWillBeSent") {
        var p := Get(msg, "params");
        if p.Some? { requestEvents := requestEvents + [p.value]; }
      } else if name == Some("Network.responseReceived") {
        var p := Get(msg, "params");
        if p.Some? { responseEvents := responseEvents + [p.value]; }
      } else if name == Some("Page.loadEventFired") {
        loadFired := true;
      } else if name.Some? && IsConsoleMethod(name.value) {
        RecordConsole(name.value, msg);
      }
    }

    /** A console event, if it parses, at the end of the capped buffer. */
    method RecordConsole(name: string, msg: Json)
      requires MessageId(msg).None? && GetStr(msg, "method") == Some(name) && IsConsoleMethod(name)
      requires |consoleEvents| <= CONSOLE_BUFFER_CAP
      modifies this`consoleEvents
      ensures consoleEvents == Suffix(Pushed(old(consoleEvents), ConsoleOf(msg)), CONSOLE_BUFFER_CAP)
    {
      var p := Get(msg, "params");
      if p.Some? {
        var entry := ParseConsoleEvent(name, p.value);
        if entry.Some? {
          consoleEvents := PushCapped(consoleEvents, entry.value, CONSOLE_BUFFER_CAP);
        }
      }
    }

    /** The disconnect drain: every pending sender, in whatever order the map yields them. */
    method Drain() returns (order: seq<nat>)
      modifies this
      ensures View() == old(View()).(pending := map[])
      ensures NoDup(order) && (set id | id in order) == old(pending).Keys
    {
      order := [];
      while pending.Keys != {}
        invariant View() == old(View()).(pending := pending)
        invariant NoDup(order)
        invariant (set id | id in order) !! pending.Keys
        invariant (set id | id in order) + pending.Keys == old(pending).Keys
        decreases pending.Keys
      {
        var id :| id in pending;
        order := order + [id];
        pending := pending - {id};
      }
      assert pending == map[];
    }
  }

  /** The stored observations are projections of the message stream `msgs`. */
  ghost predicate Observes(s: SharedState, msgs: seq<Json>) {
    && (s.requestEvents, s.responseEvents) == (FilterMap(RequestOf, msgs), FilterMap(ResponseOf, msgs))
    && (s.loadFired <==> exists i :: 0 <= i < |msgs| && IsLoadEvent(msgs[i]))
    && s.consoleEvents == Suffix(FilterMap(ConsoleOf, msgs), CONSOLE_BUFFER_CAP)
  }

  /** Capping after every push leaves the same entries as capping once at the end. */
  lemma SuffixPushed<A>(s: seq<A>, x: A, k: nat)
    ensures Suffix(Suffix(s, k) + [x], k) == Suffix(s + [x], k) && Suffix(Suffix(s, k), k) == Suffix(s, k)
  {
  }

  lemma LoadSeen(msgs: seq<Json>, msg: Json)
    ensures (exists i :: 0 <= i < |msgs + [msg]| && IsLoadEvent((msgs + [msg])[i]))
       <==> (exists i :: 0 <= i < |msgs| && IsLoadEvent(msgs[i])) || IsLoadEvent(msg)
  {
    assert (msgs + [msg])[|msgs|] == msg;
    assert forall i :: 0 <= i < |msgs| ==> (msgs + [msg])[i] == msgs[i];
  }

  lemma DispatchObserves(s: SharedState, msgs: seq<Json>, msg: Json)
    requires Observes(s, msgs)
    ensures Observes(Dispatched(s, msg), msgs + [msg])
  {
    FilterMapSnoc(RequestOf, msgs, msg);
    FilterMapSnoc(ResponseOf, msgs, msg);
    FilterMapSnoc(ConsoleOf, msgs, msg);
    LoadSeen(msgs, msg);
    match ConsoleOf(msg)
    case Some(entry) => SuffixPushed(FilterMap(ConsoleOf, msgs), entry, CONSOLE_BUFFER_CAP);
    case None =>
  }
}
