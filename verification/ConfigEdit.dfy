/**
 Committing an edited group configuration: diff the edited copy against the current one and send
 the host one call per change. The host is modelled by what its handlers do to a stored row.
 */
module ConfigEdit {
  import opened Base

  /** A JSON value; object equality ignores the order of keys, and 5 and 5.0 are two numbers. */
  datatype Value = Null | Bool(b: bool) | Num(n: int) | Float(x: real) | Str(s: string) | Arr(items: seq<Value>)
      | Obj(fields: map<string, Value>)

  type Config = map<string, Value>

  const EDITABLE_SCALAR_FIELDS: seq<string> := [
    "provider", "model", "image_tag", "assistant_name", "max_messages_per_prompt",
    "tool_profile", "preview_enabled", "preview_bind"]

  datatype Kind = Apt | Npm

  datatype Call =
    | Update(field: string, value: Value)
    | RemoveServer(name: string)
    | AddServer(server: Value)
    | RemovePackage(kind: Kind, name: string)
    | AddPackage(kind: Kind, name: string)

  // ----- the host -----

  datatype Host = Host(scalars: Config, servers: Config, apt: seq<string>, npm: seq<string>)

  function Packages(h: Host, kind: Kind): seq<string> {
    if kind.Apt? then h.apt else h.npm
  }

  function WithPackages(h: Host, kind: Kind, list: seq<string>): Host {
    if kind.Apt? then h.(apt := list) else h.(npm := list)
  }

  /** The relay of the session preview; no server may take its name. */
  const PREVIEW_SERVER: string := "__preview"

  /** A server is stored under its own `name`; without a usable one it is rejected. */
  function NameOf(server: Value): Option<string> {
    if server.Obj? && "name" in server.fields && server.fields["name"].Str?
      && server.fields["name"].s != PREVIEW_SERVER
    then Some(server.fields["name"].s) else None
  }

  function Without(list: seq<string>, name: string): seq<string> {
    Filter((x: string) => x != name, list)
  }

  /** The kinds of scalar field the handler tells apart. */
  datatype Column = Text | Count | Profile | Switch | Address | Other

  function ColumnOf(field: string): Column {
    if field in ["provider", "model", "image_tag", "assistant_name"] then Text
    else if field == "max_messages_per_prompt" then Count
    else if field == "tool_profile" then Profile
    else if field == "preview_enabled" then Switch
    else if field == "preview_bind" then Address
    else Other
  }

  const U32_END: nat := 0x1_0000_0000

  predicate IsProfile(s: string) { s in ["minimal", "messaging", "coding", "full"] }

  /**
   What the handler stores for a value sent to a column, or `None` when it rejects it. A value of
   the wrong type is stored as null in a text column, and a number that is no u32 in a count. No
   edit sends a field of another column.
   */
  function StoredAs(column: Column, value: Value): Option<Value> {
    match column
    case Text => Some(if value.Str? then value else Null)
    case Count =>
      (match value
       case Null => Some(Null)
       case Num(n) => Some(if 0 <= n < U32_END then value else Null)
       case Float(_) => Some(Null)
       case _ => None)
    case Profile => if value.Null? || (value.Str? && IsProfile(value.s)) then Some(value) else None
    case Switch => if value.Bool? then Some(value) else None
    case Address => if value.Null? || value.Str? then Some(value) else None
    case Other => None
  }

  /** What one call does to the stored row, or `None` when the handler rejects it. */
  function Execute(h: Host, call: Call): Option<Host> {
    match call
    case Update(field, value) =>
      (match StoredAs(ColumnOf(field), value)
       case None => None
       case Some(stored) => Some(h.(scalars := h.scalars[field := stored])))
    case RemoveServer(name) => Some(h.(servers := h.servers - {name}))
    case AddServer(server) =>
      (match NameOf(server)
       case None => None
       case Some(name) => Some(h.(servers := h.servers[name := server])))
    case RemovePackage(kind, name) => Some(WithPackages(h, kind, Without(Packages(h, kind), name)))
    case AddPackage(kind, name) =>
      if name in Packages(h, kind) then Some(h) else Some(WithPackages(h, kind, Packages(h, kind) + [name]))
  }

  function ExecuteAll(h: Host, calls: seq<Call>): Option<Host>
    decreases |calls|
  {
    if calls == [] then Some(h)
    else match Execute(h, calls[0]) case None => None case Some(next) => ExecuteAll(next, calls[1..])
  }

  lemma {:induction false} ExecuteAppend(h: Host, a: seq<Call>, b: seq<Call>)
    ensures ExecuteAll(h, a + b) == match ExecuteAll(h, a) case None => None case Some(next) => ExecuteAll(next, b)
    decreases |a|
  {
    if a == [] {
      assert a + b == b;
    } else {
      assert (a + b)[1..] == a[1..] + b;
      if Execute(h, a[0]).Some? { ExecuteAppend(Execute(h, a[0]).value, a[1..], b); }
    }
  }

  // ----- the transport -----

  /** Why a call may fail besides the handler: the link, validation, permissions. */
  type Refusal = (seq<Call>, Call) -> bool

  /** `sent` counts every call attempted, also the one that failed. */
  datatype Progress = Progress(host: Host, sent: seq<Call>)

  function Send(refuses: Refusal, p: Progress, call: Call): (r: (Progress, bool)) {
    if refuses(p.sent, call) || Execute(p.host, call).None? then (p.(sent := p.sent + [call]), false)
    else (Progress(Execute(p.host, call).value, p.sent + [call]), true)
  }

  /** Send the calls of `plan` in order until one fails. */
  function Perform(refuses: Refusal, p: Progress, plan: seq<Call>): (Progress, bool)
    decreases |plan|
  {
    if plan == [] then (p, true)
    else
      var (next, ok) := Send(refuses, p, plan[0]);
      if ok then Perform(refuses, next, plan[1..]) else (next, false)
  }

  /** How many calls of `plan` succeed before one fails. */
  function Succeeding(refuses: Refusal, p: Progress, plan: seq<Call>): (n: nat)
    ensures n <= |plan|
    decreases |plan|
  {
    if plan == [] then 0
    else
      var (next, ok) := Send(refuses, p, plan[0]);
      if ok then 1 + Succeeding(refuses, next, plan[1..]) else 0
  }

  /** `later` is `earlier` followed by the first `n` calls of `plan`. */
  predicate SentAlso(later: seq<Call>, earlier: seq<Call>, plan: seq<Call>, n: nat) {
    n <= |plan| && |later| == |earlier| + n && forall i :: 0 <= i < |later| ==>
        later[i] == if i < |earlier| then earlier[i] else plan[i - |earlier|]
  }

  /**
   Either the whole plan was applied, or exactly the calls before the one that failed were:
   nothing after it is sent, and nothing before it is taken back.
   */
  lemma {:induction false} PerformExactly(refuses: Refusal, p: Progress, plan: seq<Call>)
    ensures var ((q, ok), n) := (Perform(refuses, p, plan), Succeeding(refuses, p, plan));
            && (ok <==> n == |plan|)
            && ExecuteAll(p.host, plan[..n]) == Some(q.host)
            && SentAlso(q.sent, p.sent, plan, if ok then n else n + 1)
    decreases |plan|
  {
    PrefixApplied(refuses, p, plan);
    PrefixSent(refuses, p, plan);
  }

  lemma {:induction false} PrefixApplied(refuses: Refusal, p: Progress, plan: seq<Call>)
    ensures var ((q, ok), n) := (Perform(refuses, p, plan), Succeeding(refuses, p, plan));
            (ok <==> n == |plan|) && ExecuteAll(p.host, plan[..n]) == Some(q.host)
    decreases |plan|
  {
    var n := Succeeding(refuses, p, plan);
    if plan == [] {
    } else {
      var (next, ok) := Send(refuses, p, plan[0]);
      if ok {
        PrefixApplied(refuses, next, plan[1..]);
        assert plan[..n][1..] == plan[1..][..n - 1];
      }
    }
  }

  lemma {:induction false} PrefixSent(refuses: Refusal, p: Progress, plan: seq<Call>)
    ensures var ((q, ok), n) := (Perform(refuses, p, plan), Succeeding(refuses, p, plan));
            (ok ==> n == |plan|) && SentAlso(q.sent, p.sent, plan, if ok then n else n + 1)
    decreases |plan|
  {
    if plan == [] {
    } else {
      var (next, ok) := Send(refuses, p, plan[0]);
      var n := Succeeding(refuses, next, plan[1..]);
      if ok {
        PrefixSent(refuses, next, plan[1..]);
        var (q, all) := Perform(refuses, next, plan[1..]);
        SentMore(q.sent, p.sent, plan, if all then n else n + 1);
      }
    }
  }

  lemma SentMore(later: seq<Call>, earlier: seq<Call>, plan: seq<Call>, n: nat)
    requires plan != [] && SentAlso(later, earlier + [plan[0]], plan[1..], n)
    ensures SentAlso(later, earlier, plan, n + 1)
  {
  }

  lemma {:induction false} PerformAppend(refuses: Refusal, p: Progress, a: seq<Call>, b: seq<Call>)
    ensures Perform(refuses, p, a + b) ==
            var (q, ok) := Perform(refuses, p, a); if ok then Perform(refuses, q, b) else (q, false)
    decreases |a|
  {
    if a == [] {
      assert a + b == b;
    } else {
      assert (a + b)[1..] == a[1..] + b;
      var (next, ok) := Send(refuses, p, a[0]);
      if ok { PerformAppend(refuses, next, a[1..], b); }
    }
  }

  class Transport {
    const refuses: Refusal
    var host: Host
    var sent: seq<Call>

    constructor (refuses: Refusal, host: Host)
      ensures this.refuses == refuses && At() == Progress(host, [])
    {
      this.refuses, this.host, this.sent := refuses, host, [];
    }

    function At(): Progress
      reads this
    {
      Progress(host, sent)
    }

    method Invoke(call: Call) returns (ok: bool)
      modifies this
      ensures (At(), ok) == Send(refuses, old(At()), call)
    {
      var next := Execute(host, call);
      ok := !refuses(sent, call) && next.Some?;
      sent := sent + [call];
      if ok { host := next.value; }
    }
  }

  // ----- the diff -----

  function Lookup(c: Config, key: string): Value { if key in c then c[key] else Null }

  /** `value_string_list`: the strings of an array; other items are skipped. */
  function StringList(v: Value): Option<seq<string>> {
    if v.Arr? then Some(FilterMap((x: Value) => if x.Str? then Some(x.s) else None, v.items)) else None
  }

  function ListAt(c: Config, key: string): Option<seq<string>> {
    if key in c then StringList(c[key]) else None
  }

  function ListOrEmpty(c: Config, key: string): seq<string> {
    if ListAt(c, key).Some? then ListAt(c, key).value else []
  }

  function ObjectOf(v: Value): Config { if v.Obj? then v.fields else map[] }

  function ServersKey(): string { "mcp_servers" }

  function ServersIn(c: Config): Value { if ServersKey() in c then c[ServersKey()] else Obj(map[]) }

  function PackagesKey(kind: Kind): string { if kind.Apt? then "packages_apt" else "packages_npm" }

  function ScalarCall(current: Config, edited: Config): string -> Option<Call> {
    (key: string) =>
        if Lookup(current, key) != Lookup(edited, key) then Some(Update(key, Lookup(edited, key))) else None
  }

  function RemoveCall(kind: Kind, want: seq<string>): string -> Option<Call> {
    (name: string) => if name !in want then Some(RemovePackage(kind, name)) else None
  }

  function AddCall(kind: Kind, was: seq<string>): string -> Option<Call> {
    (name: string) => if name !in was then Some(AddPackage(kind, name)) else None
  }

  function PackagePlan(kind: Kind, was: seq<string>, want: seq<string>): seq<Call> {
    FilterMap(RemoveCall(kind, want), was) + FilterMap(AddCall(kind, was), want)
  }

  function VanishedCall(want: Config): string -> Option<Call> {
    (name: string) => if name !in want then Some(RemoveServer(name)) else None
  }

  /** New or changed. */
  predicate Changed(was: Config, want: Config, name: string) {
    name in want && (name !in was || was[name] != want[name])
  }

  function ChangedCall(was: Config, want: Config): string -> Option<Call> {
    (name: string) => if Changed(was, want, name) then Some(AddServer(want[name])) else None
  }

  predicate Enumerates(keys: seq<string>, c: Config) {
    NoDup(keys) && (set k | k in keys) == c.Keys
  }

  function ServerPlan(was: Config, want: Config, oldKeys: seq<string>, newKeys: seq<string>): seq<Call> {
    FilterMap(VanishedCall(want), oldKeys) + FilterMap(ChangedCall(was, want), newKeys)
  }

  /** The server calls, for one order of the keys of each object. */
  ghost predicate IsServerPlan(plan: seq<Call>, was: Config, want: Config) {
    exists oldKeys, newKeys :: Enumerates(oldKeys, was) && Enumerates(newKeys, want)
      && plan == ServerPlan(was, want, oldKeys, newKeys)
  }

  predicate ServersEdited(current: Config, edited: Config) {
    ServersKey() in edited && edited[ServersKey()] != ServersIn(current)
  }

  predicate PackagesEdited(kind: Kind, current: Config, edited: Config) {
    ListAt(edited, PackagesKey(kind)).Some?
    && ListAt(edited, PackagesKey(kind)).value != ListOrEmpty(current, PackagesKey(kind))
  }

  function PackagePart(kind: Kind, current: Config, edited: Config): seq<Call> {
    if PackagesEdited(kind, current, edited)
    then PackagePlan(kind, ListOrEmpty(current, PackagesKey(kind)), ListAt(edited, PackagesKey(kind)).value)
    else []
  }

  function PackageParts(current: Config, edited: Config): seq<Call> {
    PackagePart(Apt, current, edited) + PackagePart(Npm, current, edited)
  }

  ghost predicate IsServerPart(plan: seq<Call>, current: Config, edited: Config) {
    if ServersEdited(current, edited)
    then IsServerPlan(plan, ObjectOf(ServersIn(current)), ObjectOf(edited[ServersKey()]))
    else plan == []
  }

  function ScalarPart(current: Config, edited: Config): seq<Call> {
    FilterMap(ScalarCall(current, edited), EDITABLE_SCALAR_FIELDS)
  }

  ghost predicate IsPlan(plan: seq<Call>, current: Config, edited: Config) {
    exists servers :: IsServerPart(servers, current, edited) && plan ==
      ScalarPart(current, edited) + (servers + PackageParts(current, edited))
  }

  // ----- the operations -----

  /** The keys of an object, in whatever order it holds them. */
  method KeysOf(c: Config) returns (keys: seq<string>)
    ensures Enumerates(keys, c)
  {
    keys := [];
    var rest := c.Keys;
    while rest != {}
      invariant NoDup(keys)
      invariant (set k | k in keys) !! rest && (set k | k in keys) + rest == c.Keys
      decreases rest
    {
      var k :| k in rest;
      keys, rest := keys + [k], rest - {k};
    }
  }

  method DiffScalars(fields: seq<string>, current: Config, edited: Config) returns (updates: seq<Call>)
    ensures updates == FilterMap(ScalarCall(current, edited), fields)
  {
    updates := [];
    var i := 0;
    while i < |fields|
      invariant 0 <= i <= |fields|
      invariant updates == FilterMap(ScalarCall(current, edited), fields[..i])
    {
      assert fields[..i + 1] == fields[..i] + [fields[i]];
      FilterMapSnoc(ScalarCall(current, edited), fields[..i], fields[i]);
      var want := Lookup(edited, fields[i]);
      if Lookup(current, fields[i]) != want { updates := updates + [Update(fields[i], want)]; }
      i := i + 1;
    }
    assert fields[..i] == fields;
  }

  /** One turn of a loop over `s`, with the calls `rest` still to come after the loop. */
  lemma LoopTurn(refuses: Refusal, p: Progress, f: string -> Option<Call>, s: seq<string>, i: nat, rest: seq<Call>)
    requires i < |s|
    ensures Perform(refuses, p, FilterMap(f, s[i..]) + rest) ==
            match f(s[i])
            case None => Perform(refuses, p, FilterMap(f, s[i + 1..]) + rest)
            case Some(c) =>
              var (q, ok) := Send(refuses, p, c);
              if ok then Perform(refuses, q, FilterMap(f, s[i + 1..]) + rest) else (q, false)
  {
    if f(s[i]).Some? {
      var plan := FilterMap(f, s[i..]) + rest;
      assert plan[0] == f(s[i]).value && plan[1..] == FilterMap(f, s[i + 1..]) + rest;
    }
  }

  method UpdatePackages(t: Transport, kind: Kind, was: seq<string>, want: seq<string>) returns (ok: bool)
    modifies t
    ensures (t.At(), ok) == Perform(t.refuses, old(t.At()), PackagePlan(kind, was, want))
  {
    ghost var removes, adds := RemoveCall(kind, want), AddCall(kind, was);
    ghost var toAdd := FilterMap(adds, want);
    ghost var goal := Perform(t.refuses, t.At(), FilterMap(removes, was[0..]) + toAdd);
    assert was[0..] == was;
    var i := 0;
    while i < |was|
      invariant 0 <= i <= |was|
      invariant Perform(t.refuses, t.At(), FilterMap(removes, was[i..]) + toAdd) == goal
    {
      LoopTurn(t.refuses, t.At(), removes, was, i, toAdd);
      if was[i] !in want {
        ok := t.Invoke(RemovePackage(kind, was[i]));
        if !ok { return; }
      }
      i := i + 1;
    }
    assert FilterMap(removes, was[i..]) + toAdd == FilterMap(adds, want[0..]) + [] by { assert want[0..] == want; }
    i := 0;
    while i < |want|
      invariant 0 <= i <= |want|
      invariant Perform(t.refuses, t.At(), FilterMap(adds, want[i..]) + []) == goal
    {
      LoopTurn(t.refuses, t.At(), adds, want, i, []);
      if want[i] !in was {
        ok := t.Invoke(AddPackage(kind, want[i]));
        if !ok { return; }
      }
      i := i + 1;
    }
    ok := true;
  }

  method UpdateServers(t: Transport, oldServers: Value, newServers: Value) returns (ok: bool, ghost plan: seq<Call>)
    modifies t
    ensures IsServerPlan(plan, ObjectOf(oldServers), ObjectOf(newServers))
    ensures (t.At(), ok) == Perform(t.refuses, old(t.At()), plan)
  {
    var was, want := ObjectOf(oldServers), ObjectOf(newServers);
    var oldKeys := KeysOf(was);
    var newKeys := KeysOf(want);
    plan := ServerPlan(was, want, oldKeys, newKeys);
    InObject(newKeys, want);
    ok := SendServers(t, was, want, oldKeys, newKeys);
  }

  lemma InObject(keys: seq<string>, c: Config)
    requires Enumerates(keys, c)
    ensures forall i :: 0 <= i < |keys| ==> keys[i] in c
  {
    forall i | 0 <= i < |keys| ensures keys[i] in c {
      assert keys[i] in (set k | k in keys);
    }
  }

  method SendServers(t: Transport, was: Config, want: Config, oldKeys: seq<string>, newKeys: seq<string>)
      returns (ok: bool)
    requires forall i :: 0 <= i < |newKeys| ==> newKeys[i] in want
    modifies t
    ensures (t.At(), ok) == Perform(t.refuses, old(t.At()), ServerPlan(was, want, oldKeys, newKeys))
  {
    ghost var removes, adds := VanishedCall(want), ChangedCall(was, want);
    ghost var toAdd := FilterMap(adds, newKeys);
    assert oldKeys[0..] == oldKeys;
    ghost var goal := Perform(t.refuses, t.At(), FilterMap(removes, oldKeys[0..]) + toAdd);
    var i := 0;
    while i < |oldKeys|
      invariant 0 <= i <= |oldKeys|
      invariant Perform(t.refuses, t.At(), FilterMap(removes, oldKeys[i..]) + toAdd) == goal
    {
      LoopTurn(t.refuses, t.At(), removes, oldKeys, i, toAdd);
      if oldKeys[i] !in want {
        ok := t.Invoke(RemoveServer(oldKeys[i]));
        if !ok { return; }
      }
      i := i + 1;
    }
    assert FilterMap(removes, oldKeys[i..]) + toAdd
        == FilterMap(adds, newKeys[0..]) + [] by { assert newKeys[0..] == newKeys; }
    i := 0;
    while i < |newKeys|
      invariant 0 <= i <= |newKeys|
      invariant Perform(t.refuses, t.At(), FilterMap(adds, newKeys[i..]) + []) == goal
    {
      var name := newKeys[i];
      LoopTurn(t.refuses, t.At(), adds, newKeys, i, []);
      if !(name in was && was[name] == want[name]) {
        ok := t.Invoke(AddServer(want[name]));
        if !ok { return; }
      }
      i := i + 1;
    }
    ok := true;
  }

  datatype Outcome = NoChanges | WouldUpdate(fields: seq<string>) | Updated(fields: seq<string>) | Failed

  function FieldsOf(calls: seq<Call>): seq<string> {
    FilterMap((c: Call) => if c.Update? then Some(c.field) else None, calls)
  }

  function ChangedFields(current: Config, edited: Config): seq<string> {
    FieldsOf(ScalarPart(current, edited))
    + (if ServersEdited(current, edited) then [ServersKey()] else [])
    + (if PackagesEdited(Apt, current, edited) then [PackagesKey(Apt)] else [])
    + (if PackagesEdited(Npm, current, edited) then [PackagesKey(Npm)] else [])
  }

  /** The commit part of `run_groups_config_edit`. */
  method CommitEdit(t: Transport, current: Config, edited: Config, dryRun: bool)
      returns (outcome: Outcome, ghost plan: seq<Call>)
    modifies t
    ensures IsPlan(plan, current, edited)
    ensures var fields := ChangedFields(current, edited);
            if fields == [] then outcome == NoChanges && t.At() == old(t.At())
            else if dryRun then outcome == WouldUpdate(fields) && t.At() == old(t.At())
            else && (t.At(), outcome != Failed) == Perform(t.refuses, old(t.At()), plan)
                 && (outcome == Updated(fields) || outcome == Failed)
  {
    var updates := DiffScalars(EDITABLE_SCALAR_FIELDS, current, edited);
    var fields := ChangedFields(current, edited);
    if fields == [] || dryRun {
      PlanExists(current, edited);
      plan :| IsPlan(plan, current, edited);
      return if fields == [] then NoChanges else WouldUpdate(fields), plan;
    }
    var ok;
    ok, plan := Commit(t, updates, current, edited);
    outcome := if ok then Updated(fields) else Failed;
  }

  method Commit(t: Transport, updates: seq<Call>, current: Config, edited: Config)
      returns (ok: bool, ghost plan: seq<Call>)
    requires updates == ScalarPart(current, edited)
    modifies t
    ensures IsPlan(plan, current, edited)
    ensures (t.At(), ok) == Perform(t.refuses, old(t.At()), plan)
  {
    ghost var start, tail := t.At(), PackageParts(current, edited);
    ServerPartExists(current, edited);
    ghost var servers :| IsServerPart(servers, current, edited);
    plan := updates + (servers + tail);
    PerformAppend(t.refuses, start, updates, servers + tail);
    ok := CommitScalars(t, updates);
    if !ok { return; }
    ghost var mid := t.At();
    ok, servers := CommitServers(t, current, edited);
    plan := updates + (servers + tail);
    PerformAppend(t.refuses, start, updates, servers + tail);
    PerformAppend(t.refuses, mid, servers, tail);
    if ok { ok := CommitPackages(t, current, edited); }
  }

  method CommitServers(t: Transport, current: Config, edited: Config) returns (ok: bool, ghost plan: seq<Call>)
    modifies t
    ensures IsServerPart(plan, current, edited)
    ensures (t.At(), ok) == Perform(t.refuses, old(t.At()), plan)
  {
    ok, plan := true, [];
    if ServersEdited(current, edited) {
      ok, plan := UpdateServers(t, ServersIn(current), edited[ServersKey()]);
    }
  }

  lemma PlanExists(current: Config, edited: Config)
    ensures exists plan :: IsPlan(plan, current, edited)
  {
    ServerPartExists(current, edited);
    var servers :| IsServerPart(servers, current, edited);
    assert IsPlan(ScalarPart(current, edited) + (servers + PackageParts(current, edited)), current, edited);
  }

  method CommitPackages(t: Transport, current: Config, edited: Config) returns (ok: bool)
    modifies t
    ensures (t.At(), ok) == Perform(t.refuses, old(t.At()), PackageParts(current, edited))
  {
    PerformAppend(t.refuses, t.At(), PackagePart(Apt, current, edited), PackagePart(Npm, current, edited));
    if PackagesEdited(Apt, current, edited) {
      ok := UpdatePackages(t, Apt, ListOrEmpty(current, PackagesKey(Apt)), ListAt(edited, PackagesKey(Apt)).value);
      if !ok { return; }
    }
    ok := true;
    if PackagesEdited(Npm, current, edited) {
      ok := UpdatePackages(t, Npm, ListOrEmpty(current, PackagesKey(Npm)), ListAt(edited, PackagesKey(Npm)).value);
    }
  }

  lemma EnumerateMore(keys: seq<string>, k: string, c: Config)
    requires k in c && Enumerates(keys, c - {k})
    ensures Enumerates(keys + [k], c)
  {
    assert forall x :: x in keys ==> x in (set y | y in keys);
    assert forall x :: x in keys + [k] <==> x in keys || x == k;
    assert (set x | x in keys + [k]) == (set x | x in keys) + {k};
  }

  lemma {:induction false} EnumerationExists(c: Config)
    ensures exists keys :: Enumerates(keys, c)
    decreases |c|
  {
    if c.Keys == {} {
      assert Enumerates([], c);
    } else {
      var k :| k in c.Keys;
      EnumerationExists(c - {k});
      var keys :| Enumerates(keys, c - {k});
      EnumerateMore(keys, k, c);
    }
  }

  lemma ServerPartExists(current: Config, edited: Config)
    ensures exists plan :: IsServerPart(plan, current, edited)
  {
    if ServersEdited(current, edited) {
      var was, want := ObjectOf(ServersIn(current)), ObjectOf(edited[ServersKey()]);
      EnumerationExists(was);
      EnumerationExists(want);
      var oldKeys :| Enumerates(oldKeys, was);
      var newKeys :| Enumerates(newKeys, want);
      var plan := ServerPlan(was, want, oldKeys, newKeys);
      assert IsServerPart(plan, current, edited) by { assert IsServerPlan(plan, was, want); }
    } else {
      assert IsServerPart([], current, edited);
    }
  }

  method CommitScalars(t: Transport, updates: seq<Call>) returns (ok: bool)
    modifies t
    ensures (t.At(), ok) == Perform(t.refuses, old(t.At()), updates)
  {
    ghost var start := t.At();
    var i := 0;
    while i < |updates|
      invariant 0 <= i <= |updates|
      invariant Perform(t.refuses, t.At(), updates[i..]) == Perform(t.refuses, start, updates)
    {
      ok := t.Invoke(updates[i]);
      if !ok { return; }
      i := i + 1;
    }
    ok := true;
  }
}
