/** A committed edit in terms of the edited table: which entry of it ends up where on the host. */
module ConfigFields {
  import opened Base
  import opened ConfigEdit
  import opened ConfigConverge

  // ----- the entries of the table -----

  predicate Editable(key: string) {
    key in {"provider", "model", "image_tag", "assistant_name", "max_messages_per_prompt", "tool_profile",
            "preview_enabled", "preview_bind"}
  }

  /** `list` names exactly the texts of the array under `key`, in any order and number. */
  ghost predicate Names(list: seq<string>, c: Config, key: string) {
    forall x :: x in list <==> key in c && c[key].Arr? && Str(x) in c[key].items
  }

  function TableAt(c: Config, key: string): Config { if key in c && c[key].Obj? then c[key].fields else map[] }

  /** The server says that it is called `name`, and may be. */
  predicate Called(server: Value, name: string) {
    server.Obj? && "name" in server.fields && server.fields["name"] == Str(name) && name != "__preview"
  }

  /** A server the edit adds or changes. */
  predicate Differs(was: Config, want: Config, name: string) {
    name in want && !(name in was && was[name] == want[name])
  }

  /** The texts of an array, in order. */
  function TextsIn(items: seq<Value>): seq<string> {
    if items == [] then []
    else if items[0].Str? then [items[0].s] + TextsIn(items[1..]) else TextsIn(items[1..])
  }

  function TextsAt(c: Config, key: string): seq<string> {
    if key in c && c[key].Arr? then TextsIn(c[key].items) else []
  }

  /** The host still holds the configuration the edit started from. */
  ghost predicate Holds(h: Host, current: Config) {
    && (forall k :: Editable(k) ==> Lookup(h.scalars, k) == Lookup(current, k))
    && h.servers == TableAt(current, "mcp_servers")
    && Names(h.apt, current, "packages_apt") && Names(h.npm, current, "packages_npm")
  }

  /** A changed field holds its new value, or null if it cannot hold that; any other what it held. */
  ghost predicate FieldsEnd(h: Host, r: Host, current: Config, edited: Config) {
    forall k :: Lookup(r.scalars, k) ==
      if Editable(k) && ScalarChanged(current, edited, k) then Left(k, Lookup(edited, k)) else Lookup(h.scalars, k)
  }

  ghost predicate FieldsAsEdited(h: Host, r: Host, edited: Config) {
    forall k :: Lookup(r.scalars, k) == if Editable(k) then Lookup(edited, k) else Lookup(h.scalars, k)
  }

  ghost predicate FieldsStorable(current: Config, edited: Config) {
    forall k :: Editable(k) && ScalarChanged(current, edited, k) ==> Storable(k, Lookup(edited, k))
  }

  /** The servers are as edited exactly if each one sent is listed under the name it gives itself. */
  ghost predicate ServersEnd(h: Host, r: Host, current: Config, edited: Config) {
    var was, want := TableAt(current, "mcp_servers"), TableAt(edited, "mcp_servers");
    if "mcp_servers" in edited
    then r.servers == want <==> forall k :: Differs(was, want, k) ==> Called(want[k], k)
    else r.servers == h.servers
  }

  /** The list under `key` as edited, or left alone if the edit has none. */
  ghost predicate ListEnds(before: seq<string>, after: seq<string>, edited: Config, key: string) {
    if key in edited && edited[key].Arr? then Names(after, edited, key) else after == before
  }

  ghost predicate Ends(h: Host, r: Host, current: Config, edited: Config) {
    && FieldsEnd(h, r, current, edited)
    && (FieldsAsEdited(h, r, edited) <==> FieldsStorable(current, edited))
    && ServersEnd(h, r, current, edited)
    && ListEnds(h.apt, r.apt, edited, "packages_apt") && ListEnds(h.npm, r.npm, edited, "packages_npm")
  }

  lemma EditableExactly(key: string)
    ensures key in EDITABLE_SCALAR_FIELDS <==> Editable(key)
  {
    var f := EDITABLE_SCALAR_FIELDS;
    assert f[0] == "provider" && f[1] == "model" && f[2] == "image_tag" && f[3] == "assistant_name";
    assert f[4] == "max_messages_per_prompt" && f[5] == "tool_profile" && f[6] == "preview_enabled";
    assert f[7] == "preview_bind";
  }

  lemma {:induction false} InTexts(items: seq<Value>, x: string)
    ensures x in FilterMap((v: Value) => if v.Str? then Some(v.s) else None, items) <==> Str(x) in items
  {
    if items == [] {
    } else {
      InTexts(items[1..], x);
      assert items == [items[0]] + items[1..];
    }
  }

  lemma NamesExactly(list: seq<string>, c: Config, key: string)
    ensures Names(list, c, key) <==> SameSet(list, ListOrEmpty(c, key))
  {
    SameElements(list, ListOrEmpty(c, key));
    forall x ensures x in ListOrEmpty(c, key) <==> key in c && c[key].Arr? && Str(x) in c[key].items {
      if key in c && c[key].Arr? { InTexts(c[key].items, x); }
    }
  }

  lemma CalledExactly(server: Value, name: string)
    ensures NameOf(server) == Some(name) <==> Called(server, name)
  {
  }

  lemma Mirrored(h: Host, current: Config)
    requires Holds(h, current)
    ensures Mirrors(h, current, EDITABLE_SCALAR_FIELDS)
  {
    forall k | k in EDITABLE_SCALAR_FIELDS ensures Lookup(h.scalars, k) == Lookup(current, k) { EditableExactly(k); }
    NamesExactly(h.apt, current, "packages_apt");
    NamesExactly(h.npm, current, "packages_npm");
    forall kind ensures SameSet(Packages(h, kind), ListOrEmpty(current, PackagesKey(kind))) {
      assert kind == Apt || kind == Npm;
    }
  }

  lemma ListsEnd(h: Host, r: Host, edited: Config)
    requires forall kind :: PackagesDone(h, r, kind, edited)
    ensures ListEnds(h.apt, r.apt, edited, "packages_apt") && ListEnds(h.npm, r.npm, edited, "packages_npm")
  {
    NamesExactly(r.apt, edited, "packages_apt");
    NamesExactly(r.npm, edited, "packages_npm");
    assert PackagesDone(h, r, Apt, edited) && PackagesDone(h, r, Npm, edited);
  }

  lemma ScalarsEnd(h: Host, r: Host, current: Config, edited: Config)
    requires ScalarsStored(h, r, current, edited, EDITABLE_SCALAR_FIELDS)
    requires ScalarsDone(h, r, edited, EDITABLE_SCALAR_FIELDS) <==> AllStorable(current, edited, EDITABLE_SCALAR_FIELDS)
    ensures FieldsEnd(h, r, current, edited)
    ensures FieldsAsEdited(h, r, edited) <==> FieldsStorable(current, edited)
  {
    forall k ensures k in EDITABLE_SCALAR_FIELDS <==> Editable(k) { EditableExactly(k); }
  }

  lemma ServersEndWell(h: Host, r: Host, current: Config, edited: Config)
    requires ServersDone(h, r, current, edited)
    ensures ServersEnd(h, r, current, edited)
  {
    forall server, name ensures NameOf(server) == Some(name) <==> Called(server, name) { CalledExactly(server, name); }
  }

  // ----- the whole edit -----

  /**
   Every call of the plan accepted, by a host that still held the edited-from configuration: both
   package sets are as edited, the editable fields are exactly when each changed one got a value it
   can hold, the servers exactly when each is listed under its own name, and nothing else moved.
   */
  lemma Converges(h: Host, current: Config, edited: Config, plan: seq<Call>, r: Host)
    requires Holds(h, current) && IsPlan(plan, current, edited) && ExecuteAll(h, plan) == Some(r)
    ensures Ends(h, r, current, edited)
  {
    Mirrored(h, current);
    var servers :| IsServerPart(servers, current, edited)
      && plan == ScalarPart(current, edited) + (servers + PackageParts(current, edited));
    ConvergesOn(h, current, edited, EDITABLE_SCALAR_FIELDS, servers, r);
    ScalarsEnd(h, r, current, edited);
    ServersEndWell(h, r, current, edited);
    ListsEnd(h, r, edited);
  }

  /** The same for a commit over any transport, whenever it reports no failure. */
  lemma CommitConverges(refuses: Refusal, p: Progress, current: Config, edited: Config, plan: seq<Call>)
    requires Holds(p.host, current) && IsPlan(plan, current, edited) && Perform(refuses, p, plan).1
    ensures Ends(p.host, Perform(refuses, p, plan).0.host, current, edited)
  {
    PerformExactly(refuses, p, plan);
    assert plan[..|plan|] == plan;
    Converges(p.host, current, edited, plan, Perform(refuses, p, plan).0.host);
  }

  /** Every value the edit sends is taken, and every server it sends has a name it may have. */
  ghost predicate Acceptable(current: Config, edited: Config) {
    var was, want := TableAt(current, "mcp_servers"), TableAt(edited, "mcp_servers");
    && (forall k :: Editable(k) && ScalarChanged(current, edited, k) ==> Taken(k, Lookup(edited, k)))
    && ("mcp_servers" in edited ==> forall k :: Differs(was, want, k) ==> exists name :: Called(want[k], name))
  }

  /** The handlers accept the whole plan exactly when they take each value and each server's name. */
  lemma AcceptedExactly(h: Host, current: Config, edited: Config, plan: seq<Call>)
    requires Holds(h, current) && IsPlan(plan, current, edited)
    ensures ExecuteAll(h, plan).Some? <==> Acceptable(current, edited)
  {
    Mirrored(h, current);
    var servers :| IsServerPart(servers, current, edited)
      && plan == ScalarPart(current, edited) + (servers + PackageParts(current, edited));
    AcceptedOn(h, current, edited, EDITABLE_SCALAR_FIELDS, servers);
    AcceptedBoth(current, edited);
  }

  lemma AcceptedBoth(current: Config, edited: Config)
    ensures Acceptable(current, edited)
        <==> && AllTaken(current, edited, EDITABLE_SCALAR_FIELDS)
             && (ServersEdited(current, edited) ==>
                   AllNamed(ObjectOf(ServersIn(current)), ObjectOf(edited[ServersKey()])))
  {
    var was, want := TableAt(current, "mcp_servers"), TableAt(edited, "mcp_servers");
    forall k ensures k in EDITABLE_SCALAR_FIELDS <==> Editable(k) { EditableExactly(k); }
    forall k | Changed(was, want, k) ensures NameOf(want[k]).Some? <==> exists name :: Called(want[k], name) {
      if NameOf(want[k]).Some? { CalledExactly(want[k], NameOf(want[k]).value); }
      if name :| Called(want[k], name) { CalledExactly(want[k], name); }
    }
  }

  // ----- an edit of one entry -----

  /** `edited` is `current` with another entry under `key`. */
  predicate SameBut(current: Config, edited: Config, key: string) {
    key in edited && edited == current[key := edited[key]]
  }

  lemma {:induction false} OneMapped(f: string -> Option<Call>, names: seq<string>, key: string)
    requires NoDup(names) && key in names && forall k :: k in names ==> (f(k).Some? <==> k == key)
    ensures FilterMap(f, names) == [f(key).value]
    decreases |names|
  {
    if names[0] == key {
      forall k | k in names[1..] ensures f(k).None? {
        var i :| 0 <= i < |names[1..]| && names[1..][i] == k;
        assert names[i + 1] == k;
      }
      NoneMapped(f, names[1..]);
    } else {
      OneMapped(f, names[1..], key);
    }
  }

  lemma FieldsApart()
    ensures NoDup(EDITABLE_SCALAR_FIELDS)
    ensures forall k :: k in EDITABLE_SCALAR_FIELDS ==>
              k != "mcp_servers" && k != "packages_apt" && k != "packages_npm"
  {
    var f := EDITABLE_SCALAR_FIELDS;
    assert forall i, j :: 0 <= i < j < |f| ==> |f[i]| != |f[j]| || f[i][0] != f[j][0];
    assert forall i :: 0 <= i < |f| ==> |f[i]| != |"mcp_servers"| && (|f[i]| == |"packages_apt"| ==> f[i][1] != 'a');
  }

  /** The entries of the table that are not lists of their own. */
  lemma ListsUntouched(current: Config, edited: Config, key: string, kind: Kind)
    requires SameBut(current, edited, key) && key != PackagesKey(kind)
    ensures PackagePart(kind, current, edited) == [] && !PackagesEdited(kind, current, edited)
  {
  }

  lemma ServersUntouched(current: Config, edited: Config, key: string)
    requires SameBut(current, edited, key) && key != "mcp_servers"
    ensures !ServersEdited(current, edited)
  {
  }

  lemma ScalarsUntouched(current: Config, edited: Config, key: string)
    requires SameBut(current, edited, key) && !Editable(key)
    ensures ScalarPart(current, edited) == []
  {
    EditableExactly(key);
    NoneMapped(ScalarCall(current, edited), EDITABLE_SCALAR_FIELDS);
  }

  /** Which parts of the table a plan is about, if only one was edited. */
  lemma PartAlone(current: Config, edited: Config, plan: seq<Call>)
    requires IsPlan(plan, current, edited)
    ensures !ServersEdited(current, edited) && PackageParts(current, edited) == [] ==>
              plan == ScalarPart(current, edited)
    ensures ScalarPart(current, edited) == [] && !ServersEdited(current, edited) ==>
              plan == PackageParts(current, edited)
    ensures ScalarPart(current, edited) == [] && PackageParts(current, edited) == [] ==>
              IsServerPart(plan, current, edited)
  {
    var servers :| IsServerPart(servers, current, edited)
      && plan == ScalarPart(current, edited) + (servers + PackageParts(current, edited));
    var scalars, parts := ScalarPart(current, edited), PackageParts(current, edited);
    assert servers == [] && parts == [] ==> scalars + (servers + parts) == scalars;
    assert scalars == [] && servers == [] ==> scalars + (servers + parts) == parts;
    assert scalars == [] && parts == [] ==> scalars + (servers + parts) == servers;
  }

  /** What is reported: the fields sent, and the name of each other part that was edited. */
  lemma Reported(current: Config, edited: Config)
    ensures ChangedFields(current, edited) ==
              FieldsOf(ScalarPart(current, edited))
                + ((if ServersEdited(current, edited) then ["mcp_servers"] else [])
                   + ((if PackagesEdited(Apt, current, edited) then ["packages_apt"] else [])
                      + if PackagesEdited(Npm, current, edited) then ["packages_npm"] else []))
  {
  }

  lemma FieldNames(key: string)
    requires Editable(key)
    ensures key != "mcp_servers" && key != "packages_apt" && key != "packages_npm"
  {
    FieldsApart();
    EditableExactly(key);
  }

  lemma NamesApart()
    ensures !Editable("mcp_servers") && !Editable("packages_apt") && !Editable("packages_npm")
    ensures "mcp_servers" != "packages_apt" && "mcp_servers" != "packages_npm" && "packages_apt" != "packages_npm"
  {
    FieldsApart();
    EditableExactly("mcp_servers");
    EditableExactly("packages_apt");
    EditableExactly("packages_npm");
    assert "packages_apt"[9] != "packages_npm"[9] && "packages_apt"[0] != "mcp_servers"[0];
  }

  lemma OneScalar(current: Config, edited: Config, key: string)
    requires Editable(key) && SameBut(current, edited, key) && edited[key] != Lookup(current, key)
    ensures ScalarPart(current, edited) == [Update(key, edited[key])]
  {
    FieldsApart();
    EditableExactly(key);
    OneMapped(ScalarCall(current, edited), EDITABLE_SCALAR_FIELDS, key);
  }

  /** An edit of one field sends that field, and reports it. */
  lemma FieldAlone(current: Config, edited: Config, key: string, plan: seq<Call>)
    requires Editable(key) && SameBut(current, edited, key) && edited[key] != Lookup(current, key)
    requires IsPlan(plan, current, edited)
    ensures plan == [Update(key, edited[key])] && ChangedFields(current, edited) == [key]
  {
    FieldNames(key);
    OneScalar(current, edited, key);
    OnlyScalars(current, edited, key, plan);
    OneReported(key, edited[key]);
    Reported(current, edited);
    assert [key] + ([] + ([] + [])) == [key];
  }

  lemma OnlyScalars(current: Config, edited: Config, key: string, plan: seq<Call>)
    requires SameBut(current, edited, key) && key != "mcp_servers" && key != "packages_apt" && key != "packages_npm"
    requires IsPlan(plan, current, edited)
    ensures plan == ScalarPart(current, edited) && !ServersEdited(current, edited)
    ensures !PackagesEdited(Apt, current, edited) && !PackagesEdited(Npm, current, edited)
  {
    ListsUntouched(current, edited, key, Apt);
    ListsUntouched(current, edited, key, Npm);
    ServersUntouched(current, edited, key);
    PartAlone(current, edited, plan);
  }

  lemma OneReported(key: string, v: Value)
    ensures FieldsOf([Update(key, v)]) == [key]
  {
    assert [Update(key, v)][1..] == [];
    assert FieldsOf([Update(key, v)][1..]) == [];
  }

  lemma {:induction false} InMapped(f: string -> Option<Call>, names: seq<string>, c: Call)
    ensures c in FilterMap(f, names) <==> exists x :: x in names && f(x) == Some(c)
  {
    if names == [] {
    } else {
      InMapped(f, names[1..], c);
      assert names == [names[0]] + names[1..];
    }
  }

  predicate Listed(c: Config, key: string, name: string) { key in c && c[key].Arr? && Str(name) in c[key].items }

  /** The calls an edited list of packages needs: what is new in it, and what is gone. */
  ghost predicate PackageCall(call: Call, kind: Kind, current: Config, edited: Config, key: string) {
    match call
    case AddPackage(of, name) => of == kind && Listed(edited, key, name) && !Listed(current, key, name)
    case RemovePackage(of, name) => of == kind && Listed(current, key, name) && !Listed(edited, key, name)
    case _ => false
  }

  lemma PackageCalls(kind: Kind, current: Config, edited: Config, call: Call)
    requires ListAt(edited, PackagesKey(kind)).Some?
    ensures call in PackagePart(kind, current, edited) <==>
              PackageCall(call, kind, current, edited, PackagesKey(kind))
  {
    var key := PackagesKey(kind);
    var was, want := ListOrEmpty(current, key), ListAt(edited, key).value;
    NamesExactly(was, current, key);
    NamesExactly(want, edited, key);
    assert Names(was, current, key) && Names(want, edited, key);
    InMapped(RemoveCall(kind, want), was, call);
    InMapped(AddCall(kind, was), want, call);
    assert was == want ==> forall x :: x in was <==> x in want;
  }

  /** The list reads differently, if only in its order. */
  predicate Reworded(current: Config, edited: Config, key: string) { TextsAt(current, key) != TextsAt(edited, key) }

  lemma {:induction false} TextsExactly(items: seq<Value>)
    ensures FilterMap((v: Value) => if v.Str? then Some(v.s) else None, items) == TextsIn(items)
  {
    if items == [] {
    } else {
      TextsExactly(items[1..]);
    }
  }

  lemma OnlyList(kind: Kind, current: Config, edited: Config, plan: seq<Call>)
    requires SameBut(current, edited, PackagesKey(kind)) && IsPlan(plan, current, edited)
    ensures plan == PackagePart(kind, current, edited)
    ensures ChangedFields(current, edited) == if PackagesEdited(kind, current, edited) then [PackagesKey(kind)] else []
  {
    var key := PackagesKey(kind);
    NamesApart();
    ScalarsUntouched(current, edited, key);
    ServersUntouched(current, edited, key);
    ListsUntouched(current, edited, key, if kind.Apt? then Npm else Apt);
    PartAlone(current, edited, plan);
    Reported(current, edited);
  }

  lemma ListAlone(kind: Kind, current: Config, edited: Config, plan: seq<Call>)
    requires SameBut(current, edited, PackagesKey(kind)) && edited[PackagesKey(kind)].Arr?
    requires IsPlan(plan, current, edited)
    ensures forall call :: call in plan <==> PackageCall(call, kind, current, edited, PackagesKey(kind))
    ensures ChangedFields(current, edited) ==
              if Reworded(current, edited, PackagesKey(kind)) then [PackagesKey(kind)] else []
  {
    OnlyList(kind, current, edited, plan);
    var key := PackagesKey(kind);
    TextsExactly(edited[key].items);
    if key in current && current[key].Arr? { TextsExactly(current[key].items); }
    forall call ensures call in plan <==> PackageCall(call, kind, current, edited, PackagesKey(kind)) {
      PackageCalls(kind, current, edited, call);
    }
  }

  /** An edit of `packages_apt` sends apt calls only, and reports that field if the list reads differently. */
  lemma AptAlone(current: Config, edited: Config, plan: seq<Call>)
    requires SameBut(current, edited, "packages_apt") && edited["packages_apt"].Arr? && IsPlan(plan, current, edited)
    ensures forall call :: call in plan <==> PackageCall(call, Apt, current, edited, "packages_apt")
    ensures ChangedFields(current, edited) ==
              if Reworded(current, edited, "packages_apt") then ["packages_apt"] else []
  {
    ListAlone(Apt, current, edited, plan);
  }

  /** An edit of `packages_npm` sends npm calls only, and reports that field if the list reads differently. */
  lemma NpmAlone(current: Config, edited: Config, plan: seq<Call>)
    requires SameBut(current, edited, "packages_npm") && edited["packages_npm"].Arr? && IsPlan(plan, current, edited)
    ensures forall call :: call in plan <==> PackageCall(call, Npm, current, edited, "packages_npm")
    ensures ChangedFields(current, edited) ==
              if Reworded(current, edited, "packages_npm") then ["packages_npm"] else []
  {
    ListAlone(Npm, current, edited, plan);
  }

  /** The calls an edited table of servers needs: new and changed ones as they are, vanished ones by name. */
  ghost predicate ServerCall(call: Call, was: Config, want: Config) {
    match call
    case AddServer(server) => exists k :: Differs(was, want, k) && want[k] == server
    case RemoveServer(name) => name in was && name !in want
    case _ => false
  }

  lemma Enumerated(keys: seq<string>, c: Config)
    requires Enumerates(keys, c)
    ensures forall k :: k in keys <==> k in c
  {
    forall k ensures k in keys <==> k in c {
      assert k in keys <==> k in (set x | x in keys);
    }
  }

  lemma VanishedIn(was: Config, want: Config, keys: seq<string>, call: Call)
    requires Enumerates(keys, was)
    ensures call in FilterMap(VanishedCall(want), keys) <==>
              call.RemoveServer? && call.name in was && call.name !in want
  {
    Enumerated(keys, was);
    InMapped(VanishedCall(want), keys, call);
  }

  lemma ChangedIn(was: Config, want: Config, keys: seq<string>, call: Call)
    requires Enumerates(keys, want)
    ensures call in FilterMap(ChangedCall(was, want), keys) <==>
              call.AddServer? && exists k :: Differs(was, want, k) && want[k] == call.server
  {
    Enumerated(keys, want);
    InMapped(ChangedCall(was, want), keys, call);
  }

  lemma ServerCalls(was: Config, want: Config, plan: seq<Call>, call: Call)
    requires IsServerPlan(plan, was, want)
    ensures call in plan <==> ServerCall(call, was, want)
  {
    var oldKeys, newKeys :|
        Enumerates(oldKeys, was) && Enumerates(newKeys, want) && plan == ServerPlan(was, want, oldKeys, newKeys);
    VanishedIn(was, want, oldKeys, call);
    ChangedIn(was, want, newKeys, call);
  }

  lemma OnlyServers(current: Config, edited: Config, plan: seq<Call>)
    requires SameBut(current, edited, "mcp_servers") && IsPlan(plan, current, edited)
    ensures IsServerPart(plan, current, edited)
    ensures ChangedFields(current, edited) == if ServersEdited(current, edited) then ["mcp_servers"] else []
  {
    NamesApart();
    ScalarsUntouched(current, edited, "mcp_servers");
    ListsUntouched(current, edited, "mcp_servers", Apt);
    ListsUntouched(current, edited, "mcp_servers", Npm);
    PartAlone(current, edited, plan);
    Reported(current, edited);
  }

  /** An edit of `mcp_servers` sends server calls only, and reports that field. */
  lemma ServersAlone(current: Config, edited: Config, plan: seq<Call>)
    requires SameBut(current, edited, "mcp_servers") && IsPlan(plan, current, edited)
    ensures forall call :: call in plan <==>
              ServerCall(call, TableAt(current, "mcp_servers"), TableAt(edited, "mcp_servers"))
    ensures plan != [] ==> ChangedFields(current, edited) == ["mcp_servers"]
  {
    OnlyServers(current, edited, plan);
    forall call ensures call in plan <==>
                          ServerCall(call, TableAt(current, "mcp_servers"), TableAt(edited, "mcp_servers"))
    {
      ServerPartCalls(current, edited, plan, call);
    }
  }

  lemma ServerPartCalls(current: Config, edited: Config, plan: seq<Call>, call: Call)
    requires "mcp_servers" in edited && IsServerPart(plan, current, edited)
    ensures call in plan <==> ServerCall(call, TableAt(current, "mcp_servers"), TableAt(edited, "mcp_servers"))
  {
    var was, want := ObjectOf(ServersIn(current)), ObjectOf(edited["mcp_servers"]);
    assert was == TableAt(current, "mcp_servers") && want == TableAt(edited, "mcp_servers");
    if ServersEdited(current, edited) {
      ServerCalls(was, want, plan, call);
    } else {
      assert was == want && plan == [];
    }
  }
}
