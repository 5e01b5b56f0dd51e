/** What a committed edit leaves on the host: the diff, applied, gives the edited configuration. */
module ConfigConverge {
  import opened Base
  import opened ConfigEdit

  // ----- one part of the plan at a time -----

  lemma {:induction false} InFilter<A>(p: A -> bool, s: seq<A>, x: A)
    ensures x in Filter(p, s) <==> x in s && p(x)
  {
    if s == [] {
    } else {
      InFilter(p, s[1..], x);
    }
  }

  lemma PlanHead(f: string -> Option<Call>, names: seq<string>, h: Host)
    requires names != []
    ensures ExecuteAll(h, FilterMap(f, names)) ==
            match f(names[0])
            case None => ExecuteAll(h, FilterMap(f, names[1..]))
            case Some(c) =>
                if Execute(h, c).None? then None else ExecuteAll(Execute(h, c).value, FilterMap(f, names[1..]))
  {
    if f(names[0]).Some? {
      assert FilterMap(f, names)[1..] == FilterMap(f, names[1..]);
    } else {
      assert FilterMap(f, names) == FilterMap(f, names[1..]);
    }
  }

  /** `r` differs from `h` at most in the packages of `kind`. */
  predicate OnlyPackages(h: Host, r: Host, kind: Kind) { r == WithPackages(h, kind, Packages(r, kind)) }

  lemma {:induction false} RemovesEffect(h: Host, kind: Kind, names: seq<string>, want: seq<string>)
    ensures var r := ExecuteAll(h, FilterMap(RemoveCall(kind, want), names));
            && r.Some? && OnlyPackages(h, r.value, kind)
            && forall x :: x in Packages(r.value, kind) <==> x in Packages(h, kind) && !(x in names && x !in want)
    decreases |names|
  {
    if names == [] {
    } else {
      PlanHead(RemoveCall(kind, want), names, h);
      var next := if names[0] in want then h else WithPackages(h, kind, Without(Packages(h, kind), names[0]));
      RemovesEffect(next, kind, names[1..], want);
      forall x ensures x in Without(Packages(h, kind), names[0]) <==> x in Packages(h, kind) && x != names[0] {
        InFilter((y: string) => y != names[0], Packages(h, kind), x);
      }
    }
  }

  lemma {:induction false} AddsEffect(h: Host, kind: Kind, was: seq<string>, names: seq<string>)
    ensures var r := ExecuteAll(h, FilterMap(AddCall(kind, was), names));
            && r.Some? && OnlyPackages(h, r.value, kind)
            && forall x :: x in Packages(r.value, kind) <==> x in Packages(h, kind) || (x in names && x !in was)
    decreases |names|
  {
    if names == [] {
    } else {
      PlanHead(AddCall(kind, was), names, h);
      var next := if names[0] in was || names[0] in Packages(h, kind) then h
          else WithPackages(h, kind, Packages(h, kind) + [names[0]]);
      AddsEffect(next, kind, was, names[1..]);
    }
  }

  /**
   Package calls merge the edit into whatever list the host holds by now: what the edit dropped
   goes, what it brought comes, and anything else stays.
   */
  lemma PackagesMerge(h: Host, kind: Kind, was: seq<string>, want: seq<string>)
    ensures var r := ExecuteAll(h, PackagePlan(kind, was, want));
            && r.Some? && OnlyPackages(h, r.value, kind)
            && forall x :: x in Packages(r.value, kind) <==>
                 (x in Packages(h, kind) && !(x in was && x !in want)) || (x in want && x !in was)
  {
    ExecuteAppend(h, FilterMap(RemoveCall(kind, want), was), FilterMap(AddCall(kind, was), want));
    RemovesEffect(h, kind, was, want);
    AddsEffect(ExecuteAll(h, FilterMap(RemoveCall(kind, want), was)).value, kind, was, want);
  }

  /** No call is needed exactly when the two lists hold the same packages, in any order and number. */
  lemma NoPackageCalls(kind: Kind, was: seq<string>, want: seq<string>)
    ensures PackagePlan(kind, was, want) == [] <==> forall x :: x in was <==> x in want
  {
    NoneMapped(RemoveCall(kind, want), was);
    NoneMapped(AddCall(kind, was), want);
  }

  /** A reordered list counts as edited, but sends nothing. */
  lemma ReorderSendsNothing(kind: Kind, current: Config, edited: Config)
    requires ListAt(edited, PackagesKey(kind)).Some?
    requires SameSet(ListOrEmpty(current, PackagesKey(kind)), ListAt(edited, PackagesKey(kind)).value)
    ensures PackagePart(kind, current, edited) == []
  {
    var was, want := ListOrEmpty(current, PackagesKey(kind)), ListAt(edited, PackagesKey(kind)).value;
    SameElements(was, want);
    NoPackageCalls(kind, was, want);
  }

  lemma {:induction false} NoneMapped(f: string -> Option<Call>, names: seq<string>)
    ensures FilterMap(f, names) == [] <==> forall x :: x in names ==> f(x).None?
  {
    if names == [] {
    } else {
      NoneMapped(f, names[1..]);
    }
  }

  /** A refused second call leaves the first one applied. */
  lemma HalfUpdated()
    ensures var plan := [Update("model", Str("m")), Update("provider", Str("p"))];
            var refuses: Refusal := (sent, call) => call == plan[1];
            var (q, ok) := Perform(refuses, Progress(Host(map[], map[], [], []), []), plan);
            !ok && q.host.scalars == map["model" := Str("m")]
  {
    var plan := [Update("model", Str("m")), Update("provider", Str("p"))];
    assert "model"[0] != "provider"[0];
    assert plan[0] != plan[1] && plan[1..] == [plan[1]];
  }

  predicate ScalarChanged(current: Config, edited: Config, key: string) {
    Lookup(current, key) != Lookup(edited, key)
  }

  function ChangedKey(current: Config, edited: Config): string -> bool {
    (key: string) => ScalarChanged(current, edited, key)
  }

  /** One update for each changed field, in field order. */
  lemma {:induction false} ScalarsInOrder(current: Config, edited: Config, fields: seq<string>)
    ensures FieldsOf(FilterMap(ScalarCall(current, edited), fields)) == Filter(ChangedKey(current, edited), fields)
  {
    if fields == [] {
    } else {
      ScalarsInOrder(current, edited, fields[1..]);
      var f := ScalarCall(current, edited);
      if f(fields[0]).Some? {
        assert FilterMap(f, fields)[1..] == FilterMap(f, fields[1..]);
      } else {
        assert FilterMap(f, fields) == FilterMap(f, fields[1..]);
      }
    }
  }

  /** A value of the type the field holds. */
  predicate Storable(key: string, v: Value) {
    || (key in {"provider", "model", "image_tag", "assistant_name", "preview_bind"} && (v.Null? || v.Str?))
    || (key == "max_messages_per_prompt" && (v.Null? || (v.Num? && 0 <= v.n < 4294967296)))
    || (key == "tool_profile" && (v.Null? || v in {Str("minimal"), Str("messaging"), Str("coding"), Str("full")}))
    || (key == "preview_enabled" && v.Bool?)
  }

  /** A value the host takes, if only to store null in its place. */
  predicate Taken(key: string, v: Value) {
    || Storable(key, v)
    || key in {"provider", "model", "image_tag", "assistant_name"}
    || (key == "max_messages_per_prompt" && (v.Num? || v.Float?))
  }

  /** What the update of a field leaves, whatever it held before. */
  function Left(key: string, v: Value): Value { if Storable(key, v) then v else Null }

  lemma StoredExactly(key: string, v: Value)
    ensures StoredAs(ColumnOf(key), v) == if Taken(key, v) then Some(Left(key, v)) else None
    ensures Left(key, v) == v <==> Storable(key, v) || v.Null?
    ensures Taken(key, v) && v.Null? ==> Storable(key, v)
  {
  }

  lemma UpdateEffect(h: Host, key: string, v: Value)
    ensures Execute(h, Update(key, v)) ==
              if Taken(key, v) then Some(h.(scalars := h.scalars[key := Left(key, v)])) else None
  {
    StoredExactly(key, v);
  }

  ghost predicate AllTaken(current: Config, edited: Config, fields: seq<string>) {
    forall k :: k in fields && ScalarChanged(current, edited, k) ==> Taken(k, Lookup(edited, k))
  }

  /** The updates are accepted exactly if each of them is, and each leaves what the handler stores for it. */
  lemma {:induction false} ScalarsEffect(h: Host, current: Config, edited: Config, fields: seq<string>)
    ensures var r := ExecuteAll(h, FilterMap(ScalarCall(current, edited), fields));
            && (r.Some? <==> AllTaken(current, edited, fields))
            && (r.Some? ==> && r.value == h.(scalars := r.value.scalars)
                            && ScalarsStored(h, r.value, current, edited, fields))
    decreases |fields|
  {
    if fields == [] {
    } else {
      PlanHead(ScalarCall(current, edited), fields, h);
      var key := fields[0];
      if !ScalarChanged(current, edited, key) {
        ScalarsEffect(h, current, edited, fields[1..]);
      } else {
        var v := Lookup(edited, key);
        UpdateEffect(h, key, v);
        if Taken(key, v) { ScalarsEffect(h.(scalars := h.scalars[key := Left(key, v)]), current, edited, fields[1..]); }
      }
    }
  }

  ghost predicate ScalarsStored(h: Host, r: Host, current: Config, edited: Config, fields: seq<string>) {
    forall k :: Lookup(r.scalars, k) ==
      if k in fields && ScalarChanged(current, edited, k) then Left(k, Lookup(edited, k)) else Lookup(h.scalars, k)
  }

  ghost predicate AllStorable(current: Config, edited: Config, fields: seq<string>) {
    forall k :: k in fields && ScalarChanged(current, edited, k) ==> Storable(k, Lookup(edited, k))
  }

  /** The fields end as edited exactly when every changed one was given a value its column holds. */
  lemma ScalarsConverge(h: Host, r: Host, current: Config, edited: Config, fields: seq<string>)
    requires forall k :: k in fields ==> Lookup(h.scalars, k) == Lookup(current, k)
    requires ExecuteAll(h, FilterMap(ScalarCall(current, edited), fields)) == Some(r)
    ensures r == h.(scalars := r.scalars) && ScalarsStored(h, r, current, edited, fields)
    ensures ScalarsDone(h, r, edited, fields) <==> AllStorable(current, edited, fields)
  {
    ScalarsEffect(h, current, edited, fields);
    if ScalarsDone(h, r, edited, fields) {
      forall k | k in fields && ScalarChanged(current, edited, k) ensures Storable(k, Lookup(edited, k)) {
        assert Lookup(r.scalars, k) == Lookup(edited, k);
        StoredExactly(k, Lookup(edited, k));
      }
    }
    if AllStorable(current, edited, fields) {
      forall k ensures Lookup(r.scalars, k) == if k in fields then Lookup(edited, k) else Lookup(h.scalars, k) {
        if k in fields && ScalarChanged(current, edited, k) { StoredExactly(k, Lookup(edited, k)); }
      }
    }
  }

  /** A transport that lets every call through. */
  predicate Never(sent: seq<Call>, call: Call) { false }

  lemma {:induction false} NeverRefused(p: Progress, plan: seq<Call>)
    ensures var (q, ok) := Perform(Never, p, plan);
            (ok <==> ExecuteAll(p.host, plan).Some?) && (ok ==> q.host == ExecuteAll(p.host, plan).value)
    decreases |plan|
  {
    if plan == [] {
    } else if Execute(p.host, plan[0]).Some? {
      NeverRefused(Send(Never, p, plan[0]).0, plan[1..]);
    }
  }

  /** A number sent to a text column is accepted and leaves it null. */
  lemma NumberAsText(h: Host, current: Config, edited: Config, fields: seq<string>, key: string)
    requires key in fields && key in {"provider", "model", "image_tag", "assistant_name"}
    requires Lookup(edited, key).Num?
    requires forall k :: k in fields && ScalarChanged(current, edited, k) <==> k == key
    ensures var r := ExecuteAll(h, FilterMap(ScalarCall(current, edited), fields));
            r.Some? && Lookup(r.value.scalars, key) == Null
  {
    ScalarsEffect(h, current, edited, fields);
  }

  lemma ScalarsAlone(current: Config, edited: Config)
    requires !ServersEdited(current, edited) && forall kind :: !PackagesEdited(kind, current, edited)
    ensures IsPlan(ScalarPart(current, edited), current, edited)
  {
    var scalars := ScalarPart(current, edited);
    assert IsServerPart([], current, edited) && PackageParts(current, edited) == [];
    assert scalars == scalars + ([] + PackageParts(current, edited));
  }

  /** `model = 5` is such an edit: its commit succeeds, and the model is gone. */
  lemma NumberForModel()
    ensures var (current, edited) := (map["model" := Str("m")], map["model" := Num(5)]);
            var (q, ok) := Perform(Never, Progress(Host(current, map[], [], []), []), ScalarPart(current, edited));
            && IsPlan(ScalarPart(current, edited), current, edited)
            && ok && Lookup(q.host.scalars, "model") == Null
  {
    var current, edited := map["model" := Str("m")], map["model" := Num(5)];
    assert ServersKey() != "model" by { assert ServersKey()[1] != "model"[1]; }
    assert forall kind :: PackagesKey(kind) != "model" by { assert forall kind :: PackagesKey(kind)[0] != "model"[0]; }
    ScalarsAlone(current, edited);
    assert "model" == EDITABLE_SCALAR_FIELDS[1];
    NumberAsText(Host(current, map[], [], []), current, edited, EDITABLE_SCALAR_FIELDS, "model");
    NeverRefused(Progress(Host(current, map[], [], []), []), ScalarPart(current, edited));
  }

  lemma {:induction false} VanishedEffect(h: Host, want: Config, keys: seq<string>)
    ensures var r := ExecuteAll(h, FilterMap(VanishedCall(want), keys));
            r == Some(h.(servers := h.servers - (set k | k in keys && k !in want)))
    decreases |keys|
  {
    if keys == [] {
      assert h.servers - (set k | k in keys && k !in want) == h.servers;
    } else {
      PlanHead(VanishedCall(want), keys, h);
      var next := if keys[0] in want then h else h.(servers := h.servers - {keys[0]});
      VanishedEffect(next, want, keys[1..]);
      assert next.servers - (set k | k in keys[1..] && k !in want) == h.servers - (set k | k in keys && k !in want);
    }
  }

  /** A changed server of `keys` that the host stores under `name`. */
  predicate Brings(was: Config, want: Config, keys: seq<string>, k: string, name: string) {
    k in keys && Changed(was, want, k) && NameOf(want[k]) == Some(name)
  }

  /** Each name holds a changed server of that name if there is one, else what it held before. */
  ghost predicate Stored(before: Config, after: Config, was: Config, want: Config, keys: seq<string>, name: string) {
    if exists k :: Brings(was, want, keys, k, name)
    then name in after && exists k :: Brings(was, want, keys, k, name) && after[name] == want[k]
    else (name in after <==> name in before) && (name in after && name in before ==> after[name] == before[name])
  }

  lemma {:induction false} ChangedEffect(h: Host, was: Config, want: Config, keys: seq<string>, r: Host)
    requires ExecuteAll(h, FilterMap(ChangedCall(was, want), keys)) == Some(r)
    ensures r == h.(servers := r.servers)
    ensures forall k :: k in keys && Changed(was, want, k) ==> NameOf(want[k]).Some?
    ensures forall name :: Stored(h.servers, r.servers, was, want, keys, name)
    decreases |keys|
  {
    if keys == [] {
    } else {
      PlanHead(ChangedCall(was, want), keys, h);
      var key, rest := keys[0], keys[1..];
      if Changed(was, want, key) {
        var next := Execute(h, AddServer(want[key])).value;
        ChangedEffect(next, was, want, rest, r);
        forall name ensures Stored(h.servers, r.servers, was, want, keys, name) {
          StoredStep(h, next, r, was, want, keys, name);
        }
      } else {
        ChangedEffect(h, was, want, rest, r);
        forall name ensures Stored(h.servers, r.servers, was, want, keys, name) {
          assert Stored(h.servers, r.servers, was, want, rest, name);
          assert forall k :: Brings(was, want, keys, k, name) <==> Brings(was, want, rest, k, name);
        }
      }
    }
  }

  lemma StoredStep(h: Host, next: Host, r: Host, was: Config, want: Config, keys: seq<string>, name: string)
    requires keys != [] && Changed(was, want, keys[0]) && Execute(h, AddServer(want[keys[0]])) == Some(next)
    requires Stored(next.servers, r.servers, was, want, keys[1..], name)
    ensures Stored(h.servers, r.servers, was, want, keys, name)
  {
    if k :| Brings(was, want, keys[1..], k, name) {
      assert Brings(was, want, keys, k, name);
      var best :| Brings(was, want, keys[1..], best, name) && r.servers[name] == want[best];
      assert Brings(was, want, keys, best, name);
    } else if NameOf(want[keys[0]]) == Some(name) {
      assert Brings(was, want, keys, keys[0], name);
    } else {
      assert forall k :: Brings(was, want, keys, k, name) ==> Brings(was, want, keys[1..], k, name);
    }
  }

  /** Every server the edit sends carries the name it is listed under. */
  ghost predicate WellNamed(was: Config, want: Config) {
    forall k :: Changed(was, want, k) ==> NameOf(want[k]) == Some(k)
  }

  /**
   A host that held the old servers ends with the new ones exactly when every new or changed
   server is listed under its own `name`.
   */
  lemma ServersConverge(h: Host, was: Config, want: Config, plan: seq<Call>, r: Host)
    requires h.servers == was && IsServerPlan(plan, was, want) && ExecuteAll(h, plan) == Some(r)
    ensures r == h.(servers := r.servers)
    ensures r.servers == want <==> WellNamed(was, want)
  {
    var oldKeys, newKeys :|
        Enumerates(oldKeys, was) && Enumerates(newKeys, want) && plan == ServerPlan(was, want, oldKeys, newKeys);
    InObject(newKeys, want);
    ExecuteAppend(h, FilterMap(VanishedCall(want), oldKeys), FilterMap(ChangedCall(was, want), newKeys));
    VanishedEffect(h, want, oldKeys);
    var mid := ExecuteAll(h, FilterMap(VanishedCall(want), oldKeys)).value;
    ChangedEffect(mid, was, want, newKeys, r);
    forall name ensures name in mid.servers <==> name in was && name in want {
      assert name in was ==> name in (set k | k in oldKeys);
    }
    forall k | k in want ensures k in newKeys {
      assert k in (set x | x in newKeys);
    }
    if WellNamed(was, want) { NamedConverge(mid.servers, r.servers, was, want, newKeys); }
    if r.servers == want { MisnamedShows(mid.servers, r.servers, was, want, newKeys); }
  }

  /** A server listed under a key that is not its name ends up under its name. */
  lemma MisnamedServer()
    ensures var want := map["a" := Obj(map["name" := Str("b")])];
            var plan := [AddServer(want["a"])];
            var h := Host(map[], map[], [], []);
            && IsServerPlan(plan, map[], want)
            && ExecuteAll(h, plan).Some? && ExecuteAll(h, plan).value.servers == map["b" := want["a"]] != want
  {
    var want := map["a" := Obj(map["name" := Str("b")])];
    var plan := [AddServer(want["a"])];
    var h := Host(map[], map[], [], []);
    assert Enumerates([], map[]) && Enumerates(["a"], want);
    assert ["a"][1..] == [];
    assert ServerPlan(map[], want, [], ["a"]) == plan;
    assert NameOf(want["a"]) == Some("b");
    assert plan[1..] == [];
    assert "a" in want && "a" !in map["b" := want["a"]] by { assert "a"[0] != "b"[0]; }
  }

  lemma NamedConverge(mid: Config, after: Config, was: Config, want: Config, keys: seq<string>)
    requires forall name :: name in mid <==> name in was && name in want
    requires forall name :: name in mid ==> mid[name] == was[name]
    requires forall k :: k in keys <==> k in want
    requires forall name :: Stored(mid, after, was, want, keys, name)
    requires WellNamed(was, want)
    ensures after == want
  {
    forall name ensures name in after <==> name in want
      ensures name in after && name in want ==> after[name] == want[name]
    {
      assert Stored(mid, after, was, want, keys, name);
      if Changed(was, want, name) { assert Brings(was, want, keys, name, name); }
    }
  }

  lemma MisnamedShows(mid: Config, after: Config, was: Config, want: Config, keys: seq<string>)
    requires forall name :: name in mid <==> name in was && name in want
    requires forall name :: name in mid ==> mid[name] == was[name]
    requires forall k :: k in keys && Changed(was, want, k) ==> NameOf(want[k]).Some?
    requires forall k :: k in keys <==> k in want
    requires forall name :: Stored(mid, after, was, want, keys, name)
    requires after == want
    ensures WellNamed(was, want)
  {
    forall k | Changed(was, want, k) ensures NameOf(want[k]) == Some(k) {
      assert Stored(mid, after, was, want, keys, k);
    }
  }

  // ----- the whole edit -----

  predicate SameSet(a: seq<string>, b: seq<string>) { (set x | x in a) == (set x | x in b) }

  /** The host still holds the configuration the edit started from. */
  ghost predicate Mirrors(h: Host, current: Config, fields: seq<string>) {
    && (forall k :: k in fields ==> Lookup(h.scalars, k) == Lookup(current, k))
    && h.servers == ObjectOf(ServersIn(current))
    && forall kind :: SameSet(Packages(h, kind), ListOrEmpty(current, PackagesKey(kind)))
  }

  ghost predicate ScalarsDone(h: Host, r: Host, edited: Config, fields: seq<string>) {
    forall k :: Lookup(r.scalars, k) == if k in fields then Lookup(edited, k) else Lookup(h.scalars, k)
  }

  /** An edit without a list for `kind` leaves the host's alone. */
  predicate PackagesDone(h: Host, r: Host, kind: Kind, edited: Config) {
    var list := ListAt(edited, PackagesKey(kind));
    if list.Some? then SameSet(Packages(r, kind), list.value) else Packages(r, kind) == Packages(h, kind)
  }

  ghost predicate ServersDone(h: Host, r: Host, current: Config, edited: Config) {
    if ServersKey() in edited
    then r.servers == ObjectOf(edited[ServersKey()])
        <==> WellNamed(ObjectOf(ServersIn(current)), ObjectOf(edited[ServersKey()]))
    else r.servers == h.servers
  }

  lemma PackagePartEffect(h: Host, kind: Kind, current: Config, edited: Config)
    requires SameSet(Packages(h, kind), ListOrEmpty(current, PackagesKey(kind)))
    ensures var r := ExecuteAll(h, PackagePart(kind, current, edited));
            r.Some? && OnlyPackages(h, r.value, kind) && PackagesDone(h, r.value, kind, edited)
  {
    if PackagesEdited(kind, current, edited) {
      var was, want := ListOrEmpty(current, PackagesKey(kind)), ListAt(edited, PackagesKey(kind)).value;
      PackagesMerge(h, kind, was, want);
      var r := ExecuteAll(h, PackagePlan(kind, was, want)).value;
      SameElements(Packages(h, kind), was);
      SameElements(Packages(r, kind), want);
    }
  }

  lemma SameElements(a: seq<string>, b: seq<string>)
    ensures SameSet(a, b) <==> forall x :: x in a <==> x in b
  {
    if SameSet(a, b) {
      var left, right := (set x | x in a), (set x | x in b);
      assert left == right;
      forall x ensures x in a <==> x in b {
        assert x in a <==> x in left;
        assert x in b <==> x in right;
      }
    }
  }

  lemma PackagePartsEffect(h: Host, current: Config, edited: Config)
    requires forall kind :: SameSet(Packages(h, kind), ListOrEmpty(current, PackagesKey(kind)))
    ensures var r := ExecuteAll(h, PackageParts(current, edited));
            && r.Some? && r.value == h.(apt := r.value.apt, npm := r.value.npm)
            && forall kind :: PackagesDone(h, r.value, kind, edited)
  {
    ExecuteAppend(h, PackagePart(Apt, current, edited), PackagePart(Npm, current, edited));
    PackagePartEffect(h, Apt, current, edited);
    PackagePartEffect(ExecuteAll(h, PackagePart(Apt, current, edited)).value, Npm, current, edited);
    var r := ExecuteAll(h, PackageParts(current, edited)).value;
    forall kind: Kind ensures PackagesDone(h, r, kind, edited) {
      assert kind == Apt || kind == Npm;
    }
  }

  lemma ServerPartEffect(h: Host, current: Config, edited: Config, plan: seq<Call>, r: Host)
    requires h.servers == ObjectOf(ServersIn(current))
    requires IsServerPart(plan, current, edited) && ExecuteAll(h, plan) == Some(r)
    ensures r == h.(servers := r.servers) && ServersDone(h, r, current, edited)
  {
    if ServersEdited(current, edited) {
      ServersConverge(h, ObjectOf(ServersIn(current)), ObjectOf(edited[ServersKey()]), plan, r);
    }
  }

  lemma ServersThenPackages(h: Host, current: Config, edited: Config, servers: seq<Call>, r: Host)
    requires h.servers == ObjectOf(ServersIn(current))
    requires forall kind :: SameSet(Packages(h, kind), ListOrEmpty(current, PackagesKey(kind)))
    requires IsServerPart(servers, current, edited) && ExecuteAll(h, servers + PackageParts(current, edited)) == Some(r)
    ensures r.scalars == h.scalars && ServersDone(h, r, current, edited)
    ensures forall kind :: PackagesDone(h, r, kind, edited)
  {
    ExecuteAppend(h, servers, PackageParts(current, edited));
    var mid := ExecuteAll(h, servers).value;
    ServerPartEffect(h, current, edited, servers, mid);
    assert forall kind :: Packages(mid, kind) == Packages(h, kind);
    PackagePartsEffect(mid, current, edited);
    DoneFrom(h, mid, r, edited);
  }

  lemma DoneFrom(h: Host, mid: Host, r: Host, edited: Config)
    requires forall kind :: Packages(mid, kind) == Packages(h, kind)
    requires forall kind :: PackagesDone(mid, r, kind, edited)
    ensures forall kind :: PackagesDone(h, r, kind, edited)
  {
    forall kind ensures PackagesDone(h, r, kind, edited) {
      assert PackagesDone(mid, r, kind, edited);
    }
  }

  lemma {:induction false} NamesAccepted(h: Host, was: Config, want: Config, keys: seq<string>)
    ensures ExecuteAll(h, FilterMap(ChangedCall(was, want), keys)).Some?
        <==> forall k :: k in keys && Changed(was, want, k) ==> NameOf(want[k]).Some?
    decreases |keys|
  {
    if keys == [] {
    } else {
      PlanHead(ChangedCall(was, want), keys, h);
      if !Changed(was, want, keys[0]) {
        NamesAccepted(h, was, want, keys[1..]);
      } else if NameOf(want[keys[0]]).Some? {
        NamesAccepted(Execute(h, AddServer(want[keys[0]])).value, was, want, keys[1..]);
      }
    }
  }

  /** Every server the edit sends has a name it may take. */
  ghost predicate AllNamed(was: Config, want: Config) {
    forall k :: Changed(was, want, k) ==> NameOf(want[k]).Some?
  }

  lemma ServersAccepted(h: Host, current: Config, edited: Config, plan: seq<Call>)
    requires IsServerPart(plan, current, edited)
    ensures ExecuteAll(h, plan).Some?
        <==> ServersEdited(current, edited) ==>
               AllNamed(ObjectOf(ServersIn(current)), ObjectOf(edited[ServersKey()]))
  {
    if ServersEdited(current, edited) {
      var was, want := ObjectOf(ServersIn(current)), ObjectOf(edited[ServersKey()]);
      var oldKeys, newKeys :|
          Enumerates(oldKeys, was) && Enumerates(newKeys, want) && plan == ServerPlan(was, want, oldKeys, newKeys);
      InObject(newKeys, want);
      ExecuteAppend(h, FilterMap(VanishedCall(want), oldKeys), FilterMap(ChangedCall(was, want), newKeys));
      VanishedEffect(h, want, oldKeys);
      NamesAccepted(ExecuteAll(h, FilterMap(VanishedCall(want), oldKeys)).value, was, want, newKeys);
      forall k | k in want ensures k in newKeys {
        assert k in (set x | x in newKeys);
      }
    }
  }

  lemma AcceptedOn(h: Host, current: Config, edited: Config, fields: seq<string>, servers: seq<Call>)
    requires Mirrors(h, current, fields) && IsServerPart(servers, current, edited)
    ensures ExecuteAll(h, FilterMap(ScalarCall(current, edited), fields) +
              (servers + PackageParts(current, edited))).Some?
        <==> && AllTaken(current, edited, fields)
             && (ServersEdited(current, edited) ==>
                   AllNamed(ObjectOf(ServersIn(current)), ObjectOf(edited[ServersKey()])))
  {
    var scalars := FilterMap(ScalarCall(current, edited), fields);
    ExecuteAppend(h, scalars, servers + PackageParts(current, edited));
    ScalarsEffect(h, current, edited, fields);
    if ExecuteAll(h, scalars).Some? {
      var mid := ExecuteAll(h, scalars).value;
      ExecuteAppend(mid, servers, PackageParts(current, edited));
      ServersAccepted(mid, current, edited, servers);
      if ExecuteAll(mid, servers).Some? {
        var low := ExecuteAll(mid, servers).value;
        ServerPartEffect(mid, current, edited, servers, low);
        assert forall kind :: Packages(low, kind) == Packages(h, kind);
        PackagePartsEffect(low, current, edited);
      }
    }
  }

  lemma ConvergesOn(h: Host, current: Config, edited: Config, fields: seq<string>, servers: seq<Call>, r: Host)
    requires Mirrors(h, current, fields) && IsServerPart(servers, current, edited)
    requires ExecuteAll(h, FilterMap(ScalarCall(current, edited), fields) +
        (servers + PackageParts(current, edited))) == Some(r)
    ensures ScalarsStored(h, r, current, edited, fields)
    ensures ScalarsDone(h, r, edited, fields) <==> AllStorable(current, edited, fields)
    ensures ServersDone(h, r, current, edited)
    ensures forall kind :: PackagesDone(h, r, kind, edited)
  {
    var scalars := FilterMap(ScalarCall(current, edited), fields);
    ExecuteAppend(h, scalars, servers + PackageParts(current, edited));
    var mid := ExecuteAll(h, scalars).value;
    ScalarsConverge(h, mid, current, edited, fields);
    assert forall kind :: Packages(mid, kind) == Packages(h, kind);
    ServersThenPackages(mid, current, edited, servers, r);
    DoneFrom(h, mid, r, edited);
  }
}
