/** The whole `container run` argv: built in a fixed order, read back flag by flag. */
module RunArgs {
  import opened Base
  import opened Strings
  import opened AppleArgs

  datatype Spec = Spec(
    name: string, user: Option<string>, workdir: Option<string>, labels: map<string, string>,
    env: seq<(string, string)>, hosts: seq<(string, string)>, mounts: seq<Mount>,
    image: string, entrypoint: seq<string>)

  datatype Flag = Detach | Name | User | Workdir | Label | Env | AddHost | MountFlag

  function FlagText(f: Flag): string {
    match f
    case Detach => "--detach"
    case Name => "--name"
    case User => "--user"
    case Workdir => "--workdir"
    case Label => "--label"
    case Env => "--env"
    case AddHost => "--add-host"
    case MountFlag => "--mount"
  }

  // ----- labels in key order -----

  /** The order of Rust strings: by code point, a prefix first. */
  predicate Before(a: string, b: string) {
    if b == "" then false
    else if a == "" then true
    else a[0] < b[0] || (a[0] == b[0] && Before(a[1..], b[1..]))
  }

  lemma {:induction false} BeforeTotal(a: string, b: string)
    ensures a == b || Before(a, b) || Before(b, a)
    ensures !(Before(a, b) && Before(b, a)) && !Before(a, a)
  {
    if a != "" && b != "" {
      BeforeTotal(a[1..], b[1..]);
      BeforeTotal(a[1..], a[1..]);
      assert a == [a[0]] + a[1..] && b == [b[0]] + b[1..];
    } else if a != "" {
      BeforeTotal(a[1..], a[1..]);
    }
  }

  lemma {:induction false} BeforeTransitive(a: string, b: string, c: string)
    requires Before(a, b) && Before(b, c)
    ensures Before(a, c)
  {
    if a == "" || a[0] != b[0] || b[0] != c[0] {
    } else {
      BeforeTransitive(a[1..], b[1..], c[1..]);
    }
  }

  predicate Sorted(s: seq<string>) {
    forall i, j :: 0 <= i < j < |s| ==> Before(s[i], s[j])
  }

  function KeySet(s: seq<string>): set<string> {
    set k | k in s
  }

  /** One insertion into the ordered map. */
  function Insert(s: seq<string>, k: string): (r: seq<string>)
    ensures KeySet(r) == KeySet(s) + {k}
  {
    if s == [] then [k]
    else if k == s[0] then s
    else if Before(k, s[0]) then [k] + s
    else
      var rest := Insert(s[1..], k);
      assert forall x :: x in [s[0]] + rest <==> x == s[0] || x in KeySet(rest);
      assert forall x :: x in s <==> x == s[0] || x in KeySet(s[1..]);
      [s[0]] + rest
  }

  lemma {:induction false} InsertSorted(s: seq<string>, k: string)
    requires Sorted(s)
    ensures Sorted(Insert(s, k))
  {
    if s != [] && k != s[0] {
      BeforeTotal(k, s[0]);
      if Before(k, s[0]) {
        forall j | 0 <= j < |s| ensures Before(k, s[j]) {
          if j > 0 { BeforeTransitive(k, s[0], s[j]); }
        }
      } else {
        InsertSorted(s[1..], k);
        var rest := Insert(s[1..], k);
        forall j | 0 <= j < |rest| ensures Before(s[0], rest[j]) {
          assert rest[j] in KeySet(rest);
          if rest[j] != k {
            assert rest[j] in s[1..];
          }
        }
      }
    }
  }

  /** The keys in map order, whatever order they were collected in. */
  function SortKeys(order: seq<string>): (r: seq<string>)
    ensures KeySet(r) == KeySet(order)
  {
    if order == [] then []
    else
      var front, last := order[..|order| - 1], order[|order| - 1];
      assert forall x :: x in order <==> x in KeySet(front) || x == last;
      Insert(SortKeys(front), last)
  }

  lemma {:induction false} SortKeysSorted(order: seq<string>)
    ensures Sorted(SortKeys(order))
  {
    if order == [] {
    } else {
      SortKeysSorted(order[..|order| - 1]);
      InsertSorted(SortKeys(order[..|order| - 1]), order[|order| - 1]);
    }
  }

  lemma Inhabited(b: seq<string>)
    ensures b != [] ==> KeySet(b) != {}
  {
    if b != [] { assert b[0] in KeySet(b); }
  }

  /** A set has only one sorted listing. */
  lemma {:induction false} SortedUnique(a: seq<string>, b: seq<string>)
    requires Sorted(a) && Sorted(b) && KeySet(a) == KeySet(b)
    ensures a == b
  {
    if a == [] {
      Inhabited(b);
    } else {
      assert a[0] in KeySet(a);
      assert b != [];
      assert b[0] in KeySet(b);
      HeadsEqual(a, b);
      TailSet(a);
      TailSet(b);
      SortedUnique(a[1..], b[1..]);
      assert a == [a[0]] + a[1..] && b == [b[0]] + b[1..];
    }
  }

  lemma HeadsEqual(a: seq<string>, b: seq<string>)
    requires Sorted(a) && Sorted(b) && a != [] && b != [] && a[0] in b && b[0] in a
    ensures a[0] == b[0]
  {
    var i :| 0 <= i < |b| && b[i] == a[0];
    var j :| 0 <= j < |a| && a[j] == b[0];
    BeforeTotal(a[0], b[0]);
  }

  lemma TailSet(a: seq<string>)
    requires Sorted(a) && a != []
    ensures KeySet(a[1..]) == KeySet(a) - {a[0]}
  {
    forall x ensures x in a[1..] <==> x in a && x != a[0] {
      if x in a[1..] {
        var i :| 0 <= i < |a[1..]| && a[1..][i] == x;
        BeforeTotal(a[0], x);
        assert Before(a[0], a[i + 1]);
      }
      if x in a && x != a[0] {
        var i :| 0 <= i < |a| && a[i] == x;
        assert a[1..][i - 1] == x;
      }
    }
  }

  /** The order in which the label map is iterated does not matter. */
  lemma OrderIrrelevant(o1: seq<string>, o2: seq<string>)
    requires KeySet(o1) == KeySet(o2)
    ensures SortKeys(o1) == SortKeys(o2)
  {
    SortKeysSorted(o1);
    SortKeysSorted(o2);
    SortedUnique(SortKeys(o1), SortKeys(o2));
  }

  // ----- the argv -----

  function OptionArgs(f: Flag, v: Option<string>): seq<string> {
    match v case Some(s) => [FlagText(f), s] case None => []
  }

  function LabelArgs(labels: map<string, string>, keys: seq<string>): seq<string>
    requires forall k :: k in keys ==> k in labels
  {
    if keys == [] then []
    else LabelArgs(labels, keys[..|keys| - 1]) + [FlagText(Label), Pair(keys[|keys| - 1], labels[keys[|keys| - 1]])]
  }

  /** `flag`, then the two halves joined by `sep`, for every pair. */
  function PairArgs(f: Flag, sep: char, pairs: seq<(string, string)>): seq<string> {
    if pairs == [] then []
    else PairArgs(f, sep, pairs[..|pairs| - 1]) + [FlagText(f), pairs[|pairs| - 1].0 + [sep] + pairs[|pairs| - 1].1]
  }

  function MountArgs(mounts: seq<Mount>): seq<string> {
    if mounts == [] then []
    else MountArgs(mounts[..|mounts| - 1]) + [FlagText(MountFlag), MountText(mounts[|mounts| - 1])]
  }

  predicate Enumerates(order: seq<string>, labels: map<string, string>) {
    KeySet(order) == labels.Keys
  }

  // The flags before the image, one group after the other.

  function FixedFlags(s: Spec): seq<string> {
    [FlagText(Detach), FlagText(Name), s.name] + OptionArgs(User, s.user) + OptionArgs(Workdir, s.workdir)
  }

  function LabelFlags(s: Spec, keys: seq<string>): seq<string>
    requires forall k :: k in keys ==> k in s.labels
  {
    FixedFlags(s) + LabelArgs(s.labels, keys)
  }

  function EnvFlags(s: Spec, keys: seq<string>): seq<string>
    requires forall k :: k in keys ==> k in s.labels
  {
    LabelFlags(s, keys) + PairArgs(Env, '=', s.env)
  }

  function HostFlags(s: Spec, keys: seq<string>): seq<string>
    requires forall k :: k in keys ==> k in s.labels
  {
    EnvFlags(s, keys) + PairArgs(AddHost, ':', s.hosts)
  }

  function AllFlags(s: Spec, keys: seq<string>): seq<string>
    requires forall k :: k in keys ==> k in s.labels
  {
    HostFlags(s, keys) + MountArgs(s.mounts)
  }

  function Argv(s: Spec, keys: seq<string>): seq<string>
    requires forall k :: k in keys ==> k in s.labels
  {
    ["run"] + (AllFlags(s, keys) + ([s.image] + s.entrypoint))
  }

  predicate CleanMounts(mounts: seq<Mount>) {
    forall i :: 0 <= i < |mounts| ==> CleanMount(mounts[i])
  }

  /** Sorts the labels by collecting them, in the map's own iteration order, into an ordered map. */
  method CollectLabels(order: seq<string>) returns (keys: seq<string>)
    ensures keys == SortKeys(order)
  {
    keys := [];
    var i := 0;
    while i < |order|
      invariant 0 <= i <= |order| && keys == SortKeys(order[..i])
    {
      assert order[..i + 1][..i] == order[..i];
      keys := Insert(keys, order[i]);
      i := i + 1;
    }
    assert order[..|order|] == order;
  }

  method PushPairs(f: Flag, sep: char, pairs: seq<(string, string)>) returns (a: seq<string>)
    ensures a == PairArgs(f, sep, pairs)
  {
    a := [];
    var i := 0;
    while i < |pairs|
      invariant 0 <= i <= |pairs| && a == PairArgs(f, sep, pairs[..i])
    {
      assert pairs[..i + 1][..i] == pairs[..i];
      a := a + [FlagText(f), pairs[i].0 + [sep] + pairs[i].1];
      i := i + 1;
    }
    assert pairs[..|pairs|] == pairs;
  }

  method PushLabels(labels: map<string, string>, keys: seq<string>) returns (a: seq<string>)
    requires forall k :: k in keys ==> k in labels
    ensures a == LabelArgs(labels, keys)
  {
    a := [];
    var i := 0;
    while i < |keys|
      invariant 0 <= i <= |keys| && a == LabelArgs(labels, keys[..i])
    {
      assert keys[..i + 1][..i] == keys[..i];
      a := a + [FlagText(Label), Pair(keys[i], labels[keys[i]])];
      i := i + 1;
    }
    assert keys[..|keys|] == keys;
  }

  method PushMounts(mounts: seq<Mount>) returns (r: Result<seq<string>, Unsupported>)
    ensures r.Ok? <==> CleanMounts(mounts)
    ensures r.Ok? ==> r.value == MountArgs(mounts)
  {
    var a := [];
    var i := 0;
    while i < |mounts|
      invariant 0 <= i <= |mounts| && a == MountArgs(mounts[..i])
      invariant forall j :: 0 <= j < i ==> CleanMount(mounts[j])
    {
      assert mounts[..i + 1][..i] == mounts[..i];
      var m := MountArg(mounts[i]);
      if m.Err? { return Err(m.error); }
      a := a + [FlagText(MountFlag), m.value];
      i := i + 1;
    }
    assert mounts[..|mounts|] == mounts;
    return Ok(a);
  }

  method PushFixed(s: Spec) returns (a: seq<string>)
    ensures a == ["run"] + FixedFlags(s)
  {
    a := ["run", FlagText(Detach), FlagText(Name), s.name];
    ghost var flags := [FlagText(Detach), FlagText(Name), s.name];
    assert a == ["run"] + flags;
    if s.user.Some? {
      Associate(["run"], flags, OptionArgs(User, s.user));
      a := a + [FlagText(User), s.user.value];
    }
    flags := flags + OptionArgs(User, s.user);
    assert a == ["run"] + flags;
    if s.workdir.Some? {
      Associate(["run"], flags, OptionArgs(Workdir, s.workdir));
      a := a + [FlagText(Workdir), s.workdir.value];
    }
  }

  /** `run_args`; `order` is the iteration order the label map happens to have. */
  method RunArgs(s: Spec, order: seq<string>) returns (r: Result<seq<string>, Unsupported>)
    requires Enumerates(order, s.labels)
    ensures r.Ok? <==> CleanMounts(s.mounts)
    ensures (forall k :: k in SortKeys(order) ==> k in s.labels) && (r.Ok? ==> r.value == Argv(s, SortKeys(order)))
  {
    var keys := CollectLabels(order);
    var a := PushFixed(s);
    var more := PushLabels(s.labels, keys);
    Associate(["run"], FixedFlags(s), more);
    a := a + more;
    more := PushPairs(Env, '=', s.env);
    Associate(["run"], LabelFlags(s, keys), more);
    a := a + more;
    more := PushPairs(AddHost, ':', s.hosts);
    Associate(["run"], EnvFlags(s, keys), more);
    a := a + more;
    var mounts := PushMounts(s.mounts);
    if mounts.Err? { return Err(mounts.error); }
    Associate(["run"], HostFlags(s, keys), mounts.value);
    a := a + mounts.value;
    Associate(["run"], AllFlags(s, keys), [s.image] + s.entrypoint);
    a := a + ([s.image] + s.entrypoint);
    return Ok(a);
  }

  // ----- reading the argv back -----

  function FlagOf(arg: string): Option<Flag> {
    if arg == "--detach" then Some(Detach)
    else if arg == "--name" then Some(Name)
    else if arg == "--user" then Some(User)
    else if arg == "--workdir" then Some(Workdir)
    else if arg == "--label" then Some(Label)
    else if arg == "--env" then Some(Env)
    else if arg == "--add-host" then Some(AddHost)
    else if arg == "--mount" then Some(MountFlag)
    else None
  }

  const START: Spec := Spec("", None, None, map[], [], [], [], "", [])

  /** What one flag with its value adds, or nothing when the value cannot be read. */
  function Absorb(acc: Spec, f: Flag, v: string): Option<Spec> {
    match f
    case Detach => None
    case Name => Some(acc.(name := v))
    case User => Some(acc.(user := Some(v)))
    case Workdir => Some(acc.(workdir := Some(v)))
    case Label => (match Cut(v, '=') case Some((k, w)) => Some(acc.(labels := acc.labels[k := w])) case None => None)
    case Env => (match Cut(v, '=') case Some(p) => Some(acc.(env := acc.env + [p])) case None => None)
    case AddHost => (match Cut(v, ':') case Some(p) => Some(acc.(hosts := acc.hosts + [p])) case None => None)
    case MountFlag => (match ReadMount(v) case Some(m) => Some(acc.(mounts := acc.mounts + [m])) case None => None)
  }

  /** Flags left to right; the first argument that is no flag is the image, the rest the entrypoint. */
  function ReadFlags(args: seq<string>, acc: Spec): Option<Spec> {
    if args == [] then None
    else match FlagOf(args[0])
      case None => Some(acc.(image := args[0], entrypoint := args[1..]))
      case Some(Detach) => ReadFlags(args[1..], acc)
      case Some(f) =>
        if |args| < 2 then None
        else match Absorb(acc, f, args[1])
          case Some(next) => ReadFlags(args[2..], next)
          case None => None
  }

  function ReadRun(argv: seq<string>): Option<Spec> {
    if argv == [] || argv[0] != "run" then None else ReadFlags(argv[1..], START)
  }

  // ----- when the argv can be read back -----

  predicate KeysFree(pairs: seq<(string, string)>, sep: char) {
    forall i :: 0 <= i < |pairs| ==> sep !in pairs[i].0
  }

  predicate LabelsFree(labels: map<string, string>) {
    forall k :: k in labels ==> '=' !in k
  }

  /** Keys that do not contain their separator, and an image that is not itself a flag. */
  predicate Readable(s: Spec) {
    LabelsFree(s.labels) && KeysFree(s.env, '=') && KeysFree(s.hosts, ':') && FlagOf(s.image).None?
  }

  /** The reader after `chunk` has gone from `acc` to `next`, whatever follows. */
  ghost predicate Consumes(chunk: seq<string>, acc: Spec, next: Spec) {
    forall rest: seq<string> :: ReadFlags(chunk + rest, acc) == ReadFlags(rest, next)
  }

  lemma ConsumesOne(f: Flag, v: string, acc: Spec, next: Spec)
    requires f != Detach && Absorb(acc, f, v) == Some(next)
    ensures Consumes([FlagText(f), v], acc, next)
  {
  }

  lemma ConsumesNothing(acc: Spec)
    ensures Consumes([], acc, acc)
  {
    forall rest: seq<string> ensures ReadFlags([] + rest, acc) == ReadFlags(rest, acc) {
      assert [] + rest == rest;
    }
  }

  lemma ConsumesThen(a: seq<string>, b: seq<string>, s0: Spec, s1: Spec, s2: Spec)
    requires Consumes(a, s0, s1) && Consumes(b, s1, s2)
    ensures Consumes(a + b, s0, s2)
  {
    forall rest: seq<string> ensures ReadFlags((a + b) + rest, s0) == ReadFlags(rest, s2) {
      assert (a + b) + rest == a + (b + rest);
      assert ReadFlags(a + (b + rest), s0) == ReadFlags(b + rest, s1);
    }
  }

  lemma ConsumesFixed(s: Spec)
    ensures Consumes(FixedFlags(s), START, START.(name := s.name, user := s.user, workdir := s.workdir))
  {
    var s1 := START.(name := s.name);
    var s2 := s1.(user := s.user);
    var start := [FlagText(Detach), FlagText(Name), s.name];
    forall rest: seq<string> ensures ReadFlags(start + rest, START) == ReadFlags(rest, s1) {
      assert start + rest == [FlagText(Detach)] + ([FlagText(Name), s.name] + rest);
    }
    ConsumesOption(User, s.user, s1, s2);
    ConsumesThen(start, OptionArgs(User, s.user), START, s1, s2);
    ConsumesOption(Workdir, s.workdir, s2, s2.(workdir := s.workdir));
    ConsumesThen(start + OptionArgs(User, s.user),
      OptionArgs(Workdir, s.workdir), START, s2, s2.(workdir := s.workdir));
  }

  lemma ConsumesOption(f: Flag, v: Option<string>, acc: Spec, next: Spec)
    requires f != Detach
    requires match v case Some(w) => Absorb(acc, f, w) == Some(next) case None => next == acc
    ensures Consumes(OptionArgs(f, v), acc, next)
  {
    match v
    case Some(w) => ConsumesOne(f, w, acc, next);
    case None => ConsumesNothing(acc);
  }

  function LabelsOf(labels: map<string, string>, keys: seq<string>): map<string, string>
    requires forall k :: k in keys ==> k in labels
  {
    map k | k in keys :: labels[k]
  }

  lemma {:induction false} ConsumesLabels(labels: map<string, string>, keys: seq<string>, acc: Spec)
    requires (forall k :: k in keys ==> k in labels) && LabelsFree(labels) && acc.labels == map[]
    ensures Consumes(LabelArgs(labels, keys), acc, acc.(labels := LabelsOf(labels, keys)))
  {
    if keys == [] {
      ConsumesNothing(acc);
      assert LabelsOf(labels, keys) == map[];
    } else {
      var front, k := keys[..|keys| - 1], keys[|keys| - 1];
      var mid, next := acc.(labels := LabelsOf(labels, front)), acc.(labels := LabelsOf(labels, keys));
      ConsumesLabels(labels, front, acc);
      assert Pair(k, labels[k]) == k + ['='] + labels[k];
      CutPair(k, labels[k], '=');
      assert LabelsOf(labels, front)[k := labels[k]] == LabelsOf(labels, keys);
      ConsumesOne(Label, Pair(k, labels[k]), mid, next);
      ConsumesThen(LabelArgs(labels, front), [FlagText(Label), Pair(k, labels[k])], acc, mid, next);
    }
  }

  lemma {:induction false} ConsumesEnv(env: seq<(string, string)>, acc: Spec)
    requires KeysFree(env, '=') && acc.env == []
    ensures Consumes(PairArgs(Env, '=', env), acc, acc.(env := env))
  {
    if env == [] {
      ConsumesNothing(acc);
    } else {
      var front, p := env[..|env| - 1], env[|env| - 1];
      var mid, next := acc.(env := front), acc.(env := env);
      ConsumesEnv(front, acc);
      CutPair(p.0, p.1, '=');
      assert front + [p] == env;
      ConsumesOne(Env, p.0 + ['='] + p.1, mid, next);
      ConsumesThen(PairArgs(Env, '=', front), [FlagText(Env), p.0 + ['='] + p.1], acc, mid, next);
    }
  }

  lemma {:induction false} ConsumesHosts(hosts: seq<(string, string)>, acc: Spec)
    requires KeysFree(hosts, ':') && acc.hosts == []
    ensures Consumes(PairArgs(AddHost, ':', hosts), acc, acc.(hosts := hosts))
  {
    if hosts == [] {
      ConsumesNothing(acc);
    } else {
      var front, p := hosts[..|hosts| - 1], hosts[|hosts| - 1];
      var mid, next := acc.(hosts := front), acc.(hosts := hosts);
      ConsumesHosts(front, acc);
      CutPair(p.0, p.1, ':');
      assert front + [p] == hosts;
      ConsumesOne(AddHost, p.0 + [':'] + p.1, mid, next);
      ConsumesThen(PairArgs(AddHost, ':', front), [FlagText(AddHost), p.0 + [':'] + p.1], acc, mid, next);
    }
  }

  lemma {:induction false} ConsumesMounts(mounts: seq<Mount>, acc: Spec)
    requires CleanMounts(mounts) && acc.mounts == []
    ensures Consumes(MountArgs(mounts), acc, acc.(mounts := mounts))
  {
    if mounts == [] {
      ConsumesNothing(acc);
    } else {
      var front, m := mounts[..|mounts| - 1], mounts[|mounts| - 1];
      var mid, next := acc.(mounts := front), acc.(mounts := mounts);
      ConsumesMounts(front, acc);
      MountRoundTrip(m);
      assert front + [m] == mounts;
      ConsumesOne(MountFlag, MountText(m), mid, next);
      ConsumesThen(MountArgs(front), [FlagText(MountFlag), MountText(m)], acc, mid, next);
    }
  }

  lemma ConsumesAll(s: Spec, keys: seq<string>)
    requires KeySet(keys) == s.labels.Keys && (forall k :: k in keys ==> k in s.labels)
    requires LabelsFree(s.labels) && KeysFree(s.env, '=') && KeysFree(s.hosts, ':') && CleanMounts(s.mounts)
    ensures Consumes(AllFlags(s, keys), START, s.(image := "", entrypoint := []))
  {
    var s1 := START.(name := s.name, user := s.user, workdir := s.workdir);
    var s2 := s1.(labels := s.labels);
    var s3 := s2.(env := s.env);
    var s4 := s3.(hosts := s.hosts);
    var s5 := s4.(mounts := s.mounts);
    ConsumesFixed(s);
    ConsumesLabels(s.labels, keys, s1);
    assert LabelsOf(s.labels, keys) == s.labels by {
      assert forall k :: k in keys <==> k in KeySet(keys);
    }
    ConsumesThen(FixedFlags(s), LabelArgs(s.labels, keys), START, s1, s2);
    ConsumesEnv(s.env, s2);
    ConsumesThen(LabelFlags(s, keys), PairArgs(Env, '=', s.env), START, s2, s3);
    ConsumesHosts(s.hosts, s3);
    ConsumesThen(EnvFlags(s, keys), PairArgs(AddHost, ':', s.hosts), START, s3, s4);
    ConsumesMounts(s.mounts, s4);
    ConsumesThen(HostFlags(s, keys), MountArgs(s.mounts), START, s4, s5);
  }

  /** Whatever the reader returns is itself readable. */
  lemma {:induction false} ReaderReadable(args: seq<string>, acc: Spec)
    requires ReadFlags(args, acc).Some?
    requires LabelsFree(acc.labels) && KeysFree(acc.env, '=') && KeysFree(acc.hosts, ':')
    ensures Readable(ReadFlags(args, acc).value)
    decreases |args|
  {
    var f := FlagOf(args[0]);
    if f == Some(Detach) {
      ReaderReadable(args[1..], acc);
    } else if f.Some? {
      ReaderReadable(args[2..], Absorb(acc, f.value, args[1]).value);
    }
  }

  /**
   For a spec with clean mounts, the argv is read back to the same spec exactly when the
   spec is readable.
   */
  lemma RunRoundTrip(s: Spec, order: seq<string>)
    requires Enumerates(order, s.labels) && CleanMounts(s.mounts)
    ensures forall k :: k in SortKeys(order) ==> k in s.labels
    ensures ReadRun(Argv(s, SortKeys(order))) == Some(s) <==> Readable(s)
  {
    var keys := SortKeys(order);
    var tail := [s.image] + s.entrypoint;
    assert Argv(s, keys)[1..] == AllFlags(s, keys) + tail;
    if Readable(s) {
      ConsumesAll(s, keys);
      assert ReadFlags(AllFlags(s, keys) + tail, START) == ReadFlags(tail, s.(image := "", entrypoint := []));
      assert tail[1..] == s.entrypoint;
    }
    if ReadRun(Argv(s, keys)) == Some(s) {
      ReaderReadable(Argv(s, keys)[1..], START);
    }
  }

  /** An equals sign in a label key is read as the end of the key. */
  lemma LabelKeyCut()
    ensures var s := START.(name := "n", labels := map["a=b" := "c"], image := "i");
            !Readable(s) && ReadRun(Argv(s, SortKeys(["a=b"]))) != Some(s)
  {
    var s := START.(name := "n", labels := map["a=b" := "c"], image := "i");
    assert "a=b"[1] == '=' && "a=b" in s.labels;
    assert KeySet(["a=b"]) == s.labels.Keys;
    RunRoundTrip(s, ["a=b"]);
  }

  // ----- the order of the flags -----

  /** The flags of an argument list that holds nothing else, each with its value; `--detach` has none. */
  function ScanFlags(args: seq<string>): Option<seq<(Flag, string)>> {
    if args == [] then Some([])
    else match FlagOf(args[0])
      case None => None
      case Some(Detach) =>
        (match ScanFlags(args[1..]) case Some(rest) => Some([(Detach, "")] + rest) case None => None)
      case Some(f) =>
        if |args| < 2 then None
        else match ScanFlags(args[2..]) case Some(rest) => Some([(f, args[1])] + rest) case None => None
  }

  /** The values of one flag, in order. */
  function Values(opts: seq<(Flag, string)>, f: Flag): seq<string> {
    if opts == [] then [] else if opts[0].0 == f then [opts[0].1] + Values(opts[1..], f) else Values(opts[1..], f)
  }

  /** The place of a flag's group. */
  function Place(f: Flag): nat {
    match f
    case Detach => 0
    case Name => 1
    case User => 2
    case Workdir => 3
    case Label => 4
    case Env => 5
    case AddHost => 6
    case MountFlag => 7
  }

  predicate Ascending(opts: seq<(Flag, string)>) {
    forall i, j :: 0 <= i < j < |opts| ==> Place(opts[i].0) <= Place(opts[j].0)
  }

  function Block(f: Flag, values: seq<string>): seq<(Flag, string)> {
    seq(|values|, i requires 0 <= i < |values| => (f, values[i]))
  }

  lemma {:induction false} ValuesAppend(a: seq<(Flag, string)>, b: seq<(Flag, string)>, f: Flag)
    ensures Values(a + b, f) == Values(a, f) + Values(b, f)
  {
    if a == [] {
      assert a + b == b;
    } else {
      assert (a + b)[1..] == a[1..] + b;
      ValuesAppend(a[1..], b, f);
      if a[0].0 == f { Associate([a[0].1], Values(a[1..], f), Values(b, f)); }
    }
  }

  lemma {:induction false} ValuesBlock(f: Flag, values: seq<string>, g: Flag)
    ensures Values(Block(f, values), g) == if f == g then values else []
  {
    if values == [] {
    } else {
      assert Block(f, values)[1..] == Block(f, values[1..]);
      ValuesBlock(f, values[1..], g);
      assert values == [values[0]] + values[1..];
    }
  }

  lemma {:induction false} ScanAppend(a: seq<string>, b: seq<string>)
    requires ScanFlags(a).Some? && ScanFlags(b).Some?
    ensures ScanFlags(a + b) == Some(ScanFlags(a).value + ScanFlags(b).value)
    decreases |a|
  {
    if a == [] {
      assert a + b == b;
      assert [] + ScanFlags(b).value == ScanFlags(b).value;
    } else {
      var n := if FlagOf(a[0]) == Some(Detach) then 1 else 2;
      var head := (FlagOf(a[0]).value, if n == 1 then "" else a[1]);
      assert (a + b)[n..] == a[n..] + b && (a + b)[0] == a[0] && (n == 2 ==> (a + b)[1] == a[1]);
      ScanAppend(a[n..], b);
      Associate([head], ScanFlags(a[n..]).value, ScanFlags(b).value);
    }
  }

  lemma ScanOne(f: Flag, v: string)
    requires f != Detach
    ensures ScanFlags([FlagText(f), v]) == Some([(f, v)])
  {
    var args := [FlagText(f), v];
    assert FlagOf(args[0]) == Some(f) && args[2..] == [];
    assert [(f, v)] + [] == [(f, v)];
  }

  lemma ScanSnoc(a: seq<string>, f: Flag, values: seq<string>, v: string)
    requires f != Detach && ScanFlags(a) == Some(Block(f, values))
    ensures ScanFlags(a + [FlagText(f), v]) == Some(Block(f, values + [v]))
  {
    ScanOne(f, v);
    ScanAppend(a, [FlagText(f), v]);
    assert Block(f, values + [v]) == Block(f, values) + [(f, v)];
  }

  function Joined(pairs: seq<(string, string)>, sep: string): seq<string> {
    seq(|pairs|, i requires 0 <= i < |pairs| => pairs[i].0 + sep + pairs[i].1)
  }

  lemma {:induction false} ScanPairs(f: Flag, sep: char, pairs: seq<(string, string)>)
    requires f != Detach
    ensures ScanFlags(PairArgs(f, sep, pairs)) == Some(Block(f, Joined(pairs, [sep])))
  {
    if pairs == [] {
      assert Block(f, Joined(pairs, [sep])) == [];
    } else {
      var front, p := pairs[..|pairs| - 1], pairs[|pairs| - 1];
      ScanPairs(f, sep, front);
      ScanSnoc(PairArgs(f, sep, front), f, Joined(front, [sep]), p.0 + [sep] + p.1);
      assert Joined(pairs, [sep]) == Joined(front, [sep]) + [p.0 + [sep] + p.1];
    }
  }

  /** The labels as pairs, key by key. */
  function PairsOf(labels: map<string, string>, keys: seq<string>): seq<(string, string)>
    requires forall k :: k in keys ==> k in labels
  {
    seq(|keys|, i requires 0 <= i < |keys| => (keys[i], labels[keys[i]]))
  }

  lemma {:induction false} LabelsArePairs(labels: map<string, string>, keys: seq<string>)
    requires forall k :: k in keys ==> k in labels
    ensures LabelArgs(labels, keys) == PairArgs(Label, '=', PairsOf(labels, keys))
  {
    if keys == [] {
    } else {
      var front := keys[..|keys| - 1];
      LabelsArePairs(labels, front);
      assert PairsOf(labels, keys)[..|keys| - 1] == PairsOf(labels, front);
    }
  }

  function MountTexts(mounts: seq<Mount>): seq<string> {
    seq(|mounts|, i requires 0 <= i < |mounts| => MountText(mounts[i]))
  }

  lemma {:induction false} ScanMounts(mounts: seq<Mount>)
    ensures ScanFlags(MountArgs(mounts)) == Some(Block(MountFlag, MountTexts(mounts)))
  {
    if mounts == [] {
      assert Block(MountFlag, MountTexts(mounts)) == [];
    } else {
      var front, m := mounts[..|mounts| - 1], mounts[|mounts| - 1];
      ScanMounts(front);
      ScanSnoc(MountArgs(front), MountFlag, MountTexts(front), MountText(m));
      assert MountTexts(mounts) == MountTexts(front) + [MountText(m)];
    }
  }

  function ListOf(v: Option<string>): seq<string> { match v case Some(s) => [s] case None => [] }

  lemma ScanOption(f: Flag, v: Option<string>)
    requires f != Detach
    ensures ScanFlags(OptionArgs(f, v)) == Some(Block(f, ListOf(v)))
  {
    match v
    case Some(s) =>
      ScanOne(f, s);
      assert Block(f, ListOf(v)) == [(f, s)];
    case None => assert Block(f, ListOf(v)) == [];
  }

  /** What a spec asks of each flag: always detached, always named. */
  function Wanted(s: Spec, keys: seq<string>, f: Flag): seq<string>
    requires forall k :: k in keys ==> k in s.labels
  {
    match f
    case Detach => [""]
    case Name => [s.name]
    case User => ListOf(s.user)
    case Workdir => ListOf(s.workdir)
    case Label => Joined(PairsOf(s.labels, keys), "=")
    case Env => Joined(s.env, "=")
    case AddHost => Joined(s.hosts, ":")
    case MountFlag => MountTexts(s.mounts)
  }

  /** `args` scans to the flags up to the group of `last`, in order, each as wanted. */
  ghost predicate UpTo(args: seq<string>, opts: seq<(Flag, string)>, s: Spec, keys: seq<string>, last: Flag)
    requires forall k :: k in keys ==> k in s.labels
  {
    && ScanFlags(args) == Some(opts) && Ascending(opts)
    && (forall i :: 0 <= i < |opts| ==> Place(opts[i].0) <= Place(last))
    && forall f :: Values(opts, f) == if Place(f) <= Place(last) then Wanted(s, keys, f) else []
  }

  lemma GroupValues(opts: seq<(Flag, string)>, f: Flag, values: seq<string>, g: Flag)
    requires Values(opts, f) == []
    ensures Values(opts + Block(f, values), g) == if g == f then values else Values(opts, g)
  {
    ValuesAppend(opts, Block(f, values), g);
    ValuesBlock(f, values, g);
    assert Values(opts, g) + [] == Values(opts, g) && [] + values == values;
  }

  lemma GroupAscends(opts: seq<(Flag, string)>, f: Flag, values: seq<string>)
    requires Ascending(opts) && forall i :: 0 <= i < |opts| ==> Place(opts[i].0) <= Place(f)
    ensures Ascending(opts + Block(f, values))
    ensures forall i :: 0 <= i < |opts + Block(f, values)| ==> Place((opts + Block(f, values))[i].0) <= Place(f)
  {
  }

  /** The next group of flags. */
  lemma ScanGroup(a: seq<string>, opts: seq<(Flag, string)>, s: Spec, keys: seq<string>, last: Flag, b: seq<string>,
      f: Flag)
    requires forall k :: k in keys ==> k in s.labels
    requires UpTo(a, opts, s, keys, last) && Place(f) == Place(last) + 1
    requires ScanFlags(b) == Some(Block(f, Wanted(s, keys, f)))
    ensures UpTo(a + b, opts + Block(f, Wanted(s, keys, f)), s, keys, f)
  {
    var values := Wanted(s, keys, f);
    ScanAppend(a, b);
    GroupAscends(opts, f, values);
    forall g ensures Values(opts + Block(f, values), g) == if Place(g) <= Place(f) then Wanted(s, keys, g) else [] {
      GroupValues(opts, f, values, g);
    }
  }

  lemma ScanStart(s: Spec, keys: seq<string>)
    requires forall k :: k in keys ==> k in s.labels
    ensures UpTo([FlagText(Detach), FlagText(Name), s.name], [(Detach, ""), (Name, s.name)], s, keys, Name)
  {
    var args, opts := [FlagText(Detach), FlagText(Name), s.name], [(Detach, ""), (Name, s.name)];
    ScanOne(Name, s.name);
    assert args[1..] == [FlagText(Name), s.name] && [(Detach, "")] + [(Name, s.name)] == opts;
    assert opts[1..] == [(Name, s.name)] && opts[1..][1..] == [];
    forall f ensures Values(opts, f) == if Place(f) <= Place(Name) then Wanted(s, keys, f) else [] {
      assert Values(opts[1..], f) == if f == Name then [s.name] else [];
      assert [""] + [] == [""];
    }
  }

  lemma FixedScanned(s: Spec, keys: seq<string>) returns (opts: seq<(Flag, string)>)
    requires forall k :: k in keys ==> k in s.labels
    ensures UpTo(FixedFlags(s), opts, s, keys, Workdir)
  {
    var start, o := [FlagText(Detach), FlagText(Name), s.name], [(Detach, ""), (Name, s.name)];
    ScanStart(s, keys);
    ScanOption(User, s.user);
    ScanGroup(start, o, s, keys, Name, OptionArgs(User, s.user), User);
    ScanOption(Workdir, s.workdir);
    o := o + Block(User, ListOf(s.user));
    ScanGroup(start + OptionArgs(User, s.user), o, s, keys, User, OptionArgs(Workdir, s.workdir), Workdir);
    opts := o + Block(Workdir, ListOf(s.workdir));
  }

  lemma LabelsScanned(s: Spec, keys: seq<string>) returns (opts: seq<(Flag, string)>)
    requires forall k :: k in keys ==> k in s.labels
    ensures UpTo(LabelFlags(s, keys), opts, s, keys, Label)
  {
    opts := FixedScanned(s, keys);
    LabelsArePairs(s.labels, keys);
    ScanPairs(Label, '=', PairsOf(s.labels, keys));
    ScanGroup(FixedFlags(s), opts, s, keys, Workdir, LabelArgs(s.labels, keys), Label);
    opts := opts + Block(Label, Wanted(s, keys, Label));
  }

  lemma EnvScanned(s: Spec, keys: seq<string>) returns (opts: seq<(Flag, string)>)
    requires forall k :: k in keys ==> k in s.labels
    ensures UpTo(EnvFlags(s, keys), opts, s, keys, Env)
  {
    opts := LabelsScanned(s, keys);
    ScanPairs(Env, '=', s.env);
    ScanGroup(LabelFlags(s, keys), opts, s, keys, Label, PairArgs(Env, '=', s.env), Env);
    opts := opts + Block(Env, Wanted(s, keys, Env));
  }

  lemma AllScanned(s: Spec, keys: seq<string>) returns (opts: seq<(Flag, string)>)
    requires forall k :: k in keys ==> k in s.labels
    ensures UpTo(AllFlags(s, keys), opts, s, keys, MountFlag)
  {
    opts := EnvScanned(s, keys);
    ScanPairs(AddHost, ':', s.hosts);
    ScanGroup(EnvFlags(s, keys), opts, s, keys, Env, PairArgs(AddHost, ':', s.hosts), AddHost);
    opts := opts + Block(AddHost, Wanted(s, keys, AddHost));
    ScanMounts(s.mounts);
    ScanGroup(HostFlags(s, keys), opts, s, keys, AddHost, MountArgs(s.mounts), MountFlag);
    opts := opts + Block(MountFlag, Wanted(s, keys, MountFlag));
  }

  /** `run`, then flags that scan in order to what the spec wants of each, then the image and the entrypoint. */
  ghost predicate Ordered(argv: seq<string>, s: Spec, keys: seq<string>)
    requires forall k :: k in keys ==> k in s.labels
  {
    var n := |argv| - 1 - |s.entrypoint|;
    && n > 0 && argv[0] == "run" && argv[n..] == [s.image] + s.entrypoint
    && exists opts :: ScanFlags(argv[1..n]) == Some(opts) && Ascending(opts)
         && forall f :: Values(opts, f) == Wanted(s, keys, f)
  }

  lemma OrderedParts(flags: seq<string>, opts: seq<(Flag, string)>, s: Spec, keys: seq<string>)
    requires forall k :: k in keys ==> k in s.labels
    requires UpTo(flags, opts, s, keys, MountFlag)
    ensures Ordered(["run"] + (flags + ([s.image] + s.entrypoint)), s, keys)
  {
    var argv := ["run"] + (flags + ([s.image] + s.entrypoint));
    var n := |argv| - 1 - |s.entrypoint|;
    assert argv[n..] == [s.image] + s.entrypoint && argv[1..n] == flags;
    forall f ensures Values(opts, f) == Wanted(s, keys, f) {
      assert Place(f) <= Place(MountFlag);
    }
  }

  /**
   Every argv is `run`, then the flags in their fixed order, each as often as the spec asks for it and
   `--detach` exactly once, with the labels in key order; then the image and the entrypoint.
   */
  lemma RunInOrder(s: Spec, order: seq<string>)
    requires Enumerates(order, s.labels)
    ensures forall k :: k in SortKeys(order) ==> k in s.labels
    ensures Sorted(SortKeys(order)) && Ordered(Argv(s, SortKeys(order)), s, SortKeys(order))
  {
    var keys := SortKeys(order);
    assert forall k :: k in keys ==> k in KeySet(keys);
    SortKeysSorted(order);
    var opts := AllScanned(s, keys);
    OrderedParts(AllFlags(s, keys), opts, s, keys);
  }
}
