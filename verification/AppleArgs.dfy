/** The `container run` argument builder, and the reader that gives every argument back. */
module AppleArgs {
  import opened Base
  import opened Strings
  import opened Decimal

  datatype Mount =
    | Bind(source: string, target: string, readOnly: bool)
    | Volume(name: string, target: string, readOnly: bool)
    | Tmpfs(target: string, sizeBytes: nat)

  /** Which role holds which forbidden character. */
  datatype Unsupported = Unsupported(role: string, ch: char, path: string)

  const FORBIDDEN: seq<char> := [',', '=', '\n']

  predicate CleanPath(path: string) {
    forall i :: 0 <= i < |path| ==> path[i] != ',' && path[i] != '=' && path[i] != '\n'
  }

  /** `validate_mount_path`: reject the first forbidden character, in the order the source tries them. */
  method ValidateMountPath(role: string, path: string) returns (r: Result<(), Unsupported>)
    ensures r.Ok? <==> CleanPath(path)
    ensures r.Err? ==> r.error.role == role && r.error.path == path && r.error.ch in FORBIDDEN && r.error.ch in path
    ensures r.Err? && (r.error.ch == '=' || r.error.ch == '\n') ==> ',' !in path
    ensures r.Err? && r.error.ch == '\n' ==> '=' !in path
  {
    var i := 0;
    while i < |FORBIDDEN|
      invariant 0 <= i <= |FORBIDDEN|
      invariant forall j :: 0 <= j < i ==> FORBIDDEN[j] !in path
    {
      if FORBIDDEN[i] in path {
        assert i >= 1 ==> FORBIDDEN[0] !in path;
        assert i >= 2 ==> FORBIDDEN[1] !in path;
        return Err(Unsupported(role, FORBIDDEN[i], path));
      }
      i := i + 1;
    }
    assert FORBIDDEN[0] !in path && FORBIDDEN[1] !in path && FORBIDDEN[2] !in path;
    return Ok(());
  }

  function ReadOnlyFlag(readOnly: bool): string {
    if readOnly then ",readonly" else ""
  }

  /** The text of a mount whose paths are clean. */
  function MountText(m: Mount): string {
    match m
    case Bind(source, target, ro) => "type=bind,source=" + source + ",target=" + target + ReadOnlyFlag(ro)
    case Volume(name, target, ro) => "type=volume,source=" + name + ",target=" + target + ReadOnlyFlag(ro)
    case Tmpfs(target, size) =>
      "type=tmpfs,target=" + target + if size == 0 then "" else ",tmpfs-size=" + NatText(size)
  }

  predicate CleanMount(m: Mount) {
    match m
    case Bind(source, target, _) => CleanPath(source) && CleanPath(target)
    case Volume(name, target, _) => CleanPath(name) && CleanPath(target)
    case Tmpfs(target, _) => CleanPath(target)
  }

  /** The first path of a mount that is not clean, by the role it has. */
  predicate BadPath(m: Mount, role: string, path: string) {
    var source := match m case Bind(s, _, _) => Some(s) case Volume(n, _, _) => Some(n) case Tmpfs(_, _) => None;
    if source.Some? && !CleanPath(source.value) then role == "source" && path == source.value
    else role == "target" && path == m.target && !CleanPath(path)
  }

  /** `mount_arg` */
  method MountArg(m: Mount) returns (r: Result<string, Unsupported>)
    ensures r.Ok? <==> CleanMount(m)
    ensures r.Ok? ==> r.value == MountText(m)
    ensures r.Err? ==> r.error.ch in FORBIDDEN && r.error.ch in r.error.path
    ensures r.Err? ==> BadPath(m, r.error.role, r.error.path)
  {
    match m
    case Bind(source, target, ro) =>
      var v := ValidateMountPath("source", source);
      if v.Err? { return Err(v.error); }
      v := ValidateMountPath("target", target);
      if v.Err? { return Err(v.error); }
      var s := "type=bind,source=" + source + ",target=" + target;
      if ro { s := s + ",readonly"; }
      return Ok(s);
    case Volume(name, target, ro) =>
      var v := ValidateMountPath("source", name);
      if v.Err? { return Err(v.error); }
      v := ValidateMountPath("target", target);
      if v.Err? { return Err(v.error); }
      var s := "type=volume,source=" + name + ",target=" + target;
      if ro { s := s + ",readonly"; }
      return Ok(s);
    case Tmpfs(target, size) =>
      var v := ValidateMountPath("target", target);
      if v.Err? { return Err(v.error); }
      if size == 0 {
        return Ok("type=tmpfs,target=" + target);
      }
      return Ok("type=tmpfs,target=" + target + ",tmpfs-size=" + NatText(size));
  }

  // ----- reading a mount back -----

  datatype Options = Options(keys: map<string, string>, flags: set<string>)

  /** `key=value` options and bare flags, in any order. */
  function ReadOptions(parts: seq<string>): Options {
    if parts == [] then Options(map[], {})
    else
      var rest := ReadOptions(parts[1..]);
      match Cut(parts[0], '=')
      case Some((k, v)) => rest.(keys := rest.keys[k := v])
      case None => rest.(flags := rest.flags + {parts[0]})
  }

  /** The mount a `--mount` value describes. */
  function ReadMount(s: string): Option<Mount> {
    ReadMountParts(Split(s, ','))
  }

  function ReadMountParts(parts: seq<string>): Option<Mount> {
    MountOf(ReadOptions(parts))
  }

  function MountOf(o: Options): Option<Mount> {
    if "type" !in o.keys || "target" !in o.keys then None
    else if o.keys["type"] == "bind" && "source" in o.keys then
      Some(Bind(o.keys["source"], o.keys["target"], "readonly" in o.flags))
    else if o.keys["type"] == "volume" && "source" in o.keys then
      Some(Volume(o.keys["source"], o.keys["target"], "readonly" in o.flags))
    else if o.keys["type"] == "tmpfs" then
      if "tmpfs-size" !in o.keys then Some(Tmpfs(o.keys["target"], 0))
      else match ParseNat(o.keys["tmpfs-size"])
        case Some(n) => Some(Tmpfs(o.keys["target"], n))
        case None => None
    else None
  }

  function Pair(k: string, v: string): string {
    k + "=" + v
  }

  function ReadOnlyParts(readOnly: bool): seq<string> {
    if readOnly then ["readonly"] else []
  }

  /** The comma-separated pieces of a mount's text. */
  function MountParts(m: Mount): seq<string> {
    match m
    case Bind(source, target, ro) =>
        [Pair("type", "bind"), Pair("source", source), Pair("target", target)] + ReadOnlyParts(ro)
    case Volume(name, target, ro) =>
        [Pair("type", "volume"), Pair("source", name), Pair("target", target)] + ReadOnlyParts(ro)
    case Tmpfs(target, size) =>
      [Pair("type", "tmpfs"), Pair("target", target)] + if size == 0 then [] else [Pair("tmpfs-size", NatText(size))]
  }

  lemma Join2(a: string, b: string)
    ensures Join([a, b], ",") == a + "," + b
  {
    assert [a, b][1..] == [b];
  }

  /** A pair after a comma is its key text glued to its value. */
  lemma CommaPair(head: string, k: string, key: string, v: string)
    requires key == "," + k + "="
    ensures head + "," + Pair(k, v) == head + key + v
  {
  }

  lemma {:induction false} JoinSnoc(parts: seq<string>, last: string)
    requires parts != []
    ensures Join(parts + [last], ",") == Join(parts, ",") + "," + last
  {
    if |parts| == 1 {
      assert parts + [last] == [parts[0], last];
      Join2(parts[0], last);
    } else {
      JoinSnoc(parts[1..], last);
      assert (parts + [last])[1..] == parts[1..] + [last];
      AssociateFour(parts[0] + ",", Join(parts[1..], ","), ",", last);
    }
  }

  lemma SourceTargetText(kind: string, source: string, target: string, ro: bool)
    ensures Join([Pair("type", kind), Pair("source", source), Pair("target", target)] + ReadOnlyParts(ro), ",")
         == "type=" + kind + ",source=" + source + ",target=" + target + ReadOnlyFlag(ro)
  {
    var t, s, g := Pair("type", kind), Pair("source", source), Pair("target", target);
    Join2(t, s);
    CommaPair(t, "source", ",source=", source);
    assert t == "type=" + kind;
    JoinSnoc([t, s], g);
    assert [t, s] + [g] == [t, s, g];
    CommaPair(Join([t, s], ","), "target", ",target=", target);
    if ro {
      JoinSnoc([t, s, g], "readonly");
      ReadOnlyText(Join([t, s, g], ","));
    } else {
      assert [t, s, g] + [] == [t, s, g];
    }
  }

  lemma ReadOnlyText(head: string)
    ensures head + "," + "readonly" == head + ",readonly"
  {
    assert "," + "readonly" == ",readonly";
  }

  lemma TmpfsText(target: string, size: nat)
    ensures MountText(Tmpfs(target, size)) == Join(MountParts(Tmpfs(target, size)), ",")
  {
    var t, g := Pair("type", "tmpfs"), Pair("target", target);
    Join2(t, g);
    CommaPair(t, "target", ",target=", target);
    assert "type=tmpfs,target=" == t + ",target=";
    if size == 0 {
      assert [t, g] + [] == [t, g];
    } else {
      JoinSnoc([t, g], Pair("tmpfs-size", NatText(size)));
      CommaPair(Join([t, g], ","), "tmpfs-size", ",tmpfs-size=", NatText(size));
      Associate(Join([t, g], ","), ",tmpfs-size=", NatText(size));
    }
  }

  lemma MountTextJoins(m: Mount)
    ensures MountText(m) == Join(MountParts(m), ",")
  {
    match m
    case Bind(source, target, ro) =>
      SourceTargetText("bind", source, target, ro);
      assert "type=bind,source=" == "type=" + "bind" + ",source=";
    case Volume(name, target, ro) =>
      SourceTargetText("volume", name, target, ro);
      assert "type=volume,source=" == "type=" + "volume" + ",source=";
    case Tmpfs(target, size) => TmpfsText(target, size);
  }

  /** `key=value` read first wins over what follows only if nothing later repeats the key. */
  lemma ReadPair(k: string, v: string, rest: seq<string>)
    requires '=' !in k
    ensures ReadOptions([Pair(k, v)] + rest) == ReadOptions(rest).(keys := ReadOptions(rest).keys[k := v])
  {
    assert Pair(k, v) == k + ['='] + v;
    CutPair(k, v, '=');
    assert ([Pair(k, v)] + rest)[1..] == rest;
  }

  lemma ReadFlags(ro: bool)
    ensures ReadOptions(ReadOnlyParts(ro)) == Options(map[], if ro then {"readonly"} else {})
  {
    if ro {
      IndexOfNone("readonly", '=');
      assert ["readonly"][1..] == [];
    }
  }

  lemma ReadSourceTarget(kind: string, source: string, target: string, ro: bool)
    ensures ReadOptions([Pair("type", kind), Pair("source", source), Pair("target", target)] + ReadOnlyParts(ro)) ==
              Options(map["target" := target]["source" := source]["type" := kind], if ro then {"readonly"} else {})
  {
    var flags := ReadOnlyParts(ro);
    var t, s, g := Pair("type", kind), Pair("source", source), Pair("target", target);
    ReadFlags(ro);
    ReadPair("target", target, flags);
    ReadPair("source", source, [g] + flags);
    ReadPair("type", kind, [s] + ([g] + flags));
    assert [t, s, g] + flags == [t] + ([s] + ([g] + flags));
  }

  lemma ReadTmpfs(target: string, size: nat)
    ensures var extra := if size == 0 then [] else [Pair("tmpfs-size", NatText(size))];
            ReadOptions([Pair("type", "tmpfs"), Pair("target", target)] + extra) ==
              Options((if size == 0 then map[] else
                map["tmpfs-size" := NatText(size)])["target" := target]["type" := "tmpfs"], {})
  {
    var extra := if size == 0 then [] else [Pair("tmpfs-size", NatText(size))];
    var t, g := Pair("type", "tmpfs"), Pair("target", target);
    if size != 0 { ReadPair("tmpfs-size", NatText(size), []); }
    ReadPair("target", target, extra);
    ReadPair("type", "tmpfs", [g] + extra);
    assert [t, g] + extra == [t] + ([g] + extra);
  }

  lemma ReadTmpfsParts(target: string, size: nat)
    ensures ReadMountParts(MountParts(Tmpfs(target, size))) == Some(Tmpfs(target, size))
  {
    ReadTmpfs(target, size);
    NatRoundTrip(size);
  }

  /** What the options of a bind or volume mount say: kind, source, target and read-only flag. */
  function SourceView(o: Options): Option<(string, string, string, bool)> {
    if "type" in o.keys && "source" in o.keys && "target" in o.keys
    then Some((o.keys["type"], o.keys["source"], o.keys["target"], "readonly" in o.flags)) else None
  }

  lemma ReadSource(kind: string, source: string, target: string, ro: bool)
    ensures var parts := [Pair("type", kind), Pair("source", source), Pair("target", target)] + ReadOnlyParts(ro);
            SourceView(ReadOptions(parts)) == Some((kind, source, target, ro))
  {
    ReadSourceTarget(kind, source, target, ro);
  }

  lemma SourceMount(o: Options, kind: string, source: string, target: string, ro: bool)
    requires SourceView(o) == Some((kind, source, target, ro))
    ensures kind == "bind" ==> MountOf(o) == Some(Bind(source, target, ro))
    ensures kind == "volume" ==> MountOf(o) == Some(Volume(source, target, ro))
  {
  }

  lemma ReadSourceParts(m: Mount)
    requires !m.Tmpfs?
    ensures ReadMountParts(MountParts(m)) == Some(m)
  {
    var kind, source := if m.Bind? then "bind" else "volume", if m.Bind? then m.source else m.name;
    ReadSource(kind, source, m.target, m.readOnly);
    SourceMount(ReadOptions(MountParts(m)), kind, source, m.target, m.readOnly);
  }

  /** The reading of a mount's own pieces is the mount. */
  lemma ReadParts(m: Mount)
    ensures ReadMountParts(MountParts(m)) == Some(m)
  {
    if m.Tmpfs? { ReadTmpfsParts(m.target, m.sizeBytes); } else { ReadSourceParts(m); }
  }

  /** Any clean mount is read back from its text: kind, paths, read-only flag and size. */
  lemma MountRoundTrip(m: Mount)
    requires CleanMount(m)
    ensures ReadMount(MountText(m)) == Some(m)
  {
    MountTextJoins(m);
    PartsClean(m);
    SplitJoin(MountParts(m), ',');
    ReadParts(m);
  }

  lemma PartsClean(m: Mount)
    requires CleanMount(m)
    ensures forall i :: 0 <= i < |MountParts(m)| ==> ',' !in MountParts(m)[i]
  {
  }
}
