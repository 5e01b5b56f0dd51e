/** JSON values as serde_json holds them: objects keep their insertion order. */
module Json {
  import opened Base

  datatype Json =
    | JNull
    | JBool(b: bool)
    | JInt(n: int)
    | JFloat(text: string)
    | JStr(s: string)
    | JArr(items: seq<Json>)
    | JObj(fields: seq<Member>)

  datatype Member = Member(key: string, value: Json)

  const U16_END: nat := 0x1_0000

  function Lookup(fields: seq<Member>, key: string): Option<Json> {
    if fields == [] then None
    else if fields[0].key == key then Some(fields[0].value)
    else Lookup(fields[1..], key)
  }

  /** `Value::get` with a string index: absent on anything but an object. */
  function Get(v: Json, key: string): Option<Json> {
    if v.JObj? then Lookup(v.fields, key) else None
  }

  function AsStr(v: Json): Option<string> {
    if v.JStr? then Some(v.s) else None
  }

  function AsU64(v: Json): Option<nat> {
    if v.JInt? && 0 <= v.n < U64_END then Some(v.n) else None
  }

  function GetStr(v: Json, key: string): Option<string> {
    match Get(v, key) case Some(w) => AsStr(w) case None => None
  }

  /** `a.get(outer).and_then(|x| x.get(inner))` */
  function Get2(v: Json, outer: string, inner: string): Option<Json> {
    match Get(v, outer) case Some(w) => Get(w, inner) case None => None
  }

  function Get2Str(v: Json, outer: string, inner: string): Option<string> {
    match Get2(v, outer, inner) case Some(w) => AsStr(w) case None => None
  }

  // ----- members of an object, without the accessors -----

  /** The first member of `v` under `key` is `w`. */
  ghost predicate Has(v: Json, key: string, w: Json) {
    v.JObj? && exists i :: 0 <= i < |v.fields| && v.fields[i] == Member(key, w) && NotBefore(v.fields, i, key)
  }

  predicate NotBefore(fields: seq<Member>, i: nat, key: string)
    requires i <= |fields|
  {
    forall j :: 0 <= j < i ==> fields[j].key != key
  }

  predicate Lacks(v: Json, key: string) { v.JObj? ==> NotBefore(v.fields, |v.fields|, key) }

  /** No text under `key`: nothing there, or something else. */
  ghost predicate NoText(v: Json, key: string) { forall s :: !Has(v, key, JStr(s)) }

  lemma {:induction false} LookupExactly(fields: seq<Member>, key: string)
    ensures match Lookup(fields, key)
            case None => NotBefore(fields, |fields|, key)
            case Some(w) => exists i :: 0 <= i < |fields| && fields[i] == Member(key, w) && NotBefore(fields, i, key)
  {
    if fields == [] {
    } else if fields[0].key == key {
      assert fields[0] == Member(key, fields[0].value) && NotBefore(fields, 0, key);
    } else {
      LookupExactly(fields[1..], key);
      if w :| Lookup(fields[1..], key) == Some(w) {
        var i :| 0 <= i < |fields[1..]| && fields[1..][i] == Member(key, w) && NotBefore(fields[1..], i, key);
        assert forall j :: 1 <= j < i + 1 ==> fields[j] == fields[1..][j - 1];
        assert fields[i + 1] == Member(key, w) && NotBefore(fields, i + 1, key);
      }
    }
  }

  /** `Get` finds the first member under a key, and nothing exactly if there is none. */
  lemma GetExactly(v: Json, key: string)
    ensures forall w :: Get(v, key) == Some(w) <==> Has(v, key, w)
    ensures Get(v, key).None? <==> Lacks(v, key)
  {
    if v.JObj? {
      LookupExactly(v.fields, key);
    }
  }

  lemma GetStrExactly(v: Json, key: string)
    ensures forall s :: GetStr(v, key) == Some(s) <==> Has(v, key, JStr(s))
    ensures GetStr(v, key).None? <==> NoText(v, key)
  {
    GetExactly(v, key);
    forall s ensures GetStr(v, key) == Some(s) <==> Has(v, key, JStr(s)) {
      assert Get(v, key) == Some(JStr(s)) <==> Has(v, key, JStr(s));
    }
  }
}
