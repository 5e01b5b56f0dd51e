/** Small datatypes and sequence combinators shared by every component. */
module Base {
  datatype Option<+T> = None | Some(value: T)

  datatype Result<+T, +E> = Ok(value: T) | Err(error: E)

  /** The payloads `f` yields along `s`, in order: Rust's `filter_map`. */
  function FilterMap<A, B>(f: A -> Option<B>, s: seq<A>): seq<B> {
    if s == [] then []
    else match f(s[0]) case Some(b) => [b] + FilterMap(f, s[1..]) case None => FilterMap(f, s[1..])
  }

  function Filter<A>(p: A -> bool, s: seq<A>): seq<A> {
    if s == [] then [] else if p(s[0]) then [s[0]] + Filter(p, s[1..]) else Filter(p, s[1..])
  }

  /** The first payload `f` yields along `s`: Rust's `find_map`. */
  function FindMap<A, B>(f: A -> Option<B>, s: seq<A>): Option<B> {
    if s == [] then None
    else match f(s[0]) case Some(b) => Some(b) case None => FindMap(f, s[1..])
  }

  /** The last `k` elements of `s`, or all of them when there are fewer. */
  function Suffix<A>(s: seq<A>, k: nat): seq<A> {
    if |s| <= k then s else s[|s| - k..]
  }

  predicate NoDup<A(==)>(s: seq<A>) {
    forall i, j :: 0 <= i < j < |s| ==> s[i] != s[j]
  }

  /** One past the largest u64. */
  const U64_END: nat := 0x1_0000_0000_0000_0000

  lemma Associate<A>(a: seq<A>, b: seq<A>, c: seq<A>)
    ensures (a + b) + c == a + (b + c)
  {
  }

  lemma AssociateFour<A>(a: seq<A>, b: seq<A>, c: seq<A>, d: seq<A>)
    ensures (a + b + c) + d == a + (b + (c + d)) == a + (b + c + d)
  {
  }

  lemma FilterMapOne<A, B>(f: A -> Option<B>, x: A)
    ensures FilterMap(f, [x]) == match f(x) case Some(b) => [b] case None => []
  {
    assert [x][1..] == [];
  }

  lemma {:induction false} FilterMapSnoc<A, B>(f: A -> Option<B>, s: seq<A>, x: A)
    ensures FilterMap(f, s + [x]) == match f(x) case Some(b) => FilterMap(f, s) + [b] case None => FilterMap(f, s)
    decreases |s|
  {
    if s == [] {
      assert s + [x] == [x];
      FilterMapOne(f, x);
    } else {
      assert (s + [x])[1..] == s[1..] + [x];
      FilterMapSnoc(f, s[1..], x);
      if f(s[0]).Some? && f(x).Some? { Associate([f(s[0]).value], FilterMap(f, s[1..]), [f(x).value]); }
    }
  }

  lemma {:induction false} FilterMapAppend<A, B>(f: A -> Option<B>, s: seq<A>, t: seq<A>)
    ensures FilterMap(f, s + t) == FilterMap(f, s) + FilterMap(f, t)
    decreases |s|
  {
    if s == [] {
      assert s + t == t;
    } else {
      assert (s + t)[1..] == s[1..] + t;
      FilterMapAppend(f, s[1..], t);
      if f(s[0]).Some? { Associate([f(s[0]).value], FilterMap(f, s[1..]), FilterMap(f, t)); }
    }
  }

  lemma {:induction false} FilterAppend<A>(p: A -> bool, s: seq<A>, t: seq<A>)
    ensures Filter(p, s + t) == Filter(p, s) + Filter(p, t)
    decreases |s|
  {
    if s == [] {
      assert s + t == t;
    } else {
      assert (s + t)[1..] == s[1..] + t;
      FilterAppend(p, s[1..], t);
      if p(s[0]) { Associate([s[0]], Filter(p, s[1..]), Filter(p, t)); }
    }
  }

  lemma {:induction false} FindMapAppend<A, B>(f: A -> Option<B>, s: seq<A>, t: seq<A>)
    ensures FindMap(f, s + t) == if FindMap(f, s).Some? then FindMap(f, s) else FindMap(f, t)
    decreases |s|
  {
    if s == [] {
      assert s + t == t;
    } else {
      assert (s + t)[1..] == s[1..] + t;
      FindMapAppend(f, s[1..], t);
    }
  }
}
