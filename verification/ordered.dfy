/** Insertion-ordered collections: JavaScript `Set` and `Map` (and plain
    records whose keys are not array indices) iterate in insertion order, and
    the extension depends on that order in several places. */
module Ordered {
  import opened Wrappers

  predicate NoDup<T(==)>(s: seq<T>) {
    forall i, j :: 0 <= i < j < |s| ==> s[i] != s[j]
  }

  /** Concatenation is associative; stated apart so that proofs about
      filters need not re-derive it next to their own facts. */
  lemma ConcatAssoc<T>(x: seq<T>, y: seq<T>, z: seq<T>)
    ensures x + (y + z) == (x + y) + z
  {
  }

  /** `set.add(x)` on a set kept as its iteration order. */
  function SetAdd<T(==,!new)>(s: seq<T>, x: T): (r: seq<T>)
    ensures forall y :: y in r <==> y in s || y == x
    ensures NoDup(s) ==> NoDup(r)
    ensures x in s ==> r == s
    ensures x !in s ==> r == s + [x]
  {
    if x in s then s else s + [x]
  }

  /** Adds every element of `xs` in turn. */
  function SetAddAll<T(==,!new)>(s: seq<T>, xs: seq<T>): (r: seq<T>)
    ensures forall y :: y in r <==> y in s || y in xs
    ensures NoDup(s) ==> NoDup(r)
    ensures |r| >= |s| && r[..|s|] == s
    decreases |xs|
  {
    if xs == [] then s
    else
      var r := SetAddAll(SetAdd(s, xs[0]), xs[1..]);
      assert SetAdd(s, xs[0])[..|s|] == s;
      r
  }

  /** Adding elements one by one is adding the prefix and then the last. */
  lemma {:induction false} SetAddAllSnoc<T(!new)>(s: seq<T>, xs: seq<T>, x: T)
    ensures SetAddAll(s, xs + [x]) == SetAdd(SetAddAll(s, xs), x)
    decreases |xs|
  {
    if xs == [] {
      assert [] + [x] == [x];
    } else {
      assert (xs + [x])[1..] == xs[1..] + [x];
      SetAddAllSnoc(SetAdd(s, xs[0]), xs[1..], x);
    }
  }

  /** Adding elements that are all present already changes nothing. */
  lemma {:induction false} SetAddAllPresent<T(!new)>(s: seq<T>, xs: seq<T>)
    requires forall y :: y in xs ==> y in s
    ensures SetAddAll(s, xs) == s
    decreases |xs|
  {
    if xs != [] {
      assert xs[0] in xs;
      assert forall y :: y in xs[1..] ==> y in xs;
      SetAddAllPresent(s, xs[1..]);
    }
  }

  /** `SetAddAll` is idempotent. */
  lemma SetAddAllIdempotent<T(!new)>(s: seq<T>, xs: seq<T>)
    ensures SetAddAll(SetAddAll(s, xs), xs) == SetAddAll(s, xs)
  {
    SetAddAllPresent(SetAddAll(s, xs), xs);
  }

  /** Adding the elements of a duplicate-free sequence to a set that holds
      exactly those of them `keep` rejects appends the kept ones in order. */
  lemma {:induction false} SetAddAllSplit<T(!new)>(acc: seq<T>, xs: seq<T>, keep: T -> bool)
    requires NoDup(xs)
    requires forall x :: x in xs ==> (x in acc <==> !keep(x))
    ensures SetAddAll(acc, xs) == acc + Filter(xs, keep)
    decreases |xs|
  {
    if xs != [] {
      var acc1 := SetAdd(acc, xs[0]);
      TailOfNoDup(xs);
      forall x | x in xs[1..] ensures x in acc1 <==> !keep(x) {
        assert x in xs && x != xs[0];
      }
      SetAddAllSplit(acc1, xs[1..], keep);
      SplitStep(acc, xs, keep);
    }
  }

  /** One step of the split: adding the head to the set appends it exactly
      when `keep` accepts it, as the filter does. */
  lemma SplitStep<T(!new)>(acc: seq<T>, xs: seq<T>, keep: T -> bool)
    requires xs != [] && (xs[0] in acc <==> !keep(xs[0]))
    ensures SetAddAll(acc, xs) == SetAddAll(SetAdd(acc, xs[0]), xs[1..])
    ensures SetAdd(acc, xs[0]) + Filter(xs[1..], keep) == acc + Filter(xs, keep)
  {
    if keep(xs[0]) {
      assert acc + [xs[0]] + Filter(xs[1..], keep) == acc + ([xs[0]] + Filter(xs[1..], keep));
    }
  }

  /** The tail of a duplicate-free sequence is duplicate-free and misses
      the head. */
  lemma TailOfNoDup<T>(xs: seq<T>)
    requires xs != [] && NoDup(xs)
    ensures NoDup(xs[1..])
    ensures forall x :: x in xs[1..] ==> x in xs && x != xs[0]
  {
    forall x | x in xs[1..] ensures x in xs && x != xs[0] {
      var j :| 0 <= j < |xs[1..]| && xs[1..][j] == x;
      assert xs[j + 1] == x;
    }
    forall i, j | 0 <= i < j < |xs[1..]| ensures xs[1..][i] != xs[1..][j] {
      assert xs[1..][i] == xs[i + 1] && xs[1..][j] == xs[j + 1];
    }
  }

  function Filter<T(==,!new)>(s: seq<T>, keep: T -> bool): (r: seq<T>)
    ensures |r| <= |s|
    ensures forall y :: y in r <==> y in s && keep(y)
    ensures forall i :: 0 <= i < |r| ==> keep(r[i])
  {
    if s == [] then []
    else if keep(s[0]) then [s[0]] + Filter(s[1..], keep)
    else Filter(s[1..], keep)
  }

  lemma {:induction false} FilterNoDup<T(!new)>(s: seq<T>, keep: T -> bool)
    requires NoDup(s)
    ensures NoDup(Filter(s, keep))
  {
    if s != [] {
      FilterNoDup(s[1..], keep);
    }
  }

  /** A JavaScript `Map<string, V>` (or string-keyed record): the map itself
      and its keys in insertion order. */
  datatype Dict<V> = Dict(keys: seq<string>, m: map<string, V>) {

    ghost predicate Valid() {
      NoDup(keys) && forall k :: k in m <==> k in keys
    }

    function Get(k: string): (r: Option<V>)
      ensures r.Some? <==> k in m
      ensures r.Some? ==> r.value == m[k]
    {
      if k in m then Some(m[k]) else None
    }

    /** `map.set(k, v)`: a new key goes to the end, an existing key keeps its
        place. */
    function Put(k: string, v: V): (d: Dict<V>)
      ensures d.m == m[k := v]
      ensures k in keys ==> d.keys == keys
      ensures k !in keys ==> d.keys == keys + [k]
      ensures Valid() ==> d.Valid()
    {
      Dict(SetAdd(keys, k), m[k := v])
    }

    /** `map.delete(k)`. */
    function Remove(k: string): (d: Dict<V>)
      ensures d.m == m - {k}
      ensures forall j :: j in d.keys <==> j in keys && j != k
      ensures Valid() ==> d.Valid()
    {
      FilterNoDupIfValid(k);
      Dict(Filter(keys, (j: string) => j != k), m - {k})
    }

    lemma FilterNoDupIfValid(k: string)
      ensures NoDup(keys) ==> NoDup(Filter(keys, (j: string) => j != k))
    {
      if NoDup(keys) {
        FilterNoDup(keys, (j: string) => j != k);
      }
    }

    /** `map.values()` in iteration order. */
    function Values(): (vs: seq<V>)
      ensures |vs| <= |keys|
      ensures forall v :: v in vs ==> exists k :: k in m && m[k] == v
    {
      ValuesOf(keys, m)
    }
  }

  function ValuesOf<V>(ks: seq<string>, m: map<string, V>): (vs: seq<V>)
    ensures |vs| <= |ks|
    ensures forall v :: v in vs ==> exists k :: k in m && m[k] == v
  {
    if ks == [] then []
    else if ks[0] in m then [m[ks[0]]] + ValuesOf(ks[1..], m)
    else ValuesOf(ks[1..], m)
  }

  function EmptyDict<V>(): (d: Dict<V>)
    ensures d.Valid() && d.m == map[]
  {
    Dict([], map[])
  }
}
