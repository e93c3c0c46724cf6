/** `Array.prototype.sort` with a comparator `(a, b) => key(a) - key(b)`, as
    the segment builders use it: a stable sort by an integer key (section
    23.1.3.30 of ECMA-262 requires stability), written as an insertion
    sort. */
module Sorting {

  predicate SortedBy<T>(s: seq<T>, key: T -> int) {
    forall i, j :: 0 <= i < j < |s| ==> key(s[i]) <= key(s[j])
  }

  /** `x` placed after every element whose key is not larger: the stable
      position. */
  function Insert<T>(x: T, s: seq<T>, key: T -> int): (r: seq<T>)
    ensures multiset(r) == multiset(s) + multiset{x}
    ensures |r| == |s| + 1
  {
    if s == [] then [x]
    else if key(x) < key(s[0]) then [x] + s
    else
      assert s == [s[0]] + s[1..];
      [s[0]] + Insert(x, s[1..], key)
  }

  lemma {:induction false} InsertSorted<T>(x: T, s: seq<T>, key: T -> int)
    requires SortedBy(s, key)
    ensures SortedBy(Insert(x, s, key), key)
  {
    if s != [] && key(s[0]) <= key(x) {
      var rest := Insert(x, s[1..], key);
      assert SortedBy(s[1..], key);
      InsertSorted(x, s[1..], key);
      forall i | 0 <= i < |rest| ensures key(s[0]) <= key(rest[i]) {
        assert rest[i] in multiset(rest);
        assert rest[i] == x || rest[i] in s[1..];
      }
    }
  }

  /** The elements in key order, equal keys in their original order. */
  function SortBy<T>(s: seq<T>, key: T -> int): (r: seq<T>)
    ensures multiset(r) == multiset(s)
    ensures SortedBy(r, key)
    ensures |r| == |s|
  {
    if s == [] then []
    else
      assert s == s[..|s| - 1] + [s[|s| - 1]];
      var init := SortBy(s[..|s| - 1], key);
      InsertSorted(s[|s| - 1], init, key);
      Insert(s[|s| - 1], init, key)
  }

  /** An element whose key is at least every key goes to the end. */
  lemma {:induction false} InsertLast<T>(x: T, s: seq<T>, key: T -> int)
    requires forall i :: 0 <= i < |s| ==> key(s[i]) <= key(x)
    ensures Insert(x, s, key) == s + [x]
  {
    if s != [] {
      InsertLast(x, s[1..], key);
      assert [s[0]] + (s[1..] + [x]) == s + [x];
    }
  }

  /** Sorting what is already in key order changes nothing. */
  lemma {:induction false} SortSorted<T>(s: seq<T>, key: T -> int)
    requires SortedBy(s, key)
    ensures SortBy(s, key) == s
  {
    if s != [] {
      SortedInit(s, key);
      SortSorted(s[..|s| - 1], key);
      InsertLast(s[|s| - 1], s[..|s| - 1], key);
      SortByLast(s, key);
      SplitLast(s);
    }
  }

  lemma SplitLast<T>(s: seq<T>)
    requires s != []
    ensures s[..|s| - 1] + [s[|s| - 1]] == s
  {
  }

  /** All but the last element of a sorted sequence are sorted and have
      keys no larger than the last one's. */
  lemma SortedInit<T>(s: seq<T>, key: T -> int)
    requires s != [] && SortedBy(s, key)
    ensures SortedBy(s[..|s| - 1], key)
    ensures forall i :: 0 <= i < |s| - 1 ==> key(s[i]) <= key(s[|s| - 1])
  {
    var init := s[..|s| - 1];
    forall i, j | 0 <= i < j < |init| ensures key(init[i]) <= key(init[j]) {
      assert init[i] == s[i] && init[j] == s[j];
    }
  }

  lemma SortByLast<T>(s: seq<T>, key: T -> int)
    requires s != []
    ensures SortBy(s, key) == Insert(s[|s| - 1], SortBy(s[..|s| - 1], key), key)
  {
  }

  /** `x` when its key is `k`, else nothing. */
  function KeyHead<T>(x: T, key: T -> int, k: int): (r: seq<T>)
    ensures |r| <= 1
  {
    if key(x) == k then [x] else []
  }

  /** The elements whose key is `k`, in order. */
  function WithKey<T>(s: seq<T>, key: T -> int, k: int): (r: seq<T>)
    ensures |r| <= |s|
  {
    if s == [] then [] else KeyHead(s[0], key, k) + WithKey(s[1..], key, k)
  }

  lemma {:induction false} WithKeyAppend<T>(a: seq<T>, b: seq<T>, key: T -> int, k: int)
    ensures WithKey(a + b, key, k) == WithKey(a, key, k) + WithKey(b, key, k)
  {
    if a == [] {
      assert a + b == b;
    } else {
      assert (a + b)[0] == a[0] && (a + b)[1..] == a[1..] + b;
      UnconsWithKey(a + b, key, k);
      UnconsWithKey(a, key, k);
      WithKeyAppend(a[1..], b, key, k);
      var h := KeyHead(a[0], key, k);
      assert h + (WithKey(a[1..], key, k) + WithKey(b, key, k)) == (h + WithKey(a[1..], key, k)) + WithKey(b, key, k);
    }
  }

  lemma UnconsWithKey<T>(s: seq<T>, key: T -> int, k: int)
    requires s != []
    ensures WithKey(s, key, k) == KeyHead(s[0], key, k) + WithKey(s[1..], key, k)
  {
  }

  lemma WithKeyOne<T>(x: T, key: T -> int, k: int)
    ensures WithKey([x], key, k) == KeyHead(x, key, k)
  {
    assert [x][1..] == [];
    assert WithKey([x], key, k) == KeyHead(x, key, k) + [];
  }

  lemma {:induction false} WithKeyNone<T>(s: seq<T>, key: T -> int, k: int)
    requires forall i :: 0 <= i < |s| ==> key(s[i]) > k
    ensures WithKey(s, key, k) == []
  {
    if s != [] {
      assert forall i :: 0 <= i < |s[1..]| ==> s[1..][i] == s[i + 1];
      WithKeyNone(s[1..], key, k);
    }
  }

  /** Inserting into a sorted sequence puts `x` after every element of
      the same key. */
  lemma {:induction false} InsertWithKey<T>(x: T, s: seq<T>, key: T -> int, k: int)
    requires SortedBy(s, key)
    ensures WithKey(Insert(x, s, key), key, k) == WithKey(s, key, k) + KeyHead(x, key, k)
  {
    if s == [] {
      WithKeyOne(x, key, k);
    } else if key(x) < key(s[0]) {
      assert Insert(x, s, key) == [x] + s;
      InsertFrontWithKey(x, s, key, k);
    } else {
      assert SortedBy(s[1..], key);
      InsertWithKey(x, s[1..], key, k);
      assert Insert(x, s, key) == [s[0]] + Insert(x, s[1..], key);
      assert s == [s[0]] + s[1..];
      ConsWithKey(s[0], Insert(x, s[1..], key), s[1..], KeyHead(x, key, k), key, k);
    }
  }

  /** `x` in front of a sorted sequence whose keys all exceed its own. */
  lemma InsertFrontWithKey<T>(x: T, s: seq<T>, key: T -> int, k: int)
    requires SortedBy(s, key) && s != [] && key(x) < key(s[0])
    ensures WithKey([x] + s, key, k) == WithKey(s, key, k) + KeyHead(x, key, k)
  {
    WithKeyAppend([x], s, key, k);
    WithKeyOne(x, key, k);
    if key(x) == k {
      WithKeyNone(s, key, k);
    }
  }

  /** Putting the same element in front of two sequences keeps a relation
      between their filtered forms. */
  lemma ConsWithKey<T>(y: T, a: seq<T>, b: seq<T>, tail: seq<T>, key: T -> int, k: int)
    requires WithKey(a, key, k) == WithKey(b, key, k) + tail
    ensures WithKey([y] + a, key, k) == WithKey([y] + b, key, k) + tail
  {
    assert ([y] + a)[0] == y && ([y] + a)[1..] == a;
    assert ([y] + b)[0] == y && ([y] + b)[1..] == b;
    var h := KeyHead(y, key, k);
    assert WithKey([y] + a, key, k) == h + (WithKey(b, key, k) + tail);
    assert h + (WithKey(b, key, k) + tail) == (h + WithKey(b, key, k)) + tail;
  }

  /** `SortBy` is stable: the elements of any one key come out in the order
      they went in. */
  lemma {:induction false} SortByStable<T>(s: seq<T>, key: T -> int, k: int)
    ensures WithKey(SortBy(s, key), key, k) == WithKey(s, key, k)
  {
    if s != [] {
      SortByLast(s, key);
      SortByStable(s[..|s| - 1], key, k);
      InsertWithKey(s[|s| - 1], SortBy(s[..|s| - 1], key), key, k);
      SnocWithKey(s, key, k);
    }
  }

  /** The last element's contribution comes last. */
  lemma SnocWithKey<T>(s: seq<T>, key: T -> int, k: int)
    requires s != []
    ensures WithKey(s, key, k) == WithKey(s[..|s| - 1], key, k) + KeyHead(s[|s| - 1], key, k)
  {
    WithKeyAppend(s[..|s| - 1], [s[|s| - 1]], key, k);
    WithKeyOne(s[|s| - 1], key, k);
    assert s[..|s| - 1] + [s[|s| - 1]] == s;
  }
}
