/** `URLSearchParams` as the ordered list of name/value pairs it holds:
    construction from a record, `get`, `has`, `set` and `delete` (section
    6.2 of the WHATWG URL Standard). Serialisation with percent-encoding is
    not modelled. */
module SearchParams {
  import opened Wrappers

  type Params = seq<(string, string)>

  predicate Has(p: Params, k: string) {
    exists i :: 0 <= i < |p| && p[i].0 == k
  }

  /** How many pairs carry name `k`. */
  function Occurrences(p: Params, k: string): (n: nat)
    ensures n == 0 <==> !Has(p, k)
  {
    if p == [] then 0
    else
      assert forall i :: 1 <= i < |p| ==> p[i] == p[1..][i - 1];
      (if p[0].0 == k then 1 else 0) + Occurrences(p[1..], k)
  }

  /** `get`: the value of the first pair named `k`. */
  function Get(p: Params, k: string): (r: Option<string>)
    ensures r.Some? <==> Has(p, k)
    ensures r.Some? ==> exists i :: 0 <= i < |p| && p[i] == (k, r.value)
  {
    if p == [] then None
    else if p[0].0 == k then Some(p[0].1)
    else
      assert forall i :: 1 <= i < |p| ==> p[i] == p[1..][i - 1];
      Get(p[1..], k)
  }

  /** `delete`: every pair named `k` goes, the others keep their order. */
  function Delete(p: Params, k: string): (r: Params)
    ensures !Has(r, k)
    ensures |r| <= |p|
    ensures forall j :: j != k ==> Get(r, j) == Get(p, j)
    ensures forall j :: j != k ==> Occurrences(r, j) == Occurrences(p, j)
  {
    if p == [] then []
    else if p[0].0 == k then Delete(p[1..], k)
    else [p[0]] + Delete(p[1..], k)
  }

  /** `set` on a name already present: the first pair takes the value and
      later pairs with that name go. */
  function Overwrite(p: Params, k: string, v: string): (r: Params)
    requires Has(p, k)
    ensures Get(r, k) == Some(v) && Occurrences(r, k) == 1
    ensures forall j :: j != k ==> Get(r, j) == Get(p, j)
    ensures forall j :: j != k ==> Occurrences(r, j) == Occurrences(p, j)
  {
    if p[0].0 == k then [(k, v)] + Delete(p[1..], k)
    else
      assert Has(p[1..], k) by {
        var i :| 0 <= i < |p| && p[i].0 == k;
        assert p[1..][i - 1] == p[i];
      }
      [p[0]] + Overwrite(p[1..], k, v)
  }

  /** `set(k, v)`: overwrite the first pair named `k` and drop the rest, or
      append the pair when the name is new. */
  function Set(p: Params, k: string, v: string): (r: Params)
    ensures Get(r, k) == Some(v) && Occurrences(r, k) == 1
    ensures !Has(p, k) ==> r == p + [(k, v)]
  {
    if Has(p, k) then Overwrite(p, k, v)
    else
      var r := p + [(k, v)];
      SnocFacts(p, k, v);
      r
  }

  /** `set` leaves every other name as it was: the same first value and the
      same number of pairs. */
  lemma SetKeepsOthers(p: Params, k: string, v: string)
    ensures forall j :: j != k ==> Get(Set(p, k, v), j) == Get(p, j)
    ensures forall j :: j != k ==> Occurrences(Set(p, k, v), j) == Occurrences(p, j)
  {
    if !Has(p, k) {
      SnocFacts(p, k, v);
    }
  }

  lemma {:induction false} SnocFacts(p: Params, k: string, v: string)
    requires !Has(p, k)
    ensures Get(p + [(k, v)], k) == Some(v) && Occurrences(p + [(k, v)], k) == 1
    ensures forall j :: j != k ==> Get(p + [(k, v)], j) == Get(p, j)
    ensures forall j :: j != k ==> Occurrences(p + [(k, v)], j) == Occurrences(p, j)
    decreases |p|
  {
    var r := p + [(k, v)];
    if p == [] {
      assert r == [(k, v)];
      assert r[1..] == [];
    } else {
      assert r[0] == p[0];
      assert r[1..] == p[1..] + [(k, v)];
      assert forall i :: 0 <= i < |p[1..]| ==> p[1..][i] == p[i + 1];
      SnocFacts(p[1..], k, v);
    }
  }

  /** Names that occur once each. */
  predicate Distinct(p: Params) {
    forall i, j :: 0 <= i < j < |p| ==> p[i].0 != p[j].0
  }

  /** A name occurs in a concatenation iff it occurs in either part. */
  lemma HasAppend(p: Params, s: Params, k: string)
    ensures Has(p + s, k) <==> Has(p, k) || Has(s, k)
  {
    if Has(p + s, k) {
      var i :| 0 <= i < |p + s| && (p + s)[i].0 == k;
      if i >= |p| {
        assert s[i - |p|].0 == k;
      }
    }
    if Has(s, k) {
      var i :| 0 <= i < |s| && s[i].0 == k;
      assert (p + s)[|p| + i].0 == k;
    }
    if Has(p, k) {
      var i :| 0 <= i < |p| && p[i].0 == k;
      assert (p + s)[i].0 == k;
    }
  }

  /** A name the prefix lacks is read from the suffix. */
  lemma {:induction false} GetAfter(p: Params, s: Params, k: string)
    requires !Has(p, k)
    ensures Get(p + s, k) == Get(s, k)
    decreases |p|
  {
    if p != [] {
      assert p[0].0 != k;
      assert (p + s)[0] == p[0];
      assert (p + s)[1..] == p[1..] + s;
      assert Get(p + s, k) == Get(p[1..] + s, k);
      GetAfter(p[1..], s, k);
    } else {
      assert p + s == s;
    }
  }

  /** `set` of a name not yet present appends one pair. */
  function SetFresh(p: Params, k: string, v: string): (r: Params)
    requires !Has(p, k)
    ensures r == p + [(k, v)]
  {
    Set(p, k, v)
  }

  /** In a list of pairwise different names, `get` reads each name's own
      value. */
  lemma GetDistinct(p: Params, i: nat)
    requires Distinct(p) && i < |p|
    ensures Get(p, p[i].0) == Some(p[i].1)
  {
    var k := p[i].0;
    assert !Has(p[..i], k) by {
      forall j | 0 <= j < i ensures p[..i][j].0 != k {
        assert p[..i][j] == p[j];
      }
    }
    GetAfter(p[..i], p[i..], k);
    assert p == p[..i] + p[i..];
  }
}
