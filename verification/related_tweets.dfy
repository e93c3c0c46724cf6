/** The related-tweet map of the sidebar snapshot
    (handlers/sidebarController.ts): the one-hop collection around the
    opened tweet, its expansion along reply links, and the edge count the
    status compares it with. The expansion has no cycle guard in the
    source; here each walk carries a `fuel` bound on its depth. */
module RelatedTweets {
  import opened Wrappers
  import opened Ordered
  import opened TweetTypes
  import opened RelationStore
  import opened TweetsStore

  /** `Record<string, TweetData>` in insertion order. */
  type Related = Dict<TweetData>

  /** The key the expansion files a tweet under: its `rest_id`, which reads
      "undefined" when the tweet has none. */
  function KeyOf(d: TweetData): string {
    d.result.restId.GetOr("undefined")
  }

  /** A related map whose every tweet is one of the cached records. */
  predicate Drawn(s: Store, d: Related) {
    forall k :: k in d.m ==> d.m[k] in s.tweets.m.Values
  }

  function Size(d: Option<Related>): nat {
    if d.Some? then |d.value.keys| else 0
  }

  /** Adds each cached id under its own id, in order. */
  function AddCached(s: Store, d: Related, ids: seq<string>): (r: Related)
    ensures d.Valid() ==> r.Valid()
    ensures forall k :: k in d.keys ==> k in r.keys
    ensures forall k :: k in r.keys <==> k in d.keys || (k in ids && k in s.tweets.m)
    ensures forall k :: k in ids && k in s.tweets.m ==> k in r.m && r.m[k] == s.tweets.m[k]
    ensures forall k :: k in r.m && k !in ids ==> k in d.m && r.m[k] == d.m[k]
    ensures forall k :: k in d.m ==> k in r.m
    ensures forall k :: k in r.m ==> k in d.m || (k in ids && k in s.tweets.m)
    ensures |r.keys| <= |d.keys| + |ids|
    decreases |ids|
  {
    if ids == [] then d
    else
      var d1 := if ids[0] in s.tweets.m then d.Put(ids[0], s.tweets.m[ids[0]]) else d;
      var r := AddCached(s, d1, ids[1..]);
      assert forall k :: k in ids <==> k == ids[0] || k in ids[1..];
      forall k | k in ids && k in s.tweets.m ensures k in r.m && r.m[k] == s.tweets.m[k] {
        if k !in ids[1..] { assert k == ids[0]; }
      }
      r
  }

  /** `pushToRelateTweets`: nothing for an absent field; otherwise the map
      is created if needed and the cached ids are added. An absent `Set` is
      `[]` here, which the store never distinguishes from an empty one. */
  function Push(s: Store, acc: Option<Related>, ids: seq<string>): (r: Option<Related>)
    ensures ids == [] ==> r == acc
    ensures ids != [] ==> r.Some?
    ensures Size(r) <= Size(acc) + |ids|
    ensures acc.Some? ==> r.Some? && forall k :: k in acc.value.keys ==> k in r.value.keys
    ensures ids != [] ==> forall k :: k in r.value.keys <==> (acc.Some? && k in acc.value.keys) || (k in ids && k in s.tweets.m)
    ensures ids != [] ==> forall k :: k in ids && k in s.tweets.m ==> k in r.value.m && r.value.m[k] == s.tweets.m[k]
    ensures r.Some? ==> forall k :: k in r.value.m && k !in ids ==> acc.Some? && k in acc.value.m && r.value.m[k] == acc.value.m[k]
    ensures acc.Some? ==> forall k :: k in acc.value.m ==> k in r.value.m
    ensures r.Some? ==> forall k :: k in r.value.m ==> (acc.Some? && k in acc.value.m) || (k in ids && k in s.tweets.m)
  {
    if ids == [] then acc else Some(AddCached(s, acc.GetOr(EmptyDict()), ids))
  }

  function Ids(x: Option<string>): seq<string> {
    if x.Some? then [x.value] else []
  }

  /** The six fields in the order they are pushed. */
  function Fields(rel: Relation): seq<seq<string>> {
    [Ids(rel.quote), Ids(rel.quoteBy), rel.replies, Ids(rel.replyTo), Ids(rel.retweet), rel.retweetBy]
  }

  /** The ids of the fields, one after the other. */
  function Flat(fields: seq<seq<string>>): seq<string> {
    if fields == [] then [] else fields[0] + Flat(fields[1..])
  }

  /** The fields pushed one after the other. */
  function PushAll(s: Store, acc: Option<Related>, fields: seq<seq<string>>): (r: Option<Related>)
    ensures Size(r) <= Size(acc) + Total(fields)
    ensures acc.Some? ==> r.Some?
    ensures r.Some? <==> acc.Some? || exists i :: 0 <= i < |fields| && fields[i] != []
    decreases |fields|
  {
    if fields == [] then acc
    else
      var r := PushAll(s, Push(s, acc, fields[0]), fields[1..]);
      assert forall i :: 1 <= i < |fields| ==> fields[i] == fields[1..][i - 1];
      r
  }

  /** After pushing the fields the map lists the keys it listed plus every
      cached id of the fields, and nothing else. */
  lemma {:induction false} PushAllKeys(s: Store, acc: Option<Related>, fields: seq<seq<string>>)
    ensures var r := PushAll(s, acc, fields);
      r.Some? ==> forall k :: k in r.value.keys <==> (acc.Some? && k in acc.value.keys) || (k in Flat(fields) && k in s.tweets.m)
    decreases |fields|
  {
    if fields != [] {
      var a1 := Push(s, acc, fields[0]);
      PushAllKeys(s, a1, fields[1..]);
      var r := PushAll(s, a1, fields[1..]);
      assert PushAll(s, acc, fields) == r;
      assert Flat(fields) == fields[0] + Flat(fields[1..]);
    }
  }

  /** After pushing the fields every cached id of the fields maps to its
      cached record, and every other entry is one the map already held. */
  lemma {:induction false} PushAllEntries(s: Store, acc: Option<Related>, fields: seq<seq<string>>)
    ensures var r := PushAll(s, acc, fields);
      r.Some? ==>
        (forall k :: k in Flat(fields) && k in s.tweets.m ==> k in r.value.m && r.value.m[k] == s.tweets.m[k])
        && (forall k :: k in r.value.m && k !in Flat(fields) ==> acc.Some? && k in acc.value.m && r.value.m[k] == acc.value.m[k])
        && (acc.Some? ==> forall k :: k in acc.value.m ==> k in r.value.m)
        && (forall k :: k in r.value.m ==> (acc.Some? && k in acc.value.m) || (k in Flat(fields) && k in s.tweets.m))
    decreases |fields|
  {
    if fields != [] {
      var a1 := Push(s, acc, fields[0]);
      PushAllEntries(s, a1, fields[1..]);
      var r := PushAll(s, a1, fields[1..]);
      assert PushAll(s, acc, fields) == r;
      assert Flat(fields) == fields[0] + Flat(fields[1..]);
      if r.Some? {
        forall k | k in Flat(fields) && k in s.tweets.m ensures k in r.value.m && r.value.m[k] == s.tweets.m[k] {
          if k !in Flat(fields[1..]) {
            assert k in fields[0];
          }
        }
      }
    }
  }

  function Total(fields: seq<seq<string>>): nat {
    if fields == [] then 0 else |fields[0]| + Total(fields[1..])
  }

  /** `countRelationship`: one per defined scalar field, plus the sizes of
      the two sets; zero without a record. */
  function CountRelationship(rel: Option<Relation>): nat {
    if rel.None? then 0
    else
      var r := rel.value;
      (if r.quote.Some? then 1 else 0) + (if r.quoteBy.Some? then 1 else 0) + |r.replies|
      + (if r.replyTo.Some? then 1 else 0) + (if r.retweet.Some? then 1 else 0) + |r.retweetBy|
  }

  /** The count is the number of ids the one-hop collection looks up. */
  lemma CountIsFieldTotal(rel: Relation)
    ensures CountRelationship(Some(rel)) == Total(Fields(rel))
  {
    var f := Fields(rel);
    assert f[5..][1..] == [] && f[4..][1..] == f[5..] && f[3..][1..] == f[4..];
    assert f[2..][1..] == f[3..] && f[1..][1..] == f[2..] && f[1..] == f[1..];
    assert Total(f[5..]) == |rel.retweetBy|;
    assert Total(f[4..]) == |Ids(rel.retweet)| + Total(f[5..]);
    assert Total(f[3..]) == |Ids(rel.replyTo)| + Total(f[4..]);
    assert Total(f[2..]) == |rel.replies| + Total(f[3..]);
    assert Total(f[1..]) == |Ids(rel.quoteBy)| + Total(f[2..]);
    assert Total(f) == |Ids(rel.quote)| + Total(f[1..]);
  }

  /** `getTweetAndRelation`: nothing when the tweet is not cached;
      otherwise the tweet, its relation record and the map of the cached
      tweets among its six kinds of links, keyed by id. The map is absent
      exactly when no link field is set. */
  function OneHop(s: Store, id: string): (r: Option<(TweetData, Option<Relation>, Option<Related>)>)
    ensures r.None? <==> id !in s.tweets.m
    ensures r.Some? ==> r.value.0 == s.tweets.m[id] && r.value.1 == Get(s.relations, id)
    ensures r.Some? ==> (r.value.2.None? <==> CountRelationship(r.value.1) == 0)
    ensures r.Some? && r.value.2.Some? ==> forall k :: k in r.value.2.value.keys <==>
      k in s.tweets.m && LinkedTo(r.value.1.value, k)
    ensures r.Some? && r.value.2.Some? ==> forall k :: k in r.value.2.value.m ==>
      k in s.tweets.m && LinkedTo(r.value.1.value, k) && r.value.2.value.m[k] == s.tweets.m[k]
  {
    if id !in s.tweets.m then None
    else
      var rel := Get(s.relations, id);
      if rel.None? then Some((s.tweets.m[id], rel, None))
      else
        var m := PushAll(s, None, Fields(rel.value));
        PushAllKeys(s, None, Fields(rel.value));
        PushAllEntries(s, None, Fields(rel.value));
        FlatFields(rel.value);
        CountIsFieldTotal(rel.value);
        TotalZero(Fields(rel.value));
        Some((s.tweets.m[id], rel, m))
  }

  /** `k` is named by one of the record's six link fields. */
  predicate LinkedTo(rel: Relation, k: string) {
    rel.quote == Some(k) || rel.quoteBy == Some(k) || k in rel.replies
    || rel.replyTo == Some(k) || rel.retweet == Some(k) || k in rel.retweetBy
  }

  lemma FlatFields(rel: Relation)
    ensures forall k :: k in Flat(Fields(rel)) <==> LinkedTo(rel, k)
  {
    var f := Fields(rel);
    assert f[5..][1..] == [] && f[4..][1..] == f[5..] && f[3..][1..] == f[4..];
    assert f[2..][1..] == f[3..] && f[1..][1..] == f[2..];
    assert Flat(f[5..]) == rel.retweetBy + [];
    assert Flat(f[4..]) == Ids(rel.retweet) + Flat(f[5..]);
    assert Flat(f[3..]) == Ids(rel.replyTo) + Flat(f[4..]);
    assert Flat(f[2..]) == rel.replies + Flat(f[3..]);
    assert Flat(f[1..]) == Ids(rel.quoteBy) + Flat(f[2..]);
    assert Flat(f) == Ids(rel.quote) + Flat(f[1..]);
  }

  lemma {:induction false} TotalZero(fields: seq<seq<string>>)
    ensures Total(fields) == 0 <==> forall i :: 0 <= i < |fields| ==> fields[i] == []
    decreases |fields|
  {
    if fields != [] {
      TotalZero(fields[1..]);
      assert forall i :: 1 <= i < |fields| ==> fields[i] == fields[1..][i - 1];
    }
  }

  /** The one-hop map never holds more tweets than the record has links, so
      with no expansion the status could only be partial when some linked
      tweet is not cached. */
  lemma OneHopWithinCount(s: Store, id: string)
    requires OneHop(s, id).Some?
    ensures Size(OneHop(s, id).value.2) <= CountRelationship(OneHop(s, id).value.1)
  {
    var rel := OneHop(s, id).value.1;
    if rel.Some? {
      CountIsFieldTotal(rel.value);
    }
  }

  /* ------------------------------ expansion ------------------------------ */

  function Record(s: Store, id: string): Option<Relation> {
    Get(s.relations, id)
  }

  /** `getReplyTo(id)`: a cached tweet is added under its key and the walk
      moves to the tweet it replies to; it stops at the first tweet that is
      not cached (or when the fuel runs out). */
  function Climb(s: Store, acc: Option<Related>, id: string, fuel: nat): (r: Option<Related>)
    ensures acc.Some? ==> r.Some? && forall k :: k in acc.value.keys ==> k in r.value.keys
    ensures fuel > 0 && id in s.tweets.m ==> r.Some? && KeyOf(s.tweets.m[id]) in r.value.keys
    ensures (fuel == 0 || id !in s.tweets.m) ==> r == acc
    ensures acc.Some? && acc.value.Valid() ==> r.value.Valid()
    decreases fuel
  {
    if fuel == 0 || id !in s.tweets.m then acc
    else
      var t := s.tweets.m[id];
      var acc1 := Some(acc.GetOr(EmptyDict()).Put(KeyOf(t), t));
      var rec := Record(s, id);
      if rec.Some? && rec.value.replyTo.Some? then Climb(s, acc1, rec.value.replyTo.value, fuel - 1) else acc1
  }

  /** The `k`-th tweet up the reply chain from `id`, following only cached
      tweets. */
  function AncestorAt(s: Store, id: string, k: nat): Option<string>
    decreases k
  {
    if k == 0 then Some(id)
    else if id in s.tweets.m && Record(s, id).Some? && Record(s, id).value.replyTo.Some? then
      AncestorAt(s, Record(s, id).value.replyTo.value, k - 1)
    else None
  }

  /** Every cached tweet up the chain within the fuel is in the map. */
  lemma {:induction false} ClimbReaches(s: Store, acc: Option<Related>, id: string, fuel: nat, k: nat)
    requires k < fuel
    requires AncestorAt(s, id, k).Some? && AncestorAt(s, id, k).value in s.tweets.m
    ensures var r := Climb(s, acc, id, fuel);
            r.Some? && KeyOf(s.tweets.m[AncestorAt(s, id, k).value]) in r.value.keys
  {
    ClimbReachesTo(s, acc, id, fuel, k, AncestorAt(s, id, k).value);
  }

  /** `ClimbReaches` with the ancestor given by name. */
  lemma {:induction false} ClimbReachesTo(s: Store, acc: Option<Related>, id: string, fuel: nat, k: nat, target: string)
    requires k < fuel
    requires AncestorAt(s, id, k) == Some(target) && target in s.tweets.m
    ensures var r := Climb(s, acc, id, fuel);
            r.Some? && KeyOf(s.tweets.m[target]) in r.value.keys
    decreases k
  {
    if k == 0 {
      ClimbHere(s, acc, id, fuel);
    } else {
      AncestorStep(s, id, k);
      var t := s.tweets.m[id];
      var acc1 := Some(acc.GetOr(EmptyDict()).Put(KeyOf(t), t));
      var parent := Record(s, id).value.replyTo.value;
      ClimbReachesTo(s, acc1, parent, fuel - 1, k - 1, target);
      ClimbStep(s, acc, id, fuel);
    }
  }

  /** The climb from a cached tweet adds it. */
  lemma ClimbHere(s: Store, acc: Option<Related>, id: string, fuel: nat)
    requires fuel > 0 && id in s.tweets.m
    ensures Climb(s, acc, id, fuel).Some? && KeyOf(s.tweets.m[id]) in Climb(s, acc, id, fuel).value.keys
  {
  }

  /** A chain that goes `k > 0` steps up goes through the parent. */
  lemma AncestorStep(s: Store, id: string, k: nat)
    requires k > 0 && AncestorAt(s, id, k).Some?
    ensures id in s.tweets.m && Record(s, id).Some? && Record(s, id).value.replyTo.Some?
    ensures AncestorAt(s, id, k) == AncestorAt(s, Record(s, id).value.replyTo.value, k - 1)
  {
  }

  /** Climbing from a cached tweet with a parent adds it and goes on from
      the parent. */
  lemma ClimbStep(s: Store, acc: Option<Related>, id: string, fuel: nat)
    requires fuel > 0 && id in s.tweets.m && Record(s, id).Some? && Record(s, id).value.replyTo.Some?
    ensures var t := s.tweets.m[id];
            Climb(s, acc, id, fuel)
            == Climb(s, Some(acc.GetOr(EmptyDict()).Put(KeyOf(t), t)), Record(s, id).value.replyTo.value, fuel - 1)
  {
  }

  /** `getReplies(id)`: a cached tweet is added under its key and the walk
      goes on into each of its replies in set order. */
  function Descend(s: Store, acc: Option<Related>, id: string, fuel: nat): (r: Option<Related>)
    ensures acc.Some? ==> r.Some? && forall k :: k in acc.value.keys ==> k in r.value.keys
    ensures fuel > 0 && id in s.tweets.m ==> r.Some? && KeyOf(s.tweets.m[id]) in r.value.keys
    ensures (fuel == 0 || id !in s.tweets.m) ==> r == acc
    decreases fuel, 0, 0
  {
    if fuel == 0 || id !in s.tweets.m then acc
    else
      var t := s.tweets.m[id];
      var acc1 := Some(acc.GetOr(EmptyDict()).Put(KeyOf(t), t));
      var rec := Record(s, id);
      DescendAll(s, acc1, if rec.Some? then rec.value.replies else [], fuel - 1)
  }

  function DescendAll(s: Store, acc: Option<Related>, ids: seq<string>, fuel: nat): (r: Option<Related>)
    ensures acc.Some? ==> r.Some? && forall k :: k in acc.value.keys ==> k in r.value.keys
    ensures ids == [] ==> r == acc
    decreases fuel, 1, |ids|
  {
    if ids == [] then acc else DescendAll(s, Descend(s, acc, ids[0], fuel), ids[1..], fuel)
  }

  /** Every cached reply of the walked list is in the map. */
  lemma {:induction false} DescendAllReaches(s: Store, acc: Option<Related>, ids: seq<string>, fuel: nat, i: nat)
    requires fuel > 0 && i < |ids| && ids[i] in s.tweets.m
    ensures var r := DescendAll(s, acc, ids, fuel);
            r.Some? && KeyOf(s.tweets.m[ids[i]]) in r.value.keys
    decreases |ids|
  {
    var next := Descend(s, acc, ids[0], fuel);
    if i > 0 {
      DescendAllReaches(s, next, ids[1..], fuel, i - 1);
    }
  }

  /** A cached reply of a cached reply, both within the fuel, is reached:
      the walk goes two levels down. */
  lemma GrandchildReached(s: Store, acc: Option<Related>, ids: seq<string>, fuel: nat, i: nat, j: nat)
    requires fuel > 1 && i < |ids| && ids[i] in s.tweets.m
    requires Record(s, ids[i]).Some? && j < |Record(s, ids[i]).value.replies|
    requires Record(s, ids[i]).value.replies[j] in s.tweets.m
    ensures var r := DescendAll(s, acc, ids, fuel);
            r.Some? && KeyOf(s.tweets.m[Record(s, ids[i]).value.replies[j]]) in r.value.keys
  {
    ReachedThroughList(s, acc, ids, fuel, i, j);
  }

  lemma {:induction false} ReachedThroughList(s: Store, acc: Option<Related>, ids: seq<string>, fuel: nat, i: nat, j: nat)
    requires fuel > 1 && i < |ids| && ids[i] in s.tweets.m
    requires Record(s, ids[i]).Some? && j < |Record(s, ids[i]).value.replies|
    requires Record(s, ids[i]).value.replies[j] in s.tweets.m
    ensures var r := DescendAll(s, acc, ids, fuel);
            r.Some? && KeyOf(s.tweets.m[Record(s, ids[i]).value.replies[j]]) in r.value.keys
    decreases |ids|
  {
    var next := Descend(s, acc, ids[0], fuel);
    if i > 0 {
      ReachedThroughList(s, next, ids[1..], fuel, i - 1, j);
    } else {
      var t := s.tweets.m[ids[0]];
      var acc1 := Some(acc.GetOr(EmptyDict()).Put(KeyOf(t), t));
      DescendAllReaches(s, acc1, Record(s, ids[0]).value.replies, fuel - 1, j);
    }
  }

  /** `getRelateAncestorsAndChildren`: without a record the one-hop map is
      returned as is; otherwise the walk up from `replyTo` and then the walk
      down each reply add to it. */
  function Expand(s: Store, rel: Option<Relation>, relate: Option<Related>, fuel: nat): (r: Option<Related>)
    ensures rel.None? ==> r == relate
    ensures relate.Some? ==> r.Some? && forall k :: k in relate.value.keys ==> k in r.value.keys
  {
    if rel.None? then relate
    else
      var up := if rel.value.replyTo.Some? then Climb(s, relate, rel.value.replyTo.value, fuel) else relate;
      DescendAll(s, up, rel.value.replies, fuel)
  }

  /** Every cached ancestor within the fuel and every cached direct reply of
      the opened tweet end up in the expanded map. */
  lemma ExpandReaches(s: Store, rel: Relation, relate: Option<Related>, fuel: nat)
    ensures forall k: nat :: (k < fuel && rel.replyTo.Some? && AncestorAt(s, rel.replyTo.value, k).Some?
                              && AncestorAt(s, rel.replyTo.value, k).value in s.tweets.m) ==>
              Expand(s, Some(rel), relate, fuel).Some?
              && KeyOf(s.tweets.m[AncestorAt(s, rel.replyTo.value, k).value]) in Expand(s, Some(rel), relate, fuel).value.keys
    ensures fuel > 0 ==> forall i :: 0 <= i < |rel.replies| && rel.replies[i] in s.tweets.m ==>
              Expand(s, Some(rel), relate, fuel).Some?
              && KeyOf(s.tweets.m[rel.replies[i]]) in Expand(s, Some(rel), relate, fuel).value.keys
  {
    var up := if rel.replyTo.Some? then Climb(s, relate, rel.replyTo.value, fuel) else relate;
    forall k: nat | k < fuel && rel.replyTo.Some? && AncestorAt(s, rel.replyTo.value, k).Some?
               && AncestorAt(s, rel.replyTo.value, k).value in s.tweets.m
      ensures Expand(s, Some(rel), relate, fuel).Some?
              && KeyOf(s.tweets.m[AncestorAt(s, rel.replyTo.value, k).value]) in Expand(s, Some(rel), relate, fuel).value.keys
    {
      ClimbReaches(s, relate, rel.replyTo.value, fuel, k);
    }
    forall i | fuel > 0 && 0 <= i < |rel.replies| && rel.replies[i] in s.tweets.m
      ensures Expand(s, Some(rel), relate, fuel).Some?
              && KeyOf(s.tweets.m[rel.replies[i]]) in Expand(s, Some(rel), relate, fuel).value.keys
    {
      DescendAllReaches(s, up, rel.replies, fuel, i);
    }
  }
}
