/** The conversation view of the sidebar (components/sidebar/SidebarTimeline.tsx):
    the chain of ancestors above the opened tweet, the opened tweet itself,
    and one author spine per direct reply below it. Only the list of items
    is modelled; rendering them is not. */
module SidebarTimeline {
  import opened Wrappers
  import opened Text
  import opened TweetTypes
  import opened ResponseData
  import opened RelationStore
  import opened TweetsStore
  import opened SidebarStore
  import opened RelatedTweets
  import opened ThreadPrune
  import Ordered

  /** `isDetailReady`: the replies are shown after a full or partial load. */
  predicate IsDetailReady(status: Status) {
    status == Success || status == Partial
  }

  /** An ancestor: a cached tweet (with the id it was looked up under) or a
      tombstone. */
  datatype Ancestor = TweetAncestor(id: string, data: TweetData) | DeletedAncestor(tomb: DeletedTweet)

  /** What the walk finds under an id: the related tweet when there is one,
      else the recorded tombstone. */
  function Found(s: Store, relate: Option<Related>, id: string): (r: Option<Ancestor>)
    ensures relate.Some? && id in relate.value.m ==> r == Some(TweetAncestor(id, relate.value.m[id]))
    ensures (relate.None? || id !in relate.value.m) ==> (r.Some? <==> id in s.deleted)
    ensures (relate.None? || id !in relate.value.m) && r.Some? ==> r == Some(DeletedAncestor(s.deleted[id]))
  {
    if relate.Some? && id in relate.value.m then Some(TweetAncestor(id, relate.value.m[id]))
    else
      var d := GetDeletedTweet(s, id);
      if d.Some? then Some(DeletedAncestor(d.value)) else None
  }

  /** The id the walk moves to from an ancestor: the `replyTo` of a cached
      tweet's relation, the recorded parent of a tombstone. */
  function Next(s: Store, a: Ancestor): Option<string> {
    match a
    case TweetAncestor(id, _) =>
      var rel := Get(s.relations, id);
      if rel.Some? then rel.value.replyTo else None
    case DeletedAncestor(tomb) => tomb.parentTweetId
  }

  /** The loop of `useAncestorTweets`, nearest parent first, for at most
      `fuel` steps: it starts at `replyTo`, each ancestor is what is found
      under the id its predecessor points to, and the walk ends only where
      there is no further id or nothing is found under it. */
  function ParentChain(s: Store, relate: Option<Related>, replyTo: Option<string>, fuel: nat): (r: seq<Ancestor>)
    ensures |r| <= fuel
    ensures r == [] <==> fuel == 0 || replyTo.None? || Found(s, relate, replyTo.value).None?
    ensures r != [] ==> Found(s, relate, replyTo.value) == Some(r[0])
    ensures forall i :: 0 <= i < |r| - 1 ==>
              Next(s, r[i]).Some? && Found(s, relate, Next(s, r[i]).value) == Some(r[i + 1])
    ensures r != [] && |r| < fuel ==>
              Next(s, r[|r| - 1]).None? || Found(s, relate, Next(s, r[|r| - 1]).value).None?
    decreases fuel
  {
    if fuel == 0 || replyTo.None? then []
    else
      var here := Found(s, relate, replyTo.value);
      if here.None? then []
      else
        var rest := ParentChain(s, relate, Next(s, here.value), fuel - 1);
        [here.value] + rest
  }

  function Reverse<T>(xs: seq<T>): (r: seq<T>)
    ensures |r| == |xs|
    ensures forall i :: 0 <= i < |xs| ==> r[i] == xs[|xs| - 1 - i]
  {
    if xs == [] then [] else Reverse(xs[1..]) + [xs[0]]
  }

  /** `useAncestorTweets`: nothing without a relation; otherwise the chain,
      oldest first, so the last ancestor is the direct parent. The guard
      `replyTo !== null` always holds, because a missing parent is
      `undefined`. */
  function Ancestors(s: Store, rel: Option<Relation>, relate: Option<Related>, fuel: nat): (r: seq<Ancestor>)
    ensures rel.None? ==> r == []
    ensures rel.Some? ==> r == Reverse(ParentChain(s, relate, rel.value.replyTo, fuel))
  {
    if rel.None? then [] else Reverse(ParentChain(s, relate, rel.value.replyTo, fuel))
  }

  /** The oldest-first order: the last ancestor is what is found under the
      opened tweet's `replyTo`, and each ancestor is found under the id its
      successor points to. */
  lemma AncestorsOldestFirst(s: Store, rel: Relation, relate: Option<Related>, fuel: nat)
    ensures var a := Ancestors(s, Some(rel), relate, fuel);
            a != [] ==> Found(s, relate, rel.replyTo.value) == Some(a[|a| - 1])
    ensures var a := Ancestors(s, Some(rel), relate, fuel);
            forall i :: 0 < i < |a| ==> Next(s, a[i]).Some? && Found(s, relate, Next(s, a[i]).value) == Some(a[i - 1])
  {
    var c := ParentChain(s, relate, rel.replyTo, fuel);
    var a := Ancestors(s, Some(rel), relate, fuel);
    forall i | 0 < i < |a| ensures Next(s, a[i]).Some? && Found(s, relate, Next(s, a[i]).value) == Some(a[i - 1]) {
      var j := |c| - 1 - i;
      assert a[i] == c[j] && a[i - 1] == c[j + 1];
    }
  }

  /* ------------------------------ items ------------------------------- */

  datatype Variant = MainVariant | ReplyVariant

  datatype Body = TweetBody(tweet: Tweet, controllerData: Option<string>) | DeletedBody(tomb: DeletedTweet)

  /** A timeline item; an absent `linkBottom` or `isAncestor` reads false. */
  datatype Item = Item(key: string, body: Body, variant: Variant, linkTop: bool, linkBottom: bool, isAncestor: bool)

  /** The item of the ancestor at `index`: linked to the one above unless it
      is the first, always linked below. */
  function AncestorItem(a: Ancestor, index: nat): (r: Item)
    ensures r.variant == ReplyVariant && r.isAncestor && r.linkBottom
    ensures r.linkTop <==> index > 0
    ensures a.TweetAncestor? ==> r.body == TweetBody(a.data.result, None)
    ensures a.DeletedAncestor? ==> r.body == DeletedBody(a.tomb) && r.key == a.tomb.tweetId
  {
    match a
    case TweetAncestor(_, data) =>
      Item(data.result.restId.GetOr("ancestor-" + NatToString(index)), TweetBody(data.result, None), ReplyVariant, index > 0, true, true)
    case DeletedAncestor(tomb) =>
      Item(tomb.tweetId, DeletedBody(tomb), ReplyVariant, index > 0, true, true)
  }

  function AncestorItems(ancestors: seq<Ancestor>, from: nat): (r: seq<Item>)
    ensures |r| == |ancestors|
    ensures forall i :: 0 <= i < |r| ==> r[i] == AncestorItem(ancestors[i], from + i)
    decreases |ancestors|
  {
    if ancestors == [] then []
    else [AncestorItem(ancestors[0], from)] + AncestorItems(ancestors[1..], from + 1)
  }

  /** The opened tweet's item: linked above exactly when ancestors exist. */
  function MainItem(t: TweetData, ancestorCount: nat): (r: Item)
    ensures r.variant == MainVariant && !r.isAncestor && !r.linkBottom
    ensures r.linkTop <==> ancestorCount > 0
    ensures r.body == TweetBody(t.result, t.controllerData)
  {
    Item(t.result.restId.GetOr("main-key"), TweetBody(t.result, t.controllerData), MainVariant, ancestorCount > 0, false, false)
  }

  /** The item for the id at `index` of a branch of `size` ids: the related
      tweet, else its tombstone, else nothing (that id is skipped). */
  function BranchItem(s: Store, relate: Related, id: string, index: nat, size: nat): (r: Option<Item>)
    ensures r.Some? <==> id in relate.m || id in s.deleted
    ensures r.Some? ==> r.value.variant == ReplyVariant && !r.value.isAncestor
    ensures r.Some? ==> (r.value.linkTop <==> index > 0)
    ensures r.Some? ==> (r.value.linkBottom <==> size > 1 && index != size - 1)
    ensures id in relate.m ==> r.value.body == TweetBody(relate.m[id].result, relate.m[id].controllerData)
    ensures id !in relate.m && id in s.deleted ==> r.value.body == DeletedBody(s.deleted[id])
  {
    var linkTop := index > 0;
    var linkBottom := size > 1 && index != size - 1;
    if id in relate.m then
      var node := relate.m[id];
      Some(Item(KeyOf(node), TweetBody(node.result, node.controllerData), ReplyVariant, linkTop, linkBottom, false))
    else
      var deleted := GetDeletedTweet(s, id);
      if deleted.None? then None
      else Some(Item(deleted.value.tweetId, DeletedBody(deleted.value), ReplyVariant, linkTop, linkBottom, false))
  }

  /** The items of one branch, from position `from` on: exactly one per id
      that has a record, in spine order. */
  function BranchItems(s: Store, relate: Related, spine: seq<string>, from: nat): (r: seq<Item>)
    requires from <= |spine|
    ensures forall x :: x in r ==> x.variant == ReplyVariant && !x.isAncestor
    ensures |r| <= |spine| - from
    decreases |spine| - from
  {
    if from == |spine| then []
    else
      var here := BranchItem(s, relate, spine[from], from, |spine|);
      var rest := BranchItems(s, relate, spine, from + 1);
      if here.Some? then [here.value] + rest else rest
  }

  /** A branch holds exactly the items of the spine ids that yield one:
      an id without a record is skipped and nothing is invented. */
  lemma {:induction false} BranchItemsMembers(s: Store, relate: Related, spine: seq<string>, from: nat)
    requires from <= |spine|
    ensures forall i :: from <= i < |spine| && BranchItem(s, relate, spine[i], i, |spine|).Some? ==>
              BranchItem(s, relate, spine[i], i, |spine|).value in BranchItems(s, relate, spine, from)
    ensures forall x :: x in BranchItems(s, relate, spine, from) ==>
              exists i :: from <= i < |spine| && BranchItem(s, relate, spine[i], i, |spine|) == Some(x)
    decreases |spine| - from
  {
    if from < |spine| {
      BranchItemsMembers(s, relate, spine, from + 1);
    }
  }

  /** The items of the branch under the direct reply `id`: its author
      spine, built for `author`. */
  function Branch(s: Store, relate: Related, id: string, author: Option<string>, fuel: nat): seq<Item> {
    BranchItems(s, relate, AuthorSpine(s.relations, id, author, Some(relate), fuel), 0)
  }

  /** The branches under the opened tweet, one per direct reply in order. */
  function ReplyItems(s: Store, relate: Related, replies: seq<string>, author: Option<string>, fuel: nat): (r: seq<Item>)
    ensures forall x :: x in r ==> x.variant == ReplyVariant && !x.isAncestor
    ensures forall k :: 0 <= k < |replies| ==> forall x :: x in Branch(s, relate, replies[k], author, fuel) ==> x in r
  {
    if replies == [] then []
    else
      var rest := ReplyItems(s, relate, replies[1..], author, fuel);
      assert forall k :: 1 <= k < |replies| ==> replies[k] == replies[1..][k - 1];
      Branch(s, relate, replies[0], author, fuel) + rest
  }

  /** The branches follow the order of the replies: the items for two runs
      of replies are those of the first run, then those of the second, and
      a single reply gives exactly its branch. */
  lemma {:induction false} ReplyItemsAppend(s: Store, relate: Related, a: seq<string>, b: seq<string>, author: Option<string>, fuel: nat)
    ensures ReplyItems(s, relate, a + b, author, fuel) == ReplyItems(s, relate, a, author, fuel) + ReplyItems(s, relate, b, author, fuel)
    ensures |a| == 1 ==> ReplyItems(s, relate, a, author, fuel) == Branch(s, relate, a[0], author, fuel)
    decreases |a|
  {
    if a == [] {
      assert a + b == b;
    } else {
      var head := Branch(s, relate, a[0], author, fuel);
      assert (a + b)[0] == a[0] && (a + b)[1..] == a[1..] + b;
      assert ReplyItems(s, relate, a + b, author, fuel) == head + ReplyItems(s, relate, a[1..] + b, author, fuel);
      assert ReplyItems(s, relate, a, author, fuel) == head + ReplyItems(s, relate, a[1..], author, fuel);
      ReplyItemsAppend(s, relate, a[1..], b, author, fuel);
      Ordered.ConcatAssoc(head, ReplyItems(s, relate, a[1..], author, fuel), ReplyItems(s, relate, b, author, fuel));
      if |a| == 1 {
        assert a[1..] == [];
        assert head + [] == head;
      }
    }
  }

  /** No item is invented: each one comes from the branch of some reply. */
  lemma {:induction false} ReplyItemsFromBranches(s: Store, relate: Related, replies: seq<string>, author: Option<string>, fuel: nat)
    ensures forall x :: x in ReplyItems(s, relate, replies, author, fuel) ==>
              exists k :: 0 <= k < |replies| && x in Branch(s, relate, replies[k], author, fuel)
    decreases |replies|
  {
    if replies != [] {
      var head := Branch(s, relate, replies[0], author, fuel);
      var tail := replies[1..];
      assert ReplyItems(s, relate, replies, author, fuel) == head + ReplyItems(s, relate, tail, author, fuel);
      ReplyItemsFromBranches(s, relate, tail, author, fuel);
      forall x | x in ReplyItems(s, relate, replies, author, fuel)
        ensures exists k :: 0 <= k < |replies| && x in Branch(s, relate, replies[k], author, fuel)
      {
        if x !in head {
          var k :| 0 <= k < |tail| && x in Branch(s, relate, tail[k], author, fuel);
          assert tail[k] == replies[k + 1];
        }
      }
    }
  }

  /** Where the parts of `ancestors + [main] + replies` sit. */
  lemma AppendLayout(a: seq<Item>, m: Item, t: seq<Item>)
    ensures var r := a + [m] + t;
            |r| == |a| + 1 + |t| && r[..|a|] == a && r[|a|] == m
            && forall i :: |a| < i < |r| ==> r[i] in t
  {
    var r := a + [m] + t;
    assert r[..|a|] == a;
    forall i | |a| < i < |r| ensures r[i] in t {
      assert r[i] == t[i - |a| - 1];
    }
  }

  /** `useTimelineItems`: nothing without an opened tweet; otherwise the
      ancestors, the opened tweet, and, once the detail is ready and both a
      related map and a relation exist, the reply branches, each spine
      built for the opened tweet's author. */
  function TimelineItems(s: Store, tweet: Option<TweetData>, status: Status, rel: Option<Relation>,
                         relate: Option<Related>, ancestors: seq<Ancestor>, fuel: nat): (r: seq<Item>)
    ensures tweet.None? ==> r == []
    ensures tweet.Some? ==> |r| > |ancestors| && r[..|ancestors|] == AncestorItems(ancestors, 0)
    ensures tweet.Some? ==> r[|ancestors|] == MainItem(tweet.value, |ancestors|)
    ensures tweet.Some? && (!IsDetailReady(status) || relate.None? || rel.None?) ==> |r| == |ancestors| + 1
    ensures forall i :: 0 <= i < |r| ==> (r[i].variant == MainVariant <==> i == |ancestors|)
    ensures forall i :: 0 <= i < |r| ==> (r[i].isAncestor <==> i < |ancestors|)
    ensures tweet.Some? && IsDetailReady(status) && relate.Some? && rel.Some? ==>
              r[|ancestors| + 1..] == ReplyItems(s, relate.value, rel.value.replies, UserId(tweet.value.result, None), fuel)
  {
    if tweet.None? then []
    else
      var main := tweet.value;
      var head := AncestorItems(ancestors, 0) + [MainItem(main, |ancestors|)];
      var tail :=
        if IsDetailReady(status) && relate.Some? && rel.Some? then
          ReplyItems(s, relate.value, rel.value.replies, UserId(main.result, None), fuel)
        else [];
      AppendLayout(AncestorItems(ancestors, 0), MainItem(main, |ancestors|), tail);
      head + tail
  }

  /** A branch whose every id has a record yields one item per id, in spine
      order. */
  lemma {:induction false} BranchAllFound(s: Store, relate: Related, spine: seq<string>, from: nat)
    requires from <= |spine|
    requires forall i :: from <= i < |spine| ==> BranchItem(s, relate, spine[i], i, |spine|).Some?
    ensures var r := BranchItems(s, relate, spine, from);
            |r| == |spine| - from
            && forall j :: 0 <= j < |r| ==> BranchItem(s, relate, spine[from + j], from + j, |spine|) == Some(r[j])
    decreases |spine| - from
  {
    if from < |spine| {
      BranchAllFound(s, relate, spine, from + 1);
      BranchItemsFound(s, relate, spine, from);
      BranchShift(s, relate, spine, from, BranchItems(s, relate, spine, from), BranchItems(s, relate, spine, from + 1));
    }
  }

  lemma BranchShift(s: Store, relate: Related, spine: seq<string>, from: nat, r: seq<Item>, rest: seq<Item>)
    requires from < |spine| && r != [] && r[1..] == rest
    requires BranchItem(s, relate, spine[from], from, |spine|) == Some(r[0])
    requires |rest| == |spine| - (from + 1)
    requires forall j :: 0 <= j < |rest| ==> BranchItem(s, relate, spine[from + 1 + j], from + 1 + j, |spine|) == Some(rest[j])
    ensures |r| == |spine| - from
    ensures forall j :: 0 <= j < |r| ==> BranchItem(s, relate, spine[from + j], from + j, |spine|) == Some(r[j])
  {
    forall j | 1 <= j < |r| ensures BranchItem(s, relate, spine[from + j], from + j, |spine|) == Some(r[j]) {
      assert r[j] == rest[j - 1];
      assert from + 1 + (j - 1) == from + j;
    }
  }

  lemma BranchItemsFound(s: Store, relate: Related, spine: seq<string>, from: nat)
    requires from < |spine| && BranchItem(s, relate, spine[from], from, |spine|).Some?
    ensures BranchItems(s, relate, spine, from)
            == [BranchItem(s, relate, spine[from], from, |spine|).value] + BranchItems(s, relate, spine, from + 1)
  {
  }

  /** A branch whose every id has a record: one item per id, the first not
      linked above, the last not linked below, all others linked both
      ways. */
  lemma BranchEndsUnlinked(s: Store, relate: Related, spine: seq<string>)
    requires spine != []
    requires forall i :: 0 <= i < |spine| ==> spine[i] in relate.m || spine[i] in s.deleted
    ensures var r := BranchItems(s, relate, spine, 0);
            |r| == |spine|
            && forall j :: 0 <= j < |r| ==> (r[j].linkTop <==> j > 0) && (r[j].linkBottom <==> |r| > 1 && j < |r| - 1)
  {
    assert forall i :: 0 <= i < |spine| ==> BranchItem(s, relate, spine[i], i, |spine|).Some?;
    BranchAllFound(s, relate, spine, 0);
  }
}
