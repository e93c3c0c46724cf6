/** Opening and refreshing the sidebar (handlers/sidebarController.ts): the
    snapshot built from the cache, its status, the reordering of replies
    and the guards that discard stale results. The detail requests these
    start are the business of the detail handler; here their outcome is a
    parameter. */
module SidebarController {
  import opened Wrappers
  import opened Ordered
  import opened TweetTypes
  import opened RelationStore
  import opened TweetsStore
  import opened RelatedTweets
  import opened SidebarStore

  /** `computeSidebarStatus`: partial exactly when some, but fewer than the
      record's link count, related tweets are known; success otherwise, also
      when none are. */
  function ComputeStatus(rel: Option<Relation>, relate: Option<Related>): (r: Status)
    ensures r == Partial <==> 0 < Size(relate) < CountRelationship(rel)
    ensures r == Success || r == Partial
    ensures Size(relate) == 0 ==> r == Success
  {
    var n := Size(relate);
    if n > 0 && n < CountRelationship(rel) then Partial else Success
  }

  /* ---------------------------- reordering ---------------------------- */

  /** A reply that `reorderReplies` moves forward: the tweet the sidebar
      shows, or one of the tweets it currently lists as related. */
  predicate Priority(ui: State, x: string) {
    ui.tweetId == Some(x) || (ui.relateTweets.Some? && x in ui.relateTweets.value.keys)
  }

  function Later(ui: State): string -> bool {
    (x: string) => !Priority(ui, x)
  }

  /** The replies moved forward, in order: the shown tweet if it is a
      reply, then the related tweets that are replies, in map order. */
  function Prioritised(replies: seq<string>, ui: State): (p: seq<string>)
    ensures forall x :: x in p <==> x in replies && Priority(ui, x)
    ensures NoDup(p)
    ensures ui.tweetId.Some? && ui.tweetId.value in replies ==> |p| > 0 && p[0] == ui.tweetId.value
  {
    var first := if ui.tweetId.Some? && ui.tweetId.value in replies then [ui.tweetId.value] else [];
    if ui.relateTweets.Some? then
      var p := SetAddAll(first, Filter(ui.relateTweets.value.keys, (id: string) => id in replies));
      assert |first| > 0 ==> p[..|first|] == first;
      p
    else first
  }

  /** `reorderReplies`: a record with replies gets them as a new set, the
      prioritised replies first and the others after them in their original
      order; any other record is returned as it is. */
  function ReorderReplies(rel: Option<Relation>, ui: State): (r: Option<Relation>)
    ensures rel.None? || rel.value.replies == [] ==> r == rel
    ensures r.Some? <==> rel.Some?
    ensures r.Some? ==> r.value.(replies := rel.value.replies) == rel.value
    ensures r.Some? ==> forall x :: x in r.value.replies <==> x in rel.value.replies
  {
    if rel.None? || rel.value.replies == [] then rel
    else
      var replies := rel.value.replies;
      var first := if ui.tweetId.Some? && ui.tweetId.value in replies then [ui.tweetId.value] else [];
      var withRelated := if ui.relateTweets.Some?
        then SetAddAll(first, Filter(ui.relateTweets.value.keys, (id: string) => id in replies))
        else first;
      Some(rel.value.(replies := SetAddAll(withRelated, replies)))
  }

  /** For a set of replies (no duplicates) the new order is the prioritised
      replies followed by all the others in their original order: the shown
      tweet comes first when it is a reply, no prioritised reply comes after
      another one, and nothing is lost or repeated. */
  lemma ReorderRepliesOrder(rel: Relation, ui: State)
    requires rel.replies != [] && NoDup(rel.replies)
    ensures var ordered := ReorderReplies(Some(rel), ui).value.replies;
      ordered == Prioritised(rel.replies, ui) + Filter(rel.replies, Later(ui))
      && NoDup(ordered) && |ordered| == |rel.replies|
      && (ui.tweetId.Some? && ui.tweetId.value in rel.replies ==> ordered[0] == ui.tweetId.value)
      && (forall i, j :: 0 <= i < j < |ordered| && Priority(ui, ordered[j]) ==> Priority(ui, ordered[i]))
  {
    var replies := rel.replies;
    var p := Prioritised(replies, ui);
    var rest := Filter(replies, Later(ui));
    ReorderAsSplit(rel, ui);
    SplitParts(replies, ui);
    PriorityFirst(p, rest, ui);
    DisjointAppendNoDup(p, rest, ui);
    NoDupSameElements(p + rest, replies);
    if ui.tweetId.Some? && ui.tweetId.value in replies {
      assert (p + rest)[0] == p[0];
    }
  }

  /** The two parts of the new order: prioritised replies, then the others,
      each without repeats, together holding exactly the replies. */
  lemma SplitParts(replies: seq<string>, ui: State)
    requires NoDup(replies)
    ensures var p := Prioritised(replies, ui);
            var rest := Filter(replies, Later(ui));
            && (forall i :: 0 <= i < |p| ==> Priority(ui, p[i]))
            && (forall i :: 0 <= i < |rest| ==> !Priority(ui, rest[i]))
            && NoDup(p) && NoDup(rest)
            && (forall x :: x in p + rest <==> x in replies)
  {
    var p := Prioritised(replies, ui);
    var rest := Filter(replies, Later(ui));
    FilterNoDup(replies, Later(ui));
    assert forall i :: 0 <= i < |rest| ==> Later(ui)(rest[i]);
    assert forall i :: 0 <= i < |p| ==> p[i] in p;
    forall x ensures x in p + rest <==> x in replies {
      assert x in rest <==> x in replies && Later(ui)(x);
    }
  }

  lemma ReorderAsSplit(rel: Relation, ui: State)
    requires rel.replies != [] && NoDup(rel.replies)
    ensures ReorderReplies(Some(rel), ui).value.replies == Prioritised(rel.replies, ui) + Filter(rel.replies, Later(ui))
  {
    SetAddAllSplit(Prioritised(rel.replies, ui), rel.replies, Later(ui));
  }

  lemma PriorityFirst(p: seq<string>, rest: seq<string>, ui: State)
    requires forall i :: 0 <= i < |p| ==> Priority(ui, p[i])
    requires forall i :: 0 <= i < |rest| ==> !Priority(ui, rest[i])
    ensures forall i, j :: 0 <= i < j < |p + rest| && Priority(ui, (p + rest)[j]) ==> Priority(ui, (p + rest)[i])
  {
    var o := p + rest;
    assert forall j :: |p| <= j < |o| ==> o[j] == rest[j - |p|];
    assert forall i :: 0 <= i < |p| ==> o[i] == p[i];
  }

  lemma DisjointAppendNoDup(p: seq<string>, rest: seq<string>, ui: State)
    requires NoDup(p) && NoDup(rest)
    requires forall i :: 0 <= i < |p| ==> Priority(ui, p[i])
    requires forall i :: 0 <= i < |rest| ==> !Priority(ui, rest[i])
    ensures NoDup(p + rest)
  {
    var o := p + rest;
    forall i, j | 0 <= i < j < |o| ensures o[i] != o[j] {
      if i < |p| && j >= |p| {
        assert o[j] == rest[j - |p|];
      } else if i >= |p| {
        assert o[i] == rest[i - |p|] && o[j] == rest[j - |p|];
      }
    }
  }

  /** Two duplicate-free sequences with the same elements have the same
      length. */
  lemma {:induction false} NoDupSameElements(a: seq<string>, b: seq<string>)
    requires NoDup(a) && NoDup(b)
    requires forall x :: x in a <==> x in b
    ensures |a| == |b|
  {
    NoDupCard(a);
    NoDupCard(b);
    assert (set x | x in a) == (set x | x in b);
  }

  lemma {:induction false} NoDupCard(a: seq<string>)
    requires NoDup(a)
    ensures |set x | x in a| == |a|
    decreases |a|
  {
    if a != [] {
      assert NoDup(a[1..]) by {
        forall i, j | 0 <= i < j < |a[1..]| ensures a[1..][i] != a[1..][j] {
          assert a[1..][i] == a[i + 1] && a[1..][j] == a[j + 1];
        }
      }
      NoDupCard(a[1..]);
      assert (set x | x in a) == (set x | x in a[1..]) + {a[0]};
      assert a[0] !in a[1..] by {
        forall j | 0 <= j < |a[1..]| ensures a[1..][j] != a[0] {
          assert a[1..][j] == a[j + 1];
        }
      }
    }
  }

  /** Reordering a set of replies does not change the link count, so it
      does not change the status. */
  lemma ReorderKeepsCount(rel: Option<Relation>, ui: State)
    requires rel.Some? ==> NoDup(rel.value.replies)
    ensures CountRelationship(ReorderReplies(rel, ui)) == CountRelationship(rel)
  {
    if rel.Some? && rel.value.replies != [] {
      ReorderRepliesOrder(rel.value, ui);
    }
  }

  /* ----------------------------- snapshots ----------------------------- */

  datatype Snapshot = Snapshot(tweet: TweetData, relationship: Option<Relation>, relateTweets: Option<Related>, status: Status)

  /** `buildSidebarSnapshot`: none exactly when the tweet is not cached;
      otherwise the tweet, its reordered record, the expanded related map
      and the status computed from those two. */
  function BuildSnapshot(s: Store, ui: State, id: string, fuel: nat): (r: Option<Snapshot>)
    ensures r.None? <==> id !in s.tweets.m
    ensures r.Some? ==> r.value.tweet == s.tweets.m[id]
    ensures r.Some? ==> r.value.relationship == ReorderReplies(Get(s.relations, id), ui)
    ensures r.Some? ==> r.value.relateTweets == Expand(s, Get(s.relations, id), OneHop(s, id).value.2, fuel)
    ensures r.Some? ==> r.value.status == ComputeStatus(r.value.relationship, r.value.relateTweets)
  {
    var data := OneHop(s, id);
    if data.None? then None
    else
      var (tweet, rel, relate) := data.value;
      var extended := Expand(s, rel, relate, fuel);
      var ordered := ReorderReplies(rel, ui);
      Some(Snapshot(tweet, ordered, extended, ComputeStatus(ordered, extended)))
  }

  function Show(ui: State, snap: Snapshot): State {
    OpenTweet(ui, snap.tweet, snap.relationship, snap.relateTweets, snap.status)
  }

  /** What `openTweetInSidebar` does: whether it opened, the store (a
      detail lookup may evict an expired entry), the sidebar state, and the
      controller data of the background detail request it starts, if any. */
  datatype Opened = Opened(shown: bool, store: Store, ui: State, hydrate: Option<Nullable<string>>)

  /** `openTweetInSidebar`: without a snapshot nothing changes and the
      answer is false; otherwise the sidebar shows the snapshot, and a
      background detail request is started when no fresh detail is
      cached. */
  function OpenTweetInSidebar(s: Store, ui: State, tweetId: string, now: int, fuel: nat): (r: Opened)
    ensures !r.shown <==> tweetId !in s.tweets.m
    ensures !r.shown ==> r.store == s && r.ui == ui && r.hydrate.None?
    ensures r.shown ==> r.ui.isOpen && r.ui.pinned == ui.pinned && r.ui.width == ui.width
    ensures r.shown ==> r.ui == Show(ui, BuildSnapshot(s, ui, tweetId, fuel).value)
    ensures r.shown ==> (r.hydrate.Some? <==> GetTweetDetail(s, tweetId, now).1.None?)
    ensures r.hydrate.Some? ==> r.hydrate.value == ToNullable(s.tweets.m[tweetId].controllerData)
  {
    var snap := BuildSnapshot(s, ui, tweetId, fuel);
    if snap.None? then Opened(false, s, ui, None)
    else
      var looked := GetTweetDetail(s, tweetId, now);
      var hydrate := if looked.1.None? then Some(ToNullable(snap.value.tweet.controllerData)) else None;
      Opened(true, looked.0, Show(ui, snap.value), hydrate)
  }

  /** `controllerData ?? null`. */
  function ToNullable(x: Option<string>): (r: Nullable<string>)
    ensures r.Value? <==> x.Some?
    ensures x.Some? ==> r.value == x.value
  {
    if x.Some? then Value(x.value) else Null
  }

  /** The end of `hydrateDetailInBackground`, given the store after the
      request and whether it succeeded: the result is discarded when the
      sidebar shows another tweet by then, or when the request failed. */
  function HydrateDone(s: Store, ui: State, tweetId: string, succeeded: bool, fuel: nat): (r: State)
    ensures ui.tweetId != Some(tweetId) || !succeeded ==> r == ui
    ensures ui.tweetId == Some(tweetId) && succeeded && tweetId in s.tweets.m ==>
      r == Show(ui, BuildSnapshot(s, ui, tweetId, fuel).value)
    ensures tweetId !in s.tweets.m ==> r == ui
  {
    if ui.tweetId != Some(tweetId) || !succeeded then ui
    else
      var snap := BuildSnapshot(s, ui, tweetId, fuel);
      if snap.None? then ui else Show(ui, snap.value)
  }

  /** How `refreshTweetDetail` starts: not at all, or with a forced detail
      request carrying the record's controller data. */
  datatype RefreshStart = NoRefresh(store: Store) | Refresh(store: Store, cd: Nullable<string>)

  /** `refreshTweetDetail` up to the request: only for the tweet the
      sidebar shows, and only when its record is cached or can be resolved
      from a cached retweet. */
  function RefreshTweetDetail(s: Store, ui: State, tweetId: string): (r: RefreshStart)
    ensures ui.tweetId != Some(tweetId) ==> r == NoRefresh(s)
    ensures ui.tweetId == Some(tweetId) ==> r.store == ResolveTweet(s, tweetId).0
    ensures r.Refresh? <==> ui.tweetId == Some(tweetId) && ResolveTweet(s, tweetId).1.Some?
    ensures r.Refresh? ==> r.cd == ToNullable(ResolveTweet(s, tweetId).1.value.controllerData)
    ensures tweetId in s.tweets.m && ui.tweetId == Some(tweetId) ==> r == Refresh(s, ToNullable(s.tweets.m[tweetId].controllerData))
  {
    if ui.tweetId != Some(tweetId) then NoRefresh(s)
    else
      var (s1, record) := ResolveTweet(s, tweetId);
      if record.None? then NoRefresh(s1) else Refresh(s1, ToNullable(record.value.controllerData))
  }

  /** The end of `refreshTweetDetail`, given the refreshed detail (`None`
      when the request failed): stale or failed results change nothing;
      otherwise the detail is applied to the cache and the sidebar shows
      the new snapshot. */
  function RefreshDone(s: Store, ui: State, tweetId: string, detail: Option<TimelineResponse>, fuel: nat): (r: (Store, State))
    ensures ui.tweetId != Some(tweetId) || detail.None? ==> r == (s, ui)
    ensures ui.tweetId == Some(tweetId) && detail.Some? ==>
      r.0 == ApplyDetailToTweetCache(s, tweetId, detail.value)
      && (tweetId in r.0.tweets.m ==> r.1 == Show(ui, BuildSnapshot(r.0, ui, tweetId, fuel).value))
      && (tweetId !in r.0.tweets.m ==> r.1 == ui)
  {
    if ui.tweetId != Some(tweetId) || detail.None? then (s, ui)
    else
      var s1 := ApplyDetailToTweetCache(s, tweetId, detail.value);
      var snap := BuildSnapshot(s1, ui, tweetId, fuel);
      (s1, if snap.None? then ui else Show(ui, snap.value))
  }

  /** A refresh that comes back after the user has opened another tweet is
      dropped entirely, and closing the sidebar makes any outstanding
      background result stale. */
  lemma StaleResultsDropped(s: Store, ui: State, tweetId: string, detail: Option<TimelineResponse>, succeeded: bool, fuel: nat)
    ensures RefreshDone(s, Close(ui), tweetId, detail, fuel) == (s, Close(ui))
    ensures HydrateDone(s, Close(ui), tweetId, succeeded, fuel) == Close(ui)
  {
  }
}
