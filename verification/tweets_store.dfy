/** The tweet cache of store/tweetsStore.ts: the tweet records, the relation
    graph derived from them, the author avatars, the short-lived cache of
    tweet-detail responses and the tombstone store, as one immutable value
    that each operation maps to a new one. */
module TweetsStore {
  import opened Wrappers
  import opened Ordered
  import opened TweetTypes
  import opened ResponseData
  import opened RelationStore
  import opened AvatarStore

  /** A cached tweet: the tweet, the controller data it was seen with and
      the limited actions of its visibility wrapper (`null` as `None`). */
  datatype TweetData = TweetData(
    result: Tweet,
    controllerData: Option<string>,
    limitedActions: Option<seq<LimitedAction>>)

  datatype CachedDetail = CachedDetail(detail: TimelineResponse, cachedAt: int)

  /** A tombstone recorded for a deleted tweet. */
  datatype DeletedTweet = DeletedTweet(
    tweetId: string,
    parentTweetId: Option<string>,
    tombstone: Option<TombstoneText>,
    recordedAt: int)

  datatype Store = Store(
    tweets: Dict<TweetData>,
    relations: Relations,
    avatars: Avatars,
    details: map<string, CachedDetail>,
    deleted: map<string, DeletedTweet>)

  function EmptyStore(): (s: Store)
    ensures s.tweets.Valid() && s.relations == map[]
  {
    Store(EmptyDict(), map[], map[], map[], map[])
  }

  const DetailTtlMs: int := 60000

  /** `x ?? undefined` on the limited actions a normalised payload carries:
      `null` is passed on as "not given", so the stored value is kept. */
  function LimitedArg(la: Nullable<seq<LimitedAction>>): (r: Nullable<seq<LimitedAction>>)
    ensures r.Null? == false
    ensures la.Value? ==> r == la
  {
    if la.Value? then la else Undefined
  }

  /** The record `storeTweet` writes: the new tweet, the given controller
      data or else the previous one, and the given limited actions, the
      previous ones when they are not given at all, none for `null`. */
  function Record(prev: Option<TweetData>, t: Tweet, cd: Option<string>, la: Nullable<seq<LimitedAction>>): (r: TweetData)
    ensures r.result == t
    ensures cd.Some? ==> r.controllerData == cd
    ensures cd.None? ==> r.controllerData == (if prev.Some? then prev.value.controllerData else None)
    ensures la.Value? ==> r.limitedActions == Some(la.value)
    ensures la.Null? ==> r.limitedActions == None
    ensures la.Undefined? ==> r.limitedActions == (if prev.Some? then prev.value.limitedActions else None)
  {
    TweetData(
      t,
      Or(cd, if prev.Some? then prev.value.controllerData else None),
      if la.Undefined? then (if prev.Some? then prev.value.limitedActions else None) else la.ToOption())
  }

  /** The quoted tweet, normalised. */
  function QuotedOf(t: Tweet): (r: Option<Normalized>)
    ensures r.Some? ==> TweetSize(r.value.tweet) < TweetSize(t) && Truthy(TweetId(r.value.tweet))
  {
    Normalize(t.quoted)
  }

  /** The retweeted tweet: `retweeted_status_result` on the tweet, else on
      its legacy object. */
  function RetweetedOf(t: Tweet): (r: Option<Normalized>)
    ensures r.Some? ==> TweetSize(r.value.tweet) < TweetSize(t) && Truthy(TweetId(r.value.tweet))
    ensures Normalize(t.retweeted).Some? ==> r == Normalize(t.retweeted)
  {
    Or(Normalize(t.retweeted), if t.legacy.Some? then Normalize(t.legacy.value.retweeted) else None)
  }

  /** The relation graph a refresh starts from: the tweet's own record
      removed. */
  function ResetIf(rs: Relations, t: Tweet, refresh: bool): (r: Relations)
    ensures r.Keys <= rs.Keys
    ensures forall k :: k in r ==> r[k] == rs[k]
    ensures !refresh ==> r == rs
  {
    if refresh && Truthy(TweetId(t)) then rs - {TweetId(t).value} else rs
  }

  /** The quoted tweet's id when `analyze` stores it. */
  function QuoteTarget(t: Tweet): Option<string> {
    var q := QuotedOf(t);
    if q.Some? && Truthy(TweetId(q.value.tweet)) then TweetId(q.value.tweet) else None
  }

  /** The retweeted tweet's id when `analyze` stores it. */
  function RetweetTarget(t: Tweet): Option<string> {
    var rt := RetweetedOf(t);
    if rt.Some? && Truthy(TweetId(rt.value.tweet)) then TweetId(rt.value.tweet) else None
  }

  /** The own links `analyze` gives the tweet, over those it had: each link
      the tweet carries replaces the old one, and one it lacks leaves the
      old one alone. */
  function LinksAfter(prev: OwnLinks, t: Tweet): OwnLinks {
    var parent := ParentId(t);
    OwnLinks(Or(if Truthy(parent) then parent else None, prev.replyTo),
             Or(QuoteTarget(t), prev.quote), Or(RetweetTarget(t), prev.retweet))
  }

  /** The ids `storeTweet` writes a record under: the tweet's own, then
      those of its quoted and retweeted tweets, in turn. */
  ghost function StoredIds(t: Tweet): set<string>
    decreases TweetSize(t), 2
  {
    if !Truthy(TweetId(t)) then {} else {TweetId(t).value} + QuoteIds(t) + RetweetIds(t)
  }

  ghost function QuoteIds(t: Tweet): set<string>
    decreases TweetSize(t), 1
  {
    var q := QuotedOf(t);
    if q.Some? && Truthy(TweetId(q.value.tweet)) then StoredIds(q.value.tweet) else {}
  }

  ghost function RetweetIds(t: Tweet): set<string>
    decreases TweetSize(t), 1
  {
    var rt := RetweetedOf(t);
    if rt.Some? && Truthy(TweetId(rt.value.tweet)) then StoredIds(rt.value.tweet) else {}
  }

  /** The ids written below the tweet itself. */
  ghost function InnerIds(t: Tweet): set<string> {
    QuoteIds(t) + RetweetIds(t)
  }

  /** `storeTweet(tweet, controllerData, refreshRelation, limitedActions)`:
      a tweet without an id is ignored; otherwise its record is replaced,
      the author's avatar remembered and its relations derived, which stores
      the quoted and retweeted tweets in turn. */
  function StoreTweet(s: Store, t: Tweet, cd: Option<string>, refresh: bool, la: Nullable<seq<LimitedAction>>): (r: Store)
    ensures !Truthy(TweetId(t)) ==> r == s
    ensures Truthy(TweetId(t)) ==> TweetId(t).value in r.tweets.m
    ensures s.tweets.m.Keys <= r.tweets.m.Keys
    ensures |s.tweets.keys| <= |r.tweets.keys| && r.tweets.keys[..|s.tweets.keys|] == s.tweets.keys
    ensures s.tweets.Valid() ==> r.tweets.Valid()
    ensures r.details == s.details && r.deleted == s.deleted
    ensures Grows(ResetIf(s.relations, t, refresh), r.relations)
    ensures !refresh && Mirrored(s.relations) ==> Mirrored(r.relations)
    decreases TweetSize(t), 2
  {
    var id := TweetId(t);
    if !Truthy(id) then s
    else
      var written := s.(
        tweets := s.tweets.Put(id.value, Record(s.tweets.Get(id.value), t, cd, la)),
        avatars := RememberUserAvatarFromTweet(s.avatars, t));
      assert written.tweets.keys[..|s.tweets.keys|] == s.tweets.keys;
      var r := Analyze(written, t, refresh);
      PrefixTrans(s.tweets.keys, written.tweets.keys, r.tweets.keys);
      r
  }

  /** `analyzeAndCreateRelations`: with a refresh the tweet's own record is
      dropped first; then the reply edge to `in_reply_to_status_id_str ??
      in_reply_to_tweet_id_str`, the quote edge (storing the quoted tweet)
      and the retweet edge (storing the retweeted tweet) are added. */
  function Analyze(s: Store, t: Tweet, refresh: bool): (r: Store)
    ensures !Truthy(TweetId(t)) ==> r == s
    ensures s.tweets.m.Keys <= r.tweets.m.Keys
    ensures |s.tweets.keys| <= |r.tweets.keys| && r.tweets.keys[..|s.tweets.keys|] == s.tweets.keys
    ensures s.tweets.Valid() ==> r.tweets.Valid()
    ensures r.details == s.details && r.deleted == s.deleted
    ensures Grows(ResetIf(s.relations, t, refresh), r.relations)
    ensures !refresh && Mirrored(s.relations) ==> Mirrored(r.relations)
    decreases TweetSize(t), 1
  {
    var id := TweetId(t);
    if !Truthy(id) then s
    else
      var rs0 := ResetIf(s.relations, t, refresh);
      var parent := ParentId(t);
      var rs1 := if Truthy(parent) then AddEdge(rs0, id.value, parent.value, Reply) else rs0;
      var s1 := s.(relations := rs1);
      var s2 := QuoteStep(s1, id.value, t);
      var s3 := RetweetStep(s2, id.value, t);
      PrefixTrans(s.tweets.keys, s2.tweets.keys, s3.tweets.keys);
      GrowsRefl(rs0);
      GrowsTrans(rs0, rs1, s2.relations);
      GrowsTrans(rs0, s2.relations, s3.relations);
      if Truthy(parent) then
        AddEdgeKeepsMirrored(rs0, id.value, parent.value, Reply);
        s3
      else s3
  }

  /** The quote edge and the store of the quoted tweet, with no controller
      data and no refresh. */
  function QuoteStep(s: Store, id: string, t: Tweet): (r: Store)
    ensures s.tweets.m.Keys <= r.tweets.m.Keys
    ensures |s.tweets.keys| <= |r.tweets.keys| && r.tweets.keys[..|s.tweets.keys|] == s.tweets.keys
    ensures s.tweets.Valid() ==> r.tweets.Valid()
    ensures r.details == s.details && r.deleted == s.deleted
    ensures Grows(s.relations, r.relations)
    ensures Mirrored(s.relations) ==> Mirrored(r.relations)
    decreases TweetSize(t), 0
  {
    var q := QuotedOf(t);
    if q.Some? && Truthy(TweetId(q.value.tweet)) then
      var s1 := s.(relations := AddEdge(s.relations, id, TweetId(q.value.tweet).value, Quote));
      AddEdgeKeepsMirrored(s.relations, id, TweetId(q.value.tweet).value, Quote);
      var r := StoreTweet(s1, q.value.tweet, None, false, LimitedArg(q.value.limitedActions));
      GrowsTrans(s.relations, s1.relations, r.relations);
      r
    else
      GrowsRefl(s.relations);
      s
  }

  /** The retweet edge and the store of the retweeted tweet, with no
      controller data and no refresh. */
  function RetweetStep(s: Store, id: string, t: Tweet): (r: Store)
    ensures s.tweets.m.Keys <= r.tweets.m.Keys
    ensures |s.tweets.keys| <= |r.tweets.keys| && r.tweets.keys[..|s.tweets.keys|] == s.tweets.keys
    ensures s.tweets.Valid() ==> r.tweets.Valid()
    ensures r.details == s.details && r.deleted == s.deleted
    ensures Grows(s.relations, r.relations)
    ensures Mirrored(s.relations) ==> Mirrored(r.relations)
    decreases TweetSize(t), 0
  {
    var rt := RetweetedOf(t);
    if rt.Some? && Truthy(TweetId(rt.value.tweet)) then
      var s1 := s.(relations := AddEdge(s.relations, id, TweetId(rt.value.tweet).value, Retweet));
      AddEdgeKeepsMirrored(s.relations, id, TweetId(rt.value.tweet).value, Retweet);
      var r := StoreTweet(s1, rt.value.tweet, None, false, LimitedArg(rt.value.limitedActions));
      GrowsTrans(s.relations, s1.relations, r.relations);
      r
    else
      GrowsRefl(s.relations);
      s
  }

  /** `storeTweet` replaces the record under the tweet's id wholesale,
      unless a quoted or retweeted tweet stored after it has the same id;
      no record outside the ids it stores changes. */
  lemma {:induction false} StoreTweetRecord(s: Store, t: Tweet, cd: Option<string>, refresh: bool, la: Nullable<seq<LimitedAction>>)
    ensures var r := StoreTweet(s, t, cd, refresh, la);
      r.tweets.m - StoredIds(t) == s.tweets.m - StoredIds(t)
    ensures Truthy(TweetId(t)) && TweetId(t).value !in InnerIds(t) ==>
      var id := TweetId(t).value;
      StoreTweet(s, t, cd, refresh, la).tweets.m[id] == Record(s.tweets.Get(id), t, cd, la)
    decreases TweetSize(t), 2
  {
    var id := TweetId(t);
    if Truthy(id) {
      var rec := Record(s.tweets.Get(id.value), t, cd, la);
      var written := s.(
        tweets := s.tweets.Put(id.value, rec),
        avatars := RememberUserAvatarFromTweet(s.avatars, t));
      var r := Analyze(written, t, refresh);
      assert StoreTweet(s, t, cd, refresh, la) == r;
      AnalyzeKeepsRecords(written, t, refresh);
      MinusPut(s.tweets.m, r.tweets.m, id.value, rec, QuoteIds(t), RetweetIds(t));
      if id.value !in InnerIds(t) {
        var inner := InnerIds(t);
        assert written.tweets.m == s.tweets.m[id.value := rec];
        assert (written.tweets.m - inner)[id.value] == rec;
        assert r.tweets.m[id.value] == (r.tweets.m - inner)[id.value];
      }
    }
  }

  /** `analyze` writes only the records of the quoted and retweeted tweets
      it stores. */
  lemma {:induction false} AnalyzeKeepsRecords(s: Store, t: Tweet, refresh: bool)
    ensures Analyze(s, t, refresh).tweets.m - InnerIds(t) == s.tweets.m - InnerIds(t)
    decreases TweetSize(t), 1
  {
    var id := TweetId(t);
    if Truthy(id) {
      var rs0 := ResetIf(s.relations, t, refresh);
      var parent := ParentId(t);
      var rs1 := if Truthy(parent) then AddEdge(rs0, id.value, parent.value, Reply) else rs0;
      var s1 := s.(relations := rs1);
      var s2 := QuoteStep(s1, id.value, t);
      var s3 := RetweetStep(s2, id.value, t);
      assert Analyze(s, t, refresh) == s3;
      QuoteStepKeepsRecords(s1, id.value, t);
      RetweetStepKeepsRecords(s2, id.value, t);
      MinusTrans(s.tweets.m, s2.tweets.m, s3.tweets.m, QuoteIds(t), RetweetIds(t));
    }
  }

  lemma {:induction false} QuoteStepKeepsRecords(s: Store, id: string, t: Tweet)
    ensures QuoteStep(s, id, t).tweets.m - QuoteIds(t) == s.tweets.m - QuoteIds(t)
    decreases TweetSize(t), 0
  {
    var q := QuotedOf(t);
    if q.Some? && Truthy(TweetId(q.value.tweet)) {
      var s1 := s.(relations := AddEdge(s.relations, id, TweetId(q.value.tweet).value, Quote));
      assert QuoteStep(s, id, t) == StoreTweet(s1, q.value.tweet, None, false, LimitedArg(q.value.limitedActions));
      StoreTweetRecord(s1, q.value.tweet, None, false, LimitedArg(q.value.limitedActions));
    }
  }

  lemma {:induction false} RetweetStepKeepsRecords(s: Store, id: string, t: Tweet)
    ensures RetweetStep(s, id, t).tweets.m - RetweetIds(t) == s.tweets.m - RetweetIds(t)
    decreases TweetSize(t), 0
  {
    var rt := RetweetedOf(t);
    if rt.Some? && Truthy(TweetId(rt.value.tweet)) {
      var s1 := s.(relations := AddEdge(s.relations, id, TweetId(rt.value.tweet).value, Retweet));
      assert RetweetStep(s, id, t) == StoreTweet(s1, rt.value.tweet, None, false, LimitedArg(rt.value.limitedActions));
      StoreTweetRecord(s1, rt.value.tweet, None, false, LimitedArg(rt.value.limitedActions));
    }
  }

  /** `storeTweet` sets the tweet's own links from the tweet: each link the
      tweet carries replaces the old one, and after a refresh the links it
      lacks are gone. No other tweet's own links change, except those of
      the quoted and retweeted tweets it stores in turn. */
  lemma {:induction false} StoreTweetLinks(s: Store, t: Tweet, cd: Option<string>, refresh: bool, la: Nullable<seq<LimitedAction>>)
    ensures LinksKept(s.relations, StoreTweet(s, t, cd, refresh, la).relations, StoredIds(t))
    ensures Truthy(TweetId(t)) && TweetId(t).value !in InnerIds(t) ==>
      var id := TweetId(t).value;
      LinksOf(StoreTweet(s, t, cd, refresh, la).relations, id)
      == LinksAfter(if refresh then OwnLinks(None, None, None) else LinksOf(s.relations, id), t)
    decreases TweetSize(t), 2
  {
    var id := TweetId(t);
    if Truthy(id) {
      var written := s.(
        tweets := s.tweets.Put(id.value, Record(s.tweets.Get(id.value), t, cd, la)),
        avatars := RememberUserAvatarFromTweet(s.avatars, t));
      assert StoreTweet(s, t, cd, refresh, la) == Analyze(written, t, refresh);
      AnalyzeLinks(written, t, refresh);
    }
  }

  /** `analyze` sets the tweet's own links from the tweet and, through the
      tweets it stores, no own link outside their ids. */
  lemma {:induction false} AnalyzeLinks(s: Store, t: Tweet, refresh: bool)
    ensures LinksKept(s.relations, Analyze(s, t, refresh).relations, StoredIds(t))
    ensures Truthy(TweetId(t)) && TweetId(t).value !in InnerIds(t) ==>
      var id := TweetId(t).value;
      LinksOf(Analyze(s, t, refresh).relations, id)
      == LinksAfter(if refresh then OwnLinks(None, None, None) else LinksOf(s.relations, id), t)
    decreases TweetSize(t), 1
  {
    var id := TweetId(t);
    if Truthy(id) {
      var rs1 := ReplyStage(s.relations, t, refresh);
      var s1 := s.(relations := rs1);
      var s2 := QuoteStep(s1, id.value, t);
      var s3 := RetweetStep(s2, id.value, t);
      assert Analyze(s, t, refresh) == s3;
      ReplyStageLinks(s.relations, t, refresh);
      QuoteStepLinks(s1, id.value, t);
      RetweetStepLinks(s2, id.value, t);
      ComposeLinks(s.relations, rs1, s2.relations, s3.relations, id.value, QuoteIds(t), RetweetIds(t),
                   LinksOf(rs1, id.value), QuoteTarget(t), RetweetTarget(t));
    }
  }

  /** The relation graph after the refresh, if any, and the reply edge. */
  function ReplyStage(rs: Relations, t: Tweet, refresh: bool): Relations
    requires Truthy(TweetId(t))
  {
    var rs0 := ResetIf(rs, t, refresh);
    var parent := ParentId(t);
    if Truthy(parent) then AddEdge(rs0, TweetId(t).value, parent.value, Reply) else rs0
  }

  /** The refresh and the reply edge touch the tweet's own links only,
      leaving the reply link set and the others as they were (or gone after
      a refresh). */
  lemma ReplyStageLinks(rs: Relations, t: Tweet, refresh: bool)
    requires Truthy(TweetId(t))
    ensures var id := TweetId(t).value;
      var parent := ParentId(t);
      var l0 := if refresh then OwnLinks(None, None, None) else LinksOf(rs, id);
      LinksKept(rs, ReplyStage(rs, t, refresh), {id})
      && LinksOf(ReplyStage(rs, t, refresh), id) == l0.(replyTo := Or(if Truthy(parent) then parent else None, l0.replyTo))
  {
    var id := TweetId(t).value;
    var rs0 := ResetIf(rs, t, refresh);
    ResetIfLinks(rs, t, refresh);
    var parent := ParentId(t);
    if Truthy(parent) {
      AddEdgeLinks(rs0, id, parent.value, Reply);
      LinksKeptTrans(rs, rs0, AddEdge(rs0, id, parent.value, Reply), {id}, {id}, {id});
    }
  }

  /** The reply stage, then the quote and retweet stages put together: each
      keeps the own links outside its ids, and the tweet's own links get the
      quote and retweet links over what the reply stage left. */
  lemma ComposeLinks(rs: Relations, rs1: Relations, rs2: Relations, rs3: Relations, id: string,
                     qids: set<string>, rids: set<string>, l1: OwnLinks, q: Option<string>, rt: Option<string>)
    requires LinksKept(rs, rs1, {id}) && LinksOf(rs1, id) == l1
    requires LinksKept(rs1, rs2, {id} + qids) && (id !in qids ==> LinksOf(rs2, id) == LinksOf(rs1, id).(quote := Or(q, LinksOf(rs1, id).quote)))
    requires LinksKept(rs2, rs3, {id} + rids) && (id !in rids ==> LinksOf(rs3, id) == LinksOf(rs2, id).(retweet := Or(rt, LinksOf(rs2, id).retweet)))
    ensures LinksKept(rs, rs3, {id} + qids + rids)
    ensures id !in qids + rids ==>
      var l2 := l1.(quote := Or(q, l1.quote));
      LinksOf(rs3, id) == l2.(retweet := Or(rt, l2.retweet))
  {
    LinksKeptTrans(rs, rs1, rs2, {id}, {id} + qids, {id} + qids);
    LinksKeptTrans(rs, rs2, rs3, {id} + qids, {id} + rids, {id} + qids + rids);
  }

  /** A refresh clears the tweet's own links and no other record's. */
  lemma ResetIfLinks(rs: Relations, t: Tweet, refresh: bool)
    requires Truthy(TweetId(t))
    ensures var id := TweetId(t).value;
      LinksOf(ResetIf(rs, t, refresh), id) == (if refresh then OwnLinks(None, None, None) else LinksOf(rs, id))
      && LinksKept(rs, ResetIf(rs, t, refresh), {id})
  {
  }

  lemma {:induction false} QuoteStepLinks(s: Store, id: string, t: Tweet)
    ensures var r := QuoteStep(s, id, t);
      LinksKept(s.relations, r.relations, {id} + QuoteIds(t))
      && (id !in QuoteIds(t) ==>
            LinksOf(r.relations, id) == LinksOf(s.relations, id).(quote := Or(QuoteTarget(t), LinksOf(s.relations, id).quote)))
    decreases TweetSize(t), 0
  {
    var q := QuotedOf(t);
    if q.Some? && Truthy(TweetId(q.value.tweet)) {
      var qid := TweetId(q.value.tweet).value;
      var s1 := s.(relations := AddEdge(s.relations, id, qid, Quote));
      AddEdgeLinks(s.relations, id, qid, Quote);
      assert QuoteStep(s, id, t) == StoreTweet(s1, q.value.tweet, None, false, LimitedArg(q.value.limitedActions));
      StoreTweetLinks(s1, q.value.tweet, None, false, LimitedArg(q.value.limitedActions));
    }
  }

  lemma {:induction false} RetweetStepLinks(s: Store, id: string, t: Tweet)
    ensures var r := RetweetStep(s, id, t);
      LinksKept(s.relations, r.relations, {id} + RetweetIds(t))
      && (id !in RetweetIds(t) ==>
            LinksOf(r.relations, id) == LinksOf(s.relations, id).(retweet := Or(RetweetTarget(t), LinksOf(s.relations, id).retweet)))
    decreases TweetSize(t), 0
  {
    var rt := RetweetedOf(t);
    if rt.Some? && Truthy(TweetId(rt.value.tweet)) {
      var rid := TweetId(rt.value.tweet).value;
      var s1 := s.(relations := AddEdge(s.relations, id, rid, Retweet));
      AddEdgeLinks(s.relations, id, rid, Retweet);
      assert RetweetStep(s, id, t) == StoreTweet(s1, rt.value.tweet, None, false, LimitedArg(rt.value.limitedActions));
      StoreTweetLinks(s1, rt.value.tweet, None, false, LimitedArg(rt.value.limitedActions));
    }
  }

  /** After `analyze` each edge of the tweet is in place on its target's
      side too: the parent lists the tweet among its replies, the quoted
      tweet has a record and the retweeted tweet lists the tweet among its
      retweeters. */
  lemma AnalyzeAddsEdges(s: Store, t: Tweet, refresh: bool)
    requires Truthy(TweetId(t))
    ensures var r := Analyze(s, t, refresh);
      var id := TweetId(t).value;
      (Truthy(ParentId(t)) ==> ParentId(t).value in r.relations && id in r.relations[ParentId(t).value].replies)
      && (QuoteTarget(t).Some? ==> QuoteTarget(t).value in r.relations)
      && (RetweetTarget(t).Some? ==>
            RetweetTarget(t).value in r.relations && id in r.relations[RetweetTarget(t).value].retweetBy)
  {
    var id := TweetId(t).value;
    var rs1 := ReplyStage(s.relations, t, refresh);
    var s1 := s.(relations := rs1);
    var s2 := QuoteStep(s1, id, t);
    var s3 := RetweetStep(s2, id, t);
    assert Analyze(s, t, refresh) == s3;
    GrowsTrans(rs1, s2.relations, s3.relations);
    QuoteStepEdge(s1, id, t);
    RetweetStepEdge(s2, id, t);
  }

  /** The quote stage leaves the quoted tweet with a record, and the
      retweet stage leaves the retweeted tweet listing the retweeter. */
  lemma QuoteStepEdge(s: Store, id: string, t: Tweet)
    ensures QuoteTarget(t).Some? ==> QuoteTarget(t).value in QuoteStep(s, id, t).relations
  {
    var q := QuotedOf(t);
    if q.Some? && Truthy(TweetId(q.value.tweet)) {
      var s1 := s.(relations := AddEdge(s.relations, id, TweetId(q.value.tweet).value, Quote));
      assert QuoteStep(s, id, t) == StoreTweet(s1, q.value.tweet, None, false, LimitedArg(q.value.limitedActions));
    }
  }

  lemma RetweetStepEdge(s: Store, id: string, t: Tweet)
    ensures var r := RetweetStep(s, id, t);
      RetweetTarget(t).Some? ==> RetweetTarget(t).value in r.relations && id in r.relations[RetweetTarget(t).value].retweetBy
  {
    var rt := RetweetedOf(t);
    if rt.Some? && Truthy(TweetId(rt.value.tweet)) {
      var s1 := s.(relations := AddEdge(s.relations, id, TweetId(rt.value.tweet).value, Retweet));
      assert RetweetStep(s, id, t) == StoreTweet(s1, rt.value.tweet, None, false, LimitedArg(rt.value.limitedActions));
    }
  }

  lemma PrefixTrans(a: seq<string>, b: seq<string>, c: seq<string>)
    requires |a| <= |b| && b[..|a|] == a
    requires |b| <= |c| && c[..|b|] == b
    ensures |a| <= |c| && c[..|a|] == a
  {
    assert c[..|a|] == c[..|b|][..|a|];
  }

  /** Two runs that each leave the records outside their own ids alone
      leave those outside both sets alone. */
  lemma MinusTrans(a: map<string, TweetData>, b: map<string, TweetData>, c: map<string, TweetData>, A: set<string>, B: set<string>)
    requires b - A == a - A && c - B == b - B
    ensures c - (A + B) == a - (A + B)
  {
    assert c - (A + B) == (c - B) - A;
    assert a - (A + B) == (a - A) - B;
    assert b - (A + B) == (b - A) - B == (b - B) - A;
  }

  /** A write under `k` followed by a run that leaves the records outside
      `A + B` alone leaves those outside `k`, `A` and `B` alone. */
  lemma MinusPut(a: map<string, TweetData>, c: map<string, TweetData>, k: string, v: TweetData, A: set<string>, B: set<string>)
    requires c - (A + B) == a[k := v] - (A + B)
    ensures c - ({k} + A + B) == a - ({k} + A + B)
  {
    assert c - ({k} + A + B) == (c - (A + B)) - {k};
    assert a - ({k} + A + B) == (a[k := v] - (A + B)) - {k};
  }

  lemma GrowsRefl(rs: Relations)
    ensures Grows(rs, rs)
  {
  }

  lemma GrowsTrans(a: Relations, b: Relations, c: Relations)
    requires Grows(a, b) && Grows(b, c)
    ensures Grows(a, c)
  {
  }

  /* ------------------------------ lookups ------------------------------ */

  /** `resolveTweet`: the cached record, or else the first cached tweet (in
      insertion order) whose retweeted tweet has the id is stored, with that
      retweet's controller data, and its new record returned. */
  function ResolveTweet(s: Store, id: string): (r: (Store, Option<TweetData>))
    ensures id in s.tweets.m ==> r == (s, Some(s.tweets.m[id]))
    ensures r.1.Some? ==> id in r.0.tweets.m && r.1 == Some(r.0.tweets.m[id])
    ensures r.1.None? ==> r.0 == s
    ensures id !in s.tweets.m && r.1.None? ==>
      forall v :: v in s.tweets.Values() ==> !RetweetOfId(v, id)
    ensures id !in s.tweets.m && r.1.Some? ==>
      exists v :: v in s.tweets.Values() && RetweetOfId(v, id)
  {
    if id in s.tweets.m then (s, Some(s.tweets.m[id]))
    else ResolveFrom(s, s.tweets.Values(), id)
  }

  /** A cached tweet whose retweeted tweet has the id `id`. */
  predicate RetweetOfId(v: TweetData, id: string) {
    RetweetedOf(v.result).Some? && TweetId(RetweetedOf(v.result).value.tweet) == Some(id)
  }

  function ResolveFrom(s: Store, candidates: seq<TweetData>, id: string): (r: (Store, Option<TweetData>))
    ensures r.1.Some? ==> id in r.0.tweets.m && r.1 == Some(r.0.tweets.m[id])
    ensures r.1.None? ==> r.0 == s && forall v :: v in candidates ==> !RetweetOfId(v, id)
    ensures r.1.Some? ==> exists v :: v in candidates && RetweetOfId(v, id)
    ensures var k := FirstRetweet(candidates, id);
            r.1.Some? ==> (k < |candidates|
              && r.0 == StoreTweet(s, RetweetedOf(candidates[k].result).value.tweet, candidates[k].controllerData,
                                   false, LimitedArg(RetweetedOf(candidates[k].result).value.limitedActions)))
  {
    if candidates == [] then (s, None)
    else
      var c := candidates[0];
      var rt := RetweetedOf(c.result);
      if rt.None? || TweetId(rt.value.tweet) != Some(id) then
        var r := ResolveFrom(s, candidates[1..], id);
        assert forall v :: v in candidates ==> v == c || v in candidates[1..];
        assert FirstRetweet(candidates, id) == 1 + FirstRetweet(candidates[1..], id);
        r
      else
        var s1 := StoreTweet(s, rt.value.tweet, c.controllerData, false, LimitedArg(rt.value.limitedActions));
        assert c in candidates && RetweetOfId(c, id);
        (s1, Some(s1.tweets.m[id]))
  }

  /** The position of the first candidate retweeting `id`, or the number of
      candidates when none does. */
  function FirstRetweet(candidates: seq<TweetData>, id: string): (k: nat)
    ensures k <= |candidates|
    ensures k < |candidates| ==> RetweetOfId(candidates[k], id)
    ensures forall j :: 0 <= j < k ==> !RetweetOfId(candidates[j], id)
  {
    if candidates == [] then 0
    else if RetweetOfId(candidates[0], id) then 0
    else
      var k := FirstRetweet(candidates[1..], id);
      assert forall j :: 1 <= j < 1 + k ==> candidates[j] == candidates[1..][j - 1];
      1 + k
  }


  /** `getTweetDetail(id)` at time `now`: a hit while the entry is at most
      60 s old; an older entry is evicted and reported as a miss. */
  function GetTweetDetail(s: Store, id: string, now: int): (r: (Store, Option<TimelineResponse>))
    ensures r.1.Some? <==> id in s.details && now - s.details[id].cachedAt <= DetailTtlMs
    ensures r.1.Some? ==> r.1.value == s.details[id].detail && r.0 == s
    ensures id in s.details && r.1.None? ==> r.0 == s.(details := s.details - {id})
    ensures id !in s.details ==> r.0 == s
  {
    if id !in s.details then (s, None)
    else if now - s.details[id].cachedAt > DetailTtlMs then (s.(details := s.details - {id}), None)
    else (s, Some(s.details[id].detail))
  }

  /** `cacheTweetDetail(id, detail)` at time `now`. */
  function CacheTweetDetail(s: Store, id: string, detail: TimelineResponse, now: int): (r: Store)
    ensures r.details == s.details[id := CachedDetail(detail, now)]
    ensures r.tweets == s.tweets && r.relations == s.relations && r.deleted == s.deleted
  {
    s.(details := s.details[id := CachedDetail(detail, now)])
  }

  /** `clearTweetDetail(id)`. */
  function ClearTweetDetail(s: Store, id: string): (r: Store)
    ensures r.details == s.details - {id}
    ensures r.tweets == s.tweets && r.relations == s.relations && r.deleted == s.deleted
  {
    s.(details := s.details - {id})
  }

  /** A cached detail is served for exactly 60 s after it was cached,
      including at the 60 000th millisecond, and is evicted afterwards. */
  lemma CachedDetailLifetime(s: Store, id: string, d: TimelineResponse, cachedAt: int, now: int)
    ensures var r := GetTweetDetail(CacheTweetDetail(s, id, d, cachedAt), id, now);
      (r.1 == Some(d) <==> now - cachedAt <= 60000)
      && (r.1.None? ==> id !in r.0.details)
  {
  }

  /** A cleared detail is a miss. */
  lemma ClearedDetailMisses(s: Store, id: string, now: int)
    ensures GetTweetDetail(ClearTweetDetail(s, id), id, now).1.None?
  {
  }

  /** `storeDeletedTweet` at time `now`. */
  function StoreDeletedTweet(s: Store, id: string, tombstone: Option<TombstoneText>, parent: Option<string>, now: int): (r: Store)
    ensures r.deleted == s.deleted[id := DeletedTweet(id, parent, tombstone, now)]
    ensures r.tweets == s.tweets && r.relations == s.relations && r.details == s.details
  {
    s.(deleted := s.deleted[id := DeletedTweet(id, parent, tombstone, now)])
  }

  /** `getDeletedTweet`. */
  function GetDeletedTweet(s: Store, id: string): (r: Option<DeletedTweet>)
    ensures r.Some? <==> id in s.deleted
    ensures r.Some? ==> r.value == s.deleted[id]
  {
    if id in s.deleted then Some(s.deleted[id]) else None
  }

  /** A stored tombstone is read back under its id, and other ids are
      unaffected. */
  lemma DeletedRoundTrip(s: Store, id: string, other: string, tomb: Option<TombstoneText>, parent: Option<string>, now: int)
    requires other != id
    ensures GetDeletedTweet(StoreDeletedTweet(s, id, tomb, parent, now), id)
            == Some(DeletedTweet(id, parent, tomb, now))
    ensures GetDeletedTweet(StoreDeletedTweet(s, id, tomb, parent, now), other) == GetDeletedTweet(s, other)
  {
  }

  /* ------------------------- detail responses -------------------------- */

  /** The `itemContent.tweet_results.result` of an entry's content. */
  function EntryPayload(e: Entry): Payload {
    if e.content.TimelineItem? && e.content.itemContent.Some? then e.content.itemContent.value.tweetResult
    else Missing
  }

  /** The payload of one item of a module (absent when not a tweet item). */
  function ModuleItemPayload(it: ModuleItem): Payload {
    if it.item.Some? && it.item.value.itemContent.Some? then it.item.value.itemContent.value.tweetResult
    else Missing
  }

  /** `item.item?.itemContent?.promotedMetadata !== undefined`. */
  predicate ModuleItemPromoted(it: ModuleItem) {
    it.item.Some? && it.item.value.itemContent.Some? && !it.item.value.itemContent.value.promoted.NotPromoted?
  }

  /** A module item that is the wanted tweet. */
  predicate ModuleItemMatches(it: ModuleItem, id: string) {
    !ModuleItemPromoted(it) && Normalize(ModuleItemPayload(it)).Some?
    && TweetId(Normalize(ModuleItemPayload(it)).value.tweet) == Some(id)
  }

  /** The first unpromoted module item whose tweet has the id. */
  function FromModuleItems(items: seq<ModuleItem>, id: string): (r: Option<Normalized>)
    ensures r.None? <==> forall i :: 0 <= i < |items| ==> !ModuleItemMatches(items[i], id)
    ensures r.Some? ==> exists i :: (0 <= i < |items| && ModuleItemMatches(items[i], id)
      && r == Normalize(ModuleItemPayload(items[i]))
      && forall j :: 0 <= j < i ==> !ModuleItemMatches(items[j], id))
  {
    if items == [] then None
    else if ModuleItemMatches(items[0], id) then Normalize(ModuleItemPayload(items[0]))
    else
      var r := FromModuleItems(items[1..], id);
      if r.Some? then
        var i :| 0 <= i < |items[1..]| && ModuleItemMatches(items[1..][i], id)
          && r == Normalize(ModuleItemPayload(items[1..][i]))
          && forall j :: 0 <= j < i ==> !ModuleItemMatches(items[1..][j], id);
        assert items[i + 1] == items[1..][i];
        r
      else
        assert forall i :: 1 <= i < |items| ==> items[i] == items[1..][i - 1];
        r
  }

  /** What one entry yields for `extractTweetFromDetail`: the entry
      `tweet-<id>` yields its tweet whatever that tweet's id; any entry
      yields an inline tweet with the id, then a matching module item. */
  function FromEntry(e: Entry, id: string): (r: Option<Normalized>)
    ensures e.entryId == "tweet-" + id && Normalize(EntryPayload(e)).Some? ==> r == Normalize(EntryPayload(e))
    ensures r.Some? && e.entryId != "tweet-" + id ==> TweetId(r.value.tweet) == Some(id)
    ensures r.Some? ==> Truthy(TweetId(r.value.tweet))
  {
    var direct := Normalize(EntryPayload(e));
    if e.entryId == "tweet-" + id && direct.Some? then direct
    else if direct.Some? && TweetId(direct.value.tweet) == Some(id) then direct
    else if e.content.TimelineModule? && e.content.items.Some? then FromModuleItems(e.content.items.value, id)
    else None
  }

  /** The entries of the `TimelineAddEntries` instructions, in order. */
  function AddedEntries(instructions: seq<Option<Instruction>>): (r: seq<Entry>)
    ensures forall e :: e in r ==> exists i :: (0 <= i < |instructions| && instructions[i].Some?
      && instructions[i].value.AddEntries? && e in instructions[i].value.entries.GetOr([]))
  {
    if instructions == [] then []
    else
      var head := if instructions[0].Some? && instructions[0].value.AddEntries?
        then instructions[0].value.entries.GetOr([]) else [];
      var rest := AddedEntries(instructions[1..]);
      assert forall e :: e in rest ==> exists i :: (1 <= i < |instructions| && instructions[i].Some?
        && instructions[i].value.AddEntries? && e in instructions[i].value.entries.GetOr([])) by {
        forall e | e in rest
          ensures exists i :: (1 <= i < |instructions| && instructions[i].Some?
            && instructions[i].value.AddEntries? && e in instructions[i].value.entries.GetOr([]))
        {
          var i :| 0 <= i < |instructions[1..]| && instructions[1..][i].Some?
            && instructions[1..][i].value.AddEntries? && e in instructions[1..][i].value.entries.GetOr([]);
          assert instructions[i + 1] == instructions[1..][i];
        }
      }
      head + rest
  }

  function FirstFromEntries(entries: seq<Entry>, id: string): (r: Option<Normalized>)
    ensures r.None? <==> forall k :: 0 <= k < |entries| ==> FromEntry(entries[k], id).None?
    ensures r.Some? ==> exists k :: (0 <= k < |entries| && FromEntry(entries[k], id) == r
      && forall j :: 0 <= j < k ==> FromEntry(entries[j], id).None?)
  {
    if entries == [] then None
    else if FromEntry(entries[0], id).Some? then FromEntry(entries[0], id)
    else
      var r := FirstFromEntries(entries[1..], id);
      if r.Some? then
        var k :| 0 <= k < |entries[1..]| && FromEntry(entries[1..][k], id) == r
          && forall j :: 0 <= j < k ==> FromEntry(entries[1..][j], id).None?;
        assert entries[k + 1] == entries[1..][k];
        r
      else
        assert forall k :: 1 <= k < |entries| ==> entries[k] == entries[1..][k - 1];
        r
  }

  /** `extractTweetFromDetail(detail, id)`: the first entry, over the
      `TimelineAddEntries` instructions of the threaded conversation, that
      yields the tweet. */
  function ExtractTweetFromDetail(detail: Option<TimelineResponse>, id: string): (r: Option<Normalized>)
    ensures detail.None? ==> r.None?
    ensures r.Some? ==> Truthy(TweetId(r.value.tweet))
    ensures detail.Some? ==>
      (r.None? <==> forall e :: e in AddedEntries(InstructionsOrEmpty(detail.value.threaded)) ==> FromEntry(e, id).None?)
    ensures detail.Some? && r.Some? ==>
      var entries := AddedEntries(InstructionsOrEmpty(detail.value.threaded));
      exists k :: 0 <= k < |entries| && FromEntry(entries[k], id) == r
        && forall j :: 0 <= j < k ==> FromEntry(entries[j], id).None?
  {
    if detail.None? then None
    else FirstFromEntries(AddedEntries(InstructionsOrEmpty(detail.value.threaded)), id)
  }

  /** The controller data cached for `id`, if any. */
  function CachedControllerData(s: Store, id: string): Option<string> {
    if id in s.tweets.m then s.tweets.m[id].controllerData else None
  }

  /** `applyDetailToTweetCache(id, detail)`: the tweet found in the detail
      is stored with a relation refresh, keeping the cached controller data
      of `id`. Its record then holds the found tweet, with `id`'s controller
      data or else its own previous one, and its own links are rebuilt from
      the tweet alone; no record outside the ids stored changes. */
  function ApplyDetailToTweetCache(s: Store, id: string, detail: TimelineResponse): (r: Store)
    ensures ExtractTweetFromDetail(Some(detail), id).None? ==> r == s
    ensures var n := ExtractTweetFromDetail(Some(detail), id);
      n.Some? ==>
        var nid := TweetId(n.value.tweet).value;
        nid in r.tweets.m
        && r.tweets.m - StoredIds(n.value.tweet) == s.tweets.m - StoredIds(n.value.tweet)
        && (nid !in InnerIds(n.value.tweet) ==>
              r.tweets.m[nid].result == n.value.tweet
              && r.tweets.m[nid].controllerData == Or(CachedControllerData(s, id), CachedControllerData(s, nid))
              && LinksOf(r.relations, nid) == LinksAfter(OwnLinks(None, None, None), n.value.tweet))
  {
    var n := ExtractTweetFromDetail(Some(detail), id);
    if n.None? then s
    else
      var existing := s.tweets.Get(id);
      var cd := if existing.Some? then existing.value.controllerData else None;
      var la := LimitedArg(n.value.limitedActions);
      StoreTweetRecord(s, n.value.tweet, cd, true, la);
      StoreTweetLinks(s, n.value.tweet, cd, true, la);
      StoreTweet(s, n.value.tweet, cd, true, la)
  }

  /** A refresh rebuilds a tweet's relation record from the tweet alone, so
      the replies recorded on it are dropped while the replies themselves
      still point to it: for a tweet that replies to, quotes and retweets
      nothing, the record disappears and reply links stop being mirrored. */
  lemma RefreshDropsReplies(s: Store, t: Tweet, cd: Option<string>, la: Nullable<seq<LimitedAction>>, c: string)
    requires Truthy(TweetId(t)) && c != TweetId(t).value
    requires !Truthy(ParentId(t)) && QuotedOf(t).None? && RetweetedOf(t).None?
    requires c in s.relations && s.relations[c].replyTo == Some(TweetId(t).value)
    ensures var r := StoreTweet(s, t, cd, true, la);
            TweetId(t).value !in r.relations
            && c in r.relations && r.relations[c].replyTo == Some(TweetId(t).value)
            && !RepliesMirrored(r.relations)
  {
    var id := TweetId(t);
    var written := s.(
      tweets := s.tweets.Put(id.value, Record(s.tweets.Get(id.value), t, cd, la)),
      avatars := RememberUserAvatarFromTweet(s.avatars, t));
    assert StoreTweet(s, t, cd, true, la) == Analyze(written, t, true);
    var s1 := written.(relations := s.relations - {id.value});
    assert QuoteStep(s1, id.value, t) == s1;
    assert RetweetStep(s1, id.value, t) == s1;
    assert Analyze(written, t, true) == s1;
  }
}
