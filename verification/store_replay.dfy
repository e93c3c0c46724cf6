/** Storing a tweet twice is the same as storing it once.

    The argument: whatever the cache holds, `StoreTweet` performs the same
    list of elementary writes, which depends only on the tweet and the
    arguments (`StoreOps`); any list of such writes sums up to one write per
    record, avatar and relation record (`Summary`); and applying such a sum
    twice is applying it once, because every scalar write is final, every
    insertion into an insertion-ordered set is already present the second
    time, controller data falls back with `??` and a reset record is rebuilt
    from scratch. */
module StoreReplay {
  import opened Wrappers
  import opened Ordered
  import opened TweetTypes
  import opened ResponseData
  import opened RelationStore
  import opened AvatarStore
  import opened TweetsStore

  /** An elementary write to the cache. */
  datatype Op =
    | WriteTweet(id: string, t: Tweet, cd: Option<string>, la: Nullable<seq<LimitedAction>>)
    | WriteAvatar(userId: string, url: string)
    | Rel(o: RelOp)

  function ApplyOp(s: Store, op: Op): Store {
    match op
    case WriteTweet(id, t, cd, la) => s.(tweets := s.tweets.Put(id, Record(s.tweets.Get(id), t, cd, la)))
    case WriteAvatar(u, url) => s.(avatars := s.avatars[u := url])
    case Rel(o) => s.(relations := ApplyRelOp(s.relations, o))
  }

  function ApplyOps(s: Store, ops: seq<Op>): Store
    decreases |ops|
  {
    if ops == [] then s else ApplyOps(ApplyOp(s, ops[0]), ops[1..])
  }

  lemma {:induction false} ApplyOpsAppend(s: Store, a: seq<Op>, b: seq<Op>)
    ensures ApplyOps(s, a + b) == ApplyOps(ApplyOps(s, a), b)
    decreases |a|
  {
    if a == [] {
      assert a + b == b;
    } else {
      assert (a + b)[1..] == a[1..] + b;
      ApplyOpsAppend(ApplyOp(s, a[0]), a[1..], b);
    }
  }

  function Lift(ros: seq<RelOp>): (r: seq<Op>)
    ensures |r| == |ros|
  {
    if ros == [] then [] else [Rel(ros[0])] + Lift(ros[1..])
  }

  lemma {:induction false} ApplyLift(s: Store, ros: seq<RelOp>)
    ensures ApplyOps(s, Lift(ros)) == s.(relations := ApplyRelOps(s.relations, ros))
    decreases |ros|
  {
    if ros != [] {
      var l := Lift(ros);
      assert l[1..] == Lift(ros[1..]);
      ApplyLift(ApplyOp(s, Rel(ros[0])), ros[1..]);
    }
  }

  /* ------------------- the writes StoreTweet performs ------------------ */

  function AvatarOps(t: Tweet): seq<Op> {
    var user := UserOf(t);
    var avatar := AvatarFromUser(user);
    var uid := UserId(t, user);
    if Truthy(avatar) && Truthy(uid) then [WriteAvatar(uid.value, NormalizeAvatarUrl(avatar.value))] else []
  }

  function StoreOps(t: Tweet, cd: Option<string>, refresh: bool, la: Nullable<seq<LimitedAction>>): seq<Op>
    decreases TweetSize(t), 2
  {
    var id := TweetId(t);
    if !Truthy(id) then []
    else [WriteTweet(id.value, t, cd, la)] + AvatarOps(t) + AnalyzeOps(t, refresh)
  }

  function AnalyzeOps(t: Tweet, refresh: bool): seq<Op>
    decreases TweetSize(t), 1
  {
    var id := TweetId(t);
    if !Truthy(id) then []
    else
      var parent := ParentId(t);
      (if refresh then [Rel(RelOp(id.value, Reset))] else [])
      + (if Truthy(parent) then Lift(EdgeOps(id.value, parent.value, Reply)) else [])
      + QuoteOps(id.value, t)
      + RetweetOps(id.value, t)
  }

  function QuoteOps(id: string, t: Tweet): seq<Op>
    decreases TweetSize(t), 0
  {
    var q := QuotedOf(t);
    if q.Some? && Truthy(TweetId(q.value.tweet)) then
      Lift(EdgeOps(id, TweetId(q.value.tweet).value, Quote))
      + StoreOps(q.value.tweet, None, false, LimitedArg(q.value.limitedActions))
    else []
  }

  function RetweetOps(id: string, t: Tweet): seq<Op>
    decreases TweetSize(t), 0
  {
    var rt := RetweetedOf(t);
    if rt.Some? && Truthy(TweetId(rt.value.tweet)) then
      Lift(EdgeOps(id, TweetId(rt.value.tweet).value, Retweet))
      + StoreOps(rt.value.tweet, None, false, LimitedArg(rt.value.limitedActions))
    else []
  }

  lemma AvatarOpsSound(s: Store, t: Tweet)
    ensures ApplyOps(s, AvatarOps(t)) == s.(avatars := RememberUserAvatarFromTweet(s.avatars, t))
  {
    var ops := AvatarOps(t);
    if ops != [] {
      assert ops[1..] == [];
    }
  }

  lemma EdgeSound(s: Store, src: string, tgt: string, kind: EdgeKind)
    ensures ApplyOps(s, Lift(EdgeOps(src, tgt, kind))) == s.(relations := AddEdge(s.relations, src, tgt, kind))
  {
    ApplyLift(s, EdgeOps(src, tgt, kind));
    AddEdgeAsOps(s.relations, src, tgt, kind);
  }

  /** `StoreTweet` is the application of `StoreOps`, whatever the cache
      holds. */
  lemma {:induction false} StoreTweetAsOps(s: Store, t: Tweet, cd: Option<string>, refresh: bool, la: Nullable<seq<LimitedAction>>)
    ensures StoreTweet(s, t, cd, refresh, la) == ApplyOps(s, StoreOps(t, cd, refresh, la))
    decreases TweetSize(t), 2
  {
    var id := TweetId(t);
    if Truthy(id) {
      var w := [WriteTweet(id.value, t, cd, la)];
      var s1 := ApplyOp(s, w[0]);
      assert ApplyOps(s, w) == s1 by { assert w[1..] == []; }
      AvatarOpsSound(s1, t);
      AnalyzeAsOps(ApplyOps(s1, AvatarOps(t)), t, refresh);
      ApplyOpsAppend(s, w, AvatarOps(t));
      ApplyOpsAppend(s, w + AvatarOps(t), AnalyzeOps(t, refresh));
    }
  }

  lemma {:induction false} AnalyzeAsOps(s: Store, t: Tweet, refresh: bool)
    ensures Analyze(s, t, refresh) == ApplyOps(s, AnalyzeOps(t, refresh))
    decreases TweetSize(t), 1
  {
    var id := TweetId(t);
    if Truthy(id) {
      var parent := ParentId(t);
      var a := if refresh then [Rel(RelOp(id.value, Reset))] else [];
      var b := if Truthy(parent) then Lift(EdgeOps(id.value, parent.value, Reply)) else [];
      var sa := ApplyOps(s, a);
      assert sa == s.(relations := ResetIf(s.relations, t, refresh)) by {
        if refresh {
          assert a[1..] == [];
          assert ApplyOps(s, a) == ApplyOp(s, a[0]);
          assert ApplyRelOp(s.relations, RelOp(id.value, Reset)) == s.relations - {id.value};
        }
      }
      var sb := ApplyOps(sa, b);
      if Truthy(parent) {
        EdgeSound(sa, id.value, parent.value, Reply);
      }
      QuoteAsOps(sb, id.value, t);
      var sc := ApplyOps(sb, QuoteOps(id.value, t));
      RetweetAsOps(sc, id.value, t);
      ApplyOpsAppend(s, a, b);
      ApplyOpsAppend(s, a + b, QuoteOps(id.value, t));
      ApplyOpsAppend(s, a + b + QuoteOps(id.value, t), RetweetOps(id.value, t));
    }
  }

  lemma {:induction false} QuoteAsOps(s: Store, id: string, t: Tweet)
    ensures QuoteStep(s, id, t) == ApplyOps(s, QuoteOps(id, t))
    decreases TweetSize(t), 0
  {
    var q := QuotedOf(t);
    if q.Some? && Truthy(TweetId(q.value.tweet)) {
      var e := Lift(EdgeOps(id, TweetId(q.value.tweet).value, Quote));
      EdgeSound(s, id, TweetId(q.value.tweet).value, Quote);
      StoreTweetAsOps(ApplyOps(s, e), q.value.tweet, None, false, LimitedArg(q.value.limitedActions));
      ApplyOpsAppend(s, e, StoreOps(q.value.tweet, None, false, LimitedArg(q.value.limitedActions)));
    }
  }

  lemma {:induction false} RetweetAsOps(s: Store, id: string, t: Tweet)
    ensures RetweetStep(s, id, t) == ApplyOps(s, RetweetOps(id, t))
    decreases TweetSize(t), 0
  {
    var rt := RetweetedOf(t);
    if rt.Some? && Truthy(TweetId(rt.value.tweet)) {
      var e := Lift(EdgeOps(id, TweetId(rt.value.tweet).value, Retweet));
      EdgeSound(s, id, TweetId(rt.value.tweet).value, Retweet);
      StoreTweetAsOps(ApplyOps(s, e), rt.value.tweet, None, false, LimitedArg(rt.value.limitedActions));
      ApplyOpsAppend(s, e, StoreOps(rt.value.tweet, None, false, LimitedArg(rt.value.limitedActions)));
    }
  }

  /* --------------------------- summaries ------------------------------- */

  /** The combined effect of several writes to one tweet record: the last
      tweet, the controller data falling back from the last write to the
      first, and the last limited actions that were given. */
  datatype Write = Write(t: Tweet, cd: Option<string>, la: Nullable<seq<LimitedAction>>)

  function ThenWrite(w: Option<Write>, n: Write): Write {
    if w.None? then n
    else Write(n.t, Or(n.cd, w.value.cd), if n.la.Undefined? then w.value.la else n.la)
  }

  function ApplyWrite(prev: Option<TweetData>, w: Write): TweetData {
    Record(prev, w.t, w.cd, w.la)
  }

  lemma ThenWriteSound(prev: Option<TweetData>, w: Write, n: Write)
    ensures ApplyWrite(Some(ApplyWrite(prev, w)), n) == ApplyWrite(prev, ThenWrite(Some(w), n))
  {
  }

  lemma ThenWriteSame(w: Write)
    ensures ThenWrite(Some(w), w) == w
  {
  }

  datatype Summary = Summary(
    order: seq<string>,
    writes: map<string, Write>,
    avatars: map<string, string>,
    rel: RelSummary)

  function WriteOf(m: map<string, Write>, id: string): Option<Write> {
    if id in m then Some(m[id]) else None
  }

  function ExtendS(sm: Summary, op: Op): Summary {
    match op
    case WriteTweet(id, t, cd, la) =>
      sm.(order := sm.order + [id], writes := sm.writes[id := ThenWrite(WriteOf(sm.writes, id), Write(t, cd, la))])
    case WriteAvatar(u, url) => sm.(avatars := sm.avatars[u := url])
    case Rel(o) => sm.(rel := ExtendSummary(sm.rel, o))
  }

  function Summarize(ops: seq<Op>): Summary
    decreases |ops|
  {
    if ops == [] then Summary([], map[], map[], map[])
    else ExtendS(Summarize(ops[..|ops| - 1]), ops[|ops| - 1])
  }

  function TweetsAfter(m: map<string, TweetData>, ws: map<string, Write>): (r: map<string, TweetData>)
    ensures r.Keys == m.Keys + ws.Keys
    ensures forall k :: k in ws ==> r[k] == ApplyWrite(if k in m then Some(m[k]) else None, ws[k])
    ensures forall k :: k in m && k !in ws ==> r[k] == m[k]
  {
    map k | k in m.Keys + ws.Keys :: if k in ws then ApplyWrite(if k in m then Some(m[k]) else None, ws[k]) else m[k]
  }

  function ApplySummaryS(s: Store, sm: Summary): Store {
    s.(tweets := Dict(SetAddAll(s.tweets.keys, sm.order), TweetsAfter(s.tweets.m, sm.writes)),
       avatars := s.avatars + sm.avatars,
       relations := ApplySummary(s.relations, sm.rel))
  }

  lemma EmptySummary(s: Store)
    ensures ApplySummaryS(s, Summary([], map[], map[], map[])) == s
  {
    var r := ApplySummaryS(s, Summary([], map[], map[], map[]));
    assert r.tweets.m == s.tweets.m;
    assert r.avatars == s.avatars;
    forall id ensures Get(r.relations, id) == Get(s.relations, id) {
      NoEffectIsIdentity(Get(s.relations, id));
    }
    RelationsEqual(r.relations, s.relations);
  }

  lemma ExtendSSound(s: Store, sm: Summary, op: Op)
    ensures ApplySummaryS(s, ExtendS(sm, op)) == ApplyOp(ApplySummaryS(s, sm), op)
  {
    match op
    case WriteTweet(id, t, cd, la) => ExtendSWriteTweet(s, sm, id, t, cd, la);
    case WriteAvatar(u, url) =>
      assert s.avatars + sm.avatars[u := url] == (s.avatars + sm.avatars)[u := url];
    case Rel(o) =>
      ExtendSummarySound(s.relations, sm.rel, o);
  }

  lemma ExtendSWriteTweet(s: Store, sm: Summary, id: string, t: Tweet, cd: Option<string>, la: Nullable<seq<LimitedAction>>)
    ensures ApplySummaryS(s, ExtendS(sm, WriteTweet(id, t, cd, la)))
            == ApplyOp(ApplySummaryS(s, sm), WriteTweet(id, t, cd, la))
  {
    var before := ApplySummaryS(s, sm);
    SetAddAllSnoc(s.tweets.keys, sm.order, id);
    TweetsAfterExtend(s.tweets.m, sm.writes, id, Write(t, cd, la));
    assert before.tweets.Get(id) == (if id in before.tweets.m then Some(before.tweets.m[id]) else None);
  }

  lemma TweetsAfterExtend(m: map<string, TweetData>, ws: map<string, Write>, id: string, w: Write)
    ensures var before := TweetsAfter(m, ws);
            TweetsAfter(m, ws[id := ThenWrite(WriteOf(ws, id), w)])
            == before[id := ApplyWrite(if id in before then Some(before[id]) else None, w)]
  {
    var before := TweetsAfter(m, ws);
    var ws2 := ws[id := ThenWrite(WriteOf(ws, id), w)];
    var lhs := TweetsAfter(m, ws2);
    var rhs := before[id := ApplyWrite(if id in before then Some(before[id]) else None, w)];
    ExtendValues(m, ws, id, w);
    ExtendKeys(m, ws, id, w);
    SameMaps(lhs, rhs);
  }

  lemma ExtendKeys(m: map<string, TweetData>, ws: map<string, Write>, id: string, w: Write)
    ensures var before := TweetsAfter(m, ws);
            TweetsAfter(m, ws[id := ThenWrite(WriteOf(ws, id), w)]).Keys
            == before[id := ApplyWrite(if id in before then Some(before[id]) else None, w)].Keys
  {
  }

  lemma ExtendValues(m: map<string, TweetData>, ws: map<string, Write>, id: string, w: Write)
    ensures var before := TweetsAfter(m, ws);
            var lhs := TweetsAfter(m, ws[id := ThenWrite(WriteOf(ws, id), w)]);
            var rhs := before[id := ApplyWrite(if id in before then Some(before[id]) else None, w)];
            forall k :: k in lhs ==> k in rhs && lhs[k] == rhs[k]
  {
    var before := TweetsAfter(m, ws);
    var ws2 := ws[id := ThenWrite(WriteOf(ws, id), w)];
    var lhs := TweetsAfter(m, ws2);
    var rhs := before[id := ApplyWrite(if id in before then Some(before[id]) else None, w)];
    forall k | k in lhs ensures lhs[k] == rhs[k] {
      if k == id {
        TweetsAfterAtWritten(m, ws, id, w);
      } else {
        TweetsAfterElsewhere(m, ws, ws2, k);
      }
    }
  }

  lemma SameMaps<K, V>(a: map<K, V>, b: map<K, V>)
    requires a.Keys == b.Keys && forall k :: k in a ==> a[k] == b[k]
    ensures a == b
  {
  }

  lemma TweetsAfterAtWritten(m: map<string, TweetData>, ws: map<string, Write>, id: string, w: Write)
    ensures var before := TweetsAfter(m, ws);
            TweetsAfter(m, ws[id := ThenWrite(WriteOf(ws, id), w)])[id]
            == ApplyWrite(if id in before then Some(before[id]) else None, w)
  {
    if id in ws {
      ThenWriteSound(if id in m then Some(m[id]) else None, ws[id], w);
    }
  }

  lemma TweetsAfterElsewhere(m: map<string, TweetData>, ws: map<string, Write>, ws2: map<string, Write>, k: string)
    requires k in m || k in ws
    requires (k in ws2 <==> k in ws) && (k in ws ==> ws2[k] == ws[k])
    ensures TweetsAfter(m, ws2)[k] == TweetsAfter(m, ws)[k]
  {
  }

  /** Any list of writes acts as its summary. */
  lemma {:induction false} SummarizeSound(s: Store, ops: seq<Op>)
    ensures ApplyOps(s, ops) == ApplySummaryS(s, Summarize(ops))
    decreases |ops|
  {
    if ops == [] {
      EmptySummary(s);
    } else {
      var init := ops[..|ops| - 1];
      var last := ops[|ops| - 1];
      assert ops == init + [last];
      ApplyOpsAppend(s, init, [last]);
      assert ApplyOps(ApplyOps(s, init), [last]) == ApplyOp(ApplyOps(s, init), last) by {
        assert [last][1..] == [];
      }
      SummarizeSound(s, init);
      ExtendSSound(s, Summarize(init), last);
    }
  }

  /** Applying a summary twice is applying it once. */
  lemma ApplySummarySIdempotent(s: Store, sm: Summary)
    ensures ApplySummaryS(ApplySummaryS(s, sm), sm) == ApplySummaryS(s, sm)
  {
    var once := ApplySummaryS(s, sm);
    SetAddAllIdempotent(s.tweets.keys, sm.order);
    var m2 := TweetsAfter(once.tweets.m, sm.writes);
    forall k | k in m2 ensures m2[k] == once.tweets.m[k] {
      if k in sm.writes {
        ThenWriteSound(if k in s.tweets.m then Some(s.tweets.m[k]) else None, sm.writes[k], sm.writes[k]);
        ThenWriteSame(sm.writes[k]);
      }
    }
    assert m2 == once.tweets.m;
    assert once.avatars + sm.avatars == once.avatars;
    ApplySummaryIdempotent(s.relations, sm.rel);
  }

  /** Storing the same tweet with the same arguments twice leaves the cache
      (records, their order, relations and avatars) as storing it once,
      with or without a relation refresh. */
  lemma StoreTweetIdempotent(s: Store, t: Tweet, cd: Option<string>, refresh: bool, la: Nullable<seq<LimitedAction>>)
    ensures StoreTweet(StoreTweet(s, t, cd, refresh, la), t, cd, refresh, la) == StoreTweet(s, t, cd, refresh, la)
  {
    var ops := StoreOps(t, cd, refresh, la);
    var once := StoreTweet(s, t, cd, refresh, la);
    StoreTweetAsOps(s, t, cd, refresh, la);
    StoreTweetAsOps(once, t, cd, refresh, la);
    SummarizeSound(s, ops);
    SummarizeSound(once, ops);
    ApplySummarySIdempotent(s, Summarize(ops));
  }
}
