/** The "author spine" of a reply branch (utils/threadPrune.ts): starting
    from a reply, the walk keeps following the replies written by the
    opened tweet's author, allowing one intermediate reply by someone else,
    and stops at the first ambiguity. The source loops without bound; here
    the number of steps is limited by `fuel`. */
module ThreadPrune {
  import opened Wrappers
  import opened Ordered
  import opened TweetTypes
  import opened ResponseData
  import opened RelationStore
  import opened TweetsStore
  import opened RelatedTweets

  /** `getAuthorUserId`: the author id of a cached tweet. */
  function AuthorOf(d: TweetData): Option<string> {
    UserId(d.result, None)
  }

  /** `isAuthor`: the related map has the tweet and it is by `author`. */
  predicate IsAuthor(id: string, relate: Option<Related>, author: string) {
    relate.Some? && id in relate.value.m && AuthorOf(relate.value.m[id]) == Some(author)
  }

  /** `childrenOf`: the replies recorded for a tweet, in set order. */
  function ChildrenOf(rs: Relations, id: string): seq<string> {
    if id in rs then rs[id].replies else []
  }

  /** The ids of `ids` written by the author, in order. */
  function AuthorsAmong(ids: seq<string>, relate: Option<Related>, author: string): (r: seq<string>)
    ensures |r| <= |ids|
  {
    if ids == [] then []
    else
      var rest := AuthorsAmong(ids[1..], relate, author);
      if IsAuthor(ids[0], relate, author) then [ids[0]] + rest else rest
  }

  /** `hasImmediateAuthorReply`: some reply of `id` is by the author. */
  predicate HasAuthorReply(rs: Relations, id: string, relate: Option<Related>, author: string) {
    AuthorsAmong(ChildrenOf(rs, id), relate, author) != []
  }

  /** The ids of `ids` that have a reply by the author, in order. */
  function WithAuthorReply(rs: Relations, ids: seq<string>, relate: Option<Related>, author: string): (r: seq<string>)
    ensures |r| <= |ids|
  {
    if ids == [] then []
    else
      var rest := WithAuthorReply(rs, ids[1..], relate, author);
      if HasAuthorReply(rs, ids[0], relate, author) then [ids[0]] + rest else rest
  }

  /** Exactly the listed ids written by the author are kept. */
  lemma {:induction false} AuthorsAmongMembers(ids: seq<string>, relate: Option<Related>, author: string)
    ensures forall y :: y in AuthorsAmong(ids, relate, author) <==> y in ids && IsAuthor(y, relate, author)
  {
    if ids != [] {
      AuthorsAmongMembers(ids[1..], relate, author);
      assert forall y :: y in ids <==> y == ids[0] || y in ids[1..];
    }
  }

  /** Exactly the listed ids with a reply by the author are kept. */
  lemma {:induction false} WithAuthorReplyMembers(rs: Relations, ids: seq<string>, relate: Option<Related>, author: string)
    ensures forall y :: y in WithAuthorReply(rs, ids, relate, author) <==> y in ids && HasAuthorReply(rs, y, relate, author)
  {
    if ids != [] {
      WithAuthorReplyMembers(rs, ids[1..], relate, author);
      assert forall y :: y in ids <==> y == ids[0] || y in ids[1..];
    }
  }

  /** What one pass may append: one or two ids, the first a reply of
      `cur`, the last by the author, and with two ids the second a reply of
      the first, which is not by the author. */
  predicate StepShape(rs: Relations, relate: Option<Related>, author: string, cur: string, step: seq<string>) {
    (|step| == 1 || |step| == 2)
    && step[0] in ChildrenOf(rs, cur)
    && IsAuthor(step[|step| - 1], relate, author)
    && (|step| == 2 ==> step[1] in ChildrenOf(rs, step[0]) && !IsAuthor(step[0], relate, author))
  }

  /** One pass of the loop from `cur`: the ids appended, or `None` when the
      walk stops. A single author reply is taken; two or more stop the walk;
      with none, a single reply whose own replies include exactly one by the
      author is taken together with that author reply. */
  function SpineStep(rs: Relations, relate: Option<Related>, author: string, cur: string): (r: Option<seq<string>>)
    ensures ChildrenOf(rs, cur) == [] ==> r.None?
    ensures r.Some? ==> |r.value| == 1 || |r.value| == 2
  {
    var lv1 := ChildrenOf(rs, cur);
    if lv1 == [] then None
    else
      var direct := AuthorsAmong(lv1, relate, author);
      if |direct| == 1 then Some([direct[0]])
      else if |direct| >= 2 then None
      else
        var mids := WithAuthorReply(rs, lv1, relate, author);
        if |mids| != 1 then None
        else
          var mid := mids[0];
          var lv2 := AuthorsAmong(ChildrenOf(rs, mid), relate, author);
          if |lv2| == 1 then
            Some([mid, lv2[0]])
          else None
  }

  /** The choice one pass makes among the replies of `cur`: a unique author
      reply is taken alone, several author replies stop the walk, and with
      none the intermediate reply is the only reply that has an author reply
      of its own. */
  lemma SpineStepShape(rs: Relations, relate: Option<Related>, author: string, cur: string)
    ensures var r := SpineStep(rs, relate, author, cur);
            r.Some? ==> StepShape(rs, relate, author, cur, r.value)
  {
    var lv1 := ChildrenOf(rs, cur);
    var direct := AuthorsAmong(lv1, relate, author);
    var mids := WithAuthorReply(rs, lv1, relate, author);
    AuthorsAmongMembers(lv1, relate, author);
    if lv1 != [] && |direct| == 1 {
      assert direct[0] in direct;
    } else if lv1 != [] && |direct| == 0 && |mids| == 1 {
      WithAuthorReplyMembers(rs, lv1, relate, author);
      var mid := mids[0];
      assert mid in mids;
      var lv2 := AuthorsAmong(ChildrenOf(rs, mid), relate, author);
      AuthorsAmongMembers(ChildrenOf(rs, mid), relate, author);
      if |lv2| == 1 {
        assert lv2[0] in lv2;
      }
    }
  }

  lemma SpineStepChoice(rs: Relations, relate: Option<Related>, author: string, cur: string)
    ensures var direct := AuthorsAmong(ChildrenOf(rs, cur), relate, author);
            |direct| == 1 ==> SpineStep(rs, relate, author, cur) == Some([direct[0]])
    ensures |AuthorsAmong(ChildrenOf(rs, cur), relate, author)| >= 2 ==> SpineStep(rs, relate, author, cur).None?
    ensures var r := SpineStep(rs, relate, author, cur);
            r.Some? && |r.value| == 2 ==> WithAuthorReply(rs, ChildrenOf(rs, cur), relate, author) == [r.value[0]]
  {
  }

  function Last(s: seq<string>): string
    requires s != []
  {
    s[|s| - 1]
  }

  /** The ids the walk appends after `cur`, within `fuel` passes. */
  function SpineFrom(rs: Relations, relate: Option<Related>, author: string, cur: string, fuel: nat): seq<string>
    decreases fuel
  {
    if fuel == 0 then []
    else
      var step := SpineStep(rs, relate, author, cur);
      if step.None? then [] else step.value + SpineFrom(rs, relate, author, Last(step.value), fuel - 1)
  }

  lemma SpineFromUnfold(rs: Relations, relate: Option<Related>, author: string, cur: string, fuel: nat)
    requires fuel > 0
    ensures var step := SpineStep(rs, relate, author, cur);
            SpineFrom(rs, relate, author, cur, fuel)
            == if step.None? then [] else step.value + SpineFrom(rs, relate, author, Last(step.value), fuel - 1)
  {
  }

  /** Each id of a path is a recorded reply of the one before it. */
  predicate Linked(rs: Relations, path: seq<string>) {
    forall i :: 0 <= i < |path| - 1 ==> path[i + 1] in ChildrenOf(rs, path[i])
  }

  /** The spine as a value: the root alone without a related map or an
      author id; otherwise the root and what the walk appends. */
  function AuthorSpine(rs: Relations, rootId: string, rootAuthor: Option<string>, relate: Option<Related>, fuel: nat): seq<string> {
    if relate.None? || !Truthy(rootAuthor) then [rootId]
    else [rootId] + SpineFrom(rs, relate, rootAuthor.value, rootId, fuel)
  }

  /** Two linked paths, the second starting where the first ends, join
      into a linked path. */
  lemma LinkedJoin(rs: Relations, a: seq<string>, b: seq<string>)
    requires a != [] && b != [] && a[|a| - 1] == b[0]
    requires Linked(rs, a) && Linked(rs, b)
    ensures Linked(rs, a + b[1..])
  {
    var p := a + b[1..];
    forall i | 0 <= i < |p| - 1 ensures p[i + 1] in ChildrenOf(rs, p[i]) {
      if i < |a| - 1 {
        assert p[i] == a[i] && p[i + 1] == a[i + 1];
      } else {
        var j := i - (|a| - 1);
        assert p[i] == b[j] && p[i + 1] == b[j + 1];
      }
    }
  }

  /** The spine follows reply edges: every id in it is a recorded reply of
      the one before it. */
  lemma {:induction false} SpineLinked(rs: Relations, relate: Option<Related>, author: string, cur: string, fuel: nat)
    ensures Linked(rs, [cur] + SpineFrom(rs, relate, author, cur, fuel))
  {
    PathLinked(rs, relate, author, cur, fuel, [cur] + SpineFrom(rs, relate, author, cur, fuel));
  }

  /** `SpineLinked` for a path given by name, so that the induction
      hypothesis speaks of the very path being joined. */
  lemma {:induction false} PathLinked(rs: Relations, relate: Option<Related>, author: string, cur: string, fuel: nat,
                                      path: seq<string>)
    requires path == [cur] + SpineFrom(rs, relate, author, cur, fuel)
    ensures Linked(rs, path)
    decreases fuel
  {
    if fuel > 0 {
      var step := SpineStep(rs, relate, author, cur);
      SpineFromUnfold(rs, relate, author, cur, fuel);
      if step.Some? {
        var st := step.value;
        var rest := SpineFrom(rs, relate, author, Last(st), fuel - 1);
        SpineStepShape(rs, relate, author, cur);
        var a, b := [cur] + st, [Last(st)] + rest;
        StepLinked(rs, relate, author, cur, st);
        PathLinked(rs, relate, author, Last(st), fuel - 1, b);
        assert a[|a| - 1] == b[0];
        LinkedJoin(rs, a, b);
        JoinAtLast(cur, st, rest);
      }
    }
  }

  /** A pass's ids continue the path from `cur` along reply edges. */
  lemma StepLinked(rs: Relations, relate: Option<Related>, author: string, cur: string, st: seq<string>)
    requires StepShape(rs, relate, author, cur, st)
    ensures Linked(rs, [cur] + st)
  {
    var head := [cur] + st;
    forall i | 0 <= i < |head| - 1 ensures head[i + 1] in ChildrenOf(rs, head[i]) {
      if i == 1 { assert head[1] == st[0] && head[2] == st[1]; }
    }
  }

  lemma JoinAtLast(cur: string, st: seq<string>, rest: seq<string>)
    requires st != []
    ensures ([cur] + st) + ([Last(st)] + rest)[1..] == [cur] + (st + rest)
  {
    assert ([Last(st)] + rest)[1..] == rest;
  }

  /** The `while (true)` loop of `buildAuthorSpine`, run for at most
      `fuel` passes from `start`: the ids it appends. They continue `start`
      along reply edges, and each is by the author or is the reply just
      before one that is, the last one by the author. */
  method WalkSpine(rs: Relations, relate: Option<Related>, author: string, start: string, fuel: nat)
    returns (appended: seq<string>)
    ensures appended == SpineFrom(rs, relate, author, start, fuel)
    ensures Linked(rs, [start] + appended)
    ensures AuthorEnded(appended, relate, author)
  {
    appended := SpineLoop(rs, relate, author, start, fuel);
    SpineLinked(rs, relate, author, start, fuel);
    SpineAuthors(rs, relate, author, start, fuel);
  }

  /** The loop itself: the ids of the repeated passes. */
  method SpineLoop(rs: Relations, relate: Option<Related>, author: string, start: string, fuel: nat)
    returns (appended: seq<string>)
    ensures appended == SpineFrom(rs, relate, author, start, fuel)
  {
    appended := [];
    var cur := start;
    var k := fuel;
    while k > 0
      invariant appended + SpineFrom(rs, relate, author, cur, k) == SpineFrom(rs, relate, author, start, fuel)
      decreases k
    {
      var stop: bool;
      stop, appended, cur := WalkPass(rs, relate, author, cur, k, appended);
      if stop {
        return;
      }
      k := k - 1;
    }
    assert appended + [] == appended;
  }

  /** One pass of the loop: either the walk stops with nothing more to
      append, or the pass's ids are appended and the walk moves to the last
      of them. */
  method WalkPass(rs: Relations, relate: Option<Related>, author: string, cur: string, k: nat, appended: seq<string>)
    returns (stop: bool, appended': seq<string>, cur': string)
    requires k > 0
    ensures stop ==> appended' == appended + SpineFrom(rs, relate, author, cur, k)
    ensures !stop ==> appended' + SpineFrom(rs, relate, author, cur', k - 1) == appended + SpineFrom(rs, relate, author, cur, k)
  {
    var step := SpineStep(rs, relate, author, cur);
    WalkStep(rs, relate, author, cur, k, appended);
    if step.None? {
      return true, appended, cur;
    }
    return false, appended + step.value, Last(step.value);
  }

  /** One pass of the walk: a stop leaves nothing more to append, a step
      moves its ids to the appended ones. */
  lemma WalkStep(rs: Relations, relate: Option<Related>, author: string, cur: string, k: nat, appended: seq<string>)
    requires k > 0
    ensures var step := SpineStep(rs, relate, author, cur);
            && (step.None? ==> appended + SpineFrom(rs, relate, author, cur, k) == appended)
            && (step.Some? ==> (appended + step.value) + SpineFrom(rs, relate, author, Last(step.value), k - 1)
                               == appended + SpineFrom(rs, relate, author, cur, k))
  {
    var step := SpineStep(rs, relate, author, cur);
    SpineFromUnfold(rs, relate, author, cur, k);
    if step.None? {
      assert appended + [] == appended;
    } else {
      var rest := SpineFrom(rs, relate, author, Last(step.value), k - 1);
      assert appended + (step.value + rest) == (appended + step.value) + rest;
    }
  }

  /** `buildAuthorSpine`: the root alone without a related map or an author
      id; otherwise the root followed by what the walk appends. The path
      starts at the root and each id in it is a reply of the previous one. */
  method BuildAuthorSpine(rs: Relations, rootId: string, rootAuthor: Option<string>, relate: Option<Related>, fuel: nat)
    returns (path: seq<string>)
    ensures relate.None? || !Truthy(rootAuthor) ==> path == [rootId]
    ensures |path| >= 1 && path[0] == rootId
    ensures Linked(rs, path)
    ensures path == AuthorSpine(rs, rootId, rootAuthor, relate, fuel)
  {
    if relate.None? || !Truthy(rootAuthor) {
      return [rootId];
    }
    var appended := WalkSpine(rs, relate, rootAuthor.value, rootId, fuel);
    path := [rootId] + appended;
  }

  /** Every id the spine appends after the root is either by the author,
      or is the reply just before one that is; the last one is by the
      author. */
  lemma {:induction false} SpineAuthors(rs: Relations, relate: Option<Related>, author: string, cur: string, fuel: nat)
    ensures AuthorEnded(SpineFrom(rs, relate, author, cur, fuel), relate, author)
    decreases fuel
  {
    if fuel > 0 {
      var step := SpineStep(rs, relate, author, cur);
      if step.Some? {
        SpineStepShape(rs, relate, author, cur);
        var st := step.value;
        var rest := SpineFrom(rs, relate, author, Last(st), fuel - 1);
        SpineAuthors(rs, relate, author, Last(st), fuel - 1);
        AuthorEndedJoin(st, rest, relate, author);
      }
    }
  }

  /** Each id is by the author or followed by one that is, and a non-empty
      sequence ends with one by the author. */
  predicate AuthorEnded(sp: seq<string>, relate: Option<Related>, author: string) {
    (sp != [] ==> IsAuthor(sp[|sp| - 1], relate, author))
    && forall i :: 0 <= i < |sp| - 1 && !IsAuthor(sp[i], relate, author) ==> IsAuthor(sp[i + 1], relate, author)
  }

  lemma AuthorEndedJoin(a: seq<string>, b: seq<string>, relate: Option<Related>, author: string)
    requires AuthorEnded(a, relate, author) && a != [] && AuthorEnded(b, relate, author)
    ensures AuthorEnded(a + b, relate, author)
  {
    var sp := a + b;
    forall i | 0 <= i < |sp| - 1 && !IsAuthor(sp[i], relate, author)
      ensures IsAuthor(sp[i + 1], relate, author)
    {
      if i >= |a| {
        assert sp[i] == b[i - |a|] && sp[i + 1] == b[i + 1 - |a|];
      } else if i < |a| - 1 {
        assert sp[i] == a[i] && sp[i + 1] == a[i + 1];
      }
    }
    if b != [] {
      assert sp[|sp| - 1] == b[|b| - 1];
    }
  }
}
