/** Fetching a tweet's conversation (handlers/tweetDetailHandler.ts): the
    detail cache in front of the request, the removal of promoted tweets
    from the answer, and the caching of what is left. The clock is the
    `now` parameter and the random part of the request id is `nonce`. */
module TweetDetailHandler {
  import opened Wrappers
  import Ordered
  import opened TweetTypes
  import opened ResponseData
  import opened TweetsStore
  import opened TimelineUpdate
  import opened Bridge
  import opened Correlation

  /** The message of the `TypeError` thrown when a timeline item has no
      `itemContent`; the engine's own wording is not modelled. */
  const MissingItemContentError := "TypeError"

  /** The message of the `TypeError` thrown when an instruction of the
      conversation is `null` and its `type` is read. */
  const NullInstructionError := "TypeError"

  datatype DetailPayload = DetailPayload(tweetId: string, controllerData: Option<string>, requestId: string)

  /** The interceptor's answer; `data` is `None` when absent. */
  datatype DetailReply = DetailReply(requestId: string, data: Option<TimelineResponse>, error: Option<string>)

  type DetailStep = Step<Message<DetailPayload>, Option<TimelineResponse>>

  /** How `requestTweetDetail` starts: answered from the detail cache, or
      with a request posted. The store is returned either way, since a
      lookup may evict an expired entry and `force` clears it. */
  datatype DetailStart =
    | FromCache(store: Store, detail: TimelineResponse)
    | Requested(store: Store, step: DetailStep)

  function DetailRequestId(tweetId: string, nonce: string): string {
    tweetId + "-" + nonce
  }

  /** The controller data sent: an explicit `null` is replaced by the one
      cached with the tweet (none when the tweet is not cached); a string or
      `undefined` is sent as given. */
  function RequestControllerData(s: Store, tweetId: string, cd: Nullable<string>): (r: Option<string>)
    ensures cd.Value? ==> r == Some(cd.value)
    ensures cd.Undefined? ==> r.None?
    ensures cd.Null? ==> r == (if tweetId in s.tweets.m then s.tweets.m[tweetId].controllerData else None)
  {
    match cd
    case Null => if tweetId in s.tweets.m then s.tweets.m[tweetId].controllerData else None
    case Undefined => None
    case Value(v) => Some(v)
  }

  /** `requestTweetDetail(tweetId, controllerData, force)` up to the
      request. Without `force` a fresh cached detail is returned and nothing
      is posted; with `force` the cached detail is dropped first. */
  function RequestTweetDetail(s: Store, pending: Pending, tweetId: string, cd: Nullable<string>, force: bool, nonce: string, now: int): (r: DetailStart)
    ensures r.FromCache? <==> !force && GetTweetDetail(s, tweetId, now).1.Some?
    ensures r.FromCache? ==> r.store == s && r.detail == s.details[tweetId].detail
    ensures force ==> r.store.details == s.details - {tweetId}
    ensures r.Requested? ==> tweetId !in r.store.details
    ensures r.store.tweets == s.tweets
    ensures r.Requested? ==> var rid := DetailRequestId(tweetId, nonce);
      r.step.pending == pending[rid := Waiter(false)]
      && RegisteredBeforePosted(r.step.events)
      && PostedRequest(r.step) == Some(Outgoing(ToInterceptor, DetailRequest,
           DetailPayload(tweetId, RequestControllerData(s, tweetId, cd), rid)))
  {
    var looked := GetTweetDetail(s, tweetId, now);
    if !force && looked.1.Some? then FromCache(looked.0, looked.1.value)
    else
      var s1 := if force then ClearTweetDetail(s, tweetId) else looked.0;
      var rid := DetailRequestId(tweetId, nonce);
      var payload := DetailPayload(tweetId, RequestControllerData(s1, tweetId, cd), rid);
      Requested(s1, Send(pending, rid, Waiter(false), Outgoing(ToInterceptor, DetailRequest, payload)))
  }

  /** `handleDetailResponse`: a truthy error rejects with that error;
      otherwise the data is resolved, even when absent. */
  function HandleDetailResponse(pending: Pending, reply: DetailReply): (r: DetailStep)
    ensures reply.requestId !in pending ==> r == Step(pending, [])
    ensures reply.requestId in pending ==> r.pending == pending - {reply.requestId}
    ensures reply.requestId in pending ==>
      r.events == [Deleted(reply.requestId),
                   if Truthy(reply.error) then Rejected(reply.requestId, reply.error.value)
                   else Resolved(reply.requestId, reply.data)]
  {
    Settle(pending, reply.requestId, if Truthy(reply.error) then Failure(reply.error) else Success(reply.data), "")
  }

  /* ----------------------- removing promoted tweets ---------------------- */

  /** A timeline item whose `promotedMetadata` is truthy. */
  predicate PromotedEntry(e: Entry) {
    e.content.TimelineItem? && e.content.itemContent.Some? && e.content.itemContent.value.promoted.TruthyPromoted?
  }

  /** A timeline item without `itemContent`: reading its promotion throws. */
  predicate Unreadable(e: Entry) {
    e.content.TimelineItem? && e.content.itemContent.None?
  }

  /** A module item whose `item.itemContent.promotedMetadata` is truthy. */
  predicate PromotedModuleItem(it: ModuleItem) {
    it.item.Some? && it.item.value.itemContent.Some? && it.item.value.itemContent.value.promoted.TruthyPromoted?
  }

  /** The module items that are not promoted, in order. */
  function KeepUnpromoted(items: seq<ModuleItem>): (r: seq<ModuleItem>)
    ensures |r| <= |items|
    ensures forall it :: it in r ==> it in items && !PromotedModuleItem(it)
    ensures forall i :: 0 <= i < |items| && !PromotedModuleItem(items[i]) ==> items[i] in r
  {
    if items == [] then []
    else
      var rest := KeepUnpromoted(items[1..]);
      assert forall i :: 1 <= i < |items| ==> items[i] == items[1..][i - 1];
      if PromotedModuleItem(items[0]) then rest else [items[0]] + rest
  }

  /** Filtering commutes with concatenation, and one item is kept exactly
      when it is not promoted: so the kept items appear in their original
      order and number. */
  lemma {:induction false} KeepUnpromotedAppend(a: seq<ModuleItem>, b: seq<ModuleItem>)
    ensures KeepUnpromoted(a + b) == KeepUnpromoted(a) + KeepUnpromoted(b)
    ensures |a| == 1 ==> KeepUnpromoted(a) == (if PromotedModuleItem(a[0]) then [] else a)
    decreases |a|
  {
    if a == [] {
      assert a + b == b;
    } else {
      var head := if PromotedModuleItem(a[0]) then [] else [a[0]];
      assert (a + b)[0] == a[0] && (a + b)[1..] == a[1..] + b;
      assert KeepUnpromoted(a + b) == head + KeepUnpromoted(a[1..] + b);
      assert KeepUnpromoted(a) == head + KeepUnpromoted(a[1..]);
      KeepUnpromotedAppend(a[1..], b);
      Ordered.ConcatAssoc(head, KeepUnpromoted(a[1..]), KeepUnpromoted(b));
      if |a| == 1 {
        assert a[1..] == [];
      }
    }
  }

  /** An entry as it is kept: a module with items loses its promoted items;
      anything else is unchanged. */
  function CleanEntry(e: Entry): (r: Entry)
    ensures r.entryId == e.entryId && r.cei == e.cei
    ensures r.content.TimelineModule? <==> e.content.TimelineModule?
    ensures !e.content.TimelineModule? || e.content.items.None? ==> r == e
  {
    if e.content.TimelineModule? && e.content.items.Some? then
      e.(content := e.content.(items := Some(KeepUnpromoted(e.content.items.value))))
    else e
  }

  /** A kept entry contains no promoted tweet. */
  predicate Clean(e: Entry) {
    !PromotedEntry(e)
    && (e.content.TimelineModule? && e.content.items.Some? ==>
          forall it :: it in e.content.items.value ==> !PromotedModuleItem(it))
  }

  /** The `entries.filter(...)` of one `TimelineAddEntries` instruction:
      promoted items go, modules are cleaned, and an item without
      `itemContent` throws. */
  function CleanEntries(entries: seq<Entry>): (r: Result<seq<Entry>>)
    ensures r.Err? <==> exists i :: 0 <= i < |entries| && Unreadable(entries[i])
    ensures r.Err? ==> r.message == MissingItemContentError
    ensures r.Ok? ==> |r.value| <= |entries|
    ensures r.Ok? ==> forall e :: e in r.value ==> Clean(e)
    ensures r.Ok? ==> forall i :: 0 <= i < |entries| && !PromotedEntry(entries[i]) ==> CleanEntry(entries[i]) in r.value
    ensures r.Ok? ==> forall e :: e in r.value ==> exists i :: 0 <= i < |entries| && !PromotedEntry(entries[i]) && e == CleanEntry(entries[i])
  {
    if entries == [] then Ok([])
    else
      var e := entries[0];
      var rest := CleanEntries(entries[1..]);
      assert forall i :: 1 <= i < |entries| ==> entries[i] == entries[1..][i - 1];
      if Unreadable(e) then Err(MissingItemContentError)
      else if rest.Err? then
        var i :| 0 <= i < |entries[1..]| && Unreadable(entries[1..][i]);
        assert Unreadable(entries[i + 1]);
        rest
      else if PromotedEntry(e) then rest
      else
        var r := [CleanEntry(e)] + rest.value;
        assert forall x :: x in r ==> x == CleanEntry(e) || x in rest.value;
        Ok(r)
  }

  /** One instruction of the conversation: a `null` one throws when its
      type is read; the entries of a `TimelineAddEntries` that has them are
      cleaned; any other instruction is left alone. */
  function CleanInstruction(ins: Option<Instruction>): (r: Result<Option<Instruction>>)
    ensures ins.None? ==> r == Err(NullInstructionError)
    ensures ins.Some? && !(ins.value.AddEntries? && ins.value.entries.Some?) ==> r == Ok(ins)
    ensures ins.Some? && ins.value.AddEntries? && ins.value.entries.Some? ==>
      r == (var c := CleanEntries(ins.value.entries.value); if c.Err? then Err(c.message) else Ok(Some(AddEntries(Some(c.value)))))
  {
    if ins.None? then Err(NullInstructionError)
    else if ins.value.AddEntries? && ins.value.entries.Some? then
      var c := CleanEntries(ins.value.entries.value);
      if c.Err? then Err(c.message) else Ok(Some(AddEntries(Some(c.value))))
    else Ok(ins)
  }

  function CleanInstructions(xs: seq<Option<Instruction>>): (r: Result<seq<Option<Instruction>>>)
    ensures r.Ok? <==> forall i :: 0 <= i < |xs| ==> CleanInstruction(xs[i]).Ok?
    ensures r.Ok? ==> |r.value| == |xs| && forall i :: 0 <= i < |xs| ==> r.value[i] == CleanInstruction(xs[i]).value
  {
    if xs == [] then Ok([])
    else
      var head := CleanInstruction(xs[0]);
      var rest := CleanInstructions(xs[1..]);
      assert forall i :: 1 <= i < |xs| ==> xs[i] == xs[1..][i - 1];
      if head.Err? then Err(head.message)
      else if rest.Err? then Err(rest.message)
      else Ok([head.value] + rest.value)
  }

  /** The promoted-tweet removal: only the threaded conversation's
      instructions are rewritten; the other timelines are untouched. */
  function RemovePromoted(d: TimelineResponse): (r: Result<TimelineResponse>)
    ensures d.threaded.None? ==> r == Ok(d)
    ensures r.Ok? ==> r.value.home == d.home && r.value.search == d.search && r.value.user == d.user
    ensures r.Ok? && d.threaded.Some? ==> r.value.threaded.Some? && |r.value.threaded.value| == |d.threaded.value|
  {
    if d.threaded.None? then Ok(d)
    else
      var c := CleanInstructions(d.threaded.value);
      if c.Err? then Err(c.message) else Ok(d.(threaded := Some(c.value)))
  }

  /** The rewritten conversation holds no promoted tweet: every entry added
      by it is clean. */
  lemma {:induction false} RemovedPromotedEntries(d: TimelineResponse)
    requires RemovePromoted(d).Ok?
    ensures forall e :: e in AddedEntries(InstructionsOrEmpty(RemovePromoted(d).value.threaded)) ==> Clean(e)
  {
    if d.threaded.Some? {
      var xs := RemovePromoted(d).value.threaded.value;
      forall e | e in AddedEntries(xs) ensures Clean(e) {
        var i :| 0 <= i < |xs| && xs[i].Some? && xs[i].value.AddEntries? && e in xs[i].value.entries.GetOr([]);
        var orig := d.threaded.value[i];
        assert xs[i] == CleanInstruction(orig).value;
      }
    }
  }

  /** Cleaning is idempotent: entries already cleaned are kept as they
      are. */
  lemma {:induction false} CleanEntriesIdempotent(entries: seq<Entry>)
    requires CleanEntries(entries).Ok?
    ensures CleanEntries(CleanEntries(entries).value) == CleanEntries(entries)
    decreases |entries|
  {
    if entries != [] {
      var e := entries[0];
      CleanEntriesIdempotent(entries[1..]);
      var rest := CleanEntries(entries[1..]).value;
      if !PromotedEntry(e) {
        var c := CleanEntry(e);
        KeepUnpromotedIdempotent(if e.content.TimelineModule? && e.content.items.Some? then e.content.items.value else []);
        assert CleanEntry(c) == c;
        assert ([c] + rest)[1..] == rest;
      }
    }
  }

  lemma {:induction false} KeepUnpromotedIdempotent(items: seq<ModuleItem>)
    ensures KeepUnpromoted(KeepUnpromoted(items)) == KeepUnpromoted(items)
    decreases |items|
  {
    if items != [] {
      KeepUnpromotedIdempotent(items[1..]);
      var rest := KeepUnpromoted(items[1..]);
      if !PromotedModuleItem(items[0]) {
        assert ([items[0]] + rest)[1..] == rest;
      }
    }
  }

  /** The end of `requestTweetDetail`: an absent answer throws when its
      `data` is read; otherwise promoted tweets are removed, the cleaned
      detail is cached under the tweet id at `now`, its tweets are cached as
      a timeline update with the tweet as base, and it is returned. */
  function CompleteDetail(s: Store, tweetId: string, answer: Option<TimelineResponse>, now: int): (r: Result<(Store, TimelineResponse)>)
    ensures answer.None? ==> r.Err?
    ensures answer.Some? ==> (r.Ok? <==> RemovePromoted(answer.value).Ok?)
    ensures r.Ok? ==> r.value.1 == RemovePromoted(answer.value).value
    ensures r.Ok? ==> r.value.0.details == s.details[tweetId := CachedDetail(r.value.1, now)]
    ensures r.Ok? ==> forall c :: c in TimelineCalls(Some(r.value.1), Some(tweetId)) ==> TweetId(c.tweet).value in r.value.0.tweets.m
    ensures r.Ok? ==> s.tweets.m.Keys <= r.value.0.tweets.m.Keys
  {
    if answer.None? then Err(MissingItemContentError)
    else
      var cleaned := RemovePromoted(answer.value);
      if cleaned.Err? then Err(cleaned.message)
      else
        var s1 := CacheTweetDetail(s, tweetId, cleaned.value, now);
        Ok((HandleTimelineUpdate(s1, Some(cleaned.value), Some(tweetId)), cleaned.value))
  }

  /** Right after a completed fetch, asking again without `force` is
      answered from the cache with the cleaned detail and posts nothing. */
  lemma CompletedDetailIsCached(s: Store, pending: Pending, tweetId: string, answer: Option<TimelineResponse>, now: int, cd: Nullable<string>, nonce: string)
    requires CompleteDetail(s, tweetId, answer, now).Ok?
    ensures var c := CompleteDetail(s, tweetId, answer, now).value;
            RequestTweetDetail(c.0, pending, tweetId, cd, false, nonce, now) == FromCache(c.0, c.1)
  {
  }
}
