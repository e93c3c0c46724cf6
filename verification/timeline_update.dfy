/** Caching every tweet of a captured timeline response
    (handlers/timelineUpdateHandler.ts). The handler is split into the list of
    `storeTweet` calls it makes and the application of that list to the
    cache. */
module TimelineUpdate {
  import opened Wrappers
  import opened TweetTypes
  import opened ResponseData
  import opened TweetsStore
  import opened TimelineData

  /** One `storeTweet(tweet, controllerData, refreshRelation)` call, with the
      id of the entry it came from and whether it came from a module item.
      Limited actions are never passed, so the previous ones are kept. */
  datatype StoreCall = StoreCall(tweet: Tweet, cd: Option<string>, refresh: bool, origin: string, inModule: bool)

  /** The entry id that receives a relation refresh: `tweet-${baseTweetId}`,
      which reads "tweet-undefined" when no base id is given. */
  function BaseEntryId(base: Option<string>): string {
    "tweet-" + base.GetOr("undefined")
  }

  function ClientInfoOf(inner: Option<ModuleItemInner>): Option<ClientEventInfo> {
    if inner.Some? then inner.value.cei else None
  }

  /** `processTimelineEntry(entry, refreshRelation)`. A single item is
      stored when its result is a plain tweet with an id (a visibility
      wrapper or a tombstone is skipped), with the content's controller data
      before the entry's. Every tweet of a module is stored without refresh,
      whatever the flag, with controller data taken from the inner item, the
      item, the content and the entry in that order. */
  function EntryCalls(e: Entry, refresh: bool): (r: seq<StoreCall>)
    ensures forall c :: c in r ==> IsTweetResult(TweetPayload(c.tweet)) && c.origin == e.entryId
    ensures forall c :: c in r ==> (c.refresh <==> refresh && !c.inModule)
    ensures forall c :: c in r ==> (c.inModule <==> IsModuleContent(e.content))
    ensures IsItemContent(e.content) ==> (|r| == 1 <==> IsTweetResult(EntryPayload(e))) && |r| <= 1
    ensures IsItemContent(e.content) && |r| == 1 ==>
      r[0].tweet == EntryPayload(e).tweet
      && r[0].cd == SelectControllerData([e.content.cei, e.cei])
    ensures !IsItemContent(e.content) && !IsModuleContent(e.content) ==> r == []
  {
    var content := e.content;
    if IsItemContent(content) then
      var p := EntryPayload(e);
      if IsTweetResult(p) then [StoreCall(p.tweet, SelectControllerData([content.cei, e.cei]), refresh, e.entryId, false)]
      else []
    else if IsModuleContent(content) then ModuleCalls(content.items.value, content.cei, e.cei, e.entryId)
    else []
  }

  function ModuleCalls(items: seq<ModuleItem>, contentInfo: Option<ClientEventInfo>, entryInfo: Option<ClientEventInfo>, origin: string): (r: seq<StoreCall>)
    ensures |r| <= |items|
    ensures forall c :: c in r ==> IsTweetResult(TweetPayload(c.tweet)) && !c.refresh && c.inModule && c.origin == origin
    ensures forall i :: 0 <= i < |items| && IsTweetResult(ModuleItemPayload(items[i])) ==>
      StoreCall(ModuleItemPayload(items[i]).tweet,
                SelectControllerData([ClientInfoOf(items[i].item), items[i].cei, contentInfo, entryInfo]),
                false, origin, true) in r
  {
    if items == [] then []
    else
      var it := items[0];
      var p := ModuleItemPayload(it);
      var head := if IsTweetResult(p)
        then [StoreCall(p.tweet, SelectControllerData([ClientInfoOf(it.item), it.cei, contentInfo, entryInfo]), false, origin, true)]
        else [];
      var rest := ModuleCalls(items[1..], contentInfo, entryInfo, origin);
      assert forall i :: 1 <= i < |items| ==> items[i] == items[1..][i - 1];
      head + rest
  }

  /** The entries an instruction hands to `processTimelineEntry`: all of a
      `TimelineAddEntries`, the one of a `TimelinePinEntry`, none otherwise. */
  function EntriesOf(ins: Instruction): seq<Entry> {
    match ins
    case AddEntries(entries) => entries.GetOr([])
    case PinEntry(entry) => if entry.Some? then [entry.value] else []
    case OtherInstruction => []
  }

  /** Every call that processing `e` makes, with the refresh flag for the
      base entry, is among `calls`. */
  predicate Offered(e: Entry, base: Option<string>, calls: seq<StoreCall>) {
    forall c :: c in EntryCalls(e, e.entryId == BaseEntryId(base)) ==> c in calls
  }

  function EntriesCalls(entries: seq<Entry>, base: Option<string>): (r: seq<StoreCall>)
    ensures forall c :: c in r ==> IsTweetResult(TweetPayload(c.tweet))
    ensures forall c :: c in r ==> (c.refresh <==> c.origin == BaseEntryId(base) && !c.inModule)
    ensures forall i :: 0 <= i < |entries| ==> Offered(entries[i], base, r)
  {
    if entries == [] then []
    else
      var rest := EntriesCalls(entries[1..], base);
      assert forall i :: 1 <= i < |entries| ==> entries[i] == entries[1..][i - 1];
      EntryCalls(entries[0], entries[0].entryId == BaseEntryId(base)) + rest
  }

  /** One instruction: the entries of `TimelineAddEntries`, the entry of
      `TimelinePinEntry`, nothing for any other type. */
  function InstructionCalls(ins: Instruction, base: Option<string>): (r: seq<StoreCall>)
    ensures ins.OtherInstruction? ==> r == []
    ensures forall c :: c in r ==> IsTweetResult(TweetPayload(c.tweet))
    ensures forall c :: c in r ==> (c.refresh <==> c.origin == BaseEntryId(base) && !c.inModule)
    ensures forall e :: e in EntriesOf(ins) ==> Offered(e, base, r)
  {
    match ins
    case AddEntries(entries) => EntriesCalls(entries.GetOr([]), base)
    case PinEntry(entry) =>
      if entry.Some? then EntryCalls(entry.value, entry.value.entryId == BaseEntryId(base)) else []
    case OtherInstruction => []
  }

  function InstructionsCalls(instructions: seq<Instruction>, base: Option<string>): (r: seq<StoreCall>)
    ensures forall c :: c in r ==> IsTweetResult(TweetPayload(c.tweet))
    ensures forall c :: c in r ==> (c.refresh <==> c.origin == BaseEntryId(base) && !c.inModule)
    ensures forall k :: 0 <= k < |instructions| ==> forall e :: e in EntriesOf(instructions[k]) ==> Offered(e, base, r)
  {
    if instructions == [] then []
    else
      var rest := InstructionsCalls(instructions[1..], base);
      assert forall k :: 1 <= k < |instructions| ==> instructions[k] == instructions[1..][k - 1];
      InstructionCalls(instructions[0], base) + rest
  }

  /** The calls `handleTimelineUpdate(response, baseTweetId)` makes: every
      call that processing an entry of an `AddEntries` or `PinEntry`
      instruction makes is among them, and a call refreshes relations
      exactly when it stores the single item of the entry `tweet-<base>`. */
  function TimelineCalls(response: Option<TimelineResponse>, base: Option<string>): (r: seq<StoreCall>)
    ensures response.None? ==> r == []
    ensures forall c :: c in r ==> IsTweetResult(TweetPayload(c.tweet))
    ensures forall c :: c in r ==> (c.refresh <==> c.origin == BaseEntryId(base) && !c.inModule)
    ensures forall ins, e :: ins in ExtractTimelineInstructions(response) && e in EntriesOf(ins) ==> Offered(e, base, r)
  {
    var xs := ExtractTimelineInstructions(response);
    var r := InstructionsCalls(xs, base);
    assert forall ins :: ins in xs ==> exists k :: 0 <= k < |xs| && xs[k] == ins;
    r
  }

  /** Performs the calls in order. */
  function ApplyCalls(s: Store, calls: seq<StoreCall>): (r: Store)
    ensures forall i :: 0 <= i < |calls| && Truthy(TweetId(calls[i].tweet)) ==> TweetId(calls[i].tweet).value in r.tweets.m
    ensures s.tweets.m.Keys <= r.tweets.m.Keys
    ensures s.tweets.Valid() ==> r.tweets.Valid()
    ensures r.details == s.details && r.deleted == s.deleted
    decreases |calls|
  {
    if calls == [] then s
    else
      var c := calls[0];
      var s1 := StoreTweet(s, c.tweet, c.cd, c.refresh, Undefined);
      var r := ApplyCalls(s1, calls[1..]);
      assert forall i :: 1 <= i < |calls| ==> calls[i] == calls[1..][i - 1];
      r
  }

  /** `handleTimelineUpdate`: every tweet the response offers for storing is
      in the cache afterwards, and the detail and tombstone stores are left
      alone. */
  function HandleTimelineUpdate(s: Store, response: Option<TimelineResponse>, base: Option<string>): (r: Store)
    ensures forall c :: c in TimelineCalls(response, base) ==> TweetId(c.tweet).value in r.tweets.m
    ensures forall ins, e :: ins in ExtractTimelineInstructions(response) && e in EntriesOf(ins) ==>
              forall c :: c in EntryCalls(e, e.entryId == BaseEntryId(base)) ==> TweetId(c.tweet).value in r.tweets.m
    ensures s.tweets.m.Keys <= r.tweets.m.Keys
    ensures s.tweets.Valid() ==> r.tweets.Valid()
    ensures r.details == s.details && r.deleted == s.deleted
  {
    var calls := TimelineCalls(response, base);
    var r := ApplyCalls(s, calls);
    assert forall c :: c in calls ==> exists i :: 0 <= i < |calls| && calls[i] == c;
    r
  }

  /** An added or pinned entry whose single item holds a plain tweet has
      that tweet cached once the response is handled. */
  lemma ItemEntryCached(s: Store, response: Option<TimelineResponse>, base: Option<string>, ins: Instruction, e: Entry)
    requires ins in ExtractTimelineInstructions(response) && e in EntriesOf(ins)
    requires IsItemContent(e.content) && IsTweetResult(EntryPayload(e))
    ensures TweetId(EntryPayload(e).tweet).value in HandleTimelineUpdate(s, response, base).tweets.m
  {
    var calls := EntryCalls(e, e.entryId == BaseEntryId(base));
    assert calls[0] in calls;
  }

  /** The pinned entry `tweet-<base>` holding a plain tweet leads to exactly
      one call, and that call refreshes the relations of that tweet. */
  lemma PinnedBaseEntryRefreshes(e: Entry, base: Option<string>)
    requires e.entryId == BaseEntryId(base) && IsItemContent(e.content) && IsTweetResult(EntryPayload(e))
    ensures var r := InstructionCalls(PinEntry(Some(e)), base);
            |r| == 1 && r[0].refresh && r[0].tweet == EntryPayload(e).tweet
  {
  }
}
