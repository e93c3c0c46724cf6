/** Conversation threads of a tweet-detail response and their grouping by
    section (utils/conversation.ts). */
module Conversation {
  import opened Wrappers
  import opened Text
  import opened Ordered
  import opened TweetTypes
  import opened ResponseData
  import opened TweetsStore
  import opened TimelineData

  const ThreadPrefix: string := "conversationthread-"
  const DefaultSection: string := "Default"

  datatype Thread = Thread(id: string, section: string, tweets: seq<Tweet>, controllerData: Option<string>)

  /** The `__typename === "Tweet"` results of a module's items, in order. */
  function ModuleTweets(items: seq<ModuleItem>): (r: seq<Tweet>)
    ensures |r| <= |items|
    ensures forall t :: t in r <==> exists i :: 0 <= i < |items| && ModuleItemPayload(items[i]) == TweetPayload(t)
  {
    if items == [] then []
    else
      var p := ModuleItemPayload(items[0]);
      var rest := ModuleTweets(items[1..]);
      assert forall i :: 1 <= i < |items| ==> items[i] == items[1..][i - 1];
      assert forall t :: (exists i :: 1 <= i < |items| && ModuleItemPayload(items[i]) == TweetPayload(t))
                         ==> exists j :: 0 <= j < |items[1..]| && ModuleItemPayload(items[1..][j]) == TweetPayload(t);
      if p.TweetPayload? then [p.tweet] + rest else rest
  }

  /** Collecting commutes with concatenation, and one item gives its tweet
      exactly when its result is a `Tweet`: so the tweets appear in the
      items' order. */
  lemma {:induction false} ModuleTweetsAppend(a: seq<ModuleItem>, b: seq<ModuleItem>)
    ensures ModuleTweets(a + b) == ModuleTweets(a) + ModuleTweets(b)
    ensures |a| == 1 ==>
      ModuleTweets(a) == (if ModuleItemPayload(a[0]).TweetPayload? then [ModuleItemPayload(a[0]).tweet] else [])
    decreases |a|
  {
    if a == [] {
      assert a + b == b;
    } else {
      var head := if ModuleItemPayload(a[0]).TweetPayload? then [ModuleItemPayload(a[0]).tweet] else [];
      assert (a + b)[0] == a[0] && (a + b)[1..] == a[1..] + b;
      assert ModuleTweets(a + b) == head + ModuleTweets(a[1..] + b);
      assert ModuleTweets(a) == head + ModuleTweets(a[1..]);
      ModuleTweetsAppend(a[1..], b);
      Ordered.ConcatAssoc(head, ModuleTweets(a[1..]), ModuleTweets(b));
      if |a| == 1 {
        assert a[1..] == [];
      }
    }
  }

  function SectionOfInfo(cei: Option<ClientEventInfo>): string {
    if cei.Some? && cei.value.section.Some? then cei.value.section.value else DefaultSection
  }

  /** The thread an entry yields, if any: its id starts with the thread
      prefix, its content is a module with an items array holding at least
      one tweet; the section defaults to "Default" and the controller data
      to null. The id is the entry id, which is never empty here, so the
      source's fallbacks for an empty id are never taken. */
  function Candidate(e: Entry): (r: Option<Thread>)
    ensures r.Some? ==> r.value.id == e.entryId && StartsWith(r.value.id, ThreadPrefix) && r.value.id != ""
    ensures r.Some? ==> |r.value.tweets| > 0
    ensures r.Some? <==> StartsWith(e.entryId, ThreadPrefix) && IsModuleContent(e.content)
                         && |ModuleTweets(e.content.items.value)| > 0
  {
    if !StartsWith(e.entryId, ThreadPrefix) || !IsModuleContent(e.content) then None
    else
      var tweets := ModuleTweets(e.content.items.value);
      if |tweets| == 0 then None
      else Some(Thread(e.entryId, SectionOfInfo(e.content.cei), tweets, CdOf(e.content.cei)))
  }

  /** All the threads the entries yield, duplicates included. */
  function Candidates(entries: seq<Entry>): (r: seq<Thread>)
    ensures forall t :: t in r <==> exists i :: 0 <= i < |entries| && Candidate(entries[i]) == Some(t)
  {
    if entries == [] then []
    else
      var rest := Candidates(entries[1..]);
      assert forall i :: 1 <= i < |entries| ==> entries[i] == entries[1..][i - 1];
      assert forall t :: (exists i :: 1 <= i < |entries| && Candidate(entries[i]) == Some(t))
                         ==> exists j :: 0 <= j < |entries[1..]| && Candidate(entries[1..][j]) == Some(t);
      var c := Candidate(entries[0]);
      if c.Some? then [c.value] + rest else rest
  }

  function Ids(ts: seq<Thread>): (r: seq<string>)
    ensures |r| == |ts|
    ensures forall i :: 0 <= i < |ts| ==> r[i] == ts[i].id
  {
    if ts == [] then [] else [ts[0].id] + Ids(ts[1..])
  }

  /** The threads whose id has not been seen, keeping the first thread of
      each id. */
  function DedupFrom(ts: seq<Thread>, seen: set<string>): (r: seq<Thread>)
    ensures forall t :: t in r ==> t in ts && t.id !in seen
  {
    if ts == [] then []
    else if ts[0].id in seen then DedupFrom(ts[1..], seen)
    else [ts[0]] + DedupFrom(ts[1..], seen + {ts[0].id})
  }

  /** No two kept threads share an id. */
  lemma {:induction false} DedupDistinct(ts: seq<Thread>, seen: set<string>)
    ensures NoDup(Ids(DedupFrom(ts, seen)))
    decreases |ts|
  {
    if ts != [] && ts[0].id !in seen {
      var rest := DedupFrom(ts[1..], seen + {ts[0].id});
      DedupDistinct(ts[1..], seen + {ts[0].id});
      assert Ids([ts[0]] + rest) == [ts[0].id] + Ids(rest);
      assert ts[0].id !in Ids(rest);
    } else if ts != [] {
      DedupDistinct(ts[1..], seen);
    }
  }

  /** The first thread of every id that has not been seen is kept. */
  lemma {:induction false} DedupKeepsFirst(ts: seq<Thread>, seen: set<string>, i: nat)
    requires i < |ts| && ts[i].id !in seen
    requires forall j :: 0 <= j < i ==> ts[j].id != ts[i].id
    ensures ts[i] in DedupFrom(ts, seen)
    decreases |ts|
  {
    if i > 0 {
      assert ts[1..][i - 1] == ts[i];
      if ts[0].id in seen {
        DedupKeepsFirst(ts[1..], seen, i - 1);
      } else {
        DedupKeepsFirst(ts[1..], seen + {ts[0].id}, i - 1);
      }
    }
  }

  lemma DedupCons(c: Thread, rest: seq<Thread>, seen: set<string>)
    ensures DedupFrom([c] + rest, seen)
            == if c.id in seen then DedupFrom(rest, seen) else [c] + DedupFrom(rest, seen + {c.id})
  {
    assert ([c] + rest)[0] == c && ([c] + rest)[1..] == rest;
  }

  lemma CandidatesStep(entries: seq<Entry>, i: nat)
    requires i < |entries|
    ensures Candidates(entries[i..])
            == (if Candidate(entries[i]).Some? then [Candidate(entries[i]).value] else []) + Candidates(entries[i + 1..])
  {
    assert entries[i..][0] == entries[i] && entries[i..][1..] == entries[i + 1..];
  }

  /** One entry's effect on the deduplicated threads: its thread is kept
      when it yields one whose id is unseen, and nothing is kept otherwise. */
  lemma DedupEntryStep(entries: seq<Entry>, i: nat, seen: set<string>)
    requires i < |entries|
    ensures var c := Candidate(entries[i]);
            DedupFrom(Candidates(entries[i..]), seen)
            == if c.Some? && entries[i].entryId !in seen
               then [c.value] + DedupFrom(Candidates(entries[i + 1..]), seen + {entries[i].entryId})
               else DedupFrom(Candidates(entries[i + 1..]), seen)
  {
    CandidatesStep(entries, i);
    var c := Candidate(entries[i]);
    if c.Some? {
      DedupCons(c.value, Candidates(entries[i + 1..]), seen);
    }
  }

  /** Every kept thread has a thread id and at least one tweet. */
  lemma DedupShape(entries: seq<Entry>)
    ensures forall t :: t in DedupFrom(Candidates(entries), {}) ==> StartsWith(t.id, ThreadPrefix) && |t.tweets| > 0
  {
    forall t | t in DedupFrom(Candidates(entries), {})
      ensures StartsWith(t.id, ThreadPrefix) && |t.tweets| > 0
    {
      assert t in Candidates(entries);
      var i :| 0 <= i < |entries| && Candidate(entries[i]) == Some(t);
    }
  }

  /** One turn of the loop of `extractConversationThreads` keeps the
      threads collected so far followed by what the remaining entries will
      add unchanged. */
  lemma CollectStep(entries: seq<Entry>, i: nat, seen: set<string>, threads: seq<Thread>)
    requires i < |entries|
    ensures var e := entries[i];
            var c := Candidate(e);
            var take := StartsWith(e.entryId, ThreadPrefix) && e.entryId !in seen && c.Some?;
            (if take then threads + [c.value] else threads)
              + DedupFrom(Candidates(entries[i + 1..]), if take then seen + {e.entryId} else seen)
            == threads + DedupFrom(Candidates(entries[i..]), seen)
  {
    DedupEntryStep(entries, i, seen);
    var e := entries[i];
    var c := Candidate(e);
    if StartsWith(e.entryId, ThreadPrefix) && e.entryId !in seen && c.Some? {
      var rest := DedupFrom(Candidates(entries[i + 1..]), seen + {e.entryId});
      assert threads + ([c.value] + rest) == (threads + [c.value]) + rest;
    }
  }

  /** The entries of a detail's conversation instructions. */
  function DetailEntries(detail: Option<TimelineResponse>): seq<Entry> {
    if detail.None? then [] else AddedEntries(InstructionsOrEmpty(detail.value.threaded))
  }

  /** `extractConversationThreads`: entries are visited in order with a set
      of the ids that have produced a thread; an entry whose id is in the set
      is skipped, and an id is added only once its entry yields a thread. */
  method ExtractConversationThreads(detail: Option<TimelineResponse>) returns (threads: seq<Thread>)
    ensures detail.None? ==> threads == []
    ensures threads == DedupFrom(Candidates(DetailEntries(detail)), {})
    ensures NoDup(Ids(threads))
    ensures forall t :: t in threads ==> StartsWith(t.id, ThreadPrefix) && |t.tweets| > 0
  {
    var entries := DetailEntries(detail);
    threads := CollectThreads(entries);
    DedupDistinct(Candidates(entries), {});
    DedupShape(entries);
  }

  /** The loop of `extractConversationThreads` over the entries. */
  method CollectThreads(entries: seq<Entry>) returns (threads: seq<Thread>)
    ensures threads == DedupFrom(Candidates(entries), {})
  {
    var seen: set<string> := {};
    threads := [];
    var i := 0;
    while i < |entries|
      invariant 0 <= i <= |entries|
      invariant threads + DedupFrom(Candidates(entries[i..]), seen) == DedupFrom(Candidates(entries), {})
    {
      var e := entries[i];
      CollectStep(entries, i, seen, threads);
      if StartsWith(e.entryId, ThreadPrefix) && e.entryId !in seen {
        var c := Candidate(e);
        if c.Some? {
          threads := threads + [c.value];
          seen := seen + {e.entryId};
        }
      }
      i := i + 1;
    }
    assert entries[i..] == [];
  }

  /** `getSectionLabel`: the label of one of the five known sections, and
      "更多讨论" for any other. */
  function SectionLabel(section: string): (r: string)
    ensures section !in {"HighQuality", "LowQuality", "Unsorted", "Following", "Default"} ==> r == "更多讨论"
    ensures r == "更多讨论" <==> section !in {"HighQuality", "LowQuality", "Following", "Default"}
    ensures r != ""
  {
    match section
    case "HighQuality" => "优质回复"
    case "LowQuality" => "更多回复"
    case "Unsorted" => "更多讨论"
    case "Following" => "关注的人"
    case "Default" => "全部回复"
    case _ => "更多讨论"
  }

  datatype Group = Group(section: string, caption: string, threads: seq<Thread>)

  /** The section a thread is grouped under: an empty section is "Default". */
  function SectionOf(t: Thread): string {
    if t.section == "" then DefaultSection else t.section
  }

  function SectionsOf(ts: seq<Thread>): (r: seq<string>)
    ensures |r| == |ts|
  {
    if ts == [] then [] else SectionsOf(ts[..|ts| - 1]) + [SectionOf(ts[|ts| - 1])]
  }

  /** The threads of one section, in their relative order. */
  function InSection(ts: seq<Thread>, section: string): seq<Thread> {
    if ts == [] then []
    else InSection(ts[..|ts| - 1], section) + (if SectionOf(ts[|ts| - 1]) == section then [ts[|ts| - 1]] else [])
  }

  /** A group collects exactly the threads of its section. */
  lemma {:induction false} InSectionMember(ts: seq<Thread>, section: string, t: Thread)
    ensures t in InSection(ts, section) <==> t in ts && SectionOf(t) == section
    decreases |ts|
  {
    if ts != [] {
      var init := ts[..|ts| - 1];
      InSectionMember(init, section, t);
      assert ts == init + [ts[|ts| - 1]];
    }
  }

  function GroupSections(gs: seq<Group>): (r: seq<string>)
    ensures |r| == |gs|
  {
    if gs == [] then [] else GroupSections(gs[..|gs| - 1]) + [gs[|gs| - 1].section]
  }

  lemma {:induction false} GroupSectionsAt(gs: seq<Group>, k: nat)
    requires k < |gs|
    ensures GroupSections(gs)[k] == gs[k].section
    decreases |gs|
  {
    if k < |gs| - 1 {
      GroupSectionsAt(gs[..|gs| - 1], k);
    }
  }

  lemma InSectionSnoc(ts: seq<Thread>, t: Thread, section: string)
    ensures InSection(ts + [t], section) == InSection(ts, section) + (if SectionOf(t) == section then [t] else [])
  {
    assert (ts + [t])[..|ts|] == ts;
  }

  lemma SectionsSnoc(ts: seq<Thread>, t: Thread)
    ensures SectionsOf(ts + [t]) == SectionsOf(ts) + [SectionOf(t)]
  {
    assert (ts + [t])[..|ts|] == ts;
  }

  /** A section that none of the threads has collects no thread. */
  lemma {:induction false} InSectionAbsent(ts: seq<Thread>, section: string)
    requires section !in SectionsOf(ts)
    ensures InSection(ts, section) == []
    decreases |ts|
  {
    if ts != [] {
      var init := ts[..|ts| - 1];
      assert SectionsOf(ts) == SectionsOf(init) + [SectionOf(ts[|ts| - 1])];
      InSectionAbsent(init, section);
    }
  }

  lemma GroupSectionsSnoc(gs: seq<Group>, g: Group)
    ensures GroupSections(gs + [g]) == GroupSections(gs) + [g.section]
  {
    assert (gs + [g])[..|gs|] == gs;
  }

  lemma GroupSectionsUpdate(gs: seq<Group>, k: nat, g: Group)
    requires k < |gs| && g.section == gs[k].section
    ensures GroupSections(gs[k := g]) == GroupSections(gs)
  {
    var r := GroupSections(gs[k := g]);
    forall j | 0 <= j < |gs| ensures r[j] == GroupSections(gs)[j] {
      GroupSectionsAt(gs[k := g], j);
      GroupSectionsAt(gs, j);
    }
  }

  /** The grouping of a prefix of the threads: sections in order of first
      appearance, each group with its label and the prefix's threads of its
      section. */
  ghost predicate GroupedUpTo(groups: seq<Group>, ts: seq<Thread>) {
    && GroupSections(groups) == SetAddAll([], SectionsOf(ts))
    && (forall k :: 0 <= k < |groups| ==>
          groups[k].caption == SectionLabel(groups[k].section) && groups[k].threads == InSection(ts, groups[k].section))
  }

  lemma GroupNew(groups: seq<Group>, ts: seq<Thread>, t: Thread)
    requires GroupedUpTo(groups, ts)
    requires SectionOf(t) !in GroupSections(groups)
    ensures GroupedUpTo(groups + [Group(SectionOf(t), SectionLabel(SectionOf(t)), [t])], ts + [t])
  {
    var section := SectionOf(t);
    var g := Group(section, SectionLabel(section), [t]);
    var gs := groups + [g];
    SectionsSnoc(ts, t);
    SetAddAllSnoc([], SectionsOf(ts), section);
    GroupSectionsSnoc(groups, g);
    assert section !in SectionsOf(ts);
    InSectionAbsent(ts, section);
    forall k | 0 <= k < |groups| ensures groups[k].section != section {
      GroupSectionsAt(groups, k);
    }
    GroupsHoldNew(groups, ts, t);
  }

  lemma GroupsHoldNew(groups: seq<Group>, ts: seq<Thread>, t: Thread)
    requires forall k :: 0 <= k < |groups| ==>
      groups[k].caption == SectionLabel(groups[k].section) && groups[k].threads == InSection(ts, groups[k].section)
    requires forall k :: 0 <= k < |groups| ==> groups[k].section != SectionOf(t)
    requires InSection(ts, SectionOf(t)) == []
    ensures var gs := groups + [Group(SectionOf(t), SectionLabel(SectionOf(t)), [t])];
      forall k :: 0 <= k < |gs| ==>
        gs[k].caption == SectionLabel(gs[k].section) && gs[k].threads == InSection(ts + [t], gs[k].section)
  {
    var gs := groups + [Group(SectionOf(t), SectionLabel(SectionOf(t)), [t])];
    InSectionSnoc(ts, t, SectionOf(t));
    forall k | 0 <= k < |gs|
      ensures gs[k].caption == SectionLabel(gs[k].section) && gs[k].threads == InSection(ts + [t], gs[k].section)
    {
      if k < |groups| {
        assert gs[k] == groups[k];
        OtherSectionKept(ts, t, groups[k]);
      }
    }
  }

  /** A thread of another section leaves a group's threads as they are. */
  lemma OtherSectionKept(ts: seq<Thread>, t: Thread, g: Group)
    requires g.threads == InSection(ts, g.section) && g.section != SectionOf(t)
    ensures g.threads == InSection(ts + [t], g.section)
  {
    InSectionSnoc(ts, t, g.section);
  }


  lemma GroupExisting(groups: seq<Group>, ts: seq<Thread>, t: Thread, k0: nat)
    requires GroupedUpTo(groups, ts)
    requires k0 < |groups| && groups[k0].section == SectionOf(t)
    ensures GroupedUpTo(groups[k0 := groups[k0].(threads := groups[k0].threads + [t])], ts + [t])
  {
    var section := SectionOf(t);
    var g := groups[k0].(threads := groups[k0].threads + [t]);
    SectionsSnoc(ts, t);
    SetAddAllSnoc([], SectionsOf(ts), section);
    GroupSectionsAt(groups, k0);
    GroupSectionsUpdate(groups, k0, g);
    forall k | 0 <= k < |groups| && k != k0 ensures groups[k].section != section {
      GroupSectionsAt(groups, k);
    }
    GroupsHoldExisting(groups, ts, t, k0);
  }

  lemma GroupsHoldExisting(groups: seq<Group>, ts: seq<Thread>, t: Thread, k0: nat)
    requires forall k :: 0 <= k < |groups| ==>
      groups[k].caption == SectionLabel(groups[k].section) && groups[k].threads == InSection(ts, groups[k].section)
    requires k0 < |groups| && groups[k0].section == SectionOf(t)
    requires forall k :: 0 <= k < |groups| && k != k0 ==> groups[k].section != SectionOf(t)
    ensures var gs := groups[k0 := groups[k0].(threads := groups[k0].threads + [t])];
      forall k :: 0 <= k < |gs| ==>
        gs[k].caption == SectionLabel(gs[k].section) && gs[k].threads == InSection(ts + [t], gs[k].section)
  {
    var gs := groups[k0 := groups[k0].(threads := groups[k0].threads + [t])];
    InSectionSnoc(ts, t, SectionOf(t));
    forall k | 0 <= k < |gs|
      ensures gs[k].caption == SectionLabel(gs[k].section) && gs[k].threads == InSection(ts + [t], gs[k].section)
    {
      if k != k0 {
        assert gs[k] == groups[k];
        OtherSectionKept(ts, t, groups[k]);
      }
    }
  }


  /** The map from a section to the position of its group. */
  ghost predicate IndexesGroups(index: map<string, nat>, groups: seq<Group>) {
    && (forall s :: s in index <==> s in GroupSections(groups))
    && (forall s :: s in index ==> index[s] < |groups| && groups[index[s]].section == s)
  }

  lemma IndexNew(index: map<string, nat>, groups: seq<Group>, g: Group)
    requires IndexesGroups(index, groups) && g.section !in index
    ensures IndexesGroups(index[g.section := |groups|], groups + [g])
  {
    GroupSectionsSnoc(groups, g);
    var gs := groups + [g];
    forall s | s in index ensures gs[index[s]] == groups[index[s]] { }
  }

  lemma IndexExisting(index: map<string, nat>, groups: seq<Group>, k0: nat, g: Group)
    requires IndexesGroups(index, groups) && k0 < |groups| && g.section == groups[k0].section
    ensures IndexesGroups(index, groups[k0 := g])
  {
    GroupSectionsUpdate(groups, k0, g);
  }

  lemma TakeSnoc<T>(xs: seq<T>, i: nat)
    requires i < |xs|
    ensures xs[..i + 1] == xs[..i] + [xs[i]]
  {
  }

  /** `groupThreadsBySection`: one group per section, in the order sections
      first appear; each group holds, in order, exactly the threads of its
      section, and carries that section's label. */
  method GroupThreadsBySection(threads: seq<Thread>) returns (groups: seq<Group>)
    ensures GroupSections(groups) == SetAddAll([], SectionsOf(threads))
    ensures NoDup(GroupSections(groups))
    ensures forall k :: 0 <= k < |groups| ==>
      groups[k].caption == SectionLabel(groups[k].section) && groups[k].threads == InSection(threads, groups[k].section)
  {
    groups := [];
    var index: map<string, nat> := map[];
    var i := 0;
    while i < |threads|
      invariant 0 <= i <= |threads|
      invariant GroupedUpTo(groups, threads[..i])
      invariant IndexesGroups(index, groups)
    {
      groups, index := AddThread(groups, index, threads, i);
      i := i + 1;
    }
    GroupedAll(groups, threads);
  }

  /** One turn of the loop of `groupThreadsBySection`: a thread of a new
      section opens a group at the end and records its position, a thread
      of a known section is appended to that section's group. */
  method AddThread(groups: seq<Group>, index: map<string, nat>, threads: seq<Thread>, i: nat)
    returns (groups': seq<Group>, index': map<string, nat>)
    requires i < |threads|
    requires GroupedUpTo(groups, threads[..i]) && IndexesGroups(index, groups)
    ensures GroupedUpTo(groups', threads[..i + 1]) && IndexesGroups(index', groups')
  {
    var t := threads[i];
    var section := SectionOf(t);
    TakeSnoc(threads, i);
    if section !in index {
      var g := Group(section, SectionLabel(section), [t]);
      GroupNew(groups, threads[..i], t);
      IndexNew(index, groups, g);
      index' := index[section := |groups|];
      groups' := groups + [g];
    } else {
      var k0 := index[section];
      var g := groups[k0].(threads := groups[k0].threads + [t]);
      GroupExisting(groups, threads[..i], t, k0);
      IndexExisting(index, groups, k0, g);
      index' := index;
      groups' := groups[k0 := g];
    }
  }

  lemma GroupedAll(groups: seq<Group>, threads: seq<Thread>)
    requires GroupedUpTo(groups, threads[..|threads|])
    ensures GroupSections(groups) == SetAddAll([], SectionsOf(threads))
    ensures NoDup(GroupSections(groups))
    ensures forall k :: 0 <= k < |groups| ==>
      groups[k].caption == SectionLabel(groups[k].section) && groups[k].threads == InSection(threads, groups[k].section)
  {
    assert threads[..|threads|] == threads;
    assert NoDup<string>([]);
  }



  lemma {:induction false} SectionInSections(ts: seq<Thread>, t: Thread)
    requires t in ts
    ensures SectionOf(t) in SectionsOf(ts)
    decreases |ts|
  {
    var init := ts[..|ts| - 1];
    assert ts == init + [ts[|ts| - 1]];
    if t != ts[|ts| - 1] {
      SectionInSections(init, t);
    }
  }

  lemma GroupHoldsItsSection(threads: seq<Thread>, g: Group, t: Thread)
    requires g.threads == InSection(threads, g.section)
    requires t in threads
    ensures t in g.threads <==> g.section == SectionOf(t)
  {
    InSectionMember(threads, g.section, t);
  }

  /** In a grouping as `groupThreadsBySection` returns it, every thread has
      a group, and it lies in exactly the group of its own section. */
  lemma {:induction false} GroupingPlacesEachThreadOnce(threads: seq<Thread>, groups: seq<Group>, t: Thread)
    requires GroupSections(groups) == SetAddAll([], SectionsOf(threads))
    requires forall k :: 0 <= k < |groups| ==> groups[k].threads == InSection(threads, groups[k].section)
    requires t in threads
    ensures SectionOf(t) in GroupSections(groups)
    ensures forall k :: 0 <= k < |groups| ==> (t in groups[k].threads <==> groups[k].section == SectionOf(t))
  {
    var section := SectionOf(t);
    SectionInSections(threads, t);
    assert section in SetAddAll([], SectionsOf(threads));
    forall k | 0 <= k < |groups| ensures t in groups[k].threads <==> groups[k].section == section {
      GroupHoldsItsSection(threads, groups[k], t);
    }
  }



}
