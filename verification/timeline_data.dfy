/** Reading timeline responses (utils/timelineData.ts): the content
    discriminators and the collection of instructions from the four places a
    timeline can live in a GraphQL response. */
module TimelineData {
  import opened Wrappers
  import Ordered
  import opened TweetTypes

  /** `isTimelineItemContent`: decided by `entryType` alone. */
  predicate IsItemContent(c: Content) {
    c.TimelineItem?
  }

  /** `isTimelineModuleContent`: the module `entryType` and an `items`
      array. */
  predicate IsModuleContent(c: Content) {
    c.TimelineModule? && c.items.Some?
  }

  /** The object elements of an `instructions` field, in order; a field that
      is absent or not an array contributes nothing. */
  function Present(l: InstructionList): (r: seq<Instruction>)
    ensures l.None? ==> r == []
    ensures |r| <= |InstructionsOrEmpty(l)|
    ensures forall x :: x in r <==> Some(x) in InstructionsOrEmpty(l)
  {
    if l.None? then [] else Objects(l.value)
  }

  function Objects(xs: seq<Option<Instruction>>): (r: seq<Instruction>)
    ensures |r| <= |xs|
    ensures forall x :: x in r <==> Some(x) in xs
    ensures (forall i :: 0 <= i < |xs| ==> xs[i].Some?) ==> |r| == |xs|
  {
    if xs == [] then []
    else
      var rest := Objects(xs[1..]);
      assert forall x :: Some(x) in xs <==> (xs[0] == Some(x) || Some(x) in xs[1..]);
      if xs[0].Some? then [xs[0].value] + rest else rest
  }

  /** Filtering commutes with concatenation, and one element is kept
      exactly when it is an object: so the kept objects appear in their
      original order and number. */
  lemma {:induction false} ObjectsAppend(a: seq<Option<Instruction>>, b: seq<Option<Instruction>>)
    ensures Objects(a + b) == Objects(a) + Objects(b)
    ensures |a| == 1 ==> Objects(a) == (if a[0].Some? then [a[0].value] else [])
    decreases |a|
  {
    if a == [] {
      assert a + b == b;
    } else {
      var head := if a[0].Some? then [a[0].value] else [];
      assert (a + b)[0] == a[0] && (a + b)[1..] == a[1..] + b;
      assert Objects(a + b) == head + Objects(a[1..] + b);
      assert Objects(a) == head + Objects(a[1..]);
      ObjectsAppend(a[1..], b);
      Ordered.ConcatAssoc(head, Objects(a[1..]), Objects(b));
      if |a| == 1 {
        assert a[1..] == [];
      }
    }
  }

  /** The instructions of the user timeline, read only when `data.user.result`
      is an object. */
  function UserInstructions(u: UserTimeline): InstructionList {
    if u.UserObject? then u.instructions else None
  }

  /** `extractTimelineInstructions`: nothing for a missing response;
      otherwise the instructions of the home, threaded-conversation, search
      and user timelines, in that order. */
  function ExtractTimelineInstructions(response: Option<TimelineResponse>): (r: seq<Instruction>)
    ensures response.None? ==> r == []
    ensures forall x :: x in r ==>
              (response.Some? && (Some(x) in InstructionsOrEmpty(response.value.home)
                || Some(x) in InstructionsOrEmpty(response.value.threaded)
                || Some(x) in InstructionsOrEmpty(response.value.search)
                || Some(x) in InstructionsOrEmpty(UserInstructions(response.value.user))))
  {
    if response.None? then []
    else
      var d := response.value;
      Present(d.home) + Present(d.threaded) + Present(d.search) + Present(UserInstructions(d.user))
  }

  /** The four sources are read in order: the home timeline's instructions
      come first, then those of the conversation, and a response that holds
      only one source yields exactly that source's object elements. */
  lemma ExtractOrder(d: TimelineResponse)
    ensures var r := ExtractTimelineInstructions(Some(d));
            |Present(d.home)| <= |r| && r[..|Present(d.home)|] == Present(d.home)
            && r[|Present(d.home)|..][..|Present(d.threaded)|] == Present(d.threaded)
    ensures d.home.None? && d.search.None? && UserInstructions(d.user).None? ==>
            ExtractTimelineInstructions(Some(d)) == Present(d.threaded)
  {
    var r := ExtractTimelineInstructions(Some(d));
    var h := Present(d.home);
    var t := Present(d.threaded);
    assert r == h + (t + Present(d.search) + Present(UserInstructions(d.user)));
    assert r[|h|..] == t + Present(d.search) + Present(UserInstructions(d.user));
  }
}
