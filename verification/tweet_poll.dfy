/** The poll card's state (components/tweet/TweetPoll.tsx): what it derives
    from the poll and the optimistic choice, the highlight bar width, the
    winner rule and the vote with its rollback. Whether the poll has ended
    compares a parsed date with the clock, so it is a parameter. */
module TweetPoll {
  import opened Wrappers
  import opened PollInfo
  import PollApi

  /** The values the component derives on each render. */
  datatype View = View(
    totalVotes: int,
    selectedChoiceId: Option<int>,
    showResults: bool,
    maxCount: int,
    canVote: bool)

  /** The largest count, starting the reduction from 0. */
  function MaxCount(cs: seq<Choice>): (r: int)
    ensures r >= 0
    ensures forall j :: 0 <= j < |cs| ==> cs[j].count <= r
    ensures r == 0 || exists j :: 0 <= j < |cs| && cs[j].count == r
  {
    if cs == [] then 0
    else
      var rest := MaxCount(cs[1..]);
      assert forall j :: 1 <= j < |cs| ==> cs[j] == cs[1..][j - 1];
      if cs[0].count > rest then cs[0].count else rest
  }

  /** The derived values. The total counts the optimistic vote; the
      selection is the optimistic choice, else the poll's own; results show
      once the poll ended, the counts are final or a choice is selected; a
      vote is possible only when none of these hold and there is an
      endpoint. */
  function Derive(poll: Poll, optimistic: Option<int>, hasEnded: bool): (v: View)
    ensures v.totalVotes == poll.totalVotes + (if optimistic.Some? then 1 else 0)
    ensures v.selectedChoiceId == Or(optimistic, poll.selectedChoiceId)
    ensures v.showResults <==> hasEnded || poll.countsAreFinal || optimistic.Some? || poll.selectedChoiceId.Some?
    ensures v.canVote <==> !v.showResults && Truthy(poll.endpoint)
    ensures !v.showResults ==> v.maxCount == 0
    ensures v.showResults ==> forall j :: 0 <= j < |poll.choices| ==> poll.choices[j].count <= v.maxCount
  {
    var total := poll.totalVotes + (if optimistic.None? then 0 else 1);
    var selected := Or(optimistic, poll.selectedChoiceId);
    var show := hasEnded || poll.countsAreFinal || selected.Some?;
    var maxCount := if !show then 0 else MaxCount(poll.choices);
    View(total, selected, show, maxCount, !show && !hasEnded && !poll.countsAreFinal && Truthy(poll.endpoint))
  }

  /** `Math.round(100 * part / total)` for a positive total: half rounds
      up. */
  function RoundedPercent(part: int, total: int): (w: int)
    requires total > 0
    ensures 2 * total * w - total <= 200 * part < 2 * total * w + total
  {
    (200 * part + total) / (2 * total)
  }

  /** The highlight bar width of a choice: 0 while results are hidden, 1 for
      an empty poll, otherwise the rounded share (counting the optimistic
      vote for this choice) held within [1, 100]. */
  function HighlightWidth(showResults: bool, totalVotes: int, count: int, optimisticHere: bool): (w: int)
    ensures !showResults ==> w == 0
    ensures showResults && totalVotes == 0 ==> w == 1
    ensures showResults && totalVotes != 0 ==> 1 <= w <= 100
  {
    if !showResults then 0
    else if totalVotes == 0 then 1
    else
      var part := count + (if optimisticHere then 1 else 0);
      var raw := if totalVotes > 0 then RoundedPercent(part, totalVotes) else 1;
      if raw > 100 then 100 else if raw < 1 then 1 else raw
  }

  /** With a positive total and a part between none and all of the votes,
      the bar is the rounded share, raised to 1 when that rounds to 0: the
      upper bound never cuts in. */
  lemma HighlightIsShare(totalVotes: int, count: int, optimisticHere: bool)
    requires totalVotes > 0
    requires var part := count + (if optimisticHere then 1 else 0); 0 <= part <= totalVotes
    ensures var part := count + (if optimisticHere then 1 else 0);
            var share := RoundedPercent(part, totalVotes);
            0 <= share <= 100
            && HighlightWidth(true, totalVotes, count, optimisticHere) == (if share == 0 then 1 else share)
  {
    var part := count + (if optimisticHere then 1 else 0);
    var t := totalVotes;
    var w := RoundedPercent(part, t);
    assert w <= 100 by {
      if w > 100 {
        assert t * w >= t * 101 by { MulMonotone(t, 101, w); }
      }
    }
  }

  lemma MulMonotone(t: int, a: int, b: int)
    requires t > 0 && a <= b
    ensures t * a <= t * b
  {
  }

  /** A choice is a winner when the poll has ended, results show, some vote
      was cast and its count is the largest. */
  predicate IsWinner(v: View, hasEnded: bool, c: Choice) {
    hasEnded && v.showResults && v.totalVotes > 0 && c.count == v.maxCount
  }

  /** No other choice has more votes than a winner. */
  lemma WinnerHasMost(poll: Poll, optimistic: Option<int>, hasEnded: bool, c: Choice)
    requires IsWinner(Derive(poll, optimistic, hasEnded), hasEnded, c)
    ensures forall j :: 0 <= j < |poll.choices| ==> poll.choices[j].count <= c.count
  {
  }

  /** The card's local state: the optimistic choice. */
  datatype Card = Card(poll: Poll, tweetId: string, optimistic: Option<int>)

  /** The first half of `handleVote`: nothing happens unless a vote is
      possible; otherwise the choice is shown optimistically and the vote is
      sent with the poll's endpoint, card and tweet. */
  function BeginVote(c: Card, hasEnded: bool, choiceId: int): (r: (Card, Option<PollApi.VoteParams>))
    ensures !Derive(c.poll, c.optimistic, hasEnded).canVote ==> r == (c, None)
    ensures Derive(c.poll, c.optimistic, hasEnded).canVote ==>
              r.0 == c.(optimistic := Some(choiceId))
              && r.1 == Some(PollApi.VoteParams(c.poll.endpoint.value, c.poll.cardUri, c.poll.cardName, c.tweetId, choiceId, None))
  {
    if !Derive(c.poll, c.optimistic, hasEnded).canVote then (c, None)
    else if !Truthy(c.poll.endpoint) then (c, None)
    else (c.(optimistic := Some(choiceId)), Some(PollApi.VoteParams(c.poll.endpoint.value, c.poll.cardUri, c.poll.cardName, c.tweetId, choiceId, None)))
  }

  /** The second half: a failed vote clears the optimistic choice; a
      successful one keeps it. */
  function FinishVote(c: Card, succeeded: bool): (r: Card)
    ensures succeeded ==> r == c
    ensures !succeeded ==> r.optimistic.None? && r.poll == c.poll && r.tweetId == c.tweetId
  {
    if succeeded then c else c.(optimistic := None)
  }

  /** A failed vote restores the card exactly as it was before the click:
      a vote is only possible while nothing is selected, so clearing the
      optimistic choice is a true rollback. */
  lemma FailedVoteRollsBack(c: Card, hasEnded: bool, choiceId: int)
    requires BeginVote(c, hasEnded, choiceId).1.Some?
    ensures FinishVote(BeginVote(c, hasEnded, choiceId).0, false) == c
  {
  }

  /** Once a vote has begun the results show and a second click does
      nothing. */
  lemma NoSecondVote(c: Card, hasEnded: bool, choiceId: int, other: int)
    requires BeginVote(c, hasEnded, choiceId).1.Some?
    ensures var c1 := BeginVote(c, hasEnded, choiceId).0;
            Derive(c1.poll, c1.optimistic, hasEnded).showResults
            && Derive(c1.poll, c1.optimistic, hasEnded).totalVotes == c.poll.totalVotes + 1
            && BeginVote(c1, hasEnded, other) == (c1, None)
  {
  }
}
