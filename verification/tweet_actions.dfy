/** The action bar under a tweet (components/tweet/TweetActions.tsx): the
    counts it starts from, the optimistic retweet, like and bookmark
    toggles with their rollback, and which buttons are disabled. */
module TweetActions {
  import opened Wrappers
  import opened Text
  import GraphqlApi

  /** The three toggles. */
  datatype Toggle = RetweetToggle | LikeToggle | BookmarkToggle

  /** The counters and flags of a tweet's `legacy` and `views` the bar
      reads. */
  datatype Stats = Stats(
    replyCount: Option<int>,
    retweetCount: Option<int>,
    quoteCount: Option<int>,
    favoriteCount: Option<int>,
    bookmarkCount: Option<int>,
    viewCount: Option<string>,
    retweeted: Option<bool>,
    favorited: Option<bool>,
    bookmarked: Option<bool>)

  /** `adjustCount`: a missing count is 0, and the result never goes below
      0. */
  function AdjustCount(value: Option<int>, up: bool): (r: int)
    ensures r >= 0
    ensures value.None? ==> r == (if up then 1 else 0)
    ensures value.Some? && up && value.value >= 0 ==> r == value.value + 1
    ensures value.Some? && !up && value.value >= 1 ==> r == value.value - 1
  {
    var next := value.GetOr(0) + (if up then 1 else -1);
    if next < 0 then 0 else next
  }

  /** Counting up and then down returns to a count that was not negative. */
  lemma AdjustUpDown(n: int)
    requires n >= 0
    ensures AdjustCount(Some(AdjustCount(Some(n), true)), false) == n
  {
  }

  /** A number in a boolean position: null and 0 are falsy. */
  predicate NonZero(x: Option<int>) {
    x.Some? && x.value != 0
  }

  /** The retweet count shown: retweets plus quotes when either is
      non-zero, otherwise none. */
  function InitialRetweetCount(s: Stats): (r: Option<int>)
    ensures r.Some? <==> NonZero(s.retweetCount) || NonZero(s.quoteCount)
    ensures r.Some? ==> r.value == s.retweetCount.GetOr(0) + s.quoteCount.GetOr(0)
  {
    if NonZero(s.retweetCount) || NonZero(s.quoteCount) then Some(s.retweetCount.GetOr(0) + s.quoteCount.GetOr(0))
    else None
  }

  /** The view count: parsed when the string is non-empty; a string with no
      leading integer reads as NaN. */
  function InitialViews(s: Stats): (r: Option<Number>)
    ensures r.Some? <==> Truthy(s.viewCount)
    ensures r.Some? && r.value.Finite? ==> Some(r.value.value) == ParseInt(s.viewCount.value)
  {
    if !Truthy(s.viewCount) then None
    else match ParseInt(s.viewCount.value)
      case Some(v) => Some(Finite(v))
      case None => Some(NonFinite)
  }

  /** One toggle's count and flag. */
  datatype Slot = Slot(count: Option<int>, active: Option<bool>)

  /** The bar's state; `pending` is the toggle awaiting its request. */
  datatype Bar = Bar(reply: Option<int>, views: Option<Number>, retweet: Slot, like: Slot, bookmark: Slot,
                     pending: Option<Toggle>)

  /** The state a tweet starts the bar in. */
  function InitialBar(s: Stats): (b: Bar)
    ensures b.pending.None?
    ensures b.retweet == Slot(InitialRetweetCount(s), s.retweeted)
    ensures b.like == Slot(s.favoriteCount, s.favorited) && b.bookmark == Slot(s.bookmarkCount, s.bookmarked)
  {
    Bar(s.replyCount, InitialViews(s), Slot(InitialRetweetCount(s), s.retweeted),
        Slot(s.favoriteCount, s.favorited), Slot(s.bookmarkCount, s.bookmarked), None)
  }

  function SlotOf(b: Bar, t: Toggle): Slot {
    match t
    case RetweetToggle => b.retweet
    case LikeToggle => b.like
    case BookmarkToggle => b.bookmark
  }

  function WithSlot(b: Bar, t: Toggle, s: Slot): (r: Bar)
    ensures SlotOf(r, t) == s
    ensures forall u :: u != t ==> SlotOf(r, u) == SlotOf(b, u)
    ensures r.pending == b.pending && r.reply == b.reply && r.views == b.views
  {
    match t
    case RetweetToggle => b.(retweet := s)
    case LikeToggle => b.(like := s)
    case BookmarkToggle => b.(bookmark := s)
  }

  /** The mutation a toggle sends, by the direction it moves to. */
  function ActionFor(t: Toggle, activate: bool): GraphqlApi.TweetAction {
    match t
    case RetweetToggle => if activate then GraphqlApi.DoRetweet else GraphqlApi.UndoRetweet
    case LikeToggle => if activate then GraphqlApi.Like else GraphqlApi.Unlike
    case BookmarkToggle => if activate then GraphqlApi.DoBookmark else GraphqlApi.UndoBookmark
  }

  /** A click on a toggle: nothing without a tweet id or while a toggle is
      pending; otherwise the flag flips, the count moves by one and the
      matching mutation is sent for the tweet. */
  function BeginToggle(b: Bar, tweetId: Option<string>, t: Toggle): (r: (Bar, Option<(GraphqlApi.TweetAction, string)>))
    ensures !Truthy(tweetId) || b.pending.Some? ==> r == (b, None)
    ensures Truthy(tweetId) && b.pending.None? ==>
              var before := SlotOf(b, t);
              var next := !(before.active == Some(true));
              r.1 == Some((ActionFor(t, next), tweetId.value))
              && r.0.pending == Some(t)
              && SlotOf(r.0, t) == Slot(Some(AdjustCount(before.count, next)), Some(next))
              && forall u :: u != t ==> SlotOf(r.0, u) == SlotOf(b, u)
  {
    if !Truthy(tweetId) || b.pending.Some? then (b, None)
    else
      var before := SlotOf(b, t);
      var next := !(before.active == Some(true));
      var flipped := WithSlot(b, t, Slot(Some(AdjustCount(before.count, next)), Some(next)));
      (flipped.(pending := Some(t)), Some((ActionFor(t, next), tweetId.value)))
  }

  /** The request settles: `pending` clears either way, and a failure puts
      back the flag and count from before the click. */
  function FinishToggle(b: Bar, t: Toggle, before: Slot, succeeded: bool): (r: Bar)
    ensures r.pending.None?
    ensures succeeded ==> SlotOf(r, t) == SlotOf(b, t)
    ensures !succeeded ==> SlotOf(r, t) == before
    ensures forall u :: u != t ==> SlotOf(r, u) == SlotOf(b, u)
  {
    var restored := if succeeded then b else WithSlot(b, t, before);
    restored.(pending := None)
  }

  /** A failed toggle leaves the bar exactly as it was before the click. */
  lemma FailedToggleRollsBack(b: Bar, tweetId: Option<string>, t: Toggle)
    requires BeginToggle(b, tweetId, t).1.Some?
    ensures FinishToggle(BeginToggle(b, tweetId, t).0, t, SlotOf(b, t), false) == b
  {
    var r := FinishToggle(BeginToggle(b, tweetId, t).0, t, SlotOf(b, t), false);
    assert SlotOf(r, RetweetToggle) == b.retweet && SlotOf(r, LikeToggle) == b.like;
    assert SlotOf(r, BookmarkToggle) == b.bookmark;
  }

  /** A successful like followed by a successful unlike gives back the
      count, once the flag has settled to a boolean. */
  lemma LikeThenUnlike(b: Bar, tweetId: string, n: int)
    requires tweetId != "" && b.pending.None? && b.like == Slot(Some(n), Some(false)) && n >= 0
    ensures var b1 := FinishToggle(BeginToggle(b, Some(tweetId), LikeToggle).0, LikeToggle, b.like, true);
            var b2 := FinishToggle(BeginToggle(b1, Some(tweetId), LikeToggle).0, LikeToggle, b1.like, true);
            b1.like == Slot(Some(n + 1), Some(true)) && b2 == b
  {
    var b1 := FinishToggle(BeginToggle(b, Some(tweetId), LikeToggle).0, LikeToggle, b.like, true);
    var b2 := FinishToggle(BeginToggle(b1, Some(tweetId), LikeToggle).0, LikeToggle, b1.like, true);
    assert SlotOf(b2, RetweetToggle) == b.retweet && SlotOf(b2, BookmarkToggle) == b.bookmark;
  }

  /** Every toggle button is disabled while any toggle is pending; the reply
      button never is. */
  predicate Disabled(b: Bar, t: Option<Toggle>) {
    t.Some? && b.pending.Some?
  }

  /** While a toggle is pending every toggle button is disabled and a click
      on one changes nothing. */
  lemma PendingBlocksAll(b: Bar, tweetId: Option<string>, t: Toggle)
    requires b.pending.Some?
    ensures Disabled(b, Some(t)) && !Disabled(b, None)
    ensures BeginToggle(b, tweetId, t) == (b, None)
  {
  }
}
