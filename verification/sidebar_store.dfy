/** The sidebar's state (store/sidebarStore.ts): its transitions and the
    clamped, persisted width. Listeners are left out; the stored width is
    read through the `raw` and `toNumber` parameters and written back as
    the second component of `SetWidth`. */
module SidebarStore {
  import opened Wrappers
  import opened Ordered
  import opened RelationStore
  import opened TweetsStore

  const MinWidth: int := 420
  const MaxWidth: int := 680
  const DefaultWidth: int := 560

  /** `SidebarTweetStatus`; the source spells `Partial` "partical". */
  datatype Status = Idle | Success | Failed | Loading | Partial

  datatype State = State(
    isOpen: bool,
    pinned: bool,
    width: int,
    tweetId: Option<string>,
    tweet: Option<TweetData>,
    tweetRelation: Option<Relation>,
    relateTweets: Option<Dict<TweetData>>,
    status: Status)

  /** `Math.round` on a finite number: the nearest integer, halves going
      up. */
  function Round(x: real): (r: int)
    ensures r as real - 0.5 <= x < r as real + 0.5
  {
    (x + 0.5).Floor
  }

  /** `clampWidth`: the rounded width, moved into [420, 680]. */
  function ClampWidth(w: real): (r: int)
    ensures MinWidth <= r <= MaxWidth
    ensures MinWidth <= Round(w) <= MaxWidth ==> r == Round(w)
    ensures Round(w) < MinWidth ==> r == MinWidth
    ensures Round(w) > MaxWidth ==> r == MaxWidth
  {
    var n := Round(w);
    if n < MinWidth then MinWidth else if n > MaxWidth then MaxWidth else n
  }

  /** A clamped width is a fixed point of the clamp. */
  lemma ClampIdempotent(w: real)
    ensures ClampWidth(ClampWidth(w) as real) == ClampWidth(w)
  {
    assert Round(ClampWidth(w) as real) == ClampWidth(w);
  }

  /** The clamp is monotone: a wider request never gives a narrower
      sidebar. */
  lemma ClampMonotone(a: real, b: real)
    requires a <= b
    ensures ClampWidth(a) <= ClampWidth(b)
  {
  }

  /** `getInitialWidth`: 560 when nothing (or an empty string) is stored or
      the stored text is not a finite number; otherwise the clamped stored
      number. `toNumber` is `Number(raw)` restricted to finite results. */
  function InitialWidth(raw: Option<string>, toNumber: string -> Option<real>): (r: int)
    ensures MinWidth <= r <= MaxWidth
    ensures !Truthy(raw) ==> r == DefaultWidth
    ensures Truthy(raw) && toNumber(raw.value).None? ==> r == DefaultWidth
    ensures Truthy(raw) && toNumber(raw.value).Some? ==> r == ClampWidth(toNumber(raw.value).value)
  {
    if !Truthy(raw) then DefaultWidth
    else
      var parsed := toNumber(raw.value);
      if parsed.Some? then ClampWidth(parsed.value) else DefaultWidth
  }

  /** The state when the script starts. */
  function Initial(width: int): (s: State)
    ensures !s.isOpen && !s.pinned && s.width == width && s.status == Idle
  {
    State(false, false, width, None, None, None, None, Idle)
  }

  /** `openTweet`: opens on the tweet, taking the id from its `rest_id`;
      `pinned` and `width` are kept. */
  function OpenTweet(s: State, tweet: TweetData, relation: Option<Relation>, relate: Option<Dict<TweetData>>, status: Status): (r: State)
    ensures r.isOpen && r.tweetId == tweet.result.restId && r.tweet == Some(tweet)
    ensures r.tweetRelation == relation && r.relateTweets == relate && r.status == status
    ensures r.pinned == s.pinned && r.width == s.width
  {
    s.(isOpen := true, tweetId := tweet.result.restId, tweet := Some(tweet),
       tweetRelation := relation, relateTweets := relate, status := status)
  }

  /** `togglePinned`: flips `pinned` and nothing else. */
  function TogglePinned(s: State): (r: State)
    ensures r.pinned == !s.pinned
    ensures r.(pinned := s.pinned) == s
  {
    s.(pinned := !s.pinned)
  }

  lemma TogglePinnedTwice(s: State)
    ensures TogglePinned(TogglePinned(s)) == s
  {
  }

  /** `setWidth`: the clamped width; the state is returned as it was when
      the width does not change, and otherwise the new width is also the
      value written to storage. */
  function SetWidth(s: State, w: real): (r: (State, Option<int>))
    ensures r.0.width == ClampWidth(w)
    ensures r.0.(width := s.width) == s
    ensures r.1.Some? <==> ClampWidth(w) != s.width
    ensures r.1.Some? ==> r.1.value == ClampWidth(w)
  {
    var next := ClampWidth(w);
    if s.width == next then (s, None) else (s.(width := next), Some(next))
  }

  /** Setting the same width a second time changes nothing and writes
      nothing. */
  lemma SetWidthIdempotent(s: State, w: real)
    ensures SetWidth(SetWidth(s, w).0, w) == (SetWidth(s, w).0, None)
  {
  }

  /** `close`: everything back to the initial values except the width. */
  function Close(s: State): (r: State)
    ensures r == Initial(s.width)
  {
    s.(isOpen := false, pinned := false, tweet := None, tweetId := None,
       tweetRelation := None, relateTweets := None, status := Idle)
  }

  /** Closing forgets the tweet but keeps the width the user chose, and a
      width within range survives the round through storage unchanged. */
  lemma CloseKeepsWidth(s: State, w: real)
    ensures Close(SetWidth(s, w).0).width == ClampWidth(w)
    ensures InitialWidth(Some("w"), (_: string) => Some(ClampWidth(w) as real)) == ClampWidth(w)
  {
    ClampIdempotent(w);
  }
}
