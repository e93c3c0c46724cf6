/** Reading tweets out of raw GraphQL payloads (utils/responseData.ts). */
module ResponseData {
  import opened Wrappers
  import opened TweetTypes
  import opened Media
  import Text

  /** A tweet unwrapped from its payload, with the limited actions of a
      visibility wrapper: `Undefined` for a plain tweet, `Null` for a wrapper
      without `limited_actions`. */
  datatype Normalized = Normalized(tweet: Tweet, limitedActions: Nullable<seq<LimitedAction>>)

  /** `getTweetIdFromTweet`: `rest_id ?? legacy.id_str` (an empty `rest_id`
      is kept, not skipped). */
  function TweetId(t: Tweet): (r: Option<string>)
    ensures r.Some? <==> t.restId.Some? || (t.legacy.Some? && t.legacy.value.idStr.Some?)
    ensures t.restId.Some? ==> r == t.restId
  {
    Or(t.restId, if t.legacy.Some? then t.legacy.value.idStr else None)
  }

  /** `isTweetResult`: a "Tweet" object whose id is truthy. */
  predicate IsTweetResult(p: Payload) {
    p.TweetPayload? && Truthy(TweetId(p.tweet))
  }

  /** `isTweetTombstone`. */
  predicate IsTombstone(p: Payload) {
    p.TombstonePayload?
  }

  /** `normalizeTweetResult`: unwraps a tweet or a visibility wrapper whose
      tweet has a truthy id; anything else is null. */
  function Normalize(p: Payload): (r: Option<Normalized>)
    ensures r.Some? ==> Truthy(TweetId(r.value.tweet))
    ensures r.Some? ==> TweetSize(r.value.tweet) < PayloadSize(p)
    ensures r.Some? ==> p.TweetPayload? || p.VisibilityPayload?
    ensures r.Some? ==> (r.value.limitedActions.Undefined? <==> p.TweetPayload?)
    ensures p.TweetPayload? ==> (r.Some? <==> Truthy(TweetId(p.tweet)))
    ensures p.VisibilityPayload? ==> (r.Some? <==> p.inner.Some? && Truthy(TweetId(p.inner.value)))
  {
    match p
    case TweetPayload(t) =>
      if Truthy(TweetId(t)) then Some(Normalized(t, Undefined)) else None
    case VisibilityPayload(inner, limited) =>
      if inner.Some? && Truthy(TweetId(inner.value)) then
        Some(Normalized(inner.value, if limited.Some? then Value(limited.value) else Null))
      else None
    case _ => None
  }

  /** The type guard and the normaliser agree: a payload passes
      `isTweetResult` exactly when it normalises to itself with no limited
      actions. */
  lemma IsTweetResultIffPlainNormalize(p: Payload)
    ensures IsTweetResult(p) <==>
      (Normalize(p).Some? && Normalize(p).value.limitedActions.Undefined?)
    ensures IsTweetResult(p) ==> Normalize(p).value.tweet == p.tweet
  {
  }

  /** Normalising the tweet a payload unwrapped to gives that tweet back. */
  lemma NormalizeStable(p: Payload)
    requires Normalize(p).Some?
    ensures Normalize(TweetPayload(Normalize(p).value.tweet))
            == Some(Normalized(Normalize(p).value.tweet, Undefined))
  {
  }

  /** `getUserFromTweet`: the author object when its `__typename` is "User". */
  function UserOf(t: Tweet): (r: Option<User>)
    ensures r.Some? ==> t.user == r && r.value.typename == Some("User")
    ensures r.None? ==> t.user.None? || t.user.value.typename != Some("User")
  {
    if t.user.Some? && t.user.value.typename == Some("User") then t.user else None
  }

  /** The places a user id is read from, in order of priority: the user's
      `rest_id`, the tweet's `legacy.user_id_str`, the user's `id` and the
      raw author's `rest_id`. */
  function UserIdSources(t: Tweet, user: Option<User>): seq<Option<string>> {
    [if user.Some? then user.value.restId else None,
     if t.legacy.Some? then t.legacy.value.userIdStr else None,
     if user.Some? then user.value.id else None,
     if t.user.Some? then t.user.value.restId else None]
  }

  /** `getUserIdFromTweet(tweet, user)`: the first truthy of `user.rest_id`,
      `legacy.user_id_str`, `user.id` and the raw author's `rest_id`. */
  function UserId(t: Tweet, user: Option<User>): (r: Option<string>)
    ensures r.Some? ==> r.value != ""
    ensures var c := UserIdSources(t, user);
      && (Truthy(c[0]) ==> r == c[0])
      && (!Truthy(c[0]) && Truthy(c[1]) ==> r == c[1])
      && (!Truthy(c[0]) && !Truthy(c[1]) && Truthy(c[2]) ==> r == c[2])
      && (!Truthy(c[0]) && !Truthy(c[1]) && !Truthy(c[2]) && Truthy(c[3]) ==> r == c[3])
      && (!Truthy(c[0]) && !Truthy(c[1]) && !Truthy(c[2]) && !Truthy(c[3]) ==> r.None?)
  {
    var userRestId := if user.Some? then user.value.restId else None;
    var legacyUserId := if t.legacy.Some? then t.legacy.value.userIdStr else None;
    var userId := if user.Some? then user.value.id else None;
    var rawRestId := if t.user.Some? then t.user.value.restId else None;
    if Truthy(userRestId) then userRestId
    else if Truthy(legacyUserId) then legacyUserId
    else if Truthy(userId) then userId
    else if Truthy(rawRestId) then rawRestId
    else None
  }

  /** `getParentTweetIdFromTweet`: `in_reply_to_status_id_str ??
      in_reply_to_tweet_id_str`. */
  function ParentId(t: Tweet): (r: Option<string>)
    ensures t.legacy.None? ==> r.None?
    ensures t.legacy.Some? && t.legacy.value.inReplyToStatusIdStr.Some? ==>
      r == t.legacy.value.inReplyToStatusIdStr
    ensures t.legacy.Some? && t.legacy.value.inReplyToStatusIdStr.None? ==>
      r == t.legacy.value.inReplyToTweetIdStr
  {
    if t.legacy.None? then None
    else Or(t.legacy.value.inReplyToStatusIdStr, t.legacy.value.inReplyToTweetIdStr)
  }

  /** `extractTweetMedia`: extended media when non-empty, else the plain
      entity media, else nothing. */
  function ExtractTweetMedia(t: Tweet): (r: seq<MediaEntity>)
    ensures t.legacy.Some? && t.legacy.value.extendedMedia.GetOr([]) != [] ==>
      r == t.legacy.value.extendedMedia.value
    ensures t.legacy.Some? && t.legacy.value.extendedMedia.GetOr([]) == [] ==>
      r == (if t.legacy.value.entities.Some? then t.legacy.value.entities.value.media.GetOr([]) else [])
    ensures t.legacy.None? ==> r == []
  {
    if t.legacy.None? then []
    else
      var l := t.legacy.value;
      var fromExtended := l.extendedMedia.GetOr([]);
      if |fromExtended| > 0 then fromExtended
      else if l.entities.Some? then l.entities.value.media.GetOr([])
      else []
  }

  /** An item of the media viewer. */
  datatype OverlayItem =
    | PhotoItem(key: string, previewSrc: string, fullSrc: Option<string>, alt: string)
    | VideoItem(key: string, alt: string, poster: Option<string>, source: Option<Variant>, isGif: bool)
  {
    function Key(): string {
      match this
      case PhotoItem(k, _, _, _) => k
      case VideoItem(k, _, _, _, _) => k
    }
  }

  /** `media_key ?? "<id_str>-<index>"`. */
  function MediaKey(m: MediaEntity, index: nat): string {
    m.mediaKey.GetOr(m.idStr + "-" + Text.NatToString(index))
  }

  /** The viewer item for one media entity, or nothing: a photo needs a
      non-empty background url, video and GIF always give an item, any other
      type none. `highRes` is the url upgrade of utils/media.ts, whose url
      parsing is not modelled. */
  function OverlayItemOf(m: MediaEntity, index: nat, highRes: string -> string): (r: Option<OverlayItem>)
    ensures r.Some? ==> r.value.Key() == MediaKey(m, index)
    ensures r.Some? && r.value.PhotoItem? ==> m.mediaType == "photo" && r.value.previewSrc != ""
    ensures r.Some? && r.value.VideoItem? ==>
      (m.mediaType == "video" || m.mediaType == "animated_gif")
      && (r.value.isGif <==> m.mediaType == "animated_gif")
    ensures (m.mediaType == "video" || m.mediaType == "animated_gif") ==> r.Some?
    ensures m.mediaType !in {"photo", "video", "animated_gif"} ==> r.None?
  {
    if m.mediaType == "photo" then
      var background := Or(m.mediaUrlHttps, Or(m.expandedUrl, m.url));
      if !Truthy(background) then None
      else
        var high := highRes(background.value);
        Some(PhotoItem(MediaKey(m, index), background.value,
                       if high != background.value then Some(high) else None,
                       Or(m.extAltText, m.mediaKey).GetOr("tweet media")))
    else if m.mediaType == "video" || m.mediaType == "animated_gif" then
      Some(VideoItem(MediaKey(m, index), "tweet media", Or(m.mediaUrlHttps, m.expandedUrl),
                     SelectVideoVariant(m.variants), m.mediaType == "animated_gif"))
    else None
  }

  /** `buildMediaOverlayItemsFromTweet` over the media list from position
      `from` on. */
  function OverlayItemsFrom(media: seq<MediaEntity>, from: nat, highRes: string -> string): (r: seq<OverlayItem>)
    requires from <= |media|
    ensures |r| <= |media| - from
    decreases |media| - from
  {
    if from == |media| then []
    else
      var rest := OverlayItemsFrom(media, from + 1, highRes);
      match OverlayItemOf(media[from], from, highRes)
      case Some(it) => [it] + rest
      case None => rest
  }

  /** Exactly the media that convert give items: none is invented and none
      dropped. */
  lemma OverlayItemsMembers(media: seq<MediaEntity>, from: nat, highRes: string -> string)
    requires from <= |media|
    ensures var r := OverlayItemsFrom(media, from, highRes);
      forall it :: it in r ==> exists i :: from <= i < |media| && OverlayItemOf(media[i], i, highRes) == Some(it)
    ensures var r := OverlayItemsFrom(media, from, highRes);
      forall i :: from <= i < |media| && OverlayItemOf(media[i], i, highRes).Some? ==> OverlayItemOf(media[i], i, highRes).value in r
  {
    var r := OverlayItemsFrom(media, from, highRes);
    var idx := Converting(media, from, highRes);
    OverlayItemsInOrder(media, from, highRes);
    forall it | it in r ensures exists i :: from <= i < |media| && OverlayItemOf(media[i], i, highRes) == Some(it) {
      var j :| 0 <= j < |r| && r[j] == it;
      assert OverlayItemOf(media[idx[j]], idx[j], highRes) == Some(it);
    }
    forall i | from <= i < |media| && OverlayItemOf(media[i], i, highRes).Some?
      ensures OverlayItemOf(media[i], i, highRes).value in r
    {
      var j :| 0 <= j < |idx| && idx[j] == i;
      assert OverlayItemOf(media[i], i, highRes).value == r[j];
    }
  }

  /** The positions, from `from` on, of the media that convert to an item,
      in increasing order. */
  function Converting(media: seq<MediaEntity>, from: nat, highRes: string -> string): (idx: seq<nat>)
    requires from <= |media|
    ensures forall j :: 0 <= j < |idx| ==> from <= idx[j] < |media| && OverlayItemOf(media[idx[j]], idx[j], highRes).Some?
    ensures forall j, k :: 0 <= j < k < |idx| ==> idx[j] < idx[k]
    ensures forall i :: from <= i < |media| && OverlayItemOf(media[i], i, highRes).Some? ==> i in idx
    decreases |media| - from
  {
    if from == |media| then []
    else
      var rest := Converting(media, from + 1, highRes);
      if OverlayItemOf(media[from], from, highRes).Some? then [from] + rest else rest
  }

  /** The items come in the order of their media: the `j`-th item is the
      conversion of the `j`-th medium that converts. */
  lemma {:induction false} OverlayItemsInOrder(media: seq<MediaEntity>, from: nat, highRes: string -> string)
    requires from <= |media|
    ensures InOrder(media, from, highRes)
  {
    var r := OverlayItemsFrom(media, from, highRes);
    var idx := Converting(media, from, highRes);
    SameCount(media, from, highRes);
    forall j | 0 <= j < |idx| ensures OverlayItemOf(media[idx[j]], idx[j], highRes) == Some(r[j]) {
      ItemAt(media, from, highRes, j);
    }
  }

  ghost predicate InOrder(media: seq<MediaEntity>, from: nat, highRes: string -> string)
    requires from <= |media|
  {
    var r := OverlayItemsFrom(media, from, highRes);
    var idx := Converting(media, from, highRes);
    |r| == |idx| && forall j :: 0 <= j < |idx| ==> OverlayItemOf(media[idx[j]], idx[j], highRes) == Some(r[j])
  }

  /** One item per converting medium. */
  lemma {:induction false} SameCount(media: seq<MediaEntity>, from: nat, highRes: string -> string)
    requires from <= |media|
    ensures |OverlayItemsFrom(media, from, highRes)| == |Converting(media, from, highRes)|
    decreases |media| - from
  {
    if from < |media| {
      SameCount(media, from + 1, highRes);
      CountStep(media, from, highRes);
    }
  }

  lemma CountStep(media: seq<MediaEntity>, from: nat, highRes: string -> string)
    requires from < |media|
    requires |OverlayItemsFrom(media, from + 1, highRes)| == |Converting(media, from + 1, highRes)|
    ensures |OverlayItemsFrom(media, from, highRes)| == |Converting(media, from, highRes)|
  {
    if OverlayItemOf(media[from], from, highRes).Some? {
      HitShape(media, from, highRes);
    } else {
      MissShape(media, from, highRes);
    }
  }

  /** The `j`-th item is the conversion of the `j`-th converting medium. */
  ghost predicate ItemMatches(media: seq<MediaEntity>, from: nat, highRes: string -> string, j: nat) {
    from <= |media| && j < |Converting(media, from, highRes)| && j < |OverlayItemsFrom(media, from, highRes)|
    && OverlayItemOf(media[Converting(media, from, highRes)[j]], Converting(media, from, highRes)[j], highRes)
       == Some(OverlayItemsFrom(media, from, highRes)[j])
  }

  lemma {:induction false} ItemAt(media: seq<MediaEntity>, from: nat, highRes: string -> string, j: nat)
    requires from <= |media| && j < |Converting(media, from, highRes)|
    ensures ItemMatches(media, from, highRes, j)
    decreases |media| - from
  {
    if OverlayItemOf(media[from], from, highRes).Some? {
      if j == 0 {
        HitFirst(media, from, highRes);
      } else {
        HitShiftIndex(media, from, highRes, j);
        ItemAt(media, from + 1, highRes, j - 1);
        HitShift(media, from, highRes, j);
      }
    } else {
      MissShape(media, from, highRes);
      ItemAt(media, from + 1, highRes, j);
      MissShift(media, from, highRes, j);
    }
  }

  /** A medium that converts puts its item and its position first. */
  lemma HitShape(media: seq<MediaEntity>, from: nat, highRes: string -> string)
    requires from < |media| && OverlayItemOf(media[from], from, highRes).Some?
    ensures OverlayItemsFrom(media, from, highRes)
            == [OverlayItemOf(media[from], from, highRes).value] + OverlayItemsFrom(media, from + 1, highRes)
    ensures Converting(media, from, highRes) == [from] + Converting(media, from + 1, highRes)
  {
  }

  /** A converting first medium gives the first item at the first position. */
  lemma HitFirst(media: seq<MediaEntity>, from: nat, highRes: string -> string)
    requires from < |media| && OverlayItemOf(media[from], from, highRes).Some?
    ensures ItemMatches(media, from, highRes, 0)
  {
    HitShape(media, from, highRes);
  }

  /** Past a converting first medium, positions move by one. */
  lemma HitShiftIndex(media: seq<MediaEntity>, from: nat, highRes: string -> string, j: nat)
    requires from < |media| && OverlayItemOf(media[from], from, highRes).Some?
    requires 0 < j < |Converting(media, from, highRes)|
    ensures j - 1 < |Converting(media, from + 1, highRes)|
  {
    HitShape(media, from, highRes);
  }

  /** Past a converting first medium, a match moves one place on. */
  lemma HitShift(media: seq<MediaEntity>, from: nat, highRes: string -> string, j: nat)
    requires from < |media| && OverlayItemOf(media[from], from, highRes).Some?
    requires 0 < j && ItemMatches(media, from + 1, highRes, j - 1)
    ensures ItemMatches(media, from, highRes, j)
  {
    HitShape(media, from, highRes);
    assert Converting(media, from, highRes)[j] == Converting(media, from + 1, highRes)[j - 1];
    assert OverlayItemsFrom(media, from, highRes)[j] == OverlayItemsFrom(media, from + 1, highRes)[j - 1];
  }

  /** Past a medium that does not convert, a match stays in place. */
  lemma MissShift(media: seq<MediaEntity>, from: nat, highRes: string -> string, j: nat)
    requires from < |media| && OverlayItemOf(media[from], from, highRes).None?
    requires ItemMatches(media, from + 1, highRes, j)
    ensures ItemMatches(media, from, highRes, j)
  {
    MissShape(media, from, highRes);
  }

  /** A medium that does not convert adds nothing. */
  lemma MissShape(media: seq<MediaEntity>, from: nat, highRes: string -> string)
    requires from < |media| && OverlayItemOf(media[from], from, highRes).None?
    ensures OverlayItemsFrom(media, from, highRes) == OverlayItemsFrom(media, from + 1, highRes)
    ensures Converting(media, from, highRes) == Converting(media, from + 1, highRes)
  {
  }

  function OverlayItems(t: Tweet, highRes: string -> string): (r: seq<OverlayItem>)
  {
    OverlayItemsFrom(ExtractTweetMedia(t), 0, highRes)
  }

  /** `getAvatarFromUser`: `profile_image_url_https ?? profile_image_url ??
      avatar.image_url`. */
  function AvatarFromUser(user: Option<User>): (r: Option<string>)
    ensures user.None? ==> r.None?
    ensures user.Some? && user.value.legacy.Some? && user.value.legacy.value.profileImageUrlHttps.Some? ==>
      r == user.value.legacy.value.profileImageUrlHttps
    ensures user.Some? && user.value.legacy.Some? && user.value.legacy.value.profileImageUrlHttps.None? ==>
      r == Or(user.value.legacy.value.profileImageUrl, user.value.avatarImageUrl)
    ensures user.Some? && user.value.legacy.None? ==> r == user.value.avatarImageUrl
  {
    if user.None? then None
    else
      var u := user.value;
      var l := u.legacy;
      Or(if l.Some? then l.value.profileImageUrlHttps else None,
         Or(if l.Some? then l.value.profileImageUrl else None, u.avatarImageUrl))
  }

  /** `data` of a TweetResultByRestId response: the `result` of each of the
      three fields the code looks at. */
  datatype ResultByRestIdData = ResultByRestIdData(tweetResult: Payload, tweetResultByRestId: Payload, tweet: Payload)

  /** `getTweetFromResultResponse`: the first present candidate, normalised. */
  function TweetFromResultResponse(data: Option<ResultByRestIdData>): (r: Option<Tweet>)
    ensures r.Some? ==> Truthy(TweetId(r.value))
    ensures data.Some? && IsTweetResult(data.value.tweetResult) ==> r == Some(data.value.tweetResult.tweet)
  {
    if data.None? then None
    else
      var d := data.value;
      var candidate :=
        if !d.tweetResult.Missing? then d.tweetResult
        else if !d.tweetResultByRestId.Missing? then d.tweetResultByRestId
        else d.tweet;
      match Normalize(candidate)
      case Some(n) => Some(n.tweet)
      case None => None
  }

  /** The fallback is nullish, not "first usable": a present candidate that
      is not a tweet hides a usable one behind it. */
  lemma TombstoneHidesFallback(t: Tweet)
    requires Truthy(TweetId(t))
    ensures TweetFromResultResponse(Some(ResultByRestIdData(TombstonePayload(None), TweetPayload(t), Missing))).None?
    ensures TweetFromResultResponse(Some(ResultByRestIdData(Missing, TweetPayload(t), Missing))) == Some(t)
  {
  }

  /** `selectControllerData`: the first source whose controller data is a
      non-empty string. */
  function SelectControllerData(sources: seq<Option<ClientEventInfo>>): (r: Option<string>)
    ensures r.Some? ==> r.value != ""
    ensures r.None? <==> forall i :: 0 <= i < |sources| ==> !Truthy(CdOf(sources[i]))
    ensures r.Some? ==> exists k :: 0 <= k < |sources| && CdOf(sources[k]) == r
                          && forall j :: 0 <= j < k ==> !Truthy(CdOf(sources[j]))
  {
    if sources == [] then None
    else if Truthy(CdOf(sources[0])) then CdOf(sources[0])
    else
      var r := SelectControllerData(sources[1..]);
      if r.Some? then
        ghost var k :| 0 <= k < |sources[1..]| && CdOf(sources[1..][k]) == r
                       && forall j :: 0 <= j < k ==> !Truthy(CdOf(sources[1..][j]));
        assert CdOf(sources[k + 1]) == r;
        r
      else r
  }

  function CdOf(c: Option<ClientEventInfo>): Option<string> {
    if c.Some? then c.value.controllerData else None
  }
}
