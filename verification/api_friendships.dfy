/** Following and unfollowing from the content script (api/friendships.ts):
    input validation, the form body, and correlation of the answer. */
module FriendshipsApi {
  import opened Wrappers
  import opened Text
  import Json
  import opened SearchParams
  import opened Bridge
  import opened Correlation

  const UnknownError := "未知错误"
  const MissingUserError := "缺少用户 ID，无法继续关注操作"

  datatype FriendshipAction = Follow | Unfollow {
    function Name(): string {
      if Follow? then "follow" else "unfollow"
    }
  }

  /** `DEFAULT_FORM_PARAMS`, in declaration order. */
  const DefaultFormParams: Params := [
    ("include_profile_interstitial_type", "1"),
    ("include_blocking", "1"),
    ("include_blocked_by", "1"),
    ("include_followed_by", "1"),
    ("include_want_retweets", "1"),
    ("include_mute_edge", "1"),
    ("include_can_dm", "1"),
    ("include_can_media_tag", "1"),
    ("include_ext_is_blue_verified", "1"),
    ("include_ext_verified_type", "1"),
    ("include_ext_profile_image_shape", "1"),
    ("skip_status", "1")
  ]

  /** `buildFormBody`: the default parameters, then `user_id`. */
  function FormBody(userId: string): (r: Params)
    ensures r == DefaultFormParams + [("user_id", userId)]
    ensures Get(r, "user_id") == Some(userId) && Occurrences(r, "user_id") == 1
  {
    assert !Has(DefaultFormParams, "user_id");
    Set(DefaultFormParams, "user_id", userId)
  }

  datatype FriendshipPayload = FriendshipPayload(requestId: string, action: FriendshipAction, userId: string, body: Params)

  /** A response payload; a success settles with the whole payload. */
  datatype FriendshipReply = FriendshipReply(
    requestId: string, data: Option<Json.Value>, action: Option<FriendshipAction>, userId: Option<string>, error: Option<string>)

  type FriendshipStep = Step<Message<FriendshipPayload>, FriendshipReply>

  function FriendshipRequestId(action: FriendshipAction, userId: string, nonce: string): string {
    action.Name() + "-" + userId + "-" + nonce
  }

  /** `sendFriendshipRequest`: a missing or blank user id throws before
      anything is registered or posted; otherwise the trimmed id is sent
      with its form body. */
  function SendFriendshipRequest(pending: Pending, nonce: string, action: FriendshipAction, userId: Option<string>): (r: Result<FriendshipStep>)
    ensures r.Err? <==> userId.None? || AllSpace(userId.value)
    ensures r.Err? ==> r.message == MissingUserError
    ensures r.Ok? ==>
      var id := Trim(userId.value);
      var rid := FriendshipRequestId(action, id, nonce);
      r.value.pending == pending[rid := Waiter(false)]
      && RegisteredBeforePosted(r.value.events)
      && r.value.events == [Registered(rid), Posted(rid, Outgoing(ToInterceptor, FriendshipRequest,
                                                    FriendshipPayload(rid, action, id, FormBody(id))))]
  {
    if userId.None? || Trim(userId.value) == "" then Err(MissingUserError)
    else
      var id := Trim(userId.value);
      var rid := FriendshipRequestId(action, id, nonce);
      Ok(Send(pending, rid, Waiter(false), Outgoing(ToInterceptor, FriendshipRequest, FriendshipPayload(rid, action, id, FormBody(id)))))
  }

  /** `followUser` and `unfollowUser`. */
  function FollowUser(pending: Pending, nonce: string, userId: Option<string>): (r: Result<FriendshipStep>)
    ensures r.Ok? ==> PostedRequest(r.value).Some? && PostedRequest(r.value).value.payload.action == Follow
  {
    SendFriendshipRequest(pending, nonce, Follow, userId)
  }

  function UnfollowUser(pending: Pending, nonce: string, userId: Option<string>): (r: Result<FriendshipStep>)
    ensures r.Ok? ==> PostedRequest(r.value).Some? && PostedRequest(r.value).value.payload.action == Unfollow
  {
    SendFriendshipRequest(pending, nonce, Unfollow, userId)
  }

  /** `handleFriendshipResponse(payload, isError)`. */
  function HandleFriendshipResponse(pending: Pending, reply: FriendshipReply, isError: bool): (r: FriendshipStep)
    ensures reply.requestId !in pending ==> r == Step(pending, [])
    ensures reply.requestId in pending ==> r.pending == pending - {reply.requestId}
    ensures DeletedBeforeSettled(r.events)
    ensures forall e :: e in r.events && e.Resolved? ==> !isError && e.value == reply
    ensures forall e :: e in r.events && e.Rejected? ==> isError && e.message == reply.error.GetOr(UnknownError)
  {
    Settle(pending, reply.requestId, if isError then Failure(reply.error) else Success(reply), UnknownError)
  }

  /** Surrounding white space does not change the request: the same user
      id with or without it yields the same request id and payload. */
  lemma PaddingIgnored(pending: Pending, nonce: string, action: FriendshipAction, userId: string)
    requires !AllSpace(userId)
    ensures SendFriendshipRequest(pending, nonce, action, Some(userId))
            == SendFriendshipRequest(pending, nonce, action, Some(Trim(userId)))
  {
    TrimIdempotent(userId);
  }
}
