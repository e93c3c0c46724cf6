/** Replaying the following-list request (interceptor/followingList.ts): the
    query of the REST call and its headers. The transaction id comes from a
    foreign signing library and is a parameter. */
module FollowingRequest {
  import opened Wrappers
  import opened Text
  import opened Http
  import opened Ordered
  import opened SearchParams
  import HeaderUtils
  import Json

  const MissingUserError := "缺少用户 ID，无法请求关注列表"
  const DefaultCount := 3
  const FollowingPath := "/i/api/1.1/friends/following/list.json"

  /** The fixed query parameters, in their order. */
  const DefaultQuery: Params := [
    ("include_profile_interstitial_type", "1"),
    ("include_blocking", "1"),
    ("include_blocked_by", "1"),
    ("include_followed_by", "1"),
    ("include_want_retweets", "1"),
    ("include_mute_edge", "1"),
    ("include_can_dm", "1"),
    ("include_can_media_tag", "1"),
    ("include_ext_is_blue_verified", "1"),
    ("include_ext_verified_type", "1"),
    ("include_ext_profile_image_shape", "1"),
    ("skip_status", "1"),
    ("with_total_count", "true")]

  /** A JavaScript number as the count option: finite, or NaN or an
      infinity. Anything that is not a number is `None`. */
  datatype JsNumber = FiniteNumber(x: real) | NonFiniteNumber

  /** The request fields the interceptor reads. */
  datatype Request = Request(userId: Option<string>, count: Option<JsNumber>, cursor: Option<string>)

  /** `Math.max(1, Math.floor(count))` for a finite number, else 3. */
  function ResolvedCount(count: Option<JsNumber>): (n: int)
    ensures n >= 1
    ensures count.Some? && count.value.FiniteNumber? ==> n == (if count.value.x.Floor >= 1 then count.value.x.Floor else 1)
    ensures !(count.Some? && count.value.FiniteNumber?) ==> n == DefaultCount
  {
    var resolved := if count.Some? && count.value.FiniteNumber? then count.value.x.Floor else DefaultCount;
    if resolved > 1 then resolved else 1
  }

  /** A whole count of at least one passes through unchanged. */
  lemma WholeCountKept(n: int)
    requires n >= 1
    ensures ResolvedCount(Some(FiniteNumber(n as real))) == n
  {
  }

  /** The cursor sent: the trimmed cursor when that is not blank. */
  predicate HasCursor(cursor: Option<string>) {
    Truthy(cursor) && Trim(cursor.value) != ""
  }

  /** The cursor value sent. */
  function CursorValue(cursor: Option<string>): string {
    if HasCursor(cursor) then Trim(cursor.value) else "-1"
  }

  /** The three request-specific names. */
  predicate Fresh(base: Params) {
    !Has(base, "user_id") && !Has(base, "count") && !Has(base, "cursor")
  }

  /** The three `set` calls on a query holding none of their names: each
      appends. */
  function SetRequestParams(base: Params, userId: string, count: Option<JsNumber>, cursor: Option<string>): (q: Params)
    requires Fresh(base)
    ensures q == base + [("user_id", userId), ("count", IntToString(ResolvedCount(count))),
                         ("cursor", CursorValue(cursor))]
  {
    var p1 := Set(base, "user_id", userId);
    assert p1 == base + [("user_id", userId)];
    assert !Has(p1, "count") by { HasAppend(base, [("user_id", userId)], "count"); }
    var p2 := Set(p1, "count", IntToString(ResolvedCount(count)));
    assert p2 == base + [("user_id", userId), ("count", IntToString(ResolvedCount(count)))];
    assert !Has(p2, "cursor") by {
      HasAppend(base, [("user_id", userId), ("count", IntToString(ResolvedCount(count)))], "cursor");
    }
    if HasCursor(cursor) then Set(p2, "cursor", Trim(cursor.value))
    else if !Has(p2, "cursor") then Set(p2, "cursor", "-1")
    else p2
  }

  /** The query: the fixed parameters, then `user_id`, `count` and `cursor`
      ("-1" when the cursor is missing or blank). */
  function FollowingQuery(userId: string, count: Option<JsNumber>, cursor: Option<string>): (q: Params)
    ensures q == DefaultQuery + [("user_id", userId), ("count", IntToString(ResolvedCount(count))),
                                 ("cursor", CursorValue(cursor))]
  {
    NotAFixedName("user_id");
    NotAFixedName("count");
    NotAFixedName("cursor");
    SetRequestParams(DefaultQuery, userId, count, cursor)
  }

  /** `get` on the query reads the user id, the resolved count and the
      cursor. */
  lemma FollowingQueryValues(userId: string, count: Option<JsNumber>, cursor: Option<string>)
    ensures var q := FollowingQuery(userId, count, cursor);
            Get(q, "user_id") == Some(userId)
            && Get(q, "count") == Some(IntToString(ResolvedCount(count)))
            && Get(q, "cursor") == Some(CursorValue(cursor))
  {
    NotAFixedName("user_id");
    NotAFixedName("count");
    NotAFixedName("cursor");
    RequestParamsRead(DefaultQuery, userId, count, cursor);
  }

  lemma RequestParamsRead(base: Params, userId: string, count: Option<JsNumber>, cursor: Option<string>)
    requires Fresh(base)
    ensures var q := base + [("user_id", userId), ("count", IntToString(ResolvedCount(count))), ("cursor", CursorValue(cursor))];
            Get(q, "user_id") == Some(userId)
            && Get(q, "count") == Some(IntToString(ResolvedCount(count)))
            && Get(q, "cursor") == Some(CursorValue(cursor))
  {
    var tail := [("user_id", userId), ("count", IntToString(ResolvedCount(count))), ("cursor", CursorValue(cursor))];
    GetAfter(base, tail, "user_id");
    GetAfter(base, tail, "count");
    GetAfter(base, tail, "cursor");
    assert Get(tail, "user_id") == Some(userId);
    assert Get(tail, "count") == Get(tail[1..], "count") == Some(IntToString(ResolvedCount(count)));
    assert Get(tail, "cursor") == Get(tail[1..], "cursor") == Get(tail[2..], "cursor") == Some(CursorValue(cursor));
  }

  /** Every fixed parameter's name starts with "i", "s" or "w". */
  lemma NotAFixedName(k: string)
    requires k in {"user_id", "count", "cursor"}
    ensures !Has(DefaultQuery, k)
  {
    forall i | 0 <= i < |DefaultQuery| ensures DefaultQuery[i].0 != k {
      assert DefaultQuery[i].0[0] in "isw";
    }
  }

  /** `if (!headers.has(k)) headers.set(k, v)`. */
  predicate SetIfAbsent(before: HeaderUtils.Headers, after: HeaderUtils.Headers, k: string, v: string) {
    after.Get(k) == (if k in before.m then before.Get(k) else Some(v))
  }

  /** The fetch headers, given the replay headers' non-empty entries: the
      transaction id, then accept, active-user and auth-type only where
      absent. */
  function FollowingHeaders(fetched: HeaderUtils.Headers, transactionId: string): (r: HeaderUtils.Headers)
    ensures fetched.Valid() ==> r.Valid()
    ensures var h := fetched.Put("x-client-transaction-id", transactionId);
            r.Get("x-client-transaction-id") == Some(transactionId)
            && SetIfAbsent(h, r, "accept", "*/*")
            && SetIfAbsent(h, r, "x-twitter-active-user", "yes")
            && SetIfAbsent(h, r, "x-twitter-auth-type", "OAuth2Session")
    ensures forall k :: k != "x-client-transaction-id" && k != "accept" && k != "x-twitter-active-user" && k != "x-twitter-auth-type" ==>
              r.Get(k) == fetched.Get(k)
  {
    var h := fetched.Put("x-client-transaction-id", transactionId);
    var h1 := AddIfAbsent(h, "accept", "*/*");
    var h2 := AddIfAbsent(h1, "x-twitter-active-user", "yes");
    AddIfAbsent(h2, "x-twitter-auth-type", "OAuth2Session")
  }

  function AddIfAbsent(h: HeaderUtils.Headers, k: string, v: string): (r: HeaderUtils.Headers)
    ensures h.Valid() ==> r.Valid()
    ensures SetIfAbsent(h, r, k, v)
    ensures forall j :: j != k ==> r.Get(j) == h.Get(j)
  {
    if k in h.m then h else h.Put(k, v)
  }

  /** The request the interceptor sends for a non-blank user id. */
  datatype FollowingCall = FollowingCall(path: string, query: Params, headers: HeaderUtils.Headers)

  /** `performFollowingListRequest`: a blank user id fails before anything
      is sent; otherwise the call goes out and a non-2xx status fails. */
  function PerformFollowingListRequest(req: Request, ctx: HeaderUtils.Replay, transactionId: string,
                                       reply: HttpReply<Json.Value>): (r: (Option<FollowingCall>, Result<Json.Value>))
    ensures r.0.None? <==> !Truthy(req.userId) || Trim(req.userId.value) == ""
    ensures r.0.None? ==> r.1 == Err(MissingUserError)
    ensures r.0.Some? ==> r.0.value.query == FollowingQuery(Trim(req.userId.value), req.count, req.cursor)
                          && r.0.value.path == FollowingPath
                          && r.0.value.headers == FollowingHeaders(HeaderUtils.FetchHeaders(HeaderUtils.ReplayHeaders(None, ctx)), transactionId)
    ensures r.0.Some? ==> (r.1.Ok? <==> Ok2xx(reply.status))
    ensures r.0.Some? && r.1.Ok? ==> r.1.value == reply.body
    ensures r.0.Some? && r.1.Err? ==> r.1.message == "关注列表请求失败，状态码 " + IntToString(reply.status)
  {
    var trimmed := if req.userId.Some? then Trim(req.userId.value) else "";
    if trimmed == "" then (None, Err(MissingUserError))
    else
      var headers := FollowingHeaders(HeaderUtils.FetchHeaders(HeaderUtils.ReplayHeaders(None, ctx)), transactionId);
      var call := FollowingCall(FollowingPath, FollowingQuery(trimmed, req.count, req.cursor), headers);
      if Ok2xx(reply.status) then (Some(call), Ok(reply.body))
      else (Some(call), Err("关注列表请求失败，状态码 " + IntToString(reply.status)))
  }
}
