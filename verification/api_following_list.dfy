/** The following list of a user, as the content script fetches it
    (api/followingList.ts): normalising the REST response, the result cache
    and its key, validation and correlation. */
module FollowingListApi {
  import opened Wrappers
  import opened Text
  import opened Bridge
  import opened Correlation

  const UnknownError := "未知错误"
  const MissingUserError := "缺少用户 ID，无法获取关注列表"

  /** One user of the REST response; `id` is the numeric id. */
  datatype RawUser = RawUser(
    id: Option<int>,
    idStr: Option<string>,
    name: Option<string>,
    screenName: Option<string>,
    description: Option<string>,
    profileImageUrlHttps: Option<string>,
    profileImageUrl: Option<string>,
    following: Option<bool>,
    followedBy: Option<bool>,
    canDm: Option<bool>,
    canMediaTag: Option<bool>,
    muting: Option<bool>,
    blocking: Option<bool>)

  datatype RawResponse = RawResponse(
    users: Option<seq<RawUser>>,
    nextCursor: Option<int>,
    nextCursorStr: Option<string>,
    previousCursor: Option<int>,
    previousCursorStr: Option<string>,
    totalCount: Option<Number>)

  datatype Entry = Entry(
    id: string,
    name: string,
    screenName: string,
    description: string,
    avatarUrl: Option<string>,
    isFollowing: bool,
    isFollowedBy: bool,
    canDm: bool,
    canMediaTag: bool,
    isMuting: bool,
    isBlocking: bool)

  datatype FollowingListResult = FollowingListResult(
    users: seq<Entry>,
    nextCursor: Option<string>,
    previousCursor: Option<string>,
    totalCount: Option<int>)

  /** `Boolean(x)` of an optional boolean. */
  function Flag(b: Option<bool>): bool {
    b == Some(true)
  }

  /** `id_str`, else the numeric id written out. */
  function RawId(u: RawUser): Option<string> {
    Or(u.idStr, if u.id.Some? then Some(IntToString(u.id.value)) else None)
  }

  /** `normalizeFollowingListEntry`: no entry without an id (an empty
      `id_str` counts as none, whatever the numeric id); missing names become
      empty and missing flags false. */
  function NormalizeEntry(u: RawUser): (r: Option<Entry>)
    ensures r.None? <==> u.idStr == Some("") || (u.idStr.None? && u.id.None?)
    ensures r.Some? ==> r.value.id != ""
    ensures r.Some? && u.idStr.Some? ==> r.value.id == u.idStr.value
    ensures r.Some? && u.idStr.None? ==> r.value.id == IntToString(u.id.value)
    ensures r.Some? ==> r.value.name == u.name.GetOr("") && r.value.screenName == u.screenName.GetOr("")
                        && r.value.description == u.description.GetOr("")
                        && r.value.avatarUrl == Or(u.profileImageUrlHttps, u.profileImageUrl)
                        && r.value.isFollowing == Flag(u.following) && r.value.canDm == Flag(u.canDm)
  {
    var id := RawId(u);
    if !Truthy(id) then None
    else Some(Entry(id.value, u.name.GetOr(""), u.screenName.GetOr(""), u.description.GetOr(""),
                    Or(u.profileImageUrlHttps, u.profileImageUrl),
                    Flag(u.following), Flag(u.followedBy), Flag(u.canDm), Flag(u.canMediaTag),
                    Flag(u.muting), Flag(u.blocking)))
  }

  /** The normalised users, in response order, without the ones that have
      no id. */
  function NormalizeUsers(us: seq<RawUser>): (r: seq<Entry>)
    ensures |r| <= |us|
    ensures forall e :: e in r ==> e.id != ""
    ensures forall i :: 0 <= i < |us| && NormalizeEntry(us[i]).Some? ==> NormalizeEntry(us[i]).value in r
    ensures forall e :: e in r ==> exists i :: 0 <= i < |us| && NormalizeEntry(us[i]) == Some(e)
  {
    if us == [] then []
    else
      var rest := NormalizeUsers(us[1..]);
      assert forall i :: 1 <= i < |us| ==> us[i] == us[1..][i - 1];
      var head := NormalizeEntry(us[0]);
      if head.Some? then [head.value] + rest else rest
  }

  /** A cursor: the string form, else the numeric one written out; "0"
      means there is no further page. */
  function Cursor(str: Option<string>, num: Option<int>): (r: Option<string>)
    ensures r.Some? ==> r.value != "" && r.value != "0"
    ensures r.Some? ==> r == Or(str, if num.Some? then Some(IntToString(num.value)) else None)
    ensures str.Some? && str.value != "" && str.value != "0" ==> r == str
  {
    var c := Or(str, if num.Some? then Some(IntToString(num.value)) else None);
    if Truthy(c) && c.value != "0" then c else None
  }

  /** `normalizeFollowingListResponse`. */
  function NormalizeResponse(payload: RawResponse): (r: FollowingListResult)
    ensures payload.users.None? ==> r.users == []
    ensures r.totalCount.Some? <==> payload.totalCount.Some? && payload.totalCount.value.Finite?
    ensures r.nextCursor == Cursor(payload.nextCursorStr, payload.nextCursor)
    ensures r.previousCursor == Cursor(payload.previousCursorStr, payload.previousCursor)
  {
    FollowingListResult(
      if payload.users.Some? then NormalizeUsers(payload.users.value) else [],
      Cursor(payload.nextCursorStr, payload.nextCursor),
      Cursor(payload.previousCursorStr, payload.previousCursor),
      if payload.totalCount.Some? && payload.totalCount.value.Finite? then Some(payload.totalCount.value.value) else None)
  }

  /** `buildCacheKey`: `userId|count|cursor`, with "default" for a missing
      count and "start" for a missing cursor. */
  function CacheKey(userId: string, count: Option<int>, cursor: Option<string>): string {
    userId + "|" + CountPart(count) + "|" + cursor.GetOr("start")
  }

  function CountPart(count: Option<int>): string {
    if count.Some? then IntToString(count.value) else "default"
  }

  /** The key as user id, separator, rest; the count part has no `|`. */
  lemma KeyParts(u: string, c: Option<int>, k: Option<string>)
    ensures CacheKey(u, c, k) == u + ['|'] + (CountPart(c) + ['|'] + k.GetOr("start"))
    ensures '|' !in CountPart(c)
  {
    if c.Some? { NoBarInNumber(c.value); }
  }

  lemma NoBarInNumber(x: int)
    ensures '|' !in IntToString(x)
  {
    if x < 0 {
      assert IntToString(x) == "-" + NatToString(-x);
    }
  }

  /** The count part tells counts apart, a missing count included. */
  lemma CountPartInjective(c1: Option<int>, c2: Option<int>)
    requires CountPart(c1) == CountPart(c2)
    ensures c1 == c2
  {
    if c1.Some? && c2.Some? {
      IntToStringInjective(c1.value, c2.value);
    } else if c1.Some? {
      NumberNotDefault(c1.value);
    } else if c2.Some? {
      NumberNotDefault(c2.value);
    }
  }

  /** A written-out number never reads "default". */
  lemma NumberNotDefault(x: int)
    ensures IntToString(x) != "default"
  {
    var r := IntToString(x);
    var d := "default";
    assert d[0] == 'd' && !IsDigit('d');
    if x >= 0 {
      assert r == NatToString(x);
      assert IsDigit(r[0]);
    } else {
      assert r == "-" + NatToString(-x);
      assert r[0] == '-';
    }
    assert r[0] != d[0];
  }

  /** For user ids without a `|`, the key tells requests apart: equal keys
      mean the same user, the same count and the same cursor, except that
      no cursor and the cursor "start" share a key. */
  lemma CacheKeyInjective(u1: string, c1: Option<int>, k1: Option<string>, u2: string, c2: Option<int>, k2: Option<string>)
    requires '|' !in u1 && '|' !in u2
    requires CacheKey(u1, c1, k1) == CacheKey(u2, c2, k2)
    ensures u1 == u2 && c1 == c2 && k1.GetOr("start") == k2.GetOr("start")
  {
    KeyParts(u1, c1, k1);
    KeyParts(u2, c2, k2);
    SplitAtSeparator(u1, CountPart(c1) + ['|'] + k1.GetOr("start"), u2, CountPart(c2) + ['|'] + k2.GetOr("start"), '|');
    SplitAtSeparator(CountPart(c1), k1.GetOr("start"), CountPart(c2), k2.GetOr("start"), '|');
    CountPartInjective(c1, c2);
  }

  /** The request options: a user id, and an optional count and cursor. */
  datatype Options = Options(userId: Option<string>, count: Option<int>, cursor: Option<string>)

  datatype FollowingListPayload = FollowingListPayload(requestId: string, userId: string, count: Option<int>, cursor: Option<string>)

  datatype FollowingListReply = FollowingListReply(requestId: string, data: RawResponse, error: Option<string>)

  type FollowingListStep = Step<Message<FollowingListPayload>, FollowingListReply>

  type Cache = map<string, FollowingListResult>

  /** How a fetch starts: from the cache, or with a request posted. */
  datatype FetchStart =
    | CacheHit(result: FollowingListResult)
    | Requested(step: FollowingListStep, key: string)

  function FollowingListRequestId(userId: string, nonce: string): string {
    "following-list-" + userId + "-" + nonce
  }

  /** `fetchFollowingList` up to the request: a blank user id throws; a
      cached result for the key is returned without any message; otherwise
      the request is registered and posted with the trimmed id. */
  function FetchFollowingList(cache: Cache, pending: Pending, nonce: string, o: Options): (r: Result<FetchStart>)
    ensures r.Err? <==> o.userId.None? || AllSpace(o.userId.value)
    ensures r.Err? ==> r.message == MissingUserError
    ensures r.Ok? ==> var key := CacheKey(Trim(o.userId.value), o.count, o.cursor);
      (key in cache <==> r.value.CacheHit?)
      && (r.value.CacheHit? ==> r.value.result == cache[key])
      && (r.value.Requested? ==>
            (var rid := FollowingListRequestId(Trim(o.userId.value), nonce);
             r.value.key == key
             && r.value.step.pending == pending[rid := Waiter(false)]
             && r.value.step.events == [Registered(rid), Posted(rid, Outgoing(ToInterceptor, FollowingListRequest,
                  FollowingListPayload(rid, Trim(o.userId.value), o.count, o.cursor)))]))
  {
    if o.userId.None? || Trim(o.userId.value) == "" then Err(MissingUserError)
    else
      var id := Trim(o.userId.value);
      var key := CacheKey(id, o.count, o.cursor);
      if key in cache then Ok(CacheHit(cache[key]))
      else
        TrimIdempotent(o.userId.value);
        var rid := FollowingListRequestId(id, nonce);
        Ok(Requested(Send(pending, rid, Waiter(false), Outgoing(ToInterceptor, FollowingListRequest,
                                                             FollowingListPayload(rid, id, o.count, o.cursor))), key))
  }

  /** The end of `fetchFollowingList`: the response is normalised and kept
      under the key. */
  function CompleteFetch(cache: Cache, key: string, data: RawResponse): (r: (Cache, FollowingListResult))
    ensures r.1 == NormalizeResponse(data)
    ensures r.0.Keys == cache.Keys + {key} && r.0[key] == r.1
    ensures forall k :: k in cache && k != key ==> r.0[k] == cache[k]
  {
    var n := NormalizeResponse(data);
    (cache[key := n], n)
  }

  /** Once a fetch has completed, the same options are answered from the
      cache, with the result of the first fetch and no message. */
  lemma SecondFetchHits(cache: Cache, pending: Pending, nonce: string, nonce2: string, o: Options, data: RawResponse)
    requires FetchFollowingList(cache, pending, nonce, o).Ok?
    requires FetchFollowingList(cache, pending, nonce, o).value.Requested?
    ensures var key := FetchFollowingList(cache, pending, nonce, o).value.key;
            var c := CompleteFetch(cache, key, data);
            FetchFollowingList(c.0, pending, nonce2, o) == Ok(CacheHit(NormalizeResponse(data)))
  {
  }

  /** `handleFollowingListResponse(payload, isError)`. */
  function HandleFollowingListResponse(pending: Pending, reply: FollowingListReply, isError: bool): (r: FollowingListStep)
    ensures reply.requestId !in pending ==> r == Step(pending, [])
    ensures reply.requestId in pending ==> r.pending == pending - {reply.requestId}
    ensures DeletedBeforeSettled(r.events)
    ensures forall e :: e in r.events && e.Resolved? ==> !isError && e.value == reply
    ensures forall e :: e in r.events && e.Rejected? ==> isError && e.message == reply.error.GetOr(UnknownError)
  {
    Settle(pending, reply.requestId, if isError then Failure(reply.error) else Success(reply), UnknownError)
  }
}
