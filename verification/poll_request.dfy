/** Replaying a poll vote (interceptor/poll.ts): where the vote is sent, the
    form it carries and the headers. Resolving a relative endpoint against
    the page origin is URL parsing and is a parameter. */
module PollRequest {
  import opened Wrappers
  import opened Text
  import opened Http
  import opened SearchParams
  import HeaderUtils
  import Json
  import PollApi

  const EndpointError := "无法解析投票接口地址"
  const CardsPlatformDefault := "Web-12"
  const CapiPrefix := "capi://"
  const CapsBase := "https://caps.x.com/v2/capi/"
  const FormContentType := "application/x-www-form-urlencoded"

  /** `/^https?:\/\//i`. */
  predicate HasHttpScheme(s: string) {
    StartsWith(ToLower(s), "http://") || StartsWith(ToLower(s), "https://")
  }

  /** `resolveEndpoint`: an empty endpoint fails; an http(s) URL in any
      casing is kept; `capi://X` goes to the caps host; anything else is
      resolved against the page origin. */
  function ResolveEndpoint(raw: string, resolveRelative: string -> string): (r: Result<string>)
    ensures r.Err? <==> raw == ""
    ensures r.Err? ==> r.message == EndpointError
    ensures raw != "" && HasHttpScheme(raw) ==> r == Ok(raw)
    ensures raw != "" && !HasHttpScheme(raw) && StartsWith(raw, CapiPrefix) ==> r == Ok(CapsBase + raw[|CapiPrefix|..])
    ensures raw != "" && !HasHttpScheme(raw) && !StartsWith(raw, CapiPrefix) ==> r == Ok(resolveRelative(raw))
  {
    if raw == "" then Err(EndpointError)
    else if HasHttpScheme(raw) then Ok(raw)
    else if StartsWith(raw, CapiPrefix) then Ok(CapsBase + raw[|CapiPrefix|..])
    else Ok(resolveRelative(raw))
  }

  /** `capi://X` and the caps URL it maps to name the same endpoint:
      resolving the result again changes nothing. */
  lemma CapiEndpoint(path: string, f: string -> string, g: string -> string)
    ensures ResolveEndpoint(CapiPrefix + path, f) == Ok(CapsBase + path)
    ensures ResolveEndpoint(CapsBase + path, g) == Ok(CapsBase + path)
  {
    CapiNotHttp(path);
    CapsIsHttp(path);
    var raw := CapiPrefix + path;
    assert raw[..|CapiPrefix|] == CapiPrefix;
    assert raw[|CapiPrefix|..] == path;
  }

  /** A "capi://" endpoint has no http scheme: its first letter is 'c'. */
  lemma CapiNotHttp(path: string)
    ensures !HasHttpScheme(CapiPrefix + path)
  {
    var low := ToLower(CapiPrefix + path);
    assert low[0] == 'c';
    assert !StartsWith(low, "http://") && !StartsWith(low, "https://");
  }

  /** The caps URL starts with "https://" in lower case already. */
  lemma CapsIsHttp(path: string)
    ensures HasHttpScheme(CapsBase + path)
  {
    var url := CapsBase + path;
    assert url[..8] == "https://" by {
      assert url[..8] == CapsBase[..8];
    }
    LowerKeepsPrefix(url, "https://");
  }

  /** Lower-casing keeps a prefix that has no upper-case letter. */
  lemma LowerKeepsPrefix(s: string, p: string)
    requires StartsWith(s, p)
    requires forall i :: 0 <= i < |p| ==> LowerChar(p[i]) == p[i]
    ensures StartsWith(ToLower(s), p)
  {
    var low := ToLower(s);
    forall i | 0 <= i < |p| ensures low[i] == p[i] {
      assert s[i] == s[..|p|][i];
    }
    assert low[..|p|] == p;
  }

  const CardUriField := "twitter:string:card_uri"
  const TweetIdField := "twitter:long:original_tweet_id"
  const CardNameField := "twitter:string:response_card_name"
  const PlatformField := "twitter:string:cards_platform"
  const ChoiceField := "twitter:string:selected_choice"

  /** The five field names are pairwise different: the type tag at index 8
      or the name at index 15 or 19 tells them apart. */
  lemma FieldsDistinct()
    ensures CardUriField != TweetIdField && CardUriField != CardNameField && CardUriField != PlatformField
    ensures CardUriField != ChoiceField && TweetIdField != CardNameField && TweetIdField != PlatformField
    ensures TweetIdField != ChoiceField && CardNameField != PlatformField && CardNameField != ChoiceField
    ensures PlatformField != ChoiceField
  {
    assert CardUriField[8] == 's' && TweetIdField[8] == 'l';
    assert CardNameField[8] == 's' && PlatformField[8] == 's' && ChoiceField[8] == 's';
    assert CardUriField[15] == 'c' && CardNameField[15] == 'r' && PlatformField[15] == 'c' && ChoiceField[15] == 's';
    assert CardUriField[19] == '_' && PlatformField[19] == 's';
  }

  /** `cardsPlatform || "Web-12"`. */
  function Platform(p: PollApi.PollVotePayload): string {
    if p.cardsPlatform != "" then p.cardsPlatform else CardsPlatformDefault
  }

  /** Five `set` calls with pairwise different names on an empty form
      append the five pairs in call order. */
  function SetFive(k1: string, v1: string, k2: string, v2: string, k3: string, v3: string,
                   k4: string, v4: string, k5: string, v5: string): (form: Params)
    requires k1 != k2 && k1 != k3 && k1 != k4 && k1 != k5 && k2 != k3
    requires k2 != k4 && k2 != k5 && k3 != k4 && k3 != k5 && k4 != k5
    ensures form == [(k1, v1), (k2, v2), (k3, v3), (k4, v4), (k5, v5)]
  {
    var f1 := SetFresh([], k1, v1);
    var f2 := SetFresh(f1, k2, v2);
    assert !Has(f2, k3) by { HasAppend(f1, [(k2, v2)], k3); }
    var f3 := SetFresh(f2, k3, v3);
    assert !Has(f3, k4) by { HasAppend(f2, [(k3, v3)], k4); HasAppend(f1, [(k2, v2)], k4); }
    var f4 := SetFresh(f3, k4, v4);
    assert !Has(f4, k5) by { HasAppend(f3, [(k4, v4)], k5); HasAppend(f2, [(k3, v3)], k5); HasAppend(f1, [(k2, v2)], k5); }
    SetFresh(f4, k5, v5)
  }

  /** The five `twitter:*` form fields, in the order they are set, each
      once. */
  function VoteForm(p: PollApi.PollVotePayload): (form: Params)
    ensures form == VoteFields(p)
  {
    FieldsDistinct();
    SetFive(CardUriField, p.cardUri, TweetIdField, p.tweetId, CardNameField, p.cardName,
            PlatformField, Platform(p), ChoiceField, IntToString(p.choiceId))
  }

  function VoteFields(p: PollApi.PollVotePayload): Params {
    [(CardUriField, p.cardUri), (TweetIdField, p.tweetId), (CardNameField, p.cardName),
     (PlatformField, Platform(p)), (ChoiceField, IntToString(p.choiceId))]
  }

  /** Reading the form back gives each field's value; an empty
      `cardsPlatform` reads as "Web-12". */
  lemma VoteFormRead(p: PollApi.PollVotePayload)
    ensures var form := VoteForm(p);
            Get(form, CardUriField) == Some(p.cardUri)
            && Get(form, TweetIdField) == Some(p.tweetId)
            && Get(form, CardNameField) == Some(p.cardName)
            && Get(form, PlatformField) == Some(if p.cardsPlatform == "" then "Web-12" else p.cardsPlatform)
            && Get(form, ChoiceField) == Some(IntToString(p.choiceId))
  {
    FieldsDistinct();
    ReadFive(CardUriField, p.cardUri, TweetIdField, p.tweetId, CardNameField, p.cardName,
             PlatformField, Platform(p), ChoiceField, IntToString(p.choiceId));
  }

  lemma ReadFive(k1: string, v1: string, k2: string, v2: string, k3: string, v3: string,
                 k4: string, v4: string, k5: string, v5: string)
    requires k1 != k2 && k1 != k3 && k1 != k4 && k1 != k5 && k2 != k3
    requires k2 != k4 && k2 != k5 && k3 != k4 && k3 != k5 && k4 != k5
    ensures var form := [(k1, v1), (k2, v2), (k3, v3), (k4, v4), (k5, v5)];
            Get(form, k1) == Some(v1) && Get(form, k2) == Some(v2) && Get(form, k3) == Some(v3)
            && Get(form, k4) == Some(v4) && Get(form, k5) == Some(v5)
  {
    var form := [(k1, v1), (k2, v2), (k3, v3), (k4, v4), (k5, v5)];
    assert Distinct(form);
    GetDistinct(form, 0);
    GetDistinct(form, 1);
    GetDistinct(form, 2);
    GetDistinct(form, 3);
    GetDistinct(form, 4);
  }

  /** The header edits: content-type forced to the form type, the
      transaction and forwarding ids dropped. */
  function VoteEdits(source: HeaderUtils.Headers): (r: HeaderUtils.Headers)
    ensures r.Get("content-type") == Some(FormContentType) && "content-type" in r.keys
    ensures r.Get("x-client-transaction-id").None? && r.Get("x-xp-forwarded-for").None?
    ensures forall k :: Edited(k) || (r.Get(k) == source.Get(k) && (k in r.keys <==> k in source.keys))
    ensures source.Valid() ==> r.Valid()
  {
    source.Put("content-type", FormContentType).Remove("x-client-transaction-id").Remove("x-xp-forwarded-for")
  }

  predicate Edited(k: string) {
    k == "content-type" || k == "x-client-transaction-id" || k == "x-xp-forwarded-for"
  }

  /** The headers handed to `fetch`: the edits, then the non-empty
      entries; every other header is passed on as a plain replay would. */
  function VoteHeaders(source: HeaderUtils.Headers): (r: HeaderUtils.Headers)
    ensures r.Valid()
    ensures r.Get("content-type") == Some(FormContentType)
    ensures r.Get("x-client-transaction-id").None? && r.Get("x-xp-forwarded-for").None?
    ensures forall k :: !Edited(k) ==> r.Get(k) == HeaderUtils.FetchHeaders(source).Get(k)
  {
    var edited := VoteEdits(source);
    var r := HeaderUtils.FetchHeaders(edited);
    assert r.Get("content-type") == Some(FormContentType);
    r
  }

  /** The vote request: a POST of the form to the resolved endpoint. */
  datatype VoteCall = VoteCall(endpoint: string, form: Params, headers: HeaderUtils.Headers)

  /** A successful reply: the JSON body when the content type mentions
      "json" in any casing, the text otherwise. */
  datatype VoteReply = VoteReply(status: int, contentType: Option<string>, json: Json.Value, text: string)

  datatype VoteBody = JsonBody(value: Json.Value) | TextBody(text: string)

  predicate IsJson(contentType: Option<string>) {
    Contains(ToLower(contentType.GetOr("")), "json")
  }

  /** The message of a failed vote. */
  function StatusError(status: int): string {
    "投票请求失败，状态码 " + IntToString(status)
  }

  /** What a sent vote yields: a non-2xx status fails, otherwise the body
      is read as JSON or as text. */
  function VoteOutcome(reply: VoteReply): (r: Result<VoteBody>)
    ensures r.Ok? <==> Ok2xx(reply.status)
    ensures r.Err? ==> r.message == StatusError(reply.status)
    ensures r.Ok? ==> r.value == (if IsJson(reply.contentType) then JsonBody(reply.json) else TextBody(reply.text))
  {
    if !Ok2xx(reply.status) then Err(StatusError(reply.status))
    else if IsJson(reply.contentType) then Ok(JsonBody(reply.json))
    else Ok(TextBody(reply.text))
  }

  /** `performPollVoteRequest`: an empty endpoint fails before anything is
      sent; otherwise the vote goes out and a non-2xx status fails. */
  function PerformPollVoteRequest(p: PollApi.PollVotePayload, ctx: HeaderUtils.Replay, resolveRelative: string -> string,
                                  reply: VoteReply): (r: (Option<VoteCall>, Result<VoteBody>))
    ensures r.0.None? <==> p.endpoint == ""
    ensures r.0.None? ==> r.1 == Err(EndpointError)
    ensures r.0.Some? ==> Ok(r.0.value.endpoint) == ResolveEndpoint(p.endpoint, resolveRelative)
                          && r.0.value.form == VoteForm(p)
                          && r.0.value.headers == VoteHeaders(HeaderUtils.ReplayHeaders(None, ctx))
    ensures r.0.Some? ==> (r.1.Ok? <==> Ok2xx(reply.status))
    ensures r.0.Some? && r.1.Err? ==> r.1.message == StatusError(reply.status)
    ensures r.0.Some? && r.1.Ok? ==> r.1.value == (if IsJson(reply.contentType) then JsonBody(reply.json) else TextBody(reply.text))
  {
    match ResolveEndpoint(p.endpoint, resolveRelative)
    case Err(message) => (None, Err(message))
    case Ok(endpoint) =>
      (Some(VoteCall(endpoint, VoteForm(p), VoteHeaders(HeaderUtils.ReplayHeaders(None, ctx)))), VoteOutcome(reply))
  }
}
