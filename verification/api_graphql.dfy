/** The tweet GraphQL operations of the content script
    (api/twitterGraphql.ts): building the request for an operation,
    correlating its answer, and the variables of the reply, like, retweet,
    bookmark and single-tweet lookups. The operation table itself
    (common/queryId.ts) is a parameter. */
module GraphqlApi {
  import opened Wrappers
  import opened Text
  import Json
  import opened Bridge
  import opened Correlation

  const UnknownError := "未知错误"
  const EmptyReplyError := "回复内容不能为空"

  datatype Method = Get | Post

  datatype OperationKey =
    | TweetResultByRestId | CreateTweet
    | Favorite | Unfavorite | Retweet | Unretweet | Bookmark | Unbookmark
  {
    function Name(): string {
      match this
      case TweetResultByRestId => "tweet_result_by_rest_id"
      case CreateTweet => "create_tweet"
      case Favorite => "favorite"
      case Unfavorite => "unfavorite"
      case Retweet => "retweet"
      case Unretweet => "unretweet"
      case Bookmark => "bookmark"
      case Unbookmark => "unbookmark"
    }
  }

  /** An entry of the operation table: document id, operation name and an
      optional preferred method. */
  datatype OperationConfig = OperationConfig(id: Option<string>, operationName: Option<string>, httpMethod: Option<Method>)

  datatype RequestOptions = RequestOptions(features: Option<Json.Object>, httpMethod: Option<Method>, fieldToggles: Option<Json.Object>)

  /** The payload of a `tweet-action:request` message. */
  datatype ActionPayload = ActionPayload(
    requestId: string,
    docId: string,
    operationName: string,
    variables: Json.Object,
    features: Option<Json.Object>,
    httpMethod: Method,
    fieldToggles: Option<Json.Object>)

  /** The payload of a `tweet-action:response` or `tweet-action:error`
      message; a success settles with the whole payload. */
  datatype ActionReply = ActionReply(requestId: string, data: Option<Json.Value>, error: Option<string>)

  type ActionStep = Step<Message<ActionPayload>, ActionReply>

  /** The table entry can be used: it has a document id and an operation
      name. */
  predicate Configured(config: Option<OperationConfig>) {
    config.Some? && Truthy(config.value.id) && Truthy(config.value.operationName)
  }

  /** The payload a send posted, read from its second event. */
  function PostedAction(s: ActionStep): Option<ActionPayload> {
    if |s.events| == 2 && s.events[1].Posted? then Some(s.events[1].request.payload) else None
  }

  /** `sendTweetActionRequest`: an operation without a document id or name
      throws before anything is registered or posted; otherwise the entry is
      registered and then the request posted, with the explicit method, else
      the table's, else POST. */
  function SendTweetActionRequest(pending: Pending, requestId: string, key: OperationKey, config: Option<OperationConfig>,
                                  variables: Json.Object, options: RequestOptions): (r: Result<ActionStep>)
    ensures r.Err? <==> !Configured(config)
    ensures r.Ok? ==> r.value.pending == pending[requestId := Waiter(false)]
    ensures r.Ok? ==> RegisteredBeforePosted(r.value.events) && |r.value.events| == 2 && r.value.events[1].Posted?
    ensures r.Ok? ==> r.value.events[1].request.source == Some(BridgeSource)
                      && r.value.events[1].request.direction == Some(ToInterceptor)
                      && r.value.events[1].request.kind == ActionRequest
    ensures r.Ok? ==> PostedAction(r.value).Some? && var p := PostedAction(r.value).value;
      p.requestId == requestId && p.variables == variables
      && p.docId == config.value.id.value && p.operationName == config.value.operationName.value
      && p.features == options.features && p.fieldToggles == options.fieldToggles
      && (options.httpMethod.Some? ==> p.httpMethod == options.httpMethod.value)
      && (options.httpMethod.None? && config.value.httpMethod.Some? ==> p.httpMethod == config.value.httpMethod.value)
      && (options.httpMethod.None? && config.value.httpMethod.None? ==> p.httpMethod == Post)
  {
    if !Configured(config) then
      Err("未配置 " + key.Name() + " 对应的 GraphQL 文档 ID，无法继续调用。")
    else
      var c := config.value;
      var payload := ActionPayload(requestId, c.id.value, c.operationName.value, variables, options.features,
                                   Or(options.httpMethod, c.httpMethod).GetOr(Post), options.fieldToggles);
      Ok(Send(pending, requestId, Waiter(false), Outgoing(ToInterceptor, ActionRequest, payload)))
  }

  /** `handleActionResponse(payload, isError)`. */
  function HandleActionResponse(pending: Pending, reply: ActionReply, isError: bool): (r: ActionStep)
    ensures reply.requestId !in pending ==> r == Step(pending, [])
    ensures reply.requestId in pending ==> r.pending == pending - {reply.requestId}
    ensures DeletedBeforeSettled(r.events)
    ensures forall e :: e in r.events && e.Resolved? ==> !isError && e.value == reply
    ensures forall e :: e in r.events && e.Rejected? ==> isError && e.message == reply.error.GetOr(UnknownError)
  {
    Settle(pending, reply.requestId, if isError then Failure(reply.error) else Success(reply), UnknownError)
  }

  /** A sent action answered by the interceptor settles exactly once, with
      the table back as before the send. */
  lemma ActionRoundTrip(pending: Pending, requestId: string, key: OperationKey, config: Option<OperationConfig>,
                        variables: Json.Object, options: RequestOptions, reply: ActionReply, isError: bool)
    requires requestId !in pending && reply.requestId == requestId && Configured(config)
    ensures var s := SendTweetActionRequest(pending, requestId, key, config, variables, options);
            s.Ok? && var a := HandleActionResponse(s.value.pending, reply, isError);
            a.pending == pending && Settlements(s.value.events + a.events, requestId) == 1
            && DeletedBeforeSettled(s.value.events + a.events)
  {
    var s := SendTweetActionRequest(pending, requestId, key, config, variables, options);
    RequestAnswered<Message<ActionPayload>, ActionReply>(pending, requestId, Waiter(false), s.value.events[1].request,
      if isError then Failure(reply.error) else Success(reply), UnknownError);
  }

  /* ----------------------- single-tweet lookup ----------------------- */

  const RestIdFeatures: Json.Object := map[
      "creator_subscriptions_tweet_preview_api_enabled" := Json.Bool(true),
      "premium_content_api_read_enabled" := Json.Bool(false),
      "communities_web_enable_tweet_community_results_fetch" := Json.Bool(true),
      "c9s_tweet_anatomy_moderator_badge_enabled" := Json.Bool(true),
      "responsive_web_grok_analyze_button_fetch_trends_enabled" := Json.Bool(false),
      "responsive_web_grok_analyze_post_followups_enabled" := Json.Bool(true),
      "responsive_web_jetfuel_frame" := Json.Bool(true),
      "responsive_web_grok_share_attachment_enabled" := Json.Bool(true),
      "articles_preview_enabled" := Json.Bool(true),
      "responsive_web_edit_tweet_api_enabled" := Json.Bool(true),
      "graphql_is_translatable_rweb_tweet_is_translatable_enabled" := Json.Bool(true),
      "view_counts_everywhere_api_enabled" := Json.Bool(true),
      "longform_notetweets_consumption_enabled" := Json.Bool(true),
      "responsive_web_twitter_article_tweet_consumption_enabled" := Json.Bool(true),
      "tweet_awards_web_tipping_enabled" := Json.Bool(false),
      "responsive_web_grok_show_grok_translated_post" := Json.Bool(false),
      "responsive_web_grok_analysis_button_from_backend" := Json.Bool(true),
      "creator_subscriptions_quote_tweet_preview_enabled" := Json.Bool(false),
      "freedom_of_speech_not_reach_fetch_enabled" := Json.Bool(true),
      "standardized_nudges_misinfo" := Json.Bool(true),
      "tweet_with_visibility_results_prefer_gql_limited_actions_policy_enabled" := Json.Bool(true),
      "longform_notetweets_rich_text_read_enabled" := Json.Bool(true),
      "longform_notetweets_inline_media_enabled" := Json.Bool(true),
      "payments_enabled" := Json.Bool(false),
      "profile_label_improvements_pcf_label_in_post_enabled" := Json.Bool(true),
      "rweb_tipjar_consumption_enabled" := Json.Bool(true),
      "verified_phone_label_enabled" := Json.Bool(false),
      "responsive_web_grok_image_annotation_enabled" := Json.Bool(true),
      "responsive_web_grok_imagine_annotation_enabled" := Json.Bool(true),
      "responsive_web_grok_community_note_auto_translation_is_enabled" := Json.Bool(false),
      "responsive_web_graphql_skip_user_profile_image_extensions_enabled" := Json.Bool(false),
      "responsive_web_graphql_timeline_navigation_enabled" := Json.Bool(true),
      "responsive_web_enhance_cards_enabled" := Json.Bool(false)
  ]

  const RestIdFieldToggles: Json.Object := map[
      "withArticleRichContentState" := Json.Bool(true),
      "withArticlePlainText" := Json.Bool(false)
  ]

  /** The variables of `fetchTweetResultByRestId`: fixed switches and the
      tweet id, plus `controller_data` only when it is a non-empty
      string. */
  function RestIdVariables(tweetId: string, controllerData: Option<string>): (r: Json.Object)
    ensures "tweetId" in r && r["tweetId"] == Json.Str(tweetId)
    ensures "controller_data" in r <==> Truthy(controllerData)
    ensures "controller_data" in r ==> r["controller_data"] == Json.Str(controllerData.value)
    ensures "includePromotedContent" in r && r["includePromotedContent"] == Json.Bool(false)
  {
    var base := map[
      "tweetId" := Json.Str(tweetId),
      "withCommunity" := Json.Bool(true),
      "includePromotedContent" := Json.Bool(false),
      "withQuickPromoteEligibilityTweetFields" := Json.Bool(true),
      "withVoice" := Json.Bool(true),
      "withBirdwatchNotes" := Json.Bool(true),
      "with_rux_injections" := Json.Bool(false)
    ];
    if Truthy(controllerData) then base["controller_data" := Json.Str(controllerData.value)] else base
  }

  /** `fetchTweetResultByRestId`: always a GET with its own features and
      field toggles. */
  function FetchTweetResultByRestId(pending: Pending, requestId: string, config: Option<OperationConfig>,
                                    tweetId: string, controllerData: Option<string>): (r: Result<ActionStep>)
    ensures r.Err? <==> !Configured(config)
    ensures r.Ok? ==> PostedAction(r.value).Some? && var p := PostedAction(r.value).value;
      p.httpMethod == Get && p.features == Some(RestIdFeatures) && p.fieldToggles == Some(RestIdFieldToggles)
      && p.variables == RestIdVariables(tweetId, controllerData)
  {
    SendTweetActionRequest(pending, requestId, TweetResultByRestId, config, RestIdVariables(tweetId, controllerData),
                           RequestOptions(Some(RestIdFeatures), Some(Get), Some(RestIdFieldToggles)))
  }

  /** The tweet response a lookup resolves to: the reply's `data`, null when
      it has none. */
  function RestIdResult(reply: ActionReply): Option<Json.Value> {
    reply.data
  }

  /* ------------------------------ replies ------------------------------ */

  const DefaultMutationFeatures: Json.Object := map[
      "premium_content_api_read_enabled" := Json.Bool(false),
      "communities_web_enable_tweet_community_results_fetch" := Json.Bool(true),
      "c9s_tweet_anatomy_moderator_badge_enabled" := Json.Bool(true),
      "responsive_web_grok_analyze_button_fetch_trends_enabled" := Json.Bool(false),
      "responsive_web_grok_analyze_post_followups_enabled" := Json.Bool(true),
      "responsive_web_jetfuel_frame" := Json.Bool(true),
      "responsive_web_grok_share_attachment_enabled" := Json.Bool(true),
      "responsive_web_edit_tweet_api_enabled" := Json.Bool(true),
      "graphql_is_translatable_rweb_tweet_is_translatable_enabled" := Json.Bool(true),
      "view_counts_everywhere_api_enabled" := Json.Bool(true),
      "longform_notetweets_consumption_enabled" := Json.Bool(true),
      "responsive_web_twitter_article_tweet_consumption_enabled" := Json.Bool(true),
      "tweet_awards_web_tipping_enabled" := Json.Bool(false),
      "responsive_web_grok_show_grok_translated_post" := Json.Bool(false),
      "responsive_web_grok_analysis_button_from_backend" := Json.Bool(true),
      "creator_subscriptions_quote_tweet_preview_enabled" := Json.Bool(false),
      "longform_notetweets_rich_text_read_enabled" := Json.Bool(true),
      "longform_notetweets_inline_media_enabled" := Json.Bool(true),
      "payments_enabled" := Json.Bool(false),
      "profile_label_improvements_pcf_label_in_post_enabled" := Json.Bool(true),
      "rweb_tipjar_consumption_enabled" := Json.Bool(true),
      "verified_phone_label_enabled" := Json.Bool(false),
      "articles_preview_enabled" := Json.Bool(true),
      "responsive_web_grok_community_note_auto_translation_is_enabled" := Json.Bool(false),
      "responsive_web_graphql_skip_user_profile_image_extensions_enabled" := Json.Bool(false),
      "freedom_of_speech_not_reach_fetch_enabled" := Json.Bool(true),
      "standardized_nudges_misinfo" := Json.Bool(true),
      "tweet_with_visibility_results_prefer_gql_limited_actions_policy_enabled" := Json.Bool(true),
      "responsive_web_grok_image_annotation_enabled" := Json.Bool(true),
      "responsive_web_grok_imagine_annotation_enabled" := Json.Bool(true),
      "responsive_web_graphql_timeline_navigation_enabled" := Json.Bool(true),
      "responsive_web_enhance_cards_enabled" := Json.Bool(false)
  ]

  datatype BatchCompose = BatchInitial | BatchSubsequent {
    function Name(): string {
      if BatchInitial? then "BatchInitial" else "BatchSubsequent"
    }
  }

  datatype MediaEntityInput = MediaEntityInput(mediaId: string, taggedUsers: Option<seq<string>>)

  function MediaEntityValue(m: MediaEntityInput): Json.Value {
    var base := map["media_id" := Json.Str(m.mediaId)];
    Json.Obj(if m.taggedUsers.Some? then base["tagged_users" := Json.Strings(m.taggedUsers.value)] else base)
  }

  function MediaEntityValues(ms: seq<MediaEntityInput>): (r: seq<Json.Value>)
    ensures |r| == |ms|
  {
    seq(|ms|, i requires 0 <= i < |ms| => MediaEntityValue(ms[i]))
  }

  /** `buildTweetMutationVariables`: the text and compose switches, and a
      `media` object exactly when there are media entities or the tweet is
      marked possibly sensitive. */
  function MutationVariables(text: string, batch: BatchCompose, darkRequest: bool, media: seq<MediaEntityInput>,
                             possiblySensitive: bool, semanticAnnotationIds: seq<string>,
                             disallowedReplyOptions: Json.Value): (r: Json.Object)
    ensures "tweet_text" in r && r["tweet_text"] == Json.Str(text)
    ensures "batch_compose" in r && r["batch_compose"] == Json.Str(batch.Name())
    ensures "dark_request" in r && r["dark_request"] == Json.Bool(darkRequest)
    ensures "media" in r <==> |media| > 0 || possiblySensitive
    ensures "media" in r ==> r["media"] == Json.Obj(map[
              "media_entities" := Json.Arr(MediaEntityValues(media)),
              "possibly_sensitive" := Json.Bool(possiblySensitive)])
    ensures "reply" !in r
  {
    var base := map[
      "tweet_text" := Json.Str(text),
      "batch_compose" := Json.Str(batch.Name()),
      "dark_request" := Json.Bool(darkRequest),
      "semantic_annotation_ids" := Json.Strings(semanticAnnotationIds),
      "disallowed_reply_options" := disallowedReplyOptions
    ];
    if |media| > 0 || possiblySensitive then
      base["media" := Json.Obj(map[
        "media_entities" := Json.Arr(MediaEntityValues(media)),
        "possibly_sensitive" := Json.Bool(possiblySensitive)])]
    else base
  }

  /** The arguments of `createReply`; a missing optional argument takes the
      default the function declares. */
  datatype ReplyParams = ReplyParams(
    tweetId: string,
    text: string,
    excludeReplyUserIds: Option<seq<string>>,
    batchCompose: Option<BatchCompose>,
    darkRequest: Option<bool>,
    mediaEntities: Option<seq<MediaEntityInput>>,
    possiblySensitive: Option<bool>,
    semanticAnnotationIds: Option<seq<string>>,
    disallowedReplyOptions: Option<Json.Value>,
    featuresOverride: Option<Json.Object>)

  function ReplyVariables(p: ReplyParams, trimmed: string): (r: Json.Object)
    ensures "reply" in r && r["reply"] == Json.Obj(map[
              "in_reply_to_tweet_id" := Json.Str(p.tweetId),
              "exclude_reply_user_ids" := Json.Strings(p.excludeReplyUserIds.GetOr([]))])
    ensures r - {"reply"} == MutationVariables(trimmed, p.batchCompose.GetOr(BatchSubsequent), p.darkRequest.GetOr(false),
              p.mediaEntities.GetOr([]), p.possiblySensitive.GetOr(false), p.semanticAnnotationIds.GetOr([]),
              p.disallowedReplyOptions.GetOr(Json.Null))
  {
    var vars := MutationVariables(trimmed, p.batchCompose.GetOr(BatchSubsequent), p.darkRequest.GetOr(false),
                                  p.mediaEntities.GetOr([]), p.possiblySensitive.GetOr(false),
                                  p.semanticAnnotationIds.GetOr([]), p.disallowedReplyOptions.GetOr(Json.Null));
    vars["reply" := Json.Obj(map[
      "in_reply_to_tweet_id" := Json.Str(p.tweetId),
      "exclude_reply_user_ids" := Json.Strings(p.excludeReplyUserIds.GetOr([]))])]
  }

  /** `createReply`: a text that is empty once trimmed throws before any
      message; otherwise a `create_tweet` request carries the trimmed text,
      the reply target and the default features overlaid by the
      override. */
  function CreateReply(pending: Pending, requestId: string, config: Option<OperationConfig>, p: ReplyParams): (r: Result<ActionStep>)
    ensures AllSpace(p.text) ==> r == Err(EmptyReplyError)
    ensures !AllSpace(p.text) ==> (r.Ok? <==> Configured(config))
    ensures r.Ok? ==> PostedAction(r.value).Some?
                      && PostedAction(r.value).value.variables == ReplyVariables(p, Trim(p.text))
                      && PostedAction(r.value).value.features
                         == Some(Json.Spread(DefaultMutationFeatures, p.featuresOverride.GetOr(map[])))
  {
    var trimmed := Trim(p.text);
    if trimmed == "" then Err(EmptyReplyError)
    else
      var features := Json.Spread(DefaultMutationFeatures, p.featuresOverride.GetOr(map[]));
      SendTweetActionRequest(pending, requestId, CreateTweet, config, ReplyVariables(p, trimmed), RequestOptions(Some(features), None, None))
  }

  /** What a posted reply carries: the trimmed text, the reply target, a
      `media` object exactly when media or the sensitive flag are given, and
      every override feature over the defaults. */
  lemma CreateReplyContent(pending: Pending, requestId: string, config: Option<OperationConfig>, p: ReplyParams)
    requires CreateReply(pending, requestId, config, p).Ok?
    ensures var a := PostedAction(CreateReply(pending, requestId, config, p).value).value;
      a.variables["tweet_text"] == Json.Str(Trim(p.text))
      && a.variables["reply"].fields["in_reply_to_tweet_id"] == Json.Str(p.tweetId)
      && ("media" in a.variables <==> |p.mediaEntities.GetOr([])| > 0 || p.possiblySensitive.GetOr(false))
      && a.features.Some?
      && (forall k :: k in p.featuresOverride.GetOr(map[]) ==> a.features.value[k] == p.featuresOverride.value[k])
      && (forall k :: k in DefaultMutationFeatures && k !in p.featuresOverride.GetOr(map[]) ==>
            a.features.value[k] == DefaultMutationFeatures[k])
  {
    var vars := ReplyVariables(p, Trim(p.text));
    var base := vars - {"reply"};
    assert vars["tweet_text"] == base["tweet_text"];
    assert "media" in vars <==> "media" in base;
  }

  /* ------------------------- one-tweet actions ------------------------- */

  datatype TweetAction = Like | Unlike | DoRetweet | UndoRetweet | DoBookmark | UndoBookmark {
    function Key(): OperationKey {
      match this
      case Like => Favorite
      case Unlike => Unfavorite
      case DoRetweet => Retweet
      case UndoRetweet => Unretweet
      case DoBookmark => Bookmark
      case UndoBookmark => Unbookmark
    }
  }

  /** The variables of `favoriteTweet`, `unfavoriteTweet`, `createRetweet`,
      `deleteRetweet`, `createBookmark` and `deleteBookmark`: the tweet id,
      and `dark_request: false` for the two retweet operations only. */
  function ActionVariables(a: TweetAction, tweetId: string): (r: Json.Object)
    ensures "tweet_id" in r && r["tweet_id"] == Json.Str(tweetId)
    ensures "dark_request" in r <==> a.DoRetweet? || a.UndoRetweet?
    ensures "dark_request" in r ==> r["dark_request"] == Json.Bool(false)
    ensures |r| <= 2
  {
    if a.DoRetweet? || a.UndoRetweet? then map["tweet_id" := Json.Str(tweetId), "dark_request" := Json.Bool(false)]
    else map["tweet_id" := Json.Str(tweetId)]
  }

  function SendTweetAction(pending: Pending, requestId: string, config: Option<OperationConfig>, a: TweetAction, tweetId: string): (r: Result<ActionStep>)
    ensures r.Err? <==> !Configured(config)
    ensures r.Ok? ==> PostedAction(r.value).Some?
                      && PostedAction(r.value).value.variables == ActionVariables(a, tweetId)
                      && PostedAction(r.value).value.features.None?
  {
    SendTweetActionRequest(pending, requestId, a.Key(), config, ActionVariables(a, tweetId), RequestOptions(None, None, None))
  }
}
