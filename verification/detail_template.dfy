/** Replaying a TweetDetail request (interceptor/tweetDetailTemplate.ts):
    the stored request template, the variables of one replay, the choice
    between a GET with query parameters and a request with a JSON body, and
    the status check. URL parsing and JSON (de)serialisation are not
    modelled: a template arrives already parsed, and the request carries
    JSON values rather than their text. */
module DetailTemplate {
  import opened Wrappers
  import opened Text
  import opened Http
  import opened Json
  import HeaderUtils

  /** A captured TweetDetail request. */
  datatype Template = Template(
    url: string,
    requestMethod: Option<string>,
    headers: HeaderUtils.Entries,
    variables: Option<Object>,
    features: Option<Object>,
    fieldToggles: Option<Object>)

  const DefaultFeatures: Object := map[
    "articles_preview_enabled" := Bool(true),
    "c9s_tweet_anatomy_moderator_badge_enabled" := Bool(true),
    "communities_web_enable_tweet_community_results_fetch" := Bool(true),
    "creator_subscriptions_quote_tweet_preview_enabled" := Bool(false),
    "creator_subscriptions_tweet_preview_api_enabled" := Bool(true),
    "freedom_of_speech_not_reach_fetch_enabled" := Bool(true),
    "graphql_is_translatable_rweb_tweet_is_translatable_enabled" := Bool(true),
    "interactive_text_enabled" := Bool(true),
    "longform_notetweets_consumption_enabled" := Bool(true),
    "longform_notetweets_inline_media_enabled" := Bool(true),
    "longform_notetweets_rich_text_read_enabled" := Bool(true),
    "payments_enabled" := Bool(false),
    "premium_content_api_read_enabled" := Bool(false),
    "profile_label_improvements_pcf_label_in_post_enabled" := Bool(true),
    "responsive_web_edit_tweet_api_enabled" := Bool(true),
    "responsive_web_enhance_cards_enabled" := Bool(false),
    "responsive_web_graphql_exclude_directive_enabled" := Bool(true),
    "responsive_web_graphql_skip_user_profile_image_extensions_enabled" := Bool(false),
    "responsive_web_graphql_timeline_navigation_enabled" := Bool(true),
    "responsive_web_grok_analysis_button_from_backend" := Bool(true),
    "responsive_web_grok_analyze_button_fetch_trends_enabled" := Bool(false),
    "responsive_web_grok_analyze_post_followups_enabled" := Bool(true),
    "responsive_web_grok_community_note_auto_translation_is_enabled" := Bool(false),
    "responsive_web_grok_image_annotation_enabled" := Bool(true),
    "responsive_web_grok_imagine_annotation_enabled" := Bool(true),
    "responsive_web_grok_share_attachment_enabled" := Bool(true),
    "responsive_web_grok_show_grok_translated_post" := Bool(false),
    "responsive_web_jetfuel_frame" := Bool(true),
    "responsive_web_text_conversations_enabled" := Bool(false),
    "responsive_web_twitter_article_tweet_consumption_enabled" := Bool(true),
    "rweb_tipjar_consumption_enabled" := Bool(true),
    "rweb_video_screen_enabled" := Bool(false),
    "standardized_nudges_misinfo" := Bool(true),
    "tweet_awards_web_tipping_enabled" := Bool(false),
    "tweet_with_visibility_results_prefer_gql_limited_actions_policy_enabled" := Bool(true),
    "verified_phone_label_enabled" := Bool(false),
    "vibe_api_enabled" := Bool(true),
    "view_counts_everywhere_api_enabled" := Bool(true)]

  const DefaultFieldToggles: Object := map[
    "withArticlePlainText" := Bool(false),
    "withArticleRichContentState" := Bool(true),
    "withAuxiliaryUserLabels" := Bool(false),
    "withCategoryGoodId" := Bool(false),
    "withDisallowedReplyControls" := Bool(false),
    "withGrokAnalyze" := Bool(false),
    "withSawaraEnabled" := Bool(false)]

  const PresetVariables: Object := map[
    "focalTweetId" := Str(""),
    "includePromotedContent" := Bool(true),
    "rankingMode" := Str("Relevance"),
    "referrer" := Str("Home"),
    "withBirdwatchNotes" := Bool(true),
    "withCommunity" := Bool(true),
    "withQuickPromoteEligibilityTweetFields" := Bool(true),
    "withVoice" := Bool(true),
    "with_rux_injections" := Bool(false)]

  /** The built-in template, used until a request has been captured. Its
      URL embeds the TweetDetail query id, which is a parameter here. */
  function Preset(url: string): Template {
    Template(url, Some("GET"), [("accept", "*/*"), ("content-type", "application/json")],
             Some(PresetVariables), Some(DefaultFeatures), Some(DefaultFieldToggles))
  }

  /** `updateTweetDetailTemplate`: a request that parsed replaces the stored
      template; one that did not leaves it as it was. */
  function UpdateTemplate(stored: Option<Template>, parsed: Option<Template>): (r: Option<Template>)
    ensures parsed.Some? ==> r == parsed
    ensures parsed.None? ==> r == stored
  {
    if parsed.Some? then parsed else stored
  }

  /** Once any request has parsed, the preset is never used again: the
      active template is the latest one that parsed. */
  lemma CapturedTemplateStays(stored: Option<Template>, parsed: Option<Template>, url: string)
    requires stored.Some? || parsed.Some?
    ensures UpdateTemplate(stored, parsed).Some?
    ensures ActiveTemplate(UpdateTemplate(stored, parsed), url) == (if parsed.Some? then parsed.value else stored.value)
  {
  }

  /** `tweetDetailTemplate ?? PRESET_TWEET_DETAIL_TEMPLATE`. */
  function ActiveTemplate(stored: Option<Template>, presetUrl: string): (t: Template)
    ensures stored.Some? ==> t == stored.value
    ensures stored.None? ==> t == Preset(presetUrl)
  {
    if stored.Some? then stored.value else Preset(presetUrl)
  }

  /** The variables of one replay: the template's variables without its
      stale `controller_data` and `focalTweetId`, then the requested tweet
      as `focalTweetId`, then `controller_data` only when it is a non-empty
      string. */
  function DetailVariables(templateVariables: Option<Object>, tweetId: string, controllerData: Option<string>): (r: Object)
    ensures "focalTweetId" in r && r["focalTweetId"] == Str(tweetId)
    ensures "controller_data" in r <==> Truthy(controllerData)
    ensures Truthy(controllerData) ==> r["controller_data"] == Str(controllerData.value)
    ensures forall k :: k != "focalTweetId" && k != "controller_data" ==>
              (k in r <==> k in templateVariables.GetOr(map[]))
    ensures forall k :: k in r && k != "focalTweetId" && k != "controller_data" ==>
              r[k] == templateVariables.GetOr(map[])[k]
  {
    var copied := templateVariables.GetOr(map[]) - {"controller_data", "focalTweetId"};
    var withFocal := copied["focalTweetId" := Str(tweetId)];
    if Truthy(controllerData) then withFocal["controller_data" := Str(controllerData.value)] else withFocal
  }

  /** A replay without controller data never forwards the template's own:
      the variables then depend on the template only through its other
      keys. */
  lemma StaleControllerDataDropped(a: Option<Object>, b: Option<Object>, tweetId: string)
    requires forall k :: k != "focalTweetId" && k != "controller_data" ==>
               (k in a.GetOr(map[]) <==> k in b.GetOr(map[]))
               && (k in a.GetOr(map[]) ==> a.GetOr(map[])[k] == b.GetOr(map[])[k])
    ensures DetailVariables(a, tweetId, None) == DetailVariables(b, tweetId, None)
  {
    var ra := DetailVariables(a, tweetId, None);
    var rb := DetailVariables(b, tweetId, None);
    assert ra.Keys == rb.Keys;
  }

  /** `(method ?? "POST").toUpperCase() === "GET"`. */
  predicate IsGet(requestMethod: Option<string>) {
    ToUpper(requestMethod.GetOr("POST")) == "GET"
  }

  /** The method test is exactly a case-insensitive match of "GET"; a
      missing method means POST. */
  lemma IsGetExactly(requestMethod: Option<string>)
    ensures requestMethod.None? ==> !IsGet(requestMethod)
    ensures requestMethod.Some? ==>
              (IsGet(requestMethod) <==>
                 |requestMethod.value| == 3 && requestMethod.value[0] in "gG"
                 && requestMethod.value[1] in "eE" && requestMethod.value[2] in "tT")
  {
    if requestMethod.Some? && |requestMethod.value| == 3 {
      var u := ToUpper(requestMethod.value);
      assert u == [u[0], u[1], u[2]];
      assert "GET" == ['G', 'E', 'T'];
    }
    if requestMethod.None? {
      assert ToUpper("POST")[0] == 'P';
    }
  }

  /** The request a replay sends. A GET carries the three JSON values as
      query parameters of the template URL; any other method sends them as
      the JSON body. */
  datatype DetailCall =
    | GetCall(url: string, variables: Object, features: Object, fieldToggles: Object, headers: HeaderUtils.Headers)
    | BodyCall(url: string, requestMethod: string, body: DetailBody, headers: HeaderUtils.Headers)

  /** The JSON body `{ variables, features, fieldToggles }`. */
  datatype DetailBody = DetailBody(variables: Object, features: Object, fieldToggles: Object)

  /** The request `performTweetDetailRequest(tweetId, controllerData)`
      sends with the active template. */
  function DetailRequest(t: Template, tweetId: string, controllerData: Option<string>, ctx: HeaderUtils.Replay): (c: DetailCall)
    ensures c.GetCall? <==> IsGet(t.requestMethod)
    ensures c.url == t.url
    ensures c.headers == HeaderUtils.ReplayHeaders(Some(t.headers), ctx)
    ensures c.GetCall? ==> c.variables == DetailVariables(t.variables, tweetId, controllerData)
                           && c.features == t.features.GetOr(DefaultFeatures)
                           && c.fieldToggles == t.fieldToggles.GetOr(DefaultFieldToggles)
    ensures c.BodyCall? ==> c.requestMethod == t.requestMethod.GetOr("POST")
                            && c.body.variables == DetailVariables(t.variables, tweetId, controllerData)
                            && c.body.features == t.features.GetOr(DefaultFeatures)
                            && c.body.fieldToggles == t.fieldToggles.GetOr(DefaultFieldToggles)
  {
    var variables := DetailVariables(t.variables, tweetId, controllerData);
    var headers := HeaderUtils.ReplayHeaders(Some(t.headers), ctx);
    var features := t.features.GetOr(DefaultFeatures);
    var toggles := t.fieldToggles.GetOr(DefaultFieldToggles);
    if IsGet(t.requestMethod) then GetCall(t.url, variables, features, toggles, headers)
    else BodyCall(t.url, t.requestMethod.GetOr("POST"),
                  DetailBody(variables, features, toggles), headers)
  }

  /** The status check after either request: the parsed body, or an error
      naming the status. */
  function DetailOutcome(reply: HttpReply<Value>): (r: Result<Value>)
    ensures r.Ok? <==> Ok2xx(reply.status)
    ensures r.Ok? ==> r.value == reply.body
    ensures r.Err? ==> r.message == "TweetDetail 请求失败，状态码 " + IntToString(reply.status)
  {
    if Ok2xx(reply.status) then Ok(reply.body) else Err("TweetDetail 请求失败，状态码 " + IntToString(reply.status))
  }

  /** `performTweetDetailRequest`: the request sent with the stored template
      (or the preset) and what the caller receives. */
  function PerformTweetDetailRequest(stored: Option<Template>, presetUrl: string, tweetId: string,
                                     controllerData: Option<string>, ctx: HeaderUtils.Replay,
                                     reply: HttpReply<Value>): (r: (DetailCall, Result<Value>))
    ensures r.0 == DetailRequest(ActiveTemplate(stored, presetUrl), tweetId, controllerData, ctx)
    ensures r.1 == DetailOutcome(reply)
  {
    (DetailRequest(ActiveTemplate(stored, presetUrl), tweetId, controllerData, ctx), DetailOutcome(reply))
  }

  /** Before any capture, the replay is a GET with the preset's switches,
      aimed at the requested tweet. */
  lemma PresetReplayIsGet(presetUrl: string, tweetId: string, controllerData: Option<string>, ctx: HeaderUtils.Replay)
    ensures var c := DetailRequest(ActiveTemplate(None, presetUrl), tweetId, controllerData, ctx);
            c.GetCall? && c.features == DefaultFeatures && c.fieldToggles == DefaultFieldToggles
            && c.variables["focalTweetId"] == Str(tweetId)
  {
    assert ToUpper("GET") == "GET";
  }
}
