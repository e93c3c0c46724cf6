/** The shapes of the GraphQL responses the extension reads: tweets, users,
    entities, cards and timeline instructions. Only the fields some modelled
    operation reads are kept; every optional JSON field is an `Option`. */
module TweetTypes {
  import opened Wrappers

  /** An index pair `[start, end]` into the tweet text. */
  type Span = (int, int)

  datatype UrlEntity = UrlEntity(
    url: Option<string>,
    expandedUrl: Option<string>,
    unwoundUrl: Option<string>,
    displayUrl: Option<string>,
    indices: Option<Span>)

  datatype MentionEntity = MentionEntity(screenName: Option<string>, indices: Option<Span>)

  datatype HashtagEntity = HashtagEntity(text: string, indices: Option<Span>)

  datatype SymbolEntity = SymbolEntity(text: Option<string>, indices: Option<Span>)

  datatype Variant = Variant(bitrate: Option<int>, contentType: string, url: string)

  datatype MediaEntity = MediaEntity(
    mediaType: string,
    url: Option<string>,
    mediaKey: Option<string>,
    idStr: string,
    mediaUrlHttps: Option<string>,
    expandedUrl: Option<string>,
    extAltText: Option<string>,
    variants: Option<seq<Variant>>)

  datatype Entities = Entities(
    urls: Option<seq<UrlEntity>>,
    mentions: Option<seq<MentionEntity>>,
    hashtags: Option<seq<HashtagEntity>>,
    symbols: Option<seq<SymbolEntity>>,
    media: Option<seq<MediaEntity>>)

  /** One card binding value; `imageUrl` is `image_value.url`. */
  datatype BindingValue = BindingValue(
    stringValue: Option<string>,
    scribeKey: Option<string>,
    booleanValue: Option<bool>,
    longValue: Option<string>,
    imageUrl: Option<string>)

  datatype BindingEntry = BindingEntry(key: Option<string>, value: Option<BindingValue>)

  /** `binding_values` is declared as either a list of key/value entries or a
      record keyed by binding name. */
  datatype Bindings =
    | NoBindings
    | BindingList(entries: seq<BindingEntry>)
    | BindingRecord(fields: seq<(string, Option<BindingValue>)>)

  datatype CardLegacy = CardLegacy(bindings: Bindings, name: Option<string>, url: Option<string>)

  datatype Card = Card(restId: Option<string>, legacy: Option<CardLegacy>)

  datatype UserLegacy = UserLegacy(
    name: Option<string>,
    screenName: Option<string>,
    description: Option<string>,
    descriptionUrls: Option<seq<UrlEntity>>,
    profileImageUrlHttps: Option<string>,
    profileImageUrl: Option<string>)

  datatype UserCore = UserCore(name: Option<string>, screenName: Option<string>)

  /** `core.user_results.result` of a tweet. */
  datatype User = User(
    typename: Option<string>,
    restId: Option<string>,
    id: Option<string>,
    legacy: Option<UserLegacy>,
    core: Option<UserCore>,
    avatarImageUrl: Option<string>)

  datatype NoteTweet = NoteTweet(text: Option<string>, entitySet: Option<Entities>)

  datatype LimitedAction = LimitedAction(action: Option<string>)

  datatype Legacy = Legacy(
    idStr: Option<string>,
    userIdStr: Option<string>,
    inReplyToStatusIdStr: Option<string>,
    inReplyToTweetIdStr: Option<string>,
    fullText: Option<string>,
    displayTextRange: Option<Span>,
    entities: Option<Entities>,
    extendedMedia: Option<seq<MediaEntity>>,
    quotedPermalinkUrl: Option<string>,
    retweeted: Payload)

  /** A tweet object (`__typename` "Tweet", or the tweet inside a visibility
      wrapper). `quoted` and `retweeted` are the `result` of
      `quoted_status_result` and `retweeted_status_result`. */
  datatype Tweet = Tweet(
    restId: Option<string>,
    legacy: Option<Legacy>,
    user: Option<User>,
    quoted: Payload,
    retweeted: Payload,
    card: Option<Card>,
    noteTweet: Option<NoteTweet>)

  datatype TombstoneEntity = TombstoneEntity(fromIndex: Option<int>, toIndex: Option<int>, url: Option<string>)

  datatype TombstoneText = TombstoneText(text: Option<string>, entities: Option<seq<TombstoneEntity>>)

  /** The value of a `tweet_results.result` field, distinguished by
      `__typename`. `Missing` covers null, undefined and non-object values. */
  datatype Payload =
    | Missing
    | TweetPayload(tweet: Tweet)
    | VisibilityPayload(inner: Option<Tweet>, limitedActions: Option<seq<LimitedAction>>)
    | TombstonePayload(text: Option<TombstoneText>)
    | OtherPayload(typename: Option<string>)

  /** A structural size, used as the termination measure of the recursive
      store walk over quoted and retweeted tweets. */
  function TweetSize(t: Tweet): nat {
    1 + PayloadSize(t.quoted) + PayloadSize(t.retweeted)
    + (match t.legacy case Some(l) => PayloadSize(l.retweeted) case None => 0)
  }

  function PayloadSize(p: Payload): nat {
    match p
    case TweetPayload(t) => 1 + TweetSize(t)
    case VisibilityPayload(Some(t), _) => 1 + TweetSize(t)
    case _ => 0
  }

  /* ---------------------------- timelines ---------------------------- */

  /** `clientEventInfo`: only `details.timelinesDetails.controllerData` and
      `details.conversationDetails.conversationSection` are read. */
  datatype ClientEventInfo = ClientEventInfo(controllerData: Option<string>, section: Option<string>)

  /** `promotedMetadata`: absent, present but falsy, or present and truthy. */
  datatype Promoted = NotPromoted | FalsyPromoted | TruthyPromoted

  /** `itemContent` of a timeline item. */
  datatype TweetItem = TweetItem(tweetResult: Payload, promoted: Promoted)

  datatype ModuleItemInner = ModuleItemInner(itemContent: Option<TweetItem>, cei: Option<ClientEventInfo>)

  datatype ModuleItem = ModuleItem(item: Option<ModuleItemInner>, cei: Option<ClientEventInfo>)

  /** Entry content by `entryType`; a module's `items` is absent or an array. */
  datatype Content =
    | TimelineItem(itemContent: Option<TweetItem>, cei: Option<ClientEventInfo>)
    | TimelineModule(items: Option<seq<ModuleItem>>, cei: Option<ClientEventInfo>)
    | OtherContent

  datatype Entry = Entry(entryId: string, content: Content, cei: Option<ClientEventInfo>)

  datatype Instruction =
    | AddEntries(entries: Option<seq<Entry>>)
    | PinEntry(entry: Option<Entry>)
    | OtherInstruction

  /** An `instructions` field: `None` when absent or not an array; a `None`
      element is an element that is not an object. */
  type InstructionList = Option<seq<Option<Instruction>>>

  /** `data.user.result`: absent, not an object, or an object with a
      timeline. */
  datatype UserTimeline = NoUser | UserNotObject | UserObject(instructions: InstructionList)

  /** A timeline response (home, tweet detail, search or user timeline). */
  datatype TimelineResponse = TimelineResponse(
    home: InstructionList,
    threaded: InstructionList,
    search: InstructionList,
    user: UserTimeline)

  function InstructionsOrEmpty(l: InstructionList): seq<Option<Instruction>> {
    l.GetOr([])
  }
}
