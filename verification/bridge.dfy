/** The window-message bridge between the content script and the page
    script (common/bridge.ts, handlers/bridgeMessageHandler.ts): the envelope
    every message travels in, the filter each side applies to incoming
    `message` events, and the content side's dispatch table. */
module Bridge {
  import opened Wrappers

  const BridgeSource := "tsb-x-bridge"
  const FromInterceptor := "from-interceptor"
  const ToInterceptor := "to-interceptor"

  /** The `type` of a bridge message. Types are told apart by constructor;
      any other value of the field is `UnknownType`. */
  datatype MessageType =
    | TimelineUpdate
    | DetailRequest | DetailResponse | DetailError
    | ActionRequest | ActionResponse | ActionError
    | PollVoteRequest | PollVoteResponse | PollVoteError
    | FriendshipRequest | FriendshipResponse | FriendshipError
    | FollowingListRequest | FollowingListResponse | FollowingListError
    | UploadRequest | UploadProgress | UploadResponse | UploadError
    | UnknownType(name: string)

  /** `{ source, direction, type, payload }`; a missing or non-string
      `source` or `direction` is `None`. */
  datatype Message<P> = Message(source: Option<string>, direction: Option<string>, kind: MessageType, payload: P)

  /** A `message` event: whether `event.source` is this window, and
      `event.data`, `None` when it is falsy. */
  datatype WindowEvent<P> = WindowEvent(fromThisWindow: bool, data: Option<Message<P>>)

  /** The message a side posts: the bridge tag and the given direction. */
  function Outgoing<P>(direction: string, kind: MessageType, payload: P): (m: Message<P>)
    ensures m.source == Some(BridgeSource) && m.direction == Some(direction)
    ensures m.kind == kind && m.payload == payload
  {
    Message(Some(BridgeSource), Some(direction), kind, payload)
  }

  /** The filter both listeners apply before looking at the type: the event
      comes from this window, carries data, carries the bridge tag and
      travels in the listener's direction. */
  predicate Accepts<P>(e: WindowEvent<P>, direction: string) {
    e.fromThisWindow && e.data.Some?
    && e.data.value.source == Some(BridgeSource)
    && e.data.value.direction == Some(direction)
  }

  /** Each side hears its own posts on the same window, but the direction
      tag makes it drop them: a message posted towards the page script is
      accepted there and not by the content script, and the other way
      round. */
  lemma OwnPostsDropped<P>(kind: MessageType, payload: P)
    ensures Accepts(WindowEvent(true, Some(Outgoing(ToInterceptor, kind, payload))), ToInterceptor)
    ensures !Accepts(WindowEvent(true, Some(Outgoing(ToInterceptor, kind, payload))), FromInterceptor)
    ensures Accepts(WindowEvent(true, Some(Outgoing(FromInterceptor, kind, payload))), FromInterceptor)
    ensures !Accepts(WindowEvent(true, Some(Outgoing(FromInterceptor, kind, payload))), ToInterceptor)
  {
  }

  /** The four request families settled through a per-file pending table
      and an `isError` flag. */
  datatype Service = ActionService | PollVoteService | FriendshipService | FollowingListService

  /** Where the content-side listener sends a message. */
  datatype Route =
    | Drop
    | IngestTimeline
    | SettleDetail
    | SettleService(service: Service, isError: bool)
    | ForwardUploadProgress
    | ResolveUpload
    | RejectUpload

  predicate IsErrorType(k: MessageType) {
    k.DetailError? || k.ActionError? || k.PollVoteError? || k.FriendshipError?
    || k.FollowingListError? || k.UploadError?
  }

  predicate IsRequestType(k: MessageType) {
    k.DetailRequest? || k.ActionRequest? || k.PollVoteRequest? || k.FriendshipRequest?
    || k.FollowingListRequest? || k.UploadRequest?
  }

  function ResponseType(s: Service): MessageType {
    match s
    case ActionService => ActionResponse
    case PollVoteService => PollVoteResponse
    case FriendshipService => FriendshipResponse
    case FollowingListService => FollowingListResponse
  }

  function ErrorType(s: Service): MessageType {
    match s
    case ActionService => ActionError
    case PollVoteService => PollVoteError
    case FriendshipService => FriendshipError
    case FollowingListService => FollowingListError
  }

  /** The `switch (data.type)` of the content-side listener. */
  function RouteOf(k: MessageType): (r: Route)
    ensures r.SettleService? ==> (r.isError <==> IsErrorType(k))
    ensures r == Drop <==> IsRequestType(k) || k.UnknownType?
  {
    match k
    case TimelineUpdate => IngestTimeline
    case DetailResponse => SettleDetail
    case DetailError => SettleDetail
    case ActionResponse => SettleService(ActionService, false)
    case ActionError => SettleService(ActionService, true)
    case PollVoteResponse => SettleService(PollVoteService, false)
    case PollVoteError => SettleService(PollVoteService, true)
    case FriendshipResponse => SettleService(FriendshipService, false)
    case FriendshipError => SettleService(FriendshipService, true)
    case FollowingListResponse => SettleService(FollowingListService, false)
    case FollowingListError => SettleService(FollowingListService, true)
    case UploadProgress => ForwardUploadProgress
    case UploadResponse => ResolveUpload
    case UploadError => RejectUpload
    case _ => Drop
  }

  /** `handleMessage`: the filter, then the dispatch table. */
  function Dispatch<P>(e: WindowEvent<P>): (r: Route)
    ensures !Accepts(e, FromInterceptor) ==> r == Drop
    ensures Accepts(e, FromInterceptor) ==> r == RouteOf(e.data.value.kind)
  {
    if Accepts(e, FromInterceptor) then RouteOf(e.data.value.kind) else Drop
  }

  /** Each correlated family's response type reaches its own handler with
      `isError` false and its error type with `isError` true; the detail
      response and error share one handler; the three upload types reach
      three different handlers. */
  lemma DispatchTable(s: Service)
    ensures RouteOf(ResponseType(s)) == SettleService(s, false)
    ensures RouteOf(ErrorType(s)) == SettleService(s, true)
    ensures RouteOf(DetailResponse) == RouteOf(DetailError) == SettleDetail
    ensures RouteOf(UploadProgress) != RouteOf(UploadResponse)
    ensures RouteOf(UploadResponse) != RouteOf(UploadError)
    ensures RouteOf(UploadProgress) != RouteOf(UploadError)
  {
  }

  /** A message the interceptor posts back is routed exactly as its type
      says, while the same message with the other direction is dropped. */
  lemma InterceptorRepliesRouted<P>(kind: MessageType, payload: P)
    ensures Dispatch(WindowEvent(true, Some(Outgoing(FromInterceptor, kind, payload)))) == RouteOf(kind)
    ensures Dispatch(WindowEvent(true, Some(Outgoing(ToInterceptor, kind, payload)))) == Drop
    ensures Dispatch(WindowEvent(false, Some(Outgoing(FromInterceptor, kind, payload)))) == Drop
  {
  }
}
