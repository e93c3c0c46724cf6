/** The page-script side of the bridge (interceptor/index.ts): which
    requests it accepts, and the single response-or-error message it posts
    back for each accepted one. The replayed requests themselves are the
    `detail` and `action` function parameters. */
module InterceptorEntry {
  import opened Wrappers
  import opened Json
  import opened Bridge
  import GraphqlApi

  const UnknownError := "未知错误"

  /** The fields of a request payload the listener reads; which of them
      matter depends on the message type. */
  datatype RequestFields = RequestFields(
    tweetId: Option<string>,
    controllerData: Nullable<string>,
    requestId: Option<string>,
    docId: Option<string>,
    operationName: Option<string>,
    variables: Option<Object>,
    features: Option<Object>,
    httpMethod: Option<GraphqlApi.Method>,
    fieldToggles: Option<Object>)

  /** A thrown value: an `Error` with its message, or anything else, with
      the text `String(...)` gives it (`None` for null and undefined). */
  datatype Thrown = ErrorObject(message: string) | OtherValue(text: Option<string>)

  /** How an awaited replay ended. */
  datatype Outcome = Returned(value: Value) | Threw(thrown: Thrown)

  /** The arguments of `performTweetActionRequest`. */
  datatype ActionCall = ActionCall(
    docId: string,
    operationName: string,
    variables: Object,
    features: Option<Object>,
    httpMethod: Option<GraphqlApi.Method>,
    fieldToggles: Option<Object>)

  /** What the content script receives: `{ requestId, data }` or
      `{ requestId, error }`. */
  datatype ReplyPayload = ReplyData(requestId: string, data: Value) | ReplyError(requestId: string, error: string)

  type Event = WindowEvent<Option<RequestFields>>

  type Reply = Message<ReplyPayload>

  /** The error text posted for a thrown value. */
  function ErrorText(t: Thrown): (r: string)
    ensures t.ErrorObject? ==> r == t.message
    ensures t.OtherValue? ==> r == t.text.GetOr(UnknownError)
  {
    match t
    case ErrorObject(m) => m
    case OtherValue(text) => text.GetOr(UnknownError)
  }

  /** A detail request is served only with a truthy tweet id and request
      id. */
  predicate DetailServed(p: Option<RequestFields>) {
    p.Some? && Truthy(p.value.tweetId) && Truthy(p.value.requestId)
  }

  /** An action request is served only with a truthy request id, document
      id and operation name. */
  predicate ActionServed(p: Option<RequestFields>) {
    p.Some? && Truthy(p.value.requestId) && Truthy(p.value.docId) && Truthy(p.value.operationName)
  }

  /** An accepted event whose request is one the listener serves. */
  predicate Served(e: Event) {
    Accepts(e, ToInterceptor)
    && ((e.data.value.kind.DetailRequest? && DetailServed(e.data.value.payload))
        || (e.data.value.kind.ActionRequest? && ActionServed(e.data.value.payload)))
  }

  /** The call made for an action request: missing variables become `{}`. */
  function ActionCallOf(f: RequestFields): (c: ActionCall)
    requires Truthy(f.docId) && Truthy(f.operationName)
    ensures c.variables == f.variables.GetOr(map[])
    ensures c.docId == f.docId.value && c.operationName == f.operationName.value
    ensures c.features == f.features && c.httpMethod == f.httpMethod && c.fieldToggles == f.fieldToggles
  {
    ActionCall(f.docId.value, f.operationName.value, f.variables.GetOr(map[]), f.features, f.httpMethod, f.fieldToggles)
  }

  /** The one message posted for an accepted request: the response type
      with the data, or the error type with the error text, echoing the
      request id. */
  function Answer(requestId: string, outcome: Outcome, ok: MessageType, failed: MessageType): (r: Reply)
    ensures r.source == Some(BridgeSource) && r.direction == Some(FromInterceptor)
    ensures r.payload.requestId == requestId
    ensures outcome.Returned? <==> r.kind == ok && r.payload.ReplyData?
    ensures outcome.Returned? ==> r.payload.data == outcome.value
    ensures outcome.Threw? ==> r.kind == failed && r.payload == ReplyError(requestId, ErrorText(outcome.thrown))
  {
    match outcome
    case Returned(v) => Outgoing(FromInterceptor, ok, ReplyData(requestId, v))
    case Threw(t) => Outgoing(FromInterceptor, failed, ReplyError(requestId, ErrorText(t)))
  }

  /** The `message` listener: the messages it posts for one event. */
  function HandleRequest(e: Event, detail: (string, Nullable<string>) -> Outcome, action: ActionCall -> Outcome): (r: seq<Reply>)
    ensures !Accepts(e, ToInterceptor) ==> r == []
    ensures Accepts(e, ToInterceptor) && !e.data.value.kind.DetailRequest? && !e.data.value.kind.ActionRequest? ==> r == []
    ensures |r| <= 1
    ensures |r| == 1 <==> Served(e)
    ensures |r| == 1 ==> r[0].payload.requestId == e.data.value.payload.value.requestId.value
    ensures |r| == 1 && e.data.value.kind.DetailRequest? ==>
      var f := e.data.value.payload.value;
      r[0] == Answer(f.requestId.value, detail(f.tweetId.value, f.controllerData), DetailResponse, DetailError)
    ensures |r| == 1 && e.data.value.kind.ActionRequest? ==>
      var f := e.data.value.payload.value;
      r[0] == Answer(f.requestId.value, action(ActionCallOf(f)), ActionResponse, ActionError)
  {
    if !Accepts(e, ToInterceptor) then []
    else
      var m := e.data.value;
      if m.kind.DetailRequest? then
        if !DetailServed(m.payload) then []
        else
          var f := m.payload.value;
          [Answer(f.requestId.value, detail(f.tweetId.value, f.controllerData), DetailResponse, DetailError)]
      else if m.kind.ActionRequest? then
        if !ActionServed(m.payload) then []
        else
          var f := m.payload.value;
          [Answer(f.requestId.value, action(ActionCallOf(f)), ActionResponse, ActionError)]
      else []
  }

  /** The answer to an accepted request passes the content script's filter
      and reaches the handler of its family: the detail handler, or the
      action handler with `isError` set exactly when the replay threw. */
  lemma AnswersReachTheirHandler(e: Event, detail: (string, Nullable<string>) -> Outcome, action: ActionCall -> Outcome)
    requires |HandleRequest(e, detail, action)| == 1
    ensures var r := HandleRequest(e, detail, action)[0];
            var f := e.data.value.payload.value;
            (e.data.value.kind.DetailRequest? ==> Dispatch(WindowEvent(true, Some(r))) == SettleDetail)
            && (e.data.value.kind.ActionRequest? ==>
                  Dispatch(WindowEvent(true, Some(r))) == SettleService(ActionService, action(ActionCallOf(f)).Threw?))
  {
    var r := HandleRequest(e, detail, action)[0];
    var f := e.data.value.payload.value;
    if e.data.value.kind.ActionRequest? {
      assert r == Answer(f.requestId.value, action(ActionCallOf(f)), ActionResponse, ActionError);
    }
  }
}
