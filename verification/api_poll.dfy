/** Voting in a poll (api/twitterPoll.ts): the three validations, the
    request posted to the interceptor and the settling of its answer. */
module PollApi {
  import opened Wrappers
  import Json
  import opened Bridge
  import opened Correlation

  const UnknownError := "未知错误"
  const MissingEndpointError := "缺少投票接口地址，无法提交投票"
  const MissingCardUriError := "缺少投票卡片标识，无法提交投票"
  const MissingCardNameError := "缺少投票卡片名称，无法提交投票"
  const DefaultCardsPlatform := "Web-12"

  /** The arguments of `voteInPoll`; only `cardsPlatform` may be left out. */
  datatype VoteParams = VoteParams(
    endpoint: string,
    cardUri: string,
    cardName: string,
    tweetId: string,
    choiceId: int,
    cardsPlatform: Option<string>)

  datatype PollVotePayload = PollVotePayload(
    requestId: string,
    endpoint: string,
    cardUri: string,
    cardName: string,
    tweetId: string,
    choiceId: int,
    cardsPlatform: string)

  /** The interceptor's answer; `data` is passed through unread. */
  datatype PollVoteReply = PollVoteReply(requestId: string, data: Json.Value, error: Option<string>)

  type PollStep = Step<Message<PollVotePayload>, PollVoteReply>

  function PollRequestId(nonce: string): string {
    "poll-vote-" + nonce
  }

  /** `voteInPoll`: the endpoint, the card URI and the card name are checked
      in that order and the first empty one throws; otherwise the vote is
      registered and posted, with "Web-12" when no platform is given (an
      empty platform is sent as is). */
  function VoteInPoll(pending: Pending, nonce: string, p: VoteParams): (r: Result<PollStep>)
    ensures p.endpoint == "" ==> r == Err(MissingEndpointError)
    ensures p.endpoint != "" && p.cardUri == "" ==> r == Err(MissingCardUriError)
    ensures p.endpoint != "" && p.cardUri != "" && p.cardName == "" ==> r == Err(MissingCardNameError)
    ensures r.Ok? <==> p.endpoint != "" && p.cardUri != "" && p.cardName != ""
    ensures r.Ok? ==> var rid := PollRequestId(nonce);
      r.value.pending == pending[rid := Waiter(false)]
      && RegisteredBeforePosted(r.value.events)
      && PostedRequest(r.value) == Some(Outgoing(ToInterceptor, PollVoteRequest,
           PollVotePayload(rid, p.endpoint, p.cardUri, p.cardName, p.tweetId, p.choiceId,
                           p.cardsPlatform.GetOr(DefaultCardsPlatform))))
  {
    if p.endpoint == "" then Err(MissingEndpointError)
    else if p.cardUri == "" then Err(MissingCardUriError)
    else if p.cardName == "" then Err(MissingCardNameError)
    else
      var rid := PollRequestId(nonce);
      Ok(Send(pending, rid, Waiter(false), Outgoing(ToInterceptor, PollVoteRequest,
           PollVotePayload(rid, p.endpoint, p.cardUri, p.cardName, p.tweetId, p.choiceId,
                           p.cardsPlatform.GetOr(DefaultCardsPlatform)))))
  }

  /** `handlePollVoteResponse(payload, isError)`. */
  function HandlePollVoteResponse(pending: Pending, reply: PollVoteReply, isError: bool): (r: PollStep)
    ensures reply.requestId !in pending ==> r == Step(pending, [])
    ensures reply.requestId in pending ==> r.pending == pending - {reply.requestId}
    ensures reply.requestId in pending ==>
      r.events == [Deleted(reply.requestId),
                   if isError then Rejected(reply.requestId, reply.error.GetOr(UnknownError))
                   else Resolved(reply.requestId, reply)]
  {
    Settle(pending, reply.requestId, if isError then Failure(reply.error) else Success(reply), UnknownError)
  }

  /** A vote that was posted is settled exactly once by the interceptor's
      answer for it, which leaves the pending votes as they were before. */
  lemma VoteSettledOnce(pending: Pending, nonce: string, p: VoteParams, reply: PollVoteReply, isError: bool)
    requires PollRequestId(nonce) !in pending
    requires VoteInPoll(pending, nonce, p).Ok?
    requires reply.requestId == PollRequestId(nonce)
    ensures var s := VoteInPoll(pending, nonce, p).value;
            var a := HandlePollVoteResponse(s.pending, reply, isError);
            a.pending == pending && Settlements(s.events + a.events, reply.requestId) == 1
            && RegisteredBeforePosted(s.events + a.events) && DeletedBeforeSettled(s.events + a.events)
  {
    var rid := PollRequestId(nonce);
    var request := Outgoing(ToInterceptor, PollVoteRequest,
      PollVotePayload(rid, p.endpoint, p.cardUri, p.cardName, p.tweetId, p.choiceId,
                      p.cardsPlatform.GetOr(DefaultCardsPlatform)));
    RequestAnswered<Message<PollVotePayload>, PollVoteReply>(pending, rid, Waiter(false), request,
      if isError then Failure(reply.error) else Success(reply), UnknownError);
  }
}
