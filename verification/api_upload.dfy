/** Media uploads from the content script (api/twitterUpload.ts): the
    defaults of an upload request and the three handlers the page script's
    progress, success and error messages reach. */
module UploadApi {
  import opened Wrappers
  import opened Text
  import opened Bridge
  import opened Correlation

  const UploadFailed := "上传失败"
  const DefaultMediaType := "application/octet-stream"
  const DefaultFileName := "media"

  datatype Phase = InitPhase | AppendPhase | FinalizePhase | ProcessingPhase

  /** The progress object the page script sends. Sizes are whole bytes and
      `progress` is a fraction. */
  datatype MediaUploadProgress = MediaUploadProgress(
    phase: Phase,
    uploadedBytes: int,
    totalBytes: int,
    progress: real,
    chunkIndex: Option<int>,
    chunkCount: Option<int>,
    checkAfterSecs: Option<int>,
    processingState: Option<string>)

  datatype ImageInfo = ImageInfo(w: Option<int>, h: Option<int>, imageType: Option<string>)
  datatype VideoInfo = VideoInfo(videoType: Option<string>)
  datatype ProcessingSummary = ProcessingSummary(state: Option<string>, progressPercent: Option<int>)

  datatype MediaUploadResult = MediaUploadResult(
    mediaId: string,
    mediaIdString: string,
    mediaKey: Option<string>,
    size: Option<int>,
    expiresAfterSecs: Option<int>,
    image: Option<ImageInfo>,
    video: Option<VideoInfo>,
    processingInfo: Option<ProcessingSummary>)

  /** What the upload table hands to its callers: progress reports and the
      final result. */
  datatype UploadData = ProgressData(progress: MediaUploadProgress) | ResultData(result: MediaUploadResult)

  /** A `Blob`: its MIME type (the empty string when unknown), its size,
      and its name when it is a `File`. */
  datatype Blob = Blob(mimeType: string, size: nat, fileName: Option<string>)

  datatype UploadOptions = UploadOptions(
    mediaType: Option<string>,
    mediaCategory: Option<string>,
    fileName: Option<string>,
    chunkSizeBytes: Option<int>,
    additionalOwners: Option<seq<string>>,
    onProgress: bool)

  /** The payload of an upload request message. */
  datatype UploadRequestPayload = UploadRequestPayload(
    requestId: string,
    file: Blob,
    mediaType: string,
    mediaCategory: string,
    fileName: string,
    chunkSizeBytes: Option<int>,
    additionalOwners: Option<seq<string>>)

  type UploadStep = Step<Message<UploadRequestPayload>, UploadData>

  /** `inferMediaCategory`: videos and GIFs by MIME type, everything else
      (an unknown type included) as an image. */
  function InferMediaCategory(mimeType: string): (r: string)
    ensures r == "tweet_video" <==> StartsWith(mimeType, "video/")
    ensures r == "tweet_gif" <==> mimeType == "image/gif"
    ensures r == "tweet_image" <==> !StartsWith(mimeType, "video/") && mimeType != "image/gif"
  {
    if mimeType == "" then "tweet_image"
    else if StartsWith(mimeType, "video/") then
      assert mimeType[0] == "video/"[0];
      "tweet_video"
    else if mimeType == "image/gif" then "tweet_gif"
    else "tweet_image"
  }

  /** `generateRequestId`: the prefix and the time-and-random part. */
  function UploadRequestId(nonce: string): string {
    "media-upload-" + nonce
  }

  /** The request `uploadMedia` posts: explicit options win; otherwise the
      file's own type (or a generic binary type), the category inferred from
      the file's type, and the file's name (or "media"). */
  function UploadPayload(requestId: string, file: Blob, options: UploadOptions): (p: UploadRequestPayload)
    ensures p.mediaType == (if options.mediaType.Some? then options.mediaType.value
                            else if file.mimeType != "" then file.mimeType else DefaultMediaType)
    ensures p.mediaCategory == (if options.mediaCategory.Some? then options.mediaCategory.value
                                else InferMediaCategory(file.mimeType))
    ensures p.fileName == (if options.fileName.Some? then options.fileName.value
                           else if Truthy(file.fileName) then file.fileName.value else DefaultFileName)
    ensures p.file == file && p.requestId == requestId
    ensures p.chunkSizeBytes == options.chunkSizeBytes && p.additionalOwners == options.additionalOwners
  {
    UploadRequestPayload(
      requestId, file,
      options.mediaType.GetOr(if file.mimeType != "" then file.mimeType else DefaultMediaType),
      options.mediaCategory.GetOr(InferMediaCategory(file.mimeType)),
      options.fileName.GetOr(if Truthy(file.fileName) then file.fileName.value else DefaultFileName),
      options.chunkSizeBytes, options.additionalOwners)
  }

  /** `uploadMedia`: no validation; the entry, with the progress callback
      when one is given, is registered before the request is posted. */
  function UploadMedia(pending: Pending, nonce: string, file: Blob, options: UploadOptions): (r: UploadStep)
    ensures r.pending == pending[UploadRequestId(nonce) := Waiter(options.onProgress)]
    ensures RegisteredBeforePosted(r.events) && |r.events| == 2
    ensures r.events[1] == Posted(UploadRequestId(nonce),
              Outgoing(ToInterceptor, UploadRequest, UploadPayload(UploadRequestId(nonce), file, options)))
  {
    var id := UploadRequestId(nonce);
    Send(pending, id, Waiter(options.onProgress), Outgoing(ToInterceptor, UploadRequest, UploadPayload(id, file, options)))
  }

  /** `handleUploadSuccess`. */
  function HandleUploadSuccess(pending: Pending, requestId: string, data: MediaUploadResult): (r: UploadStep)
    ensures requestId !in pending ==> r == Step(pending, [])
    ensures requestId in pending ==> r.pending == pending - {requestId}
                                     && r.events == [Deleted(requestId), Resolved(requestId, ResultData(data))]
  {
    Settle(pending, requestId, Success(ResultData(data)), UploadFailed)
  }

  /** `handleUploadError`: the error text, or "上传失败" when it is
      missing. */
  function HandleUploadError(pending: Pending, requestId: string, error: Option<string>): (r: UploadStep)
    ensures requestId !in pending ==> r == Step(pending, [])
    ensures requestId in pending ==> r.pending == pending - {requestId}
                                     && r.events == [Deleted(requestId), Rejected(requestId, error.GetOr(UploadFailed))]
  {
    Settle(pending, requestId, Failure(error), UploadFailed)
  }

  /** `handleUploadProgress`: the entry stays; the report reaches the
      callback only when there is one. */
  function HandleUploadProgress(pending: Pending, requestId: string, data: MediaUploadProgress): (r: UploadStep)
    ensures r.pending == pending
    ensures r.events == (if requestId in pending && pending[requestId].onProgress
                         then [Forwarded(requestId, ProgressData(data))] else [])
  {
    Forward(pending, requestId, ProgressData(data))
  }

  /** One upload's life on the content side: however many progress reports
      arrive before the result, the promise settles exactly once and the
      table ends as it was before the upload. */
  lemma UploadSettlesOnce(pending: Pending, nonce: string, file: Blob, options: UploadOptions,
                          reports: seq<UploadData>, answer: Answer<UploadData>)
    requires UploadRequestId(nonce) !in pending
    ensures var id := UploadRequestId(nonce);
            var s := UploadMedia(pending, nonce, file, options);
            var ms := seq(|reports|, i requires 0 <= i < |reports| => Progress(id, reports[i])) + [Answered(id, answer)];
            var r := ReceiveAll<Message<UploadRequestPayload>, UploadData>(s.pending, ms, UploadFailed);
            Settlements(r.events, id) == 1 && r.pending == pending
  {
    var id := UploadRequestId(nonce);
    var s := UploadMedia(pending, nonce, file, options);
    ProgressKeepsEntry<Message<UploadRequestPayload>, UploadData>(s.pending, id, reports, answer, UploadFailed);
    assert s.pending - {id} == pending;
  }
}
