/** The page-side chunked upload (interceptor/mediaUpload.ts): INIT, one
    APPEND per chunk, FINALIZE and the processing poll, with the progress
    reports and the single final notification they produce. Every network
    reply is a parameter; the waits are only the computed durations. */
module MediaUpload {
  import opened Wrappers
  import opened Text
  import opened UploadApi
  import opened Ordered
  import opened Http

  const OneMiB := 1024 * 1024
  const DefaultChunkBytes := 5 * 1024 * 1024

  const InitMissingId := "INIT 响应缺少 media_id"
  const FinalizeMissingId := "FINALIZE 响应缺少 media_id"
  const AppendNetworkError := "APPEND 请求网络失败"
  const ProcessingFailed := "媒体处理失败"

  /* ------------------------------ headers ----------------------------- */

  /** A header `buildUploadHeaders` copies: a non-empty key other than
      content-type in any casing, with a non-empty value. */
  predicate Uploadable(k: string, m: map<string, string>) {
    k != "" && k in m && m[k] != "" && ToLower(k) != "content-type"
  }

  /** The copy loop over the keys in iteration order. */
  function KeepForUpload(keys: seq<string>, m: map<string, string>): (r: Dict<string>)
    ensures r.Valid()
    ensures forall k :: r.Get(k) == (if k in keys && Uploadable(k, m) then Some(m[k]) else None)
    decreases |keys|
  {
    if keys == [] then EmptyDict()
    else
      var k := keys[|keys| - 1];
      var before := KeepForUpload(keys[..|keys| - 1], m);
      assert forall j :: j in keys <==> j in keys[..|keys| - 1] || j == k;
      if Uploadable(k, m) then before.Put(k, m[k]) else before
  }

  /** `buildUploadHeaders`: the replay headers without content-type, so
      that the browser sets the multipart boundary itself. */
  function UploadHeaders(source: Dict<string>): (r: Dict<string>)
    ensures r.Valid()
    ensures forall k :: r.Get(k) == (if k in source.keys && Uploadable(k, source.m) then source.Get(k) else None)
  {
    KeepForUpload(source.keys, source.m)
  }

  /** An upload carries the replay headers' credential but never a
      content-type, in any casing. */
  lemma UploadKeepsCredential(source: Dict<string>)
    requires source.Valid() && Truthy(source.Get("authorization"))
    ensures UploadHeaders(source).Get("authorization") == source.Get("authorization")
    ensures forall k :: ToLower(k) == "content-type" ==> UploadHeaders(source).Get(k).None?
  {
    KeptForUpload(source, "authorization");
  }

  /** A key whose first letter is not a c in either case is never taken
      for content-type, so its non-empty value is copied. */
  lemma KeptForUpload(source: Dict<string>, k: string)
    requires source.Valid() && Truthy(source.Get(k))
    requires |k| > 0 && k[0] != 'c' && k[0] != 'C'
    ensures UploadHeaders(source).Get(k) == source.Get(k)
  {
    assert ToLower(k)[0] != "content-type"[0];
  }

  /* ---------------------------- chunk plan ---------------------------- */

  /** The chunk size: the requested size (5 MiB when absent), never below
      1 MiB. */
  function ChunkSize(requested: Option<int>): (c: int)
    ensures c >= OneMiB
    ensures c == OneMiB || c == requested.GetOr(DefaultChunkBytes)
    ensures requested.None? ==> c == DefaultChunkBytes
    ensures requested.Some? && requested.value >= OneMiB ==> c == requested.value
  {
    var want := requested.GetOr(DefaultChunkBytes);
    if want > OneMiB then want else OneMiB
  }

  /** `Math.max(1, Math.ceil(total / size))`: the least number of chunks
      of `size` bytes that cover `total`, and one for an empty file. */
  function ChunkCount(total: nat, size: nat): (n: nat)
    requires size > 0
    ensures n >= 1
    ensures total > 0 ==> (n - 1) * size < total <= n * size
    ensures total == 0 ==> n == 1
  {
    var q := (total + size - 1) / size;
    if q < 1 then 1 else q
  }

  /** Chunk `index`: the bytes `[start, end)` it carries. */
  datatype Chunk = Chunk(index: nat, start: nat, end: nat)

  function Min(a: nat, b: nat): nat {
    if a < b then a else b
  }

  /** The plan of the upload loop: chunk `i` covers `[i * size,
      min(total, i * size + size))`, in ascending order. Returns the chunks
      and the byte total the loop's `uploadedBytes` reaches. */
  method PlanChunks(total: nat, size: nat) returns (chunks: seq<Chunk>, uploaded: nat)
    requires size > 0
    ensures |chunks| == ChunkCount(total, size)
    ensures forall i :: 0 <= i < |chunks| ==> chunks[i] == Chunk(i, i * size, Min(total, i * size + size))
    ensures Partition(chunks, total)
    ensures uploaded == total
    ensures chunks == ChunkPlan(total, size)
  {
    var count := ChunkCount(total, size);
    chunks := [];
    uploaded := 0;
    var index := 0;
    var start := 0;
    while index < count
      invariant 0 <= index <= count
      invariant start == index * size
      invariant chunks == ChunkPlan(total, size)[..index]
      invariant uploaded == Min(total, start)
    {
      PlanStep(total, size, index);
      var end := Min(total, start + size);
      chunks := chunks + [Chunk(index, start, end)];
      uploaded := uploaded + (end - start);
      index := index + 1;
      start := start + size;
    }
    assert chunks == ChunkPlan(total, size);
    StartsInside(total, size, count - 1);
    PlanPartition(total, size);
  }

  /** One pass of the upload loop adds the next chunk of the plan. */
  lemma PlanStep(total: nat, size: nat, index: nat)
    requires size > 0 && index < ChunkCount(total, size)
    ensures index * size <= total
    ensures (index + 1) * size == index * size + size
    ensures ChunkPlan(total, size)[..index + 1]
            == ChunkPlan(total, size)[..index] + [Chunk(index, index * size, Min(total, index * size + size))]
  {
    StartsInside(total, size, index);
    MulSucc(index, size);
    PlanTake(ChunkPlan(total, size), index);
  }

  lemma MulSucc(a: nat, b: nat)
    ensures (a + 1) * b == a * b + b
  {
  }

  lemma PlanTake(plan: seq<Chunk>, i: nat)
    requires i < |plan|
    ensures plan[..i + 1] == plan[..i] + [plan[i]]
  {
  }

  /** The plan tiles `[0, total)`. */
  lemma PlanPartition(total: nat, size: nat)
    requires size > 0
    ensures Partition(ChunkPlan(total, size), total)
  {
    var plan := ChunkPlan(total, size);
    var n := |plan|;
    StartsInside(total, size, n - 1);
    forall i | 0 < i < n ensures plan[i - 1].end == plan[i].start {
      StartsInside(total, size, i);
      assert (i - 1) * size + size == i * size;
    }
  }


  lemma MulMono(a: nat, b: nat, c: nat)
    requires a <= b
    ensures a * c <= b * c
  {
  }

  /** Chunk `index` of the plan starts inside the file (or at 0 for an
      empty one), and the one after the last would start at or past its
      end. */
  lemma StartsInside(total: nat, size: nat, index: nat)
    requires size > 0 && index < ChunkCount(total, size)
    ensures index * size <= total
    ensures index + 1 == ChunkCount(total, size) ==> total <= (index + 1) * size
  {
    var n := ChunkCount(total, size);
    if total > 0 {
      MulMono(index, n - 1, size);
    }
    assert (index + 1) * size == index * size + size;
  }

  /** The chunks are adjacent, start at 0 and end at `upto`. */
  predicate Covers(chunks: seq<Chunk>, upto: nat) {
    (chunks == [] ==> upto == 0)
    && (chunks != [] ==> chunks[0].start == 0 && chunks[|chunks| - 1].end == upto)
    && (forall i :: 0 <= i < |chunks| ==> chunks[i].start <= chunks[i].end)
    && (forall i :: 0 < i < |chunks| ==> chunks[i - 1].end == chunks[i].start)
  }

  /** The chunks partition `[0, total)`: each byte is carried by exactly
      one of them. */
  predicate Partition(chunks: seq<Chunk>, total: nat) {
    Covers(chunks, total) && chunks != []
  }

  /** The sizes of adjacent chunks add up to the span they cover. */
  function SizeSum(chunks: seq<Chunk>): int {
    if chunks == [] then 0 else SizeSum(chunks[..|chunks| - 1]) + (chunks[|chunks| - 1].end - chunks[|chunks| - 1].start)
  }

  lemma {:induction false} CoveredBytes(chunks: seq<Chunk>, upto: nat)
    requires Covers(chunks, upto)
    ensures SizeSum(chunks) == upto
    decreases |chunks|
  {
    if |chunks| > 1 {
      var init := chunks[..|chunks| - 1];
      assert Covers(init, init[|init| - 1].end);
      CoveredBytes(init, init[|init| - 1].end);
    } else if |chunks| == 1 {
      assert chunks[..0] == [];
    }
  }

  /** Each byte offset below the total lies in exactly one chunk. */
  lemma PartitionExact(chunks: seq<Chunk>, total: nat, b: nat)
    requires Partition(chunks, total) && b < total
    ensures exists i :: 0 <= i < |chunks| && chunks[i].start <= b < chunks[i].end
    ensures forall i, j :: (0 <= i < |chunks| && 0 <= j < |chunks| && chunks[i].start <= b < chunks[i].end
                            && chunks[j].start <= b < chunks[j].end) ==> i == j
  {
    ChunksAscend(chunks, total);
    var k := LastStartAtMost(chunks, b);
    assert chunks[k].start <= b < chunks[k].end by {
      if k == |chunks| - 1 {
      } else {
        assert chunks[k].end == chunks[k + 1].start;
      }
    }
  }

  /** In a covering run, a later chunk starts no earlier than an earlier one
      ends. */
  lemma {:induction false} ChunksAscend(chunks: seq<Chunk>, total: nat)
    requires Covers(chunks, total)
    ensures forall i, j :: 0 <= i < j < |chunks| ==> chunks[i].end <= chunks[j].start
  {
    forall i, j | 0 <= i < j < |chunks| ensures chunks[i].end <= chunks[j].start {
      var k := i + 1;
      while k < j
        invariant i < k <= j
        invariant chunks[i].end <= chunks[k].start
      {
        k := k + 1;
      }
    }
  }

  /** The last chunk whose start does not exceed `b`. */
  function LastStartAtMost(chunks: seq<Chunk>, b: nat): (k: nat)
    requires chunks != [] && chunks[0].start <= b
    ensures k < |chunks| && chunks[k].start <= b
    ensures k + 1 < |chunks| ==> chunks[k + 1].start > b
    decreases |chunks|
  {
    if |chunks| == 1 || chunks[1].start > b then 0
    else 1 + LastStartAtMost(chunks[1..], b)
  }

  /* ----------------------------- progress ----------------------------- */

  /** `totalBytes === 0 ? 1 : Math.min(1, uploadedBytes / totalBytes)`. */
  function Fraction(uploaded: int, total: nat): (p: real)
    ensures p <= 1.0
    ensures uploaded >= 0 ==> 0.0 <= p
    ensures total == 0 || uploaded >= total ==> p == 1.0
    ensures total > 0 && 0 <= uploaded < total ==> p == uploaded as real / total as real && p < 1.0
  {
    if total == 0 then 1.0
    else
      var q := uploaded as real / total as real;
      if q < 1.0 then q else 1.0
  }

  function PhaseReport(phase: Phase, uploaded: int, total: nat, progress: real): MediaUploadProgress {
    MediaUploadProgress(phase, uploaded, total, progress, None, None, None, None)
  }

  /** The INIT report: nothing uploaded; complete already for an empty
      file. */
  function InitReport(total: nat): (r: MediaUploadProgress)
    ensures r.phase == InitPhase && r.uploadedBytes == 0 && r.totalBytes == total
    ensures r.progress == (if total == 0 then 1.0 else 0.0)
  {
    PhaseReport(InitPhase, 0, total, if total == 0 then 1.0 else 0.0)
  }

  /** An APPEND report after `done` bytes of the chunk that starts at
      `start`: `loaded` while sending (0 when the length is not computable),
      the whole chunk once the reply is a success. */
  function AppendReport(start: nat, done: int, total: nat, c: Chunk, count: nat): (r: MediaUploadProgress)
    ensures r.phase == AppendPhase && r.uploadedBytes == start + done && r.totalBytes == total
    ensures r.progress == Fraction(start + done, total)
    ensures r.chunkIndex == Some(c.index as int) && r.chunkCount == Some(count as int)
  {
    MediaUploadProgress(AppendPhase, start + done, total, Fraction(start + done, total),
                        Some(c.index as int), Some(count as int), None, None)
  }

  /** The FINALIZE report: everything uploaded. */
  function FinalizeReport(total: nat): (r: MediaUploadProgress)
    ensures r.phase == FinalizePhase && r.uploadedBytes == total && r.progress == 1.0
  {
    PhaseReport(FinalizePhase, total, total, 1.0)
  }

  /* ------------------------------- INIT ------------------------------- */

  /** The INIT reply body. */
  datatype InitBody = InitBody(mediaId: Option<int>, mediaIdString: Option<string>)

  /** `String(media_id)` when the number is truthy (non-zero). */
  function NumericId(id: Option<int>): Option<string> {
    if id.Some? && id.value != 0 then Some(IntToString(id.value)) else None
  }

  /** The media id INIT yields: a non-2xx status and a reply without a
      usable id are errors; `media_id_string` is preferred when non-empty,
      else the numeric id as a string. */
  function InitMediaId(reply: HttpReply<InitBody>): (r: Result<string>)
    ensures !Ok2xx(reply.status) ==> r == Err("INIT 请求失败，状态码 " + IntToString(reply.status))
    ensures Ok2xx(reply.status) && Truthy(reply.body.mediaIdString) ==> r == Ok(reply.body.mediaIdString.value)
    ensures Ok2xx(reply.status) && !Truthy(reply.body.mediaIdString) ==>
              r == (if NumericId(reply.body.mediaId).Some? then Ok(NumericId(reply.body.mediaId).value) else Err(InitMissingId))
    ensures r.Ok? ==> r.value != ""
  {
    if !Ok2xx(reply.status) then Err("INIT 请求失败，状态码 " + IntToString(reply.status))
    else if Truthy(reply.body.mediaIdString) then Ok(reply.body.mediaIdString.value)
    else
      var numeric := NumericId(reply.body.mediaId);
      if numeric.Some? then Ok(numeric.value) else Err(InitMissingId)
  }

  /* ---------------------------- processing ---------------------------- */

  /** `processing_info`, with `error.message` flattened. */
  datatype ProcessingInfo = ProcessingInfo(
    state: Option<string>,
    checkAfterSecs: Option<int>,
    progressPercent: Option<int>,
    errorMessage: Option<string>)

  /** A FINALIZE or STATUS reply body. */
  datatype FinalizeResponse = FinalizeResponse(
    mediaId: Option<int>,
    mediaIdString: Option<string>,
    mediaKey: Option<string>,
    size: Option<int>,
    expiresAfterSecs: Option<int>,
    image: Option<ImageInfo>,
    video: Option<VideoInfo>,
    processingInfo: Option<ProcessingInfo>)

  /** The loop condition: a processing record with a state other than
      "succeeded". */
  predicate StillProcessing(current: Option<ProcessingInfo>) {
    current.Some? && Truthy(current.value.state) && current.value.state != Some("succeeded")
  }

  /** The wait before the next STATUS request, in milliseconds. */
  function WaitMs(checkAfterSecs: Option<int>): (ms: int)
    ensures ms >= 1000
    ensures checkAfterSecs.None? ==> ms == 1000
    ensures checkAfterSecs.Some? && checkAfterSecs.value >= 1 ==> ms == checkAfterSecs.value * 1000
  {
    var want := checkAfterSecs.GetOr(1) * 1000;
    if want > 1000 then want else 1000
  }

  /** What one look at the processing record decides. */
  datatype PollStep = Settled | Broken(message: string) | Wait(ms: int, report: MediaUploadProgress)

  /** One pass of `waitForProcessing`'s loop, or its exit: outside the loop
      an embedded error message still fails; inside it, "failed" fails with
      the message (or a default) and any other embedded message fails too;
      otherwise a processing report and a wait. */
  function ProcessingStep(current: Option<ProcessingInfo>, total: nat): (r: PollStep)
    ensures !StillProcessing(current) ==>
              (r.Settled? <==> !(current.Some? && Truthy(current.value.errorMessage)))
    ensures !StillProcessing(current) ==> !r.Wait?
    ensures StillProcessing(current) && current.value.state == Some("failed") ==>
              r == Broken(current.value.errorMessage.GetOr(ProcessingFailed))
    ensures r.Wait? ==> StillProcessing(current) && current.value.state != Some("failed")
                        && !Truthy(current.value.errorMessage) && r.ms >= 1000
    ensures r.Wait? ==> r.report.phase == ProcessingPhase && r.report.progress == 1.0
                        && r.report.processingState == current.value.state
  {
    if !StillProcessing(current) then
      if current.Some? && Truthy(current.value.errorMessage) then Broken(current.value.errorMessage.value) else Settled
    else
      var info := current.value;
      if info.state == Some("failed") then Broken(info.errorMessage.GetOr(ProcessingFailed))
      else if Truthy(info.errorMessage) then Broken(info.errorMessage.value)
      else Wait(WaitMs(info.checkAfterSecs),
                MediaUploadProgress(ProcessingPhase, total, total, 1.0, None, None, info.checkAfterSecs, info.state))
  }

  /** How the processing poll ends: with the latest body, with an error, or
      still waiting when the supplied STATUS replies run out (the source
      keeps polling). Also the reports sent and the waits taken. */
  datatype Processing = Processing(outcome: PollOutcome, reports: seq<MediaUploadProgress>, waits: seq<int>)
  datatype PollOutcome = Finished(latest: FinalizeResponse) | Failed(message: string) | Unfinished

  /** `waitForProcessing`, driven by the STATUS replies in order. The
      "failed" check right after a reply is the one the next pass makes
      first, so it is not repeated here. */
  function WaitForProcessing(latest: FinalizeResponse, replies: seq<HttpReply<FinalizeResponse>>, total: nat): (r: Processing)
    ensures |r.waits| == |r.reports| <= |replies| + 1
    ensures forall w :: w in r.waits ==> w >= 1000
    ensures r.outcome.Finished? ==> !StillProcessing(r.outcome.latest.processingInfo)
    ensures r.outcome.Unfinished? ==> |r.waits| == |replies| + 1
    ensures forall x :: x in r.reports ==> InRange(x, total)
    decreases |replies|
  {
    match ProcessingStep(latest.processingInfo, total)
    case Settled => Processing(Finished(latest), [], [])
    case Broken(m) => Processing(Failed(m), [], [])
    case Wait(ms, report) =>
      if replies == [] then Processing(Unfinished, [report], [ms])
      else
        var reply := replies[0];
        if !Ok2xx(reply.status) then Processing(Failed("STATUS 请求失败，状态码 " + IntToString(reply.status)), [report], [ms])
        else
          var rest := WaitForProcessing(reply.body, replies[1..], total);
          Processing(rest.outcome, [report] + rest.reports, [ms] + rest.waits)
  }

  /** A record with no state, or in the "succeeded" state, ends the poll
      at once: without an embedded error it is the result. */
  lemma NoPollWhenDone(latest: FinalizeResponse, replies: seq<HttpReply<FinalizeResponse>>, total: nat)
    requires !StillProcessing(latest.processingInfo)
    ensures var r := WaitForProcessing(latest, replies, total);
            r.reports == [] && r.waits == []
            && (r.outcome.Finished? <==> !(latest.processingInfo.Some? && Truthy(latest.processingInfo.value.errorMessage)))
  {
  }

  /* --------------------------- notifications -------------------------- */

  /** The messages the page script posts for one upload. */
  datatype Notification = ProgressNote(report: MediaUploadProgress) | SuccessNote(result: MediaUploadResult) | ErrorNote(error: string)

  predicate Terminal(n: Notification) {
    !n.ProgressNote?
  }

  /** `media_id_string ?? (media_id ? String(media_id) : "")`: an empty
      `media_id_string` is kept, unlike at INIT. */
  function NormalizedMediaId(data: FinalizeResponse): (r: string)
    ensures data.mediaIdString.Some? ==> r == data.mediaIdString.value
    ensures data.mediaIdString.None? ==> r == NumericId(data.mediaId).GetOr("")
  {
    if data.mediaIdString.Some? then data.mediaIdString.value else NumericId(data.mediaId).GetOr("")
  }

  /** `notifySuccess`: the result with the id in both id fields, or an
      error when the id is empty. */
  function SuccessNotification(data: FinalizeResponse): (r: Notification)
    ensures r.SuccessNote? <==> NormalizedMediaId(data) != ""
    ensures r.SuccessNote? ==> r.result.mediaId == NormalizedMediaId(data) && r.result.mediaIdString == r.result.mediaId
    ensures r.ErrorNote? ==> r.error == FinalizeMissingId
  {
    var id := NormalizedMediaId(data);
    if id == "" then ErrorNote(FinalizeMissingId)
    else
      var summary := if data.processingInfo.Some?
        then Some(ProcessingSummary(data.processingInfo.value.state, data.processingInfo.value.progressPercent))
        else None;
      SuccessNote(MediaUploadResult(id, id, data.mediaKey, data.size, data.expiresAfterSecs, data.image, data.video, summary))
  }

  /** The reply to one APPEND: an HTTP status, or a network failure. */
  datatype AppendReply = Loaded(status: int) | NetworkFailure

  /** The APPEND loop from chunk `from` on: one completion report per chunk
      until a reply fails. Returns the reports and the error, if any. */
  function Appends(chunks: seq<Chunk>, from: nat, replies: seq<AppendReply>, total: nat): (r: (seq<MediaUploadProgress>, Option<string>))
    requires from <= |chunks| && |replies| == |chunks|
    requires forall i :: 0 <= i < |chunks| ==> chunks[i].start <= chunks[i].end <= total
    ensures |r.0| <= |chunks| - from
    ensures forall x :: x in r.0 ==> InRange(x, total)
    ensures r.1.None? ==> |r.0| == |chunks| - from
    ensures forall i :: 0 <= i < |r.0| ==> r.0[i] == AppendReport(chunks[from + i].start, chunks[from + i].end - chunks[from + i].start, total, chunks[from + i], |chunks|)
    decreases |chunks| - from
  {
    if from == |chunks| then ([], None)
    else
      var c := chunks[from];
      match replies[from]
      case NetworkFailure => ([], Some(AppendNetworkError))
      case Loaded(status) =>
        if !Ok2xx(status) then ([], Some("APPEND 请求失败，状态码 " + IntToString(status)))
        else
          var rest := Appends(chunks, from + 1, replies, total);
          ([AppendReport(c.start, c.end - c.start, total, c, |chunks|)] + rest.0, rest.1)
  }

  function Reports(rs: seq<MediaUploadProgress>): (r: seq<Notification>)
    ensures |r| == |rs| && forall i :: 0 <= i < |r| ==> r[i] == ProgressNote(rs[i])
    ensures forall n :: n in r ==> n.ProgressNote? && n.report in rs
  {
    if rs == [] then [] else [ProgressNote(rs[0])] + Reports(rs[1..])
  }

  /** The chunk plan as a value (the loop of `PlanChunks`). */
  function ChunkPlan(total: nat, size: nat): (r: seq<Chunk>)
    requires size > 0
    ensures |r| == ChunkCount(total, size)
    ensures forall i :: 0 <= i < |r| ==> r[i] == Chunk(i, i * size, Min(total, i * size + size))
    ensures forall i :: 0 <= i < |r| ==> r[i].start <= r[i].end <= total
  {
    assert forall i :: 0 <= i < ChunkCount(total, size) ==> i * size <= total by {
      forall i | 0 <= i < ChunkCount(total, size) ensures i * size <= total {
        StartsInside(total, size, i);
      }
    }
    seq(ChunkCount(total, size), i requires 0 <= i => Chunk(i, i * size, Min(total, i * size + size)))
  }

  /** A report's byte count lies within the file and its fraction within
      `[0, 1]`. */
  predicate InRange(report: MediaUploadProgress, total: nat) {
    0 <= report.uploadedBytes <= total && report.totalBytes == total && 0.0 <= report.progress <= 1.0
  }

  /** Progress reports put in front of a run of notifications keep its
      shape: only its last message may be terminal. */
  lemma ProgressThen(h: seq<Notification>, t: seq<Notification>, total: nat)
    requires forall n :: n in h ==> n.ProgressNote? && InRange(n.report, total)
    requires t != [] && forall i :: 0 <= i < |t| - 1 ==> t[i].ProgressNote?
    requires forall n :: n in t && n.ProgressNote? ==> InRange(n.report, total)
    ensures forall i :: 0 <= i < |h + t| - 1 ==> (h + t)[i].ProgressNote?
    ensures forall n :: n in h + t && n.ProgressNote? ==> InRange(n.report, total)
  {
    var r := h + t;
    forall i | 0 <= i < |r| - 1 ensures r[i].ProgressNote? {
      if i < |h| { assert r[i] in h; } else { assert r[i] == t[i - |h|]; }
    }
  }

  /** After the APPENDs: the FINALIZE report, then FINALIZE's failure or
      the processing reports and the final notification. */
  function FinishUpload(total: nat, finalize: HttpReply<FinalizeResponse>, statuses: seq<HttpReply<FinalizeResponse>>): (r: seq<Notification>)
    ensures r != [] && r[0] == ProgressNote(FinalizeReport(total))
    ensures forall i :: 0 <= i < |r| - 1 ==> r[i].ProgressNote?
    ensures forall n :: n in r && n.ProgressNote? ==> InRange(n.report, total)
    ensures !Ok2xx(finalize.status) ==> r == [ProgressNote(FinalizeReport(total)), ErrorNote("FINALIZE 请求失败，状态码 " + IntToString(finalize.status))]
  {
    var head := [ProgressNote(FinalizeReport(total))];
    if !Ok2xx(finalize.status) then head + [ErrorNote("FINALIZE 请求失败，状态码 " + IntToString(finalize.status))]
    else
      var poll := WaitForProcessing(finalize.body, statuses, total);
      var reports := head + Reports(poll.reports);
      var last := match poll.outcome
        case Failed(m) => [ErrorNote(m)]
        case Unfinished => []
        case Finished(latest) => [SuccessNotification(latest)];
      assert forall n :: n in reports ==> n.ProgressNote? && InRange(n.report, total);
      if last == [] then reports
      else
        ProgressThen(reports, last, total);
        reports + last
  }

  /** After INIT: one report per completed APPEND, then the first APPEND
      failure or the rest of the upload. */
  function SendChunks(total: nat, chunks: seq<Chunk>, appends: seq<AppendReply>,
                      finalize: HttpReply<FinalizeResponse>, statuses: seq<HttpReply<FinalizeResponse>>): (r: seq<Notification>)
    requires |appends| == |chunks|
    requires forall i :: 0 <= i < |chunks| ==> chunks[i].start <= chunks[i].end <= total
    ensures r != []
    ensures forall i :: 0 <= i < |r| - 1 ==> r[i].ProgressNote?
    ensures forall n :: n in r && n.ProgressNote? ==> InRange(n.report, total)
  {
    var sent := Appends(chunks, 0, appends, total);
    var reports := Reports(sent.0);
    var rest := if sent.1.Some? then [ErrorNote(sent.1.value)] else FinishUpload(total, finalize, statuses);
    ProgressThen(reports, rest, total);
    reports + rest
  }

  /** `performMediaUploadRequest`: every message the page script posts for
      one upload, given the replies of INIT, of each APPEND, of FINALIZE and
      of the STATUS requests. Every message but the last is a progress
      report, and the last is the one success or error notification unless
      the processing poll is still waiting. */
  function PerformMediaUpload(p: UploadRequestPayload, init: HttpReply<InitBody>, appends: seq<AppendReply>,
                              finalize: HttpReply<FinalizeResponse>, statuses: seq<HttpReply<FinalizeResponse>>): (r: seq<Notification>)
    requires |appends| == ChunkCount(p.file.size, ChunkSize(p.chunkSizeBytes))
    ensures r != [] && r[0] == ProgressNote(InitReport(p.file.size))
    ensures forall i :: 0 <= i < |r| - 1 ==> r[i].ProgressNote?
    ensures forall n :: n in r && n.ProgressNote? ==> InRange(n.report, p.file.size)
    ensures InitMediaId(init).Err? ==> r == [ProgressNote(InitReport(p.file.size)), ErrorNote(InitMediaId(init).message)]
  {
    var total := p.file.size;
    var head := [ProgressNote(InitReport(total))];
    var id := InitMediaId(init);
    if id.Err? then head + [ErrorNote(id.message)]
    else
      var rest := SendChunks(total, ChunkPlan(total, ChunkSize(p.chunkSizeBytes)), appends, finalize, statuses);
      ProgressThen(head, rest, total);
      head + rest
  }
}
