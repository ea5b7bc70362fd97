/**
 * `FileUploadService` of `services/file-upload.service.ts`: one upload is a
 * decision on the file's presence and type followed by at most one send
 * request; a batch uploads its trimmed paths one after the other.
 */
module ServiceUpload {
  import opened Wrappers
  import opened Strings
  import opened Paths
  import opened Telegram

  /** The request for an existing file: the method of its type, the chat, its
      base name, the topic read as a number and the caption or, failing that,
      the base name. */
  function RequestFor(groupId: string, topicId: string, filePath: string, caption: Option<string>): (r: SendCall)
    ensures r.chatId == groupId && r.fileName == Basename(filePath) && '/' !in r.fileName
    ensures r.apiMethod == SendVideo <==> Lower(Extname(filePath)) in VideoExtensions
    ensures r.apiMethod == SendAudio <==> Lower(Extname(filePath)) in AudioExtensions
    ensures r.apiMethod == SendPhoto <==> Lower(Extname(filePath)) in PhotoExtensions
    ensures r.threadId == NumberOf(topicId)
    ensures caption.Some? && caption.value != [] ==> r.caption == caption.value
    ensures caption.None? || caption.value == [] ==> r.caption == r.fileName
  {
    var fileName := Basename(filePath);
    SendCall(MethodFor(DetectFileType(filePath)), groupId, fileName, NumberOf(topicId), CaptionOr(caption, fileName))
  }

  /** `uploadFile`: a missing file fails without a request; otherwise exactly one
      request is made and its answer decides the result. Nothing escapes. */
  function UploadFile(w: World, groupId: string, topicId: string, filePath: string, caption: Option<string>): (a: Attempt)
    ensures a.result.fileName == Basename(filePath)
    ensures !w.fs.present(filePath) ==> a.calls == [] && !a.result.success && a.result.error == Some(MissingFile)
    ensures w.fs.present(filePath) ==> a.calls == [RequestFor(groupId, topicId, filePath, caption)]
    ensures a.result.success <==> a.calls != [] && w.api(a.calls[0]).Sent?
    ensures a.result.success ==> a.result.messageId == Some(w.api(a.calls[0]).messageId) && a.result.error == None
    ensures a.calls != [] && !a.result.success ==> a.result.error == Some(ErrorMessage(w.api(a.calls[0]).thrown))
    ensures a.result.dryRun == None && a.result.fileType == None && a.result.fileSize == None
  {
    if !w.fs.present(filePath) then
      Attempt(Failure(Basename(filePath), MissingFile, None), [])
    else
      var call := RequestFor(groupId, topicId, filePath, caption);
      match w.api(call)
      case Sent(id) => Attempt(UploadResult(true, call.fileName, Some(id), None, None, None, None), [call])
      case Threw(t) => Attempt(Failure(Basename(filePath), ErrorMessage(t), None), [call])
  }

  /** A topic written as a decimal number is sent as that thread id. */
  lemma TopicThread(groupId: string, n: nat, filePath: string, caption: Option<string>)
    ensures RequestFor(groupId, DecimalString(n), filePath, caption).threadId == Some(n)
  {
    DecimalRoundTrip(n);
  }

  /** A batch makes one request per existing file and none for a missing one. */
  lemma OneCallPerPresentFile(w: World, filePaths: seq<string>, groupId: string, topicId: string, caption: Option<string>)
    ensures |Batch(p => UploadFile(w, groupId, topicId, p, caption), TrimAll(filePaths), |filePaths|).calls|
         == CountWhere(w.fs.present, TrimAll(filePaths), |filePaths|)
  {
    var upload := p => UploadFile(w, groupId, topicId, p, caption);
    forall p
      ensures |upload(p).calls| == if w.fs.present(p) then 1 else 0
    {
    }
    BatchCalls(upload, TrimAll(filePaths), |filePaths|, w.fs.present);
  }

  /** The batch's `k`-th result is the upload of the `k`-th path, trimmed. */
  lemma ResultPerPath(w: World, filePaths: seq<string>, k: nat, groupId: string, topicId: string, caption: Option<string>)
    requires k < |filePaths|
    ensures |Batch(p => UploadFile(w, groupId, topicId, p, caption), TrimAll(filePaths), |filePaths|).results| == |filePaths|
    ensures Batch(p => UploadFile(w, groupId, topicId, p, caption), TrimAll(filePaths), |filePaths|).results[k]
         == UploadFile(w, groupId, topicId, Trim(filePaths[k]), caption).result
  {
    BatchAt(p => UploadFile(w, groupId, topicId, p, caption), TrimAll(filePaths), |filePaths|, k);
  }

  /** `uploadFiles`: the uploads of the trimmed paths one after the other, with
      no delay between them. */
  method UploadFiles(w: World, filePaths: seq<string>, groupId: string, topicId: string, caption: Option<string>)
    returns (results: seq<UploadResult>, calls: seq<SendCall>)
    ensures Attempts(results, calls) == Batch(p => UploadFile(w, groupId, topicId, p, caption), TrimAll(filePaths), |filePaths|)
  {
    results, calls := [], [];
    for i := 0 to |filePaths|
      invariant Attempts(results, calls) == Batch(p => UploadFile(w, groupId, topicId, p, caption), TrimAll(filePaths), i)
    {
      var path := TrimAll(filePaths)[i];
      var a := UploadFile(w, groupId, topicId, path, caption);
      results := results + [a.result];
      calls := calls + a.calls;
    }
  }
}
