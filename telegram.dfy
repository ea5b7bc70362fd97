/**
 * What the two upload services share: the file-type classification by
 * extension, the record an upload returns, the send request made to the
 * Telegram Bot API and the two oracles the services consult (the file system
 * and the API's answer to a request).
 */
module Telegram {
  import opened Wrappers
  import opened Strings
  import opened Paths

  datatype FileType = Video | Audio | Photo | Document

  const VideoExtensions: seq<string> := [".mp4", ".avi", ".mov", ".mkv", ".webm", ".m4v"]
  const AudioExtensions: seq<string> := [".mp3", ".wav", ".aac", ".ogg", ".m4a", ".flac"]
  const PhotoExtensions: seq<string> := [".jpg", ".jpeg", ".png", ".gif", ".bmp", ".webp"]

  /** The type named by an already lower-cased extension: the first list that
      contains it wins, and an extension in no list is a document. */
  function ExtensionType(e: string): (t: FileType)
    ensures t == Video <==> e in VideoExtensions
    ensures t == Audio <==> e !in VideoExtensions && e in AudioExtensions
    ensures t == Photo <==> e !in VideoExtensions && e !in AudioExtensions && e in PhotoExtensions
    ensures t == Document <==> e !in VideoExtensions && e !in AudioExtensions && e !in PhotoExtensions
  {
    if e in VideoExtensions then Video
    else if e in AudioExtensions then Audio
    else if e in PhotoExtensions then Photo
    else Document
  }

  /** `detectFileType`: the type of the lower-cased `path.extname` of the
      path. Each of the three lists decides its own type, and a path without a
      dot is a document. */
  function DetectFileType(filePath: string): (t: FileType)
    ensures t == Video <==> Lower(Extname(filePath)) in VideoExtensions
    ensures t == Audio <==> Lower(Extname(filePath)) in AudioExtensions
    ensures t == Photo <==> Lower(Extname(filePath)) in PhotoExtensions
    ensures '.' !in filePath ==> t == Document
  {
    ExtensionListsDisjoint(Lower(Extname(filePath)));
    assert '.' !in filePath ==> Extname(filePath) == [] by {
      if '.' !in filePath {
        NoExtname(filePath);
      }
    }
    ExtensionType(Lower(Extname(filePath)))
  }

  /** No extension is in two lists, so the order in which they are tried does
      not matter. */
  lemma ExtensionListsDisjoint(e: string)
    ensures !(e in VideoExtensions && e in AudioExtensions)
    ensures !(e in VideoExtensions && e in PhotoExtensions)
    ensures !(e in AudioExtensions && e in PhotoExtensions)
  {
    if e in VideoExtensions {
      assert e[1..] in ["mp4", "avi", "mov", "mkv", "webm", "m4v"];
    }
    if e in AudioExtensions {
      assert e[1..] in ["mp3", "wav", "aac", "ogg", "m4a", "flac"];
    }
  }

  /** Every listed extension is a dot followed by lower-case letters and digits. */
  lemma ListedExtensionsAreLower(e: string)
    requires e in VideoExtensions || e in AudioExtensions || e in PhotoExtensions
    ensures e != [] && e[0] == '.'
    ensures forall i :: 1 <= i < |e| ==> IsLower(e[i]) || IsDigit(e[i])
  {
  }

  /** The classification is case-insensitive: a file `stem.ext` is classified by
      the lower-cased `.ext`, whatever the case of `ext`. */
  lemma DetectByExtension(stem: string, ext: string)
    requires stem != [] && stem[0] != '.' && '/' !in stem
    requires '/' !in ext && '.' !in ext
    ensures DetectFileType(stem + "." + ext) == ExtensionType("." + Lower(ext))
  {
    ExtnameOf(stem, ext);
    LowerAppend(".", ext);
    assert Lower(".") == ".";
  }

  /** A name without a dot is a document. */
  lemma NoDotIsDocument(name: string)
    requires '.' !in name
    ensures DetectFileType(name) == Document
  {
    NoExtname(name);
  }

  /** The two oracles the services consult: `existsSync`, and `statSync(p).size`
      (`None` when `statSync` throws). */
  datatype FileSystem = FileSystem(present: string -> bool, size: string -> Option<nat>)

  /** `getFileSize`: the size, or 0 when the file cannot be stat-ed. */
  function FileSize(fs: FileSystem, filePath: string): (n: nat)
    ensures fs.size(filePath).Some? ==> n == fs.size(filePath).value
    ensures fs.size(filePath).None? ==> n == 0
  {
    fs.size(filePath).GetOr(0)
  }

  /** Everything the services consult but do not compute: the file system and
      the API's answer to each request. */
  datatype World = World(fs: FileSystem, api: SendCall -> Outcome)

  datatype SendMethod = SendVideo | SendAudio | SendPhoto | SendDocument

  /** The API method chosen for a file type. */
  function MethodFor(t: FileType): (m: SendMethod)
    ensures t == Video <==> m == SendVideo
    ensures t == Audio <==> m == SendAudio
    ensures t == Photo <==> m == SendPhoto
    ensures t == Document <==> m == SendDocument
  {
    match t
    case Video => SendVideo
    case Audio => SendAudio
    case Photo => SendPhoto
    case Document => SendDocument
  }

  /** One send request: the chat, the uploaded file's name, the
      `message_thread_id` (`Number(topicId)`, `None` for NaN) and the caption. */
  datatype SendCall = SendCall(apiMethod: SendMethod, chatId: string, fileName: string, threadId: Option<nat>, caption: string)

  /** What a thrown value is: an `Error` with its message, or anything else. */
  datatype Thrown = ErrorObject(message: string) | OtherValue

  /** The API's answer to a request: the sent message's id, or a throw. */
  datatype Outcome = Sent(messageId: int) | Threw(thrown: Thrown)

  /** The message a failed upload reports. */
  function ErrorMessage(t: Thrown): string {
    match t
    case ErrorObject(m) => m
    case OtherValue => "Unknown error"
  }

  /** `caption || fileName`: an absent or empty caption falls back to the name. */
  function CaptionOr(caption: Option<string>, fileName: string): (c: string)
    ensures caption.Some? && caption.value != [] ==> c == caption.value
    ensures caption.None? || caption.value == [] ==> c == fileName
  {
    if caption.Some? && caption.value != [] then caption.value else fileName
  }

  /** The record an upload returns; the optional fields are the ones the code
      writes on some paths only. */
  datatype UploadResult = UploadResult(
    success: bool,
    fileName: string,
    messageId: Option<int>,
    error: Option<string>,
    dryRun: Option<bool>,
    fileType: Option<FileType>,
    fileSize: Option<nat>)

  /** The failure record of a missing file or a thrown request. */
  function Failure(fileName: string, error: string, dryRun: Option<bool>): UploadResult {
    UploadResult(false, fileName, None, Some(error), dryRun, None, None)
  }

  const MissingFile: string := "File does not exist"

  /** The number of successful results. */
  function Successes(results: seq<UploadResult>): (n: nat)
    ensures n <= |results|
  {
    if results == [] then 0
    else Successes(results[..|results| - 1]) + (if results[|results| - 1].success then 1 else 0)
  }

  /** The number of failed results. */
  function Failures(results: seq<UploadResult>): (n: nat)
    ensures n <= |results|
  {
    if results == [] then 0
    else Failures(results[..|results| - 1]) + (if results[|results| - 1].success then 0 else 1)
  }

  /** Every result is counted as a success or as a failure, never both. */
  lemma {:induction false} CountsAddUp(results: seq<UploadResult>)
    ensures Successes(results) + Failures(results) == |results|
  {
    if results != [] {
      CountsAddUp(results[..|results| - 1]);
    }
  }

  lemma {:induction false} CountsAppend(results: seq<UploadResult>, r: UploadResult)
    ensures Successes(results + [r]) == Successes(results) + (if r.success then 1 else 0)
    ensures Failures(results + [r]) == Failures(results) + (if r.success then 0 else 1)
  {
    assert (results + [r])[..|results|] == results;
  }

  /** One upload: the record returned and the send requests made. */
  datatype Attempt = Attempt(result: UploadResult, calls: seq<SendCall>)

  /** The records and requests of a run of uploads. */
  datatype Attempts = Attempts(results: seq<UploadResult>, calls: seq<SendCall>)

  /** The first `n` uploads of a batch, one after the other. */
  function Batch(upload: string -> Attempt, filePaths: seq<string>, n: nat): Attempts
    requires n <= |filePaths|
  {
    if n == 0 then Attempts([], [])
    else
      var b := Batch(upload, filePaths, n - 1);
      var a := upload(filePaths[n - 1]);
      Attempts(b.results + [a.result], b.calls + a.calls)
  }

  /** A batch has one result per path, in the order of the paths. */
  lemma {:induction false} BatchAt(upload: string -> Attempt, filePaths: seq<string>, n: nat, k: nat)
    requires k < n <= |filePaths|
    ensures |Batch(upload, filePaths, n).results| == n
    ensures Batch(upload, filePaths, n).results[k] == upload(filePaths[k]).result
  {
    if k < n - 1 {
      BatchAt(upload, filePaths, n - 1, k);
    } else if n > 1 {
      BatchAt(upload, filePaths, n - 1, 0);
    }
  }

  /** How many of the first `n` paths satisfy `pred`. */
  function CountWhere(pred: string -> bool, filePaths: seq<string>, n: nat): (c: nat)
    requires n <= |filePaths|
    ensures c <= n
  {
    if n == 0 then 0 else CountWhere(pred, filePaths, n - 1) + (if pred(filePaths[n - 1]) then 1 else 0)
  }

  /** When an upload makes one request exactly for the paths `pred` accepts, a
      batch makes as many requests as it has such paths. */
  lemma {:induction false} BatchCalls(upload: string -> Attempt, filePaths: seq<string>, n: nat, pred: string -> bool)
    requires n <= |filePaths|
    requires forall p :: |upload(p).calls| == if pred(p) then 1 else 0
    ensures |Batch(upload, filePaths, n).calls| == CountWhere(pred, filePaths, n)
  {
    if n > 0 {
      BatchCalls(upload, filePaths, n - 1, pred);
    }
  }

  /** When every request of every upload has property `prop`, so has every
      request of a batch. */
  lemma {:induction false} BatchCallsAll(upload: string -> Attempt, filePaths: seq<string>, n: nat,
                                         prop: SendCall -> bool)
    requires n <= |filePaths|
    requires forall p, c :: c in upload(p).calls ==> prop(c)
    ensures forall c :: c in Batch(upload, filePaths, n).calls ==> prop(c)
  {
    if n > 0 {
      BatchCallsAll(upload, filePaths, n - 1, prop);
    }
  }

  /** No path is counted when `pred` accepts none. */
  lemma {:induction false} CountNone(pred: string -> bool, filePaths: seq<string>, n: nat)
    requires n <= |filePaths|
    requires forall p :: !pred(p)
    ensures CountWhere(pred, filePaths, n) == 0
  {
    if n > 0 {
      CountNone(pred, filePaths, n - 1);
    }
  }
}
