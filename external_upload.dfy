/**
 * `FileUploadService` of `external/file-upload.service.ts`: the upload of
 * `services/file-upload.service.ts` with a dry-run mode that reports the file
 * without sending it, and a batch that waits for the configured delay before
 * every upload but the first.
 */
module ExternalUpload {
  import opened Wrappers
  import opened Strings
  import opened Paths
  import opened Telegram
  import ServiceUpload

  /** `uploadFile`: a missing file fails without a request; a dry run reports
      the file's type and size without a request; otherwise exactly one request
      is made and its answer decides the result. Nothing escapes. */
  function UploadFile(w: World, groupId: string, topicId: string, filePath: string, caption: Option<string>, dryRun: Option<bool>): (a: Attempt)
    ensures a.result.fileName == Basename(filePath)
    ensures |a.calls| <= 1
    ensures a.calls != [] <==> w.fs.present(filePath) && !dryRun.GetOr(false)
    ensures !w.fs.present(filePath) ==>
      !a.result.success && a.result.error == Some(MissingFile) && a.result.dryRun == Some(dryRun.GetOr(false))
    ensures w.fs.present(filePath) && dryRun.GetOr(false) ==>
      a.result.success && a.result.dryRun == Some(true) && a.result.messageId == None
      && a.result.fileType == Some(DetectFileType(filePath)) && a.result.fileSize == Some(FileSize(w.fs, filePath))
    ensures a.calls != [] ==> a.calls[0] == ServiceUpload.RequestFor(groupId, topicId, filePath, caption)
    ensures a.calls != [] ==> (a.result.success <==> w.api(a.calls[0]).Sent?)
    ensures a.calls != [] && a.result.success ==>
      a.result.messageId == Some(w.api(a.calls[0]).messageId) && a.result.error == None
      && a.result.fileType == Some(DetectFileType(filePath)) && a.result.fileSize == Some(FileSize(w.fs, filePath))
    ensures a.calls != [] && !a.result.success ==>
      a.result.error == Some(ErrorMessage(w.api(a.calls[0]).thrown)) && a.result.dryRun == Some(false)
  {
    var dry := dryRun.GetOr(false);
    if !w.fs.present(filePath) then
      Attempt(Failure(Basename(filePath), MissingFile, Some(dry)), [])
    else
      var fileName := Basename(filePath);
      var fileType := DetectFileType(filePath);
      var fileSize := FileSize(w.fs, filePath);
      if dry then
        Attempt(UploadResult(true, fileName, None, None, Some(true), Some(fileType), Some(fileSize)), [])
      else
        var call := ServiceUpload.RequestFor(groupId, topicId, filePath, caption);
        match w.api(call)
        case Sent(id) => Attempt(UploadResult(true, fileName, Some(id), None, None, Some(fileType), Some(fileSize)), [call])
        case Threw(t) => Attempt(Failure(Basename(filePath), ErrorMessage(t), Some(dry)), [call])
  }

  /** Outside a dry run the upload makes the same request as the one of
      `services/file-upload.service.ts` and reports the same outcome. */
  lemma AgreesWithService(w: World, groupId: string, topicId: string, filePath: string, caption: Option<string>, dryRun: Option<bool>)
    requires !dryRun.GetOr(false)
    ensures UploadFile(w, groupId, topicId, filePath, caption, dryRun).calls
         == ServiceUpload.UploadFile(w, groupId, topicId, filePath, caption).calls
    ensures var r := UploadFile(w, groupId, topicId, filePath, caption, dryRun).result;
            var s := ServiceUpload.UploadFile(w, groupId, topicId, filePath, caption).result;
            r.success == s.success && r.fileName == s.fileName && r.messageId == s.messageId && r.error == s.error
  {
  }

  /** The rate-limit configuration. */
  datatype RateLimiting = RateLimiting(enabled: bool, uploadDelayMs: int)

  /** What a batch does, in order: a delay, or the upload of a (trimmed) path. */
  datatype Event = Waited(ms: int) | Uploaded(filePath: string)

  /** `applyRateLimit`: one delay of the configured length when limiting is
      enabled and the delay is positive, none otherwise. */
  function RateLimitDelay(limit: RateLimiting): (d: seq<Event>)
    ensures d == [] || d == [Waited(limit.uploadDelayMs)]
    ensures d != [] <==> limit.enabled && limit.uploadDelayMs > 0
  {
    if !limit.enabled then []
    else if limit.uploadDelayMs > 0 then [Waited(limit.uploadDelayMs)]
    else []
  }

  /** The events of the first `n` uploads of a batch: a rate-limit delay before
      every upload but the first. */
  function Schedule(limit: RateLimiting, paths: seq<string>, n: nat): seq<Event>
    requires n <= |paths|
  {
    if n == 0 then []
    else Schedule(limit, paths, n - 1) + (if n > 1 then RateLimitDelay(limit) else []) + [Uploaded(paths[n - 1])]
  }

  /** The number of delays among `events`. */
  function Waits(events: seq<Event>): nat {
    if events == [] then 0
    else Waits(events[..|events| - 1]) + (if events[|events| - 1].Waited? then 1 else 0)
  }

  /** The paths uploaded in `events`, in order. */
  function UploadedPaths(events: seq<Event>): seq<string> {
    if events == [] then []
    else UploadedPaths(events[..|events| - 1])
         + (if events[|events| - 1].Uploaded? then [events[|events| - 1].filePath] else [])
  }

  lemma {:induction false} EventsAppend(a: seq<Event>, b: seq<Event>)
    ensures Waits(a + b) == Waits(a) + Waits(b)
    ensures UploadedPaths(a + b) == UploadedPaths(a) + UploadedPaths(b)
  {
    if b != [] {
      assert (a + b)[..|a + b| - 1] == a + b[..|b| - 1];
      EventsAppend(a, b[..|b| - 1]);
    } else {
      assert a + b == a;
    }
  }

  /** A delay uploads nothing; an upload does not wait. */
  lemma SingleEvents(limit: RateLimiting, path: string)
    ensures UploadedPaths(RateLimitDelay(limit)) == [] && Waits(RateLimitDelay(limit)) == |RateLimitDelay(limit)|
    ensures UploadedPaths([Uploaded(path)]) == [path] && Waits([Uploaded(path)]) == 0
  {
    var up := [Uploaded(path)];
    assert up[..0] == [];
    var d := RateLimitDelay(limit);
    if d != [] {
      assert d[..0] == [];
    }
  }

  /** The events of the `n`-th upload follow those of the earlier ones. */
  lemma ScheduleStep(limit: RateLimiting, paths: seq<string>, n: nat)
    requires 0 < n <= |paths|
    ensures UploadedPaths(Schedule(limit, paths, n)) == UploadedPaths(Schedule(limit, paths, n - 1)) + [paths[n - 1]]
    ensures Waits(Schedule(limit, paths, n))
         == Waits(Schedule(limit, paths, n - 1)) + (if n > 1 then |RateLimitDelay(limit)| else 0)
  {
    var prev := Schedule(limit, paths, n - 1);
    var pause := if n > 1 then RateLimitDelay(limit) else [];
    assert Schedule(limit, paths, n) == prev + pause + [Uploaded(paths[n - 1])];
    SingleEvents(limit, paths[n - 1]);
    Concat3(prev, pause, [Uploaded(paths[n - 1])]);
  }

  /** The waits and uploads of three pieces of a schedule, one after the other. */
  lemma Concat3(a: seq<Event>, b: seq<Event>, c: seq<Event>)
    ensures UploadedPaths(a + b + c) == UploadedPaths(a) + UploadedPaths(b) + UploadedPaths(c)
    ensures Waits(a + b + c) == Waits(a) + Waits(b) + Waits(c)
  {
    EventsAppend(a, b);
    EventsAppend(a + b, c);
  }

  /** A batch uploads each of its paths once, in order. */
  lemma {:induction false} ScheduleUploads(limit: RateLimiting, paths: seq<string>, n: nat)
    requires n <= |paths|
    ensures UploadedPaths(Schedule(limit, paths, n)) == paths[..n]
  {
    if n > 0 {
      ScheduleUploads(limit, paths, n - 1);
      ScheduleStep(limit, paths, n);
      assert paths[..n] == paths[..n - 1] + [paths[n - 1]];
    }
  }

  /** A batch of `n` files waits `n - 1` times when limiting applies and never
      otherwise. */
  lemma {:induction false} ScheduleWaits(limit: RateLimiting, paths: seq<string>, n: nat)
    requires n <= |paths|
    ensures Waits(Schedule(limit, paths, n))
         == if n > 0 && limit.enabled && limit.uploadDelayMs > 0 then n - 1 else 0
  {
    if n > 0 {
      ScheduleWaits(limit, paths, n - 1);
      ScheduleStep(limit, paths, n);
    }
  }

  /** The first thing a non-empty batch does is upload its first path: no delay
      comes before the first file. */
  lemma {:induction false} FirstUploadUndelayed(limit: RateLimiting, paths: seq<string>, n: nat)
    requires 0 < n <= |paths|
    ensures Schedule(limit, paths, n)[0] == Uploaded(paths[0])
  {
    if n > 1 {
      FirstUploadUndelayed(limit, paths, n - 1);
    }
  }

  /** Every delay sits between two uploads. */
  lemma {:induction false} DelayBetweenUploads(limit: RateLimiting, paths: seq<string>, n: nat, i: nat)
    requires n <= |paths|
    requires i < |Schedule(limit, paths, n)| && Schedule(limit, paths, n)[i].Waited?
    ensures 0 < i && i + 1 < |Schedule(limit, paths, n)|
    ensures Schedule(limit, paths, n)[i - 1].Uploaded? && Schedule(limit, paths, n)[i + 1].Uploaded?
  {
    var prev := Schedule(limit, paths, n - 1);
    var pause := if n > 1 then RateLimitDelay(limit) else [];
    assert Schedule(limit, paths, n) == prev + pause + [Uploaded(paths[n - 1])];
    if i < |prev| {
      DelayBetweenUploads(limit, paths, n - 1, i);
    } else {
      assert pause != [] && i == |prev|;
      assert prev != [] by {
        if n - 1 > 0 {
          FirstUploadUndelayed(limit, paths, n - 1);
        }
      }
      LastIsUpload(limit, paths, n - 1);
    }
  }

  /** A non-empty schedule ends with an upload. */
  lemma LastIsUpload(limit: RateLimiting, paths: seq<string>, n: nat)
    requires 0 < n <= |paths|
    ensures Schedule(limit, paths, n)[|Schedule(limit, paths, n)| - 1] == Uploaded(paths[n - 1])
  {
  }

  /** `uploadFiles`: the uploads of the trimmed paths one after the other, with
      a rate-limit delay before every upload but the first. */
  method UploadFiles(w: World, limit: RateLimiting, filePaths: seq<string>, groupId: string, topicId: string, caption: Option<string>, dryRun: Option<bool>)
    returns (results: seq<UploadResult>, calls: seq<SendCall>, events: seq<Event>)
    ensures Attempts(results, calls)
         == Batch(p => UploadFile(w, groupId, topicId, p, caption, dryRun), TrimAll(filePaths), |filePaths|)
    ensures events == Schedule(limit, TrimAll(filePaths), |filePaths|)
  {
    var paths := TrimAll(filePaths);
    ghost var upload := p => UploadFile(w, groupId, topicId, p, caption, dryRun);
    results, calls, events := [], [], [];
    for i := 0 to |paths|
      invariant Attempts(results, calls) == Batch(upload, paths, i)
      invariant events == Schedule(limit, paths, i)
    {
      var pause := if i > 0 then RateLimitDelay(limit) else [];
      var path := paths[i];
      events := events + pause + [Uploaded(path)];
      var a := UploadFile(w, groupId, topicId, path, caption, dryRun);
      assert upload(path) == a;
      results := results + [a.result];
      calls := calls + a.calls;
    }
  }

  /** A dry-run batch sends nothing; otherwise it sends one request per
      existing file. */
  lemma BatchRequests(w: World, filePaths: seq<string>, groupId: string, topicId: string, caption: Option<string>, dryRun: Option<bool>)
    ensures |Batch(p => UploadFile(w, groupId, topicId, p, caption, dryRun), TrimAll(filePaths), |filePaths|).calls|
         == CountWhere(p => !dryRun.GetOr(false) && w.fs.present(p), TrimAll(filePaths), |filePaths|)
    ensures dryRun.GetOr(false) ==>
      Batch(p => UploadFile(w, groupId, topicId, p, caption, dryRun), TrimAll(filePaths), |filePaths|).calls == []
  {
    var upload := p => UploadFile(w, groupId, topicId, p, caption, dryRun);
    var sends := p => !dryRun.GetOr(false) && w.fs.present(p);
    forall p
      ensures |upload(p).calls| == if sends(p) then 1 else 0
    {
    }
    BatchCalls(upload, TrimAll(filePaths), |filePaths|, sends);
    if dryRun.GetOr(false) {
      CountNone(sends, TrimAll(filePaths), |filePaths|);
    }
  }
}
