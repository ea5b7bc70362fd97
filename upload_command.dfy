/**
 * `UploadFileCommand` of `commands/upload-file.command.ts`: `uploadFolder`
 * reads a listing of paths, one per line, maps the reference base path to a
 * forum topic and uploads every listed file that exists; `uploadMultipleFiles`
 * hands a list of paths to the upload service and counts the outcomes.
 */
module UploadCommand {
  import opened Wrappers
  import opened Strings
  import opened Telegram
  import ServiceUpload

  /** Why a run of `uploadFolder` exits before uploading anything. */
  datatype StopReason = MissingListing | UnreadableListing | UnmappedTopic

  /** How a run of `uploadFolder` ends: the process exits before any upload, or
      every listed path has a result and the two counts are reported. */
  datatype FolderRun =
    | Stopped(reason: StopReason)
    | Completed(results: seq<UploadResult>, calls: seq<SendCall>, successful: nat, failed: nat)

  /** The lines of the listing that are not blank once trimmed, in order. */
  function NonBlankLines(lines: seq<string>): (kept: seq<string>)
    ensures |kept| <= |lines|
  {
    if lines == [] then []
    else NonBlankLines(lines[..|lines| - 1]) + (if Trim(lines[|lines| - 1]) != [] then [lines[|lines| - 1]] else [])
  }

  /** A line is kept exactly when it occurs in the listing and is not blank. */
  lemma {:induction false} NonBlankLinesSpec(lines: seq<string>, line: string)
    ensures line in NonBlankLines(lines) <==> line in lines && Trim(line) != []
  {
    if lines != [] {
      var init := lines[..|lines| - 1];
      NonBlankLinesSpec(init, line);
      assert lines == init + [lines[|lines| - 1]];
    }
  }

  /** The paths of a listing: its lines split at `\n`, blank ones dropped. */
  function ListedPaths(content: string): (paths: seq<string>)
    ensures forall line :: line in paths <==> line in Split(content, '\n') && Trim(line) != []
  {
    forall line
      ensures line in NonBlankLines(Split(content, '\n')) <==> line in Split(content, '\n') && Trim(line) != []
    {
      NonBlankLinesSpec(Split(content, '\n'), line);
    }
    NonBlankLines(Split(content, '\n'))
  }

  /** The names JavaScript's `in` finds on every object literal, because they
      are members of `Object.prototype`. */
  const PrototypeMembers: seq<string> := [
    "constructor", "__defineGetter__", "__defineSetter__", "hasOwnProperty",
    "__lookupGetter__", "__lookupSetter__", "isPrototypeOf", "propertyIsEnumerable",
    "toString", "valueOf", "__proto__", "toLocaleString"]

  /** The string form of an inherited member: `Object.prototype` itself for
      `__proto__`, the `Object` constructor for `constructor`, and a native
      method otherwise. */
  function InheritedText(name: string): string {
    if name == "__proto__" then "[object Object]"
    else if name == "constructor" then "function Object() { [native code] }"
    else "function " + name + "() { [native code] }"
  }

  /** The topic-mapping guard and lookup as written: `key in TOPIC_MAPPING`,
      then `TOPIC_MAPPING[key].toString()`. An inherited member passes the
      guard and its string form becomes the topic id. */
  function TopicIdAsWritten(key: string): (topicId: Option<string>)
    ensures key == "FullCycle" ==> topicId == Some("523")
    ensures key in PrototypeMembers ==> topicId == Some(InheritedText(key))
    ensures topicId.Some? <==> key == "FullCycle" || key in PrototypeMembers
  {
    if key == "FullCycle" then Some("523")
    else if key in PrototypeMembers then Some(InheritedText(key))
    else None
  }

  /** The intended mapping: only the mapping's own key, `FullCycle`, has a
      topic, and its id is 523. */
  function TopicId(key: string): (topicId: Option<string>)
    ensures topicId.Some? <==> key == "FullCycle"
    ensures topicId.Some? ==> NumberOf(topicId.value) == Some(523)
  {
    if key == "FullCycle" then
      assert "523" == DecimalString(523);
      DecimalRoundTrip(523);
      Some("523")
    else None
  }

  /** The string form of an inherited member starts with `f` or `[` and ends
      with `}` or `]`. */
  lemma InheritedTextEnds(name: string)
    ensures var t := InheritedText(name);
      t != [] && (t[0] == 'f' || t[0] == '[') && (t[|t| - 1] == '}' || t[|t| - 1] == ']')
  {
    if name != "__proto__" && name != "constructor" {
      var t := "function " + name + "() { [native code] }";
      assert t[0] == 'f';
      assert t[|t| - 1] == '}';
    }
  }

  /** The string form of an inherited member is neither blank nor a number. */
  lemma InheritedTextIsNaN(name: string)
    ensures NumberOf(InheritedText(name)) == None
  {
    InheritedTextEnds(name);
    NotANumber(InheritedText(name));
  }

  /** The guard as written lets `toString` through, and the topic id it then
      produces is read as NaN: the upload would go to no valid thread. */
  lemma PrototypeNamePassesGuard()
    ensures TopicIdAsWritten("toString").Some?
    ensures NumberOf(TopicIdAsWritten("toString").value) == None
    ensures TopicId("toString") == None
  {
    assert "toString" == PrototypeMembers[8];
    InheritedTextIsNaN("toString");
  }

  /** The upload of one listed path: a missing path fails under its trimmed
      name without calling the service; an existing one goes to the service
      without a caption. */
  function CheckedUpload(w: World, groupId: string, topicId: string, cleanPath: string): (a: Attempt)
    ensures !w.fs.present(cleanPath) ==> a == Attempt(Failure(cleanPath, MissingFile, None), [])
    ensures w.fs.present(cleanPath) ==> a == ServiceUpload.UploadFile(w, groupId, topicId, cleanPath, None)
    ensures |a.calls| == if w.fs.present(cleanPath) then 1 else 0
  {
    if !w.fs.present(cleanPath) then Attempt(Failure(cleanPath, MissingFile, None), [])
    else ServiceUpload.UploadFile(w, groupId, topicId, cleanPath, None)
  }

  /** `uploadFolder`: stop when the listing is missing or unreadable or the
      topic is not mapped; otherwise upload every listed path in order and
      count the successes and failures. `topicOf` is the topic-mapping guard
      and lookup: `TopicIdAsWritten` runs the program as written, `TopicId`
      as intended. */
  method UploadFolder(w: World, readFile: string -> Option<string>, topicOf: string -> Option<string>,
                      groupId: string, folderPath: string, referenceBasePath: string)
    returns (run: FolderRun)
    ensures !w.fs.present(folderPath) ==> run == Stopped(MissingListing)
    ensures w.fs.present(folderPath) && readFile(folderPath).None? ==> run == Stopped(UnreadableListing)
    ensures w.fs.present(folderPath) && readFile(folderPath).Some? && topicOf(referenceBasePath).None? ==>
      run == Stopped(UnmappedTopic)
    ensures w.fs.present(folderPath) && readFile(folderPath).Some? && topicOf(referenceBasePath).Some? ==>
      run.Completed?
      && Attempts(run.results, run.calls)
         == Batch(p => CheckedUpload(w, groupId, topicOf(referenceBasePath).value, p),
                  TrimAll(ListedPaths(readFile(folderPath).value)), |ListedPaths(readFile(folderPath).value)|)
    ensures run.Completed? ==>
      run.successful == Successes(run.results) && run.failed == Failures(run.results)
      && run.successful + run.failed == |run.results|
  {
    if !w.fs.present(folderPath) {
      return Stopped(MissingListing);
    }
    var content := readFile(folderPath);
    if content.None? {
      return Stopped(UnreadableListing);
    }
    var filePaths := ListedPaths(content.value);
    var topic := topicOf(referenceBasePath);
    if topic.None? {
      return Stopped(UnmappedTopic);
    }
    var results, calls := UploadListed(w, groupId, topic.value, filePaths);
    CountsAddUp(results);
    return Completed(results, calls, Successes(results), Failures(results));
  }

  /** As written, a run for the base path `toString` is not stopped by the
      guard: every existing listed file is uploaded, and every request goes
      out with a thread id that is not a number. */
  lemma AsWrittenUploadsWithoutThread(w: World, groupId: string, filePaths: seq<string>)
    ensures TopicIdAsWritten("toString").Some?
    ensures var b := Batch(p => CheckedUpload(w, groupId, TopicIdAsWritten("toString").value, p),
                           TrimAll(filePaths), |filePaths|);
      |b.calls| == CountWhere(w.fs.present, TrimAll(filePaths), |filePaths|)
      && forall c :: c in b.calls ==> c.threadId == None
  {
    PrototypeNamePassesGuard();
    var topicId := TopicIdAsWritten("toString").value;
    var upload := p => CheckedUpload(w, groupId, topicId, p);
    forall p
      ensures |upload(p).calls| == if w.fs.present(p) then 1 else 0
      ensures forall c :: c in upload(p).calls ==> c.threadId == None
    {
    }
    BatchCalls(upload, TrimAll(filePaths), |filePaths|, w.fs.present);
    BatchCallsAll(upload, TrimAll(filePaths), |filePaths|, (c: SendCall) => c.threadId == None);
  }

  /** The loop of `uploadFolder`: each listed path, trimmed, in order. */
  method UploadListed(w: World, groupId: string, topicId: string, filePaths: seq<string>)
    returns (results: seq<UploadResult>, calls: seq<SendCall>)
    ensures Attempts(results, calls) == Batch(p => CheckedUpload(w, groupId, topicId, p), TrimAll(filePaths), |filePaths|)
  {
    results, calls := [], [];
    for i := 0 to |filePaths|
      invariant Attempts(results, calls) == Batch(p => CheckedUpload(w, groupId, topicId, p), TrimAll(filePaths), i)
    {
      var cleanPath := TrimAll(filePaths)[i];
      var a := CheckedUpload(w, groupId, topicId, cleanPath);
      results := results + [a.result];
      calls := calls + a.calls;
    }
  }

  /** A completed run has one result per listed path, the `k`-th being that of
      the `k`-th path, and calls the service once per existing path. */
  lemma FolderResults(w: World, groupId: string, topicId: string, filePaths: seq<string>, k: nat)
    requires k < |filePaths|
    ensures var b := Batch(p => CheckedUpload(w, groupId, topicId, p), TrimAll(filePaths), |filePaths|);
      |b.results| == |filePaths|
      && b.results[k] == CheckedUpload(w, groupId, topicId, Trim(filePaths[k])).result
      && |b.calls| == CountWhere(w.fs.present, TrimAll(filePaths), |filePaths|)
  {
    var upload := p => CheckedUpload(w, groupId, topicId, p);
    BatchAt(upload, TrimAll(filePaths), |filePaths|, k);
    forall p
      ensures |upload(p).calls| == if w.fs.present(p) then 1 else 0
    {
    }
    BatchCalls(upload, TrimAll(filePaths), |filePaths|, w.fs.present);
  }

  /** `uploadMultipleFiles`: the service's results, unchanged, with their
      success and failure counts. */
  method UploadMultipleFiles(w: World, filePaths: seq<string>, groupId: string, topicId: string, caption: Option<string>)
    returns (results: seq<UploadResult>, successful: nat, failed: nat)
    ensures results
         == Batch(p => ServiceUpload.UploadFile(w, groupId, topicId, p, caption), TrimAll(filePaths), |filePaths|).results
    ensures successful == Successes(results) && failed == Failures(results)
    ensures successful + failed == |results|
  {
    var calls;
    results, calls := ServiceUpload.UploadFiles(w, filePaths, groupId, topicId, caption);
    successful := Successes(results);
    failed := Failures(results);
    CountsAddUp(results);
  }
}
