/**
 * `CheckpointManager` (bot/src/managers/checkpoint.manager.ts): the record of
 * one folder upload, kept in memory and written to a JSON file named after the
 * upload's parameters.
 *
 * The record is a value (`UploadCheckpoint`); each operation of the manager is
 * specified by a function from the old record to the new one (`Apply`), and the
 * class `Manager` updates its `checkpoint` field by exactly that function. The
 * file system is a `Disk` object holding what each file name stores; the clock
 * is a parameter.
 */
module CheckpointManager {
  import opened Wrappers
  import Strings
  import CheckpointUtil

  /** The options of a folder upload; `dryRun` may be absent. */
  datatype Options = Options(groupId: string, folderPath: string, referenceBasePath: string, dryRun: Option<bool>)

  datatype Params = Params(groupId: string, folderPath: string, referenceBasePath: string, dryRun: bool)

  datatype Stats = Stats(totalFiles: int, processedFiles: int, successfulUploads: int, failedUploads: int)

  datatype UploadCheckpoint = UploadCheckpoint(
    sessionId: string,
    startTime: string,
    lastUpdate: string,
    params: Params,
    stats: Stats,
    completedFiles: seq<string>)

  /** The moment an operation runs: `Date.now()` and its ISO-8601 text. */
  datatype Clock = Clock(millis: nat, iso: string)

  /** What a checkpoint file holds: a record `JSON.parse` accepts, or text it rejects. */
  datatype StoredFile = Record(checkpoint: UploadCheckpoint) | Corrupted

  /** The three operations that change the record after it is loaded. */
  datatype Op =
    | MarkCompletedOp(path: string, now: Clock)
    | MarkFailedOp(now: Clock)
    | SetTotalFilesOp(count: int)

  /** The record a new upload starts with (lines 34-51). */
  function FreshCheckpoint(options: Options, now: Clock): (cp: UploadCheckpoint)
    ensures cp.stats == Stats(0, 0, 0, 0) && cp.completedFiles == []
    ensures cp.params.dryRun <==> options.dryRun == Some(true)
    ensures cp.params.groupId == options.groupId && cp.params.folderPath == options.folderPath
    ensures cp.params.referenceBasePath == options.referenceBasePath
    ensures Balanced(cp)
  {
    UploadCheckpoint(
      Strings.DecimalString(now.millis), now.iso, now.iso,
      Params(options.groupId, options.folderPath, options.referenceBasePath, options.dryRun.GetOr(false)),
      Stats(0, 0, 0, 0),
      [])
  }

  /** `load`: the stored record when the file exists and parses, a fresh one otherwise. */
  function Loaded(options: Options, stored: Option<StoredFile>, now: Clock): (cp: UploadCheckpoint)
    ensures (stored.Some? && stored.value.Record?) ==> cp == stored.value.checkpoint
    ensures !(stored.Some? && stored.value.Record?) ==> cp == FreshCheckpoint(options, now)
  {
    match stored
    case Some(Record(c)) => c
    case _ => FreshCheckpoint(options, now)
  }

  /** `markCompleted` on a loaded record (lines 67-72). */
  function AfterCompleted(cp: UploadCheckpoint, path: string, now: Clock): (r: UploadCheckpoint)
    ensures path in r.completedFiles
    ensures path in cp.completedFiles ==> r == cp
    ensures path !in cp.completedFiles ==>
      && r.completedFiles == cp.completedFiles + [path]
      && r.stats.successfulUploads == cp.stats.successfulUploads + 1
      && r.stats.processedFiles == cp.stats.processedFiles + 1
      && r.stats.failedUploads == cp.stats.failedUploads
      && r.stats.totalFiles == cp.stats.totalFiles
  {
    if path in cp.completedFiles then cp
    else
      cp.(completedFiles := cp.completedFiles + [path],
          stats := cp.stats.(successfulUploads := cp.stats.successfulUploads + 1,
                             processedFiles := cp.stats.processedFiles + 1),
          lastUpdate := now.iso)
  }

  /** `markFailed` on a loaded record (lines 80-82). */
  function AfterFailed(cp: UploadCheckpoint, now: Clock): (r: UploadCheckpoint)
    ensures r.completedFiles == cp.completedFiles
    ensures r.stats.failedUploads == cp.stats.failedUploads + 1
    ensures r.stats.processedFiles == cp.stats.processedFiles + 1
    ensures r.stats.successfulUploads == cp.stats.successfulUploads
    ensures r.stats.totalFiles == cp.stats.totalFiles
  {
    cp.(stats := cp.stats.(failedUploads := cp.stats.failedUploads + 1,
                           processedFiles := cp.stats.processedFiles + 1),
        lastUpdate := now.iso)
  }

  /** `setTotalFiles` on a loaded record (line 91): only the total changes. */
  function WithTotalFiles(cp: UploadCheckpoint, count: int): (r: UploadCheckpoint)
    ensures r.stats.totalFiles == count
    ensures r.(stats := cp.stats) == cp
    ensures r.stats.(totalFiles := cp.stats.totalFiles) == cp.stats
  {
    cp.(stats := cp.stats.(totalFiles := count))
  }

  /** An operation on the manager's state; before `load` every operation is a no-op
      (the `if (this.checkpoint)` guards at lines 67, 79 and 90). */
  function Apply(state: Option<UploadCheckpoint>, op: Op): (r: Option<UploadCheckpoint>)
    ensures r.Some? <==> state.Some?
  {
    match state
    case None => None
    case Some(cp) =>
      match op
      case MarkCompletedOp(path, now) => Some(AfterCompleted(cp, path, now))
      case MarkFailedOp(now) => Some(AfterFailed(cp, now))
      case SetTotalFilesOp(count) => Some(WithTotalFiles(cp, count))
  }

  /** Several operations, in order. */
  function Run(state: Option<UploadCheckpoint>, ops: seq<Op>): Option<UploadCheckpoint>
    decreases |ops|
  {
    if ops == [] then state else Run(Apply(state, ops[0]), ops[1..])
  }

  /** The bookkeeping a fresh record starts with and every operation keeps:
      each processed file succeeded or failed, each success is one listed path,
      and no path is listed twice. */
  predicate Balanced(cp: UploadCheckpoint) {
    && cp.stats.processedFiles == cp.stats.successfulUploads + cp.stats.failedUploads
    && cp.stats.successfulUploads == |cp.completedFiles|
    && Distinct(cp.completedFiles)
  }

  /** Every single operation keeps a balanced record balanced. */
  lemma ApplyKeepsBalanced(cp: UploadCheckpoint, op: Op)
    requires Balanced(cp)
    ensures Balanced(Apply(Some(cp), op).value)
  {
    if op.MarkCompletedOp? && op.path !in cp.completedFiles {
      var s := cp.completedFiles + [op.path];
      forall i, j | 0 <= i < j < |s| ensures s[i] != s[j] {
        if j == |s| - 1 {
          assert s[i] in cp.completedFiles;
        }
      }
    }
  }

  /** From a balanced record, any sequence of operations leaves a balanced record. */
  lemma {:induction false} RunKeepsBalanced(cp: UploadCheckpoint, ops: seq<Op>)
    requires Balanced(cp)
    ensures Run(Some(cp), ops).Some? && Balanced(Run(Some(cp), ops).value)
    decreases |ops|
  {
    if ops != [] {
      ApplyKeepsBalanced(cp, ops[0]);
      RunKeepsBalanced(Apply(Some(cp), ops[0]).value, ops[1..]);
    }
  }

  /** So a freshly created record stays balanced whatever happens to it. */
  lemma FreshRunBalanced(options: Options, now: Clock, ops: seq<Op>)
    ensures Run(Some(FreshCheckpoint(options, now)), ops).Some?
    ensures Balanced(Run(Some(FreshCheckpoint(options, now)), ops).value)
  {
    RunKeepsBalanced(FreshCheckpoint(options, now), ops);
  }

  /** Before `load`, nothing any operation does has an effect. */
  lemma {:induction false} RunBeforeLoad(ops: seq<Op>)
    ensures Run(None, ops) == None
    decreases |ops|
  {
    if ops != [] {
      RunBeforeLoad(ops[1..]);
    }
  }

  /** The completed list only grows: what was listed stays listed, in place. */
  lemma {:induction false} CompletedOnlyGrows(cp: UploadCheckpoint, ops: seq<Op>)
    ensures Run(Some(cp), ops).Some?
    ensures cp.completedFiles <= Run(Some(cp), ops).value.completedFiles
    decreases |ops|
  {
    if ops != [] {
      var next := Apply(Some(cp), ops[0]).value;
      CompletedOnlyGrows(next, ops[1..]);
    }
  }

  /** Marking the same path completed twice is the same as marking it once. */
  lemma MarkCompletedIdempotent(cp: UploadCheckpoint, path: string, t1: Clock, t2: Clock)
    ensures AfterCompleted(AfterCompleted(cp, path, t1), path, t2) == AfterCompleted(cp, path, t1)
  {
  }

  /** A path is completed after `markCompleted` and before `markFailed` exactly as before. */
  lemma FailedLeavesCompleted(cp: UploadCheckpoint, path: string, now: Clock)
    ensures (path in AfterFailed(cp, now).completedFiles) <==> (path in cp.completedFiles)
  {
  }

  /** The file system, as far as the manager uses it: what each file name holds. */
  class Disk {
    var files: map<string, StoredFile>

    constructor (files: map<string, StoredFile>)
      ensures this.files == files
    {
      this.files := files;
    }
  }

  class Manager {
    const filename: string
    var checkpoint: Option<UploadCheckpoint>

    /** The file name comes from the upload's parameters (lines 10-16). */
    constructor (options: Options, md5: string -> string)
      ensures filename == CheckpointUtil.CheckpointFilename(md5, options.groupId, options.folderPath, options.referenceBasePath)
      ensures checkpoint == None
    {
      filename := CheckpointUtil.CheckpointFilename(md5, options.groupId, options.folderPath, options.referenceBasePath);
      checkpoint := None;
    }

    /** `load` (lines 21-54). */
    method Load(options: Options, disk: Disk, now: Clock) returns (cp: UploadCheckpoint)
      modifies this
      ensures cp == Loaded(options, if filename in disk.files then Some(disk.files[filename]) else None, now)
      ensures checkpoint == Some(cp)
    {
      if filename in disk.files && disk.files[filename].Record? {
        cp := disk.files[filename].checkpoint;
      } else {
        cp := FreshCheckpoint(options, now);
      }
      checkpoint := Some(cp);
    }

    /** `isCompleted` (lines 59-61). */
    function IsCompleted(path: string): (r: bool)
      reads this
      ensures r <==> checkpoint.Some? && path in checkpoint.value.completedFiles
    {
      match checkpoint
      case None => false
      case Some(cp) => path in cp.completedFiles
    }

    /** `markCompleted` (lines 66-73). */
    method MarkCompleted(path: string, now: Clock)
      modifies this
      ensures checkpoint == Apply(old(checkpoint), MarkCompletedOp(path, now))
    {
      if checkpoint.Some? && !IsCompleted(path) {
        var cp := checkpoint.value;
        checkpoint := Some(cp.(completedFiles := cp.completedFiles + [path],
                               stats := cp.stats.(successfulUploads := cp.stats.successfulUploads + 1,
                                                  processedFiles := cp.stats.processedFiles + 1),
                               lastUpdate := now.iso));
      }
    }

    /** `markFailed` (lines 78-84). */
    method MarkFailed(now: Clock)
      modifies this
      ensures checkpoint == Apply(old(checkpoint), MarkFailedOp(now))
    {
      if checkpoint.Some? {
        var cp := checkpoint.value;
        checkpoint := Some(cp.(stats := cp.stats.(failedUploads := cp.stats.failedUploads + 1,
                                                  processedFiles := cp.stats.processedFiles + 1),
                               lastUpdate := now.iso));
      }
    }

    /** `setTotalFiles` (lines 89-93). */
    method SetTotalFiles(count: int)
      modifies this
      ensures checkpoint == Apply(old(checkpoint), SetTotalFilesOp(count))
    {
      if checkpoint.Some? {
        var cp := checkpoint.value;
        checkpoint := Some(cp.(stats := cp.stats.(totalFiles := count)));
      }
    }

    /** `save` (lines 98-107): the record is written under the file name, unless
        there is none yet or the write fails (`writable` false). */
    method Save(disk: Disk, writable: bool)
      modifies disk
      ensures checkpoint.Some? && writable ==> disk.files == old(disk.files)[filename := Record(checkpoint.value)]
      ensures !(checkpoint.Some? && writable) ==> disk.files == old(disk.files)
    {
      if checkpoint.Some? && writable {
        disk.files := disk.files[filename := Record(checkpoint.value)];
      }
    }

    /** `cleanup` (lines 112-121): the file is removed unless removing it fails. */
    method Cleanup(disk: Disk, removable: bool)
      modifies disk
      ensures removable ==> disk.files == old(disk.files) - {filename}
      ensures !removable ==> disk.files == old(disk.files)
    {
      if filename in disk.files && removable {
        disk.files := disk.files - {filename};
      }
    }

    /** `getStats` (lines 126-128): `null` before `load`. */
    function GetStats(): (r: Option<Stats>)
      reads this
      ensures r.Some? <==> checkpoint.Some?
      ensures r.Some? ==> r.value == checkpoint.value.stats
    {
      match checkpoint
      case None => None
      case Some(cp) => Some(cp.stats)
    }

    /** `isResume` (lines 140-142). */
    function IsResume(): (r: bool)
      reads this
      ensures r <==> checkpoint.Some? && checkpoint.value.completedFiles != []
    {
      match checkpoint
      case None => false
      case Some(cp) => |cp.completedFiles| > 0
    }
  }

  /** A record that was saved is what the next `load` of that file returns. */
  lemma SavedIsLoaded(options: Options, cp: UploadCheckpoint, now: Clock)
    ensures Loaded(options, Some(Record(cp)), now) == cp
  {
  }
}
