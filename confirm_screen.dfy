// The confirmation screen: the batch that copies or moves every labelled
// file to its destination, and the two ways the user overrides a
// destination before that.

module ConfirmScreen {
  import opened Wrappers
  import opened LabelSystem
  import Tools

  /** File contents. */
  type Bytes = seq<bv8>

  /** The files on disk, by full path; directories are implicit. */
  type FileSystem = map<string, Bytes>

  /**
   * What the operating system decides that the model cannot: whether the
   * directory of a destination can be created and the destination written.
   */
  datatype Disk = Disk(writable: string -> bool)

  /** The error line of one file, naming its original path. */
  datatype TransferError = CopyFailed(path: string) | MoveFailed(path: string)

  /** The error message is chosen by the operation: copying, or else moving. */
  function ErrorFor(op: OperationType, path: string): (e: TransferError)
    ensures e.path == path
    ensures e.CopyFailed? <==> op == Copy
  {
    if op == Copy then CopyFailed(path) else MoveFailed(path)
  }

  /**
   * One file's work: where it comes from and where it goes; `dest` is
   * `None` when `TargetFile` throws.
   */
  datatype Job = Job(source: string, dest: Option<string>)

  /**
   * `File.Copy(source, dest, true)` or `File.Move(source, dest, true)` after
   * creating the destination's directory; `None` where one of them throws:
   * an empty destination, one that cannot be written, a missing source, or a
   * copy of a file onto itself. Moving a file onto itself is a rename to the
   * same name and changes nothing.
   */
  function Transfer(fs: FileSystem, op: OperationType, source: string, dest: string, disk: Disk): Option<FileSystem>
  {
    if dest == "" || !disk.writable(dest) || source !in fs then None
    else if source == dest then (if op == Copy then None else Some(fs))
    else if op == Copy then Some(fs[dest := fs[source]])
    else Some((fs - {source})[dest := fs[source]])
  }

  /** What a successful transfer leaves on disk, by operation. */
  lemma TransferEffect(fs: FileSystem, op: OperationType, source: string, dest: string, disk: Disk)
    requires Transfer(fs, op, source, dest, disk).Some?
    ensures var fs' := Transfer(fs, op, source, dest, disk).value;
      && source in fs && dest in fs' && fs'[dest] == fs[source]
      && (op == Copy ==> source != dest && source in fs' && fs'[source] == fs[source])
      && (op == Move && source != dest ==> source !in fs')
      && (forall x :: x != source && x != dest ==> (x in fs' <==> x in fs) && (x in fs ==> fs'[x] == fs[x]))
  {
  }

  /** One job of the batch: the new disk and the error it adds, if any. */
  function Attempt(fs: FileSystem, op: OperationType, job: Job, disk: Disk): (FileSystem, seq<TransferError>)
  {
    var result := if job.dest.Some? then Transfer(fs, op, job.source, job.dest.value, disk) else None;
    if result.Some? then (result.value, []) else (fs, [ErrorFor(op, job.source)])
  }

  /** The loop of `Continue`: each job in turn, errors collected in order. */
  function RunBatch(fs: FileSystem, op: OperationType, jobs: seq<Job>, disk: Disk): (FileSystem, seq<TransferError>)
    decreases |jobs|
  {
    if jobs == [] then (fs, [])
    else
      var before := RunBatch(fs, op, jobs[..|jobs| - 1], disk);
      var step := Attempt(before.0, op, jobs[|jobs| - 1], disk);
      (step.0, before.1 + step.1)
  }

  /** Running one more job is one more `Attempt` on the disk left by the others. */
  lemma RunBatchPrefix(fs: FileSystem, op: OperationType, jobs: seq<Job>, i: nat, disk: Disk)
    requires i < |jobs|
    ensures var before := RunBatch(fs, op, jobs[..i], disk);
      var step := Attempt(before.0, op, jobs[i], disk);
      RunBatch(fs, op, jobs[..i + 1], disk) == (step.0, before.1 + step.1)
  {
    assert jobs[..i + 1][..i] == jobs[..i];
  }

  /**
   * The batch reports at most one error per file, each naming one of the
   * files.
   */
  lemma {:induction false} RunBatchErrors(fs: FileSystem, op: OperationType, jobs: seq<Job>, disk: Disk)
    ensures var errors := RunBatch(fs, op, jobs, disk).1;
      && |errors| <= |jobs|
      && (forall e :: e in errors ==> exists k :: 0 <= k < |jobs| && e == ErrorFor(op, jobs[k].source))
    decreases |jobs|
  {
    if jobs != [] {
      var init := jobs[..|jobs| - 1];
      RunBatchErrors(fs, op, init, disk);
      forall e | e in RunBatch(fs, op, jobs, disk).1
        ensures exists k :: 0 <= k < |jobs| && e == ErrorFor(op, jobs[k].source)
      {
        if e in RunBatch(fs, op, init, disk).1 {
          var k :| 0 <= k < |init| && e == ErrorFor(op, init[k].source);
          assert jobs[k] == init[k];
        } else {
          assert e == ErrorFor(op, jobs[|jobs| - 1].source);
        }
      }
    }
  }

  /** A path that no job reads or writes is left exactly as it was. */
  lemma {:induction false} RunBatchFrame(fs: FileSystem, op: OperationType, jobs: seq<Job>, disk: Disk, x: string)
    requires forall k :: 0 <= k < |jobs| ==> x != jobs[k].source && jobs[k].dest != Some(x)
    ensures var fs' := RunBatch(fs, op, jobs, disk).0;
      (x in fs' <==> x in fs) && (x in fs ==> fs'[x] == fs[x])
    decreases |jobs|
  {
    if jobs != [] {
      var init := jobs[..|jobs| - 1];
      var job := jobs[|jobs| - 1];
      RunBatchFrame(fs, op, init, disk, x);
      var mid := RunBatch(fs, op, init, disk).0;
      if job.dest.Some? && Transfer(mid, op, job.source, job.dest.value, disk).Some? {
        TransferEffect(mid, op, job.source, job.dest.value, disk);
      }
    }
  }

  /** Copying never removes a file: every path on disk before is there after. */
  lemma {:induction false} CopyBatchKeepsFiles(fs: FileSystem, jobs: seq<Job>, disk: Disk)
    ensures fs.Keys <= RunBatch(fs, Copy, jobs, disk).0.Keys
    decreases |jobs|
  {
    if jobs != [] {
      var init := jobs[..|jobs| - 1];
      var job := jobs[|jobs| - 1];
      CopyBatchKeepsFiles(fs, init, disk);
      var mid := RunBatch(fs, Copy, init, disk).0;
      if job.dest.Some? && Transfer(mid, Copy, job.source, job.dest.value, disk).Some? {
        TransferEffect(mid, Copy, job.source, job.dest.value, disk);
      }
    }
  }

  /**
   * The destination `Continue` uses for a file: the stored or user-chosen
   * target when there is one, a freshly computed `TargetFile` otherwise.
   */
  ghost function JobOf(f: LabelFile, p: Placement): Job
    reads f
  {
    Job(f.OriginalPath, if f.FinalTargetFile.Some? then f.FinalTargetFile else TargetPath(p, Names(f.Labels), f.OriginalPath, f.ID))
  }

  /** The destination of a file has been resolved and stored, or it cannot be. */
  ghost predicate Settled(f: LabelFile, p: Placement)
    reads f
  {
    f.FinalTargetFile == JobOf(f, p).dest
  }

  /** The work of every file of an array, in order. */
  ghost function JobsOf(files: array<LabelFile>, p: Placement): (r: seq<Job>)
    reads files, files[..]
    ensures |r| == files.Length
    ensures forall k :: 0 <= k < files.Length ==> r[k] == JobOf(files[k], p)
  {
    seq(files.Length, k reads files, files[..] requires 0 <= k < files.Length => JobOf(files[k], p))
  }

  /** What the screen shows when the batch is over. */
  datatype Outcome =
    | Stayed                                // nothing to do: no setting or no files
    | ShowErrors(errors: seq<TransferError>) // the error screen with every error line
    | CloseApp                             // success with "close when done" checked
    | Finished                             // success: bar at 100, title "finished"

  /** The screen after the batch: errors first, then the auto-close box. */
  function Conclude(errors: seq<TransferError>, autoClose: bool): (r: Outcome)
    ensures r.ShowErrors? <==> errors != []
    ensures r.ShowErrors? ==> r.errors == errors
    ensures r == Finished <==> errors == [] && !autoClose
    ensures r != Stayed
  {
    if |errors| > 0 then ShowErrors(errors)
    else if autoClose then CloseApp
    else Finished
  }

  /**
   * The progress bar `Continue` shows: `i * 100 / n` in `int` arithmetic
   * after each file, then
   * exactly 100 only on the success path that keeps the application open.
   */
  function ShownProgress(n: nat, outcome: Outcome): seq<int>
  {
    Tools.Percentages(n) + (if outcome == Finished then [100] else [])
  }

  /** The bar ends at 100 exactly when everything succeeded and the application stays open. */
  lemma ShownProgressReaches100(n: nat, errors: seq<TransferError>, autoClose: bool)
    requires 0 < n <= Tools.ProgressSafeFiles
    ensures var shown := ShownProgress(n, Conclude(errors, autoClose));
      && (forall i :: 0 <= i < n ==> shown[i] < 100)
      && (100 in shown <==> errors == [] && !autoClose)
  {
    var shown := ShownProgress(n, Conclude(errors, autoClose));
    Tools.PercentagesBounded(n);
    if errors != [] || autoClose {
      assert shown == Tools.Percentages(n);
    } else {
      assert shown[n] == 100;
    }
  }

  /** The confirmation screen's state: the setting and files it was opened with. */
  class ConfirmScreen {
    var CurrentSetting: LabelerSetting?
    var Files: array<LabelFile>

    /** A new screen: no setting and no files. */
    constructor ()
      ensures CurrentSetting == null && Files.Length == 0
    {
      CurrentSetting := null;
      Files := new LabelFile[0];
    }

    /** `WithListAndSettings`: remembers the setting and the files. */
    method WithListAndSettings(setting: LabelerSetting?, files: array<LabelFile>)
      modifies this
      ensures CurrentSetting == setting && Files == files
    {
      CurrentSetting := setting;
      Files := files;
    }

    /** Typing in a target box: the text becomes the file's destination as it is. */
    static method EditTarget(file: LabelFile, text: Option<string>)
      modifies file`FinalTargetFile
      ensures file.FinalTargetFile == text
    {
      file.FinalTargetFile := text;
    }

    /**
     * The browse button: without a folder-capable storage provider or a
     * setting nothing happens; otherwise the suggested location is the
     * destination, computed (and stored) by `TargetFile` if there is none
     * yet, which may throw and end the task; a picked file then becomes the
     * destination as it is. `picked` is the string the handler stores: the
     * `AbsolutePath` of the picked file's URI, which is percent-encoded (a
     * space becomes "%20"), not the file-system path.
     */
    method PickTarget(file: LabelFile, canPickFolder: bool, picked: Option<string>)
      modifies file`FinalTargetFile
      ensures !canPickFolder || CurrentSetting == null ==> file.FinalTargetFile == old(file.FinalTargetFile)
      ensures canPickFolder && CurrentSetting != null ==>
        var computed := TargetPath(CurrentSetting.GetPlacement(), Names(file.Labels), file.OriginalPath, file.ID);
        var suggested := if old(file.FinalTargetFile).Some? then old(file.FinalTargetFile) else computed;
        file.FinalTargetFile == if suggested.Some? && picked.Some? then picked else suggested
    {
      if !canPickFolder || CurrentSetting == null {
        return;
      }
      if file.FinalTargetFile.None? {
        var target := file.TargetFile(CurrentSetting);
        if target.None? {
          // The exception ends the background task before the picker opens.
          return;
        }
      }
      if picked.Some? {
        file.FinalTargetFile := picked;
      }
    }

    /**
     * One turn of the loop: resolves the destination (storing a computed
     * one), transfers the file, and adds an error line if that throws.
     */
    static method ContinueOne(file: LabelFile, setting: LabelerSetting, fs: FileSystem, disk: Disk)
        returns (fs': FileSystem, errors: seq<TransferError>)
      modifies file`FinalTargetFile
      ensures (fs', errors) == Attempt(fs, setting.Operation, old(JobOf(file, setting.GetPlacement())), disk)
      ensures JobOf(file, setting.GetPlacement()) == old(JobOf(file, setting.GetPlacement()))
      ensures Settled(file, setting.GetPlacement())
    {
      var dest := file.FinalTargetFile;
      if dest.None? {
        dest := file.TargetFile(setting);
      }
      var result := if dest.Some? then Transfer(fs, setting.Operation, file.OriginalPath, dest.value, disk) else None;
      if result.Some? {
        fs', errors := result.value, [];
      } else {
        fs', errors := fs, [ErrorFor(setting.Operation, file.OriginalPath)];
      }
    }

    /** `ContinueOne` on the `i`-th file, stated for the whole array. */
    static method ContinueAt(files: array<LabelFile>, i: nat, setting: LabelerSetting, ghost p: Placement, fs: FileSystem, disk: Disk)
        returns (fs': FileSystem, errors: seq<TransferError>)
      requires i < files.Length && p == setting.GetPlacement()
      modifies files[i]
      ensures (fs', errors) == Attempt(fs, setting.Operation, old(JobOf(files[i], p)), disk)
      ensures forall k :: 0 <= k < files.Length ==> JobOf(files[k], p) == old(JobOf(files[k], p))
      ensures forall k :: 0 <= k < files.Length && old(Settled(files[k], p)) ==> Settled(files[k], p)
      ensures Settled(files[i], p)
    {
      fs', errors := ContinueOne(files[i], setting, fs, disk);
    }

    /**
     * The loop of `Continue` over `files`, in order. `jobs` are the files'
     * work as it stood when the loop began: every computed destination is
     * stored, and the disk and the errors are those of `RunBatch`.
     */
    static method TransferAll(files: array<LabelFile>, setting: LabelerSetting, fs: FileSystem, disk: Disk)
        returns (fs': FileSystem, errors: seq<TransferError>, progress: seq<int>, ghost jobs: seq<Job>)
      modifies files[..]
      ensures |jobs| == files.Length
      ensures forall k :: 0 <= k < files.Length ==> jobs[k] == old(JobOf(files[k], setting.GetPlacement()))
      ensures forall k :: 0 <= k < files.Length ==> files[k].FinalTargetFile == jobs[k].dest
      ensures (fs', errors) == RunBatch(fs, setting.Operation, jobs, disk)
      ensures progress == Tools.Percentages(files.Length)
    {
      ghost var p := setting.GetPlacement();
      ghost var start := JobsOf(files, p);
      var op := setting.Operation;
      errors := [];
      fs', progress := fs, [];
      for i := 0 to files.Length
        invariant setting.GetPlacement() == p && setting.Operation == op
        invariant forall k :: 0 <= k < files.Length ==> JobOf(files[k], p) == start[k]
        invariant forall k :: 0 <= k < i ==> Settled(files[k], p)
        invariant (fs', errors) == RunBatch(fs, op, start[..i], disk)
        invariant progress == Tools.ProgressUpTo(i, files.Length)
      {
        var more;
        label Before:
        fs', more := ContinueAt(files, i, setting, p, fs', disk);
        forall k | 0 <= k <= i
          ensures Settled(files[k], p)
        {
          if k < i {
            assert old@Before(Settled(files[k], p));
          }
        }
        RunBatchPrefix(fs, op, start, i, disk);
        errors := errors + more;
        progress := Tools.AdvanceProgress(progress, i, files.Length);
      }
      assert start[..files.Length] == start;
      jobs := start;
    }

    /**
     * `Continue`: with a setting and at least one file, copies or moves the
     * files in order, one error line per file that fails, stores every
     * computed destination, and ends on the error screen or the success
     * path; otherwise it does nothing. `jobs` are the files' work as it
     * stood when the batch began.
     */
    method Continue(fs: FileSystem, disk: Disk, autoClose: bool)
        returns (outcome: Outcome, fs': FileSystem, progress: seq<int>, ghost jobs: seq<Job>)
      modifies Files[..]
      ensures CurrentSetting == null || Files.Length == 0 ==>
        outcome == Stayed && fs' == fs && progress == [] && jobs == []
      ensures CurrentSetting != null && Files.Length > 0 ==>
        var p := CurrentSetting.GetPlacement();
        && |jobs| == Files.Length
        && (forall k :: 0 <= k < Files.Length ==> jobs[k] == old(JobOf(Files[k], p)))
        && (forall k :: 0 <= k < Files.Length ==> Files[k].FinalTargetFile == jobs[k].dest)
        && var (disk', errors) := RunBatch(fs, CurrentSetting.Operation, jobs, disk);
        && fs' == disk'
        && outcome == Conclude(errors, autoClose)
        && progress == ShownProgress(Files.Length, outcome)
    {
      if CurrentSetting == null || Files.Length <= 0 {
        outcome, fs', progress, jobs := Stayed, fs, [], [];
        return;
      }
      var errors;
      fs', errors, progress, jobs := TransferAll(Files, CurrentSetting, fs, disk);
      outcome := Conclude(errors, autoClose);
      if outcome == Finished {
        progress := progress + [100];
      }
    }
  }
}
