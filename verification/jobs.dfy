/** The job records of the upload endpoint and how they change.

    A job is a mutable dictionary that the background task updates one field
    at a time. The model describes an update as a list of single-field writes
    and its trace as the state after each write. The trace over-approximates
    what a status request can read: it is every state a request could see if
    the run yielded between any two writes. */
module Jobs {
  import opened Wrappers
  import opened Strings

  datatype Status = Pending | Processing | Completed | Failed

  /** One saved upload: its name, where it was written and its size in bytes. */
  datatype FileInfo = FileInfo(filename: string, path: string, size: nat)

  datatype Job = Job(status: Status, progress: nat, message: string, filesProcessed: nat, totalFiles: nat, files: seq<FileInfo>)

  /** One assignment `job_status[job_id][field] = value`. */
  datatype Write =
    | SetStatus(status: Status)
    | SetProgress(progress: nat)
    | SetMessage(message: string)
    | SetFilesProcessed(count: nat)

  /** The job after one write: the written field changes and no other. */
  function Apply(j: Job, w: Write): (r: Job)
    ensures r.totalFiles == j.totalFiles && r.files == j.files
    ensures r.status == (if w.SetStatus? then w.status else j.status)
    ensures r.progress == (if w.SetProgress? then w.progress else j.progress)
    ensures r.message == (if w.SetMessage? then w.message else j.message)
    ensures r.filesProcessed == (if w.SetFilesProcessed? then w.count else j.filesProcessed)
  {
    match w
    case SetStatus(s) => j.(status := s)
    case SetProgress(p) => j.(progress := p)
    case SetMessage(m) => j.(message := m)
    case SetFilesProcessed(n) => j.(filesProcessed := n)
  }

  /** The job after a list of writes. */
  function After(j: Job, ws: seq<Write>): Job
    decreases |ws|
  {
    if ws == [] then j else After(Apply(j, ws[0]), ws[1..])
  }

  /** The job after each write, in order. */
  function Trace(j: Job, ws: seq<Write>): (t: seq<Job>)
    ensures |t| == |ws|
    decreases |ws|
  {
    if ws == [] then [] else [Apply(j, ws[0])] + Trace(Apply(j, ws[0]), ws[1..])
  }

  /** The last state of the trace is the state after all the writes. */
  lemma {:induction false} TraceEndsAtAfter(j: Job, ws: seq<Write>)
    requires ws != []
    ensures Trace(j, ws)[|ws| - 1] == After(j, ws)
    decreases |ws|
  {
    if |ws| > 1 {
      TraceEndsAtAfter(Apply(j, ws[0]), ws[1..]);
    }
  }

  /** The trace of `a` then `b` is the trace of `a` followed by the trace
      of `b` from where `a` left the job. */
  lemma {:induction false} TraceAppend(j: Job, a: seq<Write>, b: seq<Write>)
    ensures Trace(j, a + b) == Trace(j, a) + Trace(After(j, a), b)
    ensures After(j, a + b) == After(After(j, a), b)
    decreases |a|
  {
    if a != [] {
      assert (a + b)[0] == a[0];
      assert (a + b)[1..] == a[1..] + b;
      TraceAppend(Apply(j, a[0]), a[1..], b);
    } else {
      assert a + b == b;
    }
  }

  /** One more write adds one state to the trace. */
  lemma TraceSnoc(j: Job, ws: seq<Write>, w: Write)
    ensures Trace(j, ws + [w]) == Trace(j, ws) + [Apply(After(j, ws), w)]
    ensures After(j, ws + [w]) == Apply(After(j, ws), w)
  {
    TraceAppend(j, ws, [w]);
    assert [w][1..] == [];
  }

  lemma TraceOfTwo(j: Job, a: Write, b: Write)
    ensures Trace(j, [a, b]) == [Apply(j, a), Apply(Apply(j, a), b)]
    ensures After(j, [a, b]) == Apply(Apply(j, a), b)
  {
    TraceSnoc(j, [a], b);
    assert [a][1..] == [];
    assert [a] + [b] == [a, b];
  }

  lemma TraceOfThree(j: Job, a: Write, b: Write, c: Write)
    ensures Trace(j, [a, b, c]) == [Apply(j, a), Apply(Apply(j, a), b), Apply(Apply(Apply(j, a), b), c)]
    ensures After(j, [a, b, c]) == Apply(Apply(Apply(j, a), b), c)
  {
    TraceOfTwo(j, a, b);
    TraceSnoc(j, [a, b], c);
    assert [a, b] + [c] == [a, b, c];
  }

  /** No write touches the file count or the file list. */
  lemma {:induction false} TraceKeepsFiles(j: Job, ws: seq<Write>)
    ensures forall i :: 0 <= i < |ws| ==> Trace(j, ws)[i].totalFiles == j.totalFiles && Trace(j, ws)[i].files == j.files
    ensures After(j, ws).totalFiles == j.totalFiles && After(j, ws).files == j.files
    decreases |ws|
  {
    if ws != [] {
      TraceKeepsFiles(Apply(j, ws[0]), ws[1..]);
    }
  }

  // ----- progress -----

  /** The progress values written, in order, never go below `lo` nor down. */
  predicate ProgressSorted(lo: nat, ws: seq<Write>)
    decreases |ws|
  {
    ws == [] ||
    if ws[0].SetProgress? then lo <= ws[0].progress && ProgressSorted(ws[0].progress, ws[1..])
    else ProgressSorted(lo, ws[1..])
  }

  /** The last progress value written, or `lo` when none is. */
  function LastProgress(lo: nat, ws: seq<Write>): nat
    decreases |ws|
  {
    if ws == [] then lo
    else if ws[0].SetProgress? then LastProgress(ws[0].progress, ws[1..])
    else LastProgress(lo, ws[1..])
  }

  /** Sorted writes can be followed by writes sorted from where they stopped. */
  lemma {:induction false} ProgressSortedAppend(lo: nat, a: seq<Write>, b: seq<Write>)
    requires ProgressSorted(lo, a) && ProgressSorted(LastProgress(lo, a), b)
    ensures ProgressSorted(lo, a + b)
    ensures LastProgress(lo, a + b) == LastProgress(LastProgress(lo, a), b)
    decreases |a|
  {
    if a == [] {
      assert a + b == b;
    } else {
      assert (a + b)[0] == a[0];
      assert (a + b)[1..] == a[1..] + b;
      if a[0].SetProgress? {
        ProgressSortedAppend(a[0].progress, a[1..], b);
      } else {
        ProgressSortedAppend(lo, a[1..], b);
      }
    }
  }

  /** Progress never decreases along the trace. */
  predicate NonDecreasingFrom(lo: nat, t: seq<Job>) {
    && (forall i :: 0 <= i < |t| ==> lo <= t[i].progress)
    && (forall i, k :: 0 <= i < k < |t| ==> t[i].progress <= t[k].progress)
  }

  /** Progress that never drops from one state to the next never drops at all. */
  lemma {:induction false} StepwiseNonDecreasing(lo: nat, t: seq<Job>)
    requires t != [] ==> lo <= t[0].progress
    requires forall i :: 0 < i < |t| ==> t[i - 1].progress <= t[i].progress
    ensures NonDecreasingFrom(lo, t)
    decreases |t|
  {
    if t != [] {
      var rest := t[1..];
      assert forall i :: 0 < i < |rest| ==> rest[i - 1] == t[i] && rest[i] == t[i + 1];
      StepwiseNonDecreasing(t[0].progress, rest);
      forall i, k | 0 <= i < k < |t|
        ensures t[i].progress <= t[k].progress
      {
        assert t[k] == rest[k - 1];
        if i > 0 {
          assert t[i] == rest[i - 1];
        }
      }
      forall i | 0 <= i < |t|
        ensures lo <= t[i].progress
      {
        if i > 0 {
          assert t[i] == rest[i - 1];
        }
      }
    }
  }

  /** Writing sorted progress values gives a trace whose progress never goes
      down, starting from the job's own. */
  lemma {:induction false} SortedWritesNonDecreasing(j: Job, ws: seq<Write>)
    requires ProgressSorted(j.progress, ws)
    ensures NonDecreasingFrom(j.progress, Trace(j, ws))
    ensures After(j, ws).progress == LastProgress(j.progress, ws)
    decreases |ws|
  {
    if ws != [] {
      var j1 := Apply(j, ws[0]);
      SortedWritesNonDecreasing(j1, ws[1..]);
      var t := Trace(j, ws);
      assert t == [j1] + Trace(j1, ws[1..]);
      assert j.progress <= j1.progress;
      forall i, k | 0 <= i < k < |t|
        ensures t[i].progress <= t[k].progress
      {
        if i > 0 {
          assert t[i] == Trace(j1, ws[1..])[i - 1];
        }
        assert t[k] == Trace(j1, ws[1..])[k - 1];
      }
    }
  }

  /** Every progress value written is below `bound`. */
  predicate WritesBelow(ws: seq<Write>, bound: nat) {
    forall i :: 0 <= i < |ws| && ws[i].SetProgress? ==> ws[i].progress < bound
  }

  /** Starting below `bound` and writing only values below it, the progress
      of every state in the trace stays below it. */
  lemma {:induction false} ProgressStaysBelow(j: Job, ws: seq<Write>, bound: nat)
    requires j.progress < bound && WritesBelow(ws, bound)
    ensures forall i :: 0 <= i < |ws| ==> Trace(j, ws)[i].progress < bound
    ensures After(j, ws).progress < bound
    decreases |ws|
  {
    if ws != [] {
      var j1 := Apply(j, ws[0]);
      assert WritesBelow(ws[1..], bound) by {
        forall i | 0 <= i < |ws[1..]| && ws[1..][i].SetProgress?
          ensures ws[1..][i].progress < bound
        {
          assert ws[1..][i] == ws[i + 1];
        }
      }
      ProgressStaysBelow(j1, ws[1..], bound);
    }
  }

  /** With no status write, every state in the trace keeps the job's status. */
  lemma {:induction false} StatusUnwritten(j: Job, ws: seq<Write>)
    requires forall i :: 0 <= i < |ws| ==> !ws[i].SetStatus?
    ensures forall i :: 0 <= i < |ws| ==> Trace(j, ws)[i].status == j.status
    ensures After(j, ws).status == j.status
    decreases |ws|
  {
    if ws != [] {
      assert forall i :: 0 <= i < |ws[1..]| ==> ws[1..][i] == ws[i + 1];
      StatusUnwritten(Apply(j, ws[0]), ws[1..]);
    }
  }

  // ----- uploads -----

  /** An uploaded file as the endpoint receives it: its name and the length of its content. */
  datatype Upload = Upload(filename: string, size: nat)

  const MaxFiles := 15
  const MaxFileSize := 10 * 1024 * 1024
  const UploadDir := "uploads"

  const TooManyFiles := "Maximum 15 files allowed"
  const NotPdfPrefix := "Only PDF files allowed: "
  const TooLargePrefix := "File too large: "

  /** A file is accepted when its name ends in `.pdf`, compared case-sensitively,
      and it holds at most 10 MiB. */
  predicate Acceptable(f: Upload) {
    EndsWith(f.filename, ".pdf") && f.size <= MaxFileSize
  }

  /** The check of one file: the extension first, then the size. */
  function FileError(f: Upload): (r: Option<string>)
    ensures r.None? <==> Acceptable(f)
    ensures !EndsWith(f.filename, ".pdf") ==> r == Some(NotPdfPrefix + f.filename)
    ensures EndsWith(f.filename, ".pdf") && !Acceptable(f) ==> r == Some(TooLargePrefix + f.filename)
  {
    if !EndsWith(f.filename, ".pdf") then Some(NotPdfPrefix + f.filename)
    else if f.size > MaxFileSize then Some(TooLargePrefix + f.filename)
    else None
  }

  /** The files are checked in order and the first one rejected decides the error. */
  function FirstFileError(files: seq<Upload>): (r: Option<string>)
    ensures r.None? <==> forall i :: 0 <= i < |files| ==> Acceptable(files[i])
    ensures r.Some? ==> exists k :: 0 <= k < |files| && FileError(files[k]) == r &&
                                  forall i :: 0 <= i < k ==> Acceptable(files[i])
    decreases |files|
  {
    if files == [] then None
    else if FileError(files[0]).Some? then FileError(files[0])
    else
      var rest := FirstFileError(files[1..]);
      assert forall i :: 1 <= i < |files| ==> files[i] == files[1..][i - 1];
      if rest.Some? then
        var k :| 0 <= k < |files[1..]| && FileError(files[1..][k]) == rest &&
                 forall i :: 0 <= i < k ==> Acceptable(files[1..][i]);
        assert FileError(files[k + 1]) == rest;
        rest
      else
        rest
  }

  /** The validation of `upload_files`: the file count before any file, then each file. */
  function ValidateUpload(files: seq<Upload>): (r: Option<string>)
    ensures |files| > MaxFiles ==> r == Some(TooManyFiles)
    ensures |files| <= MaxFiles ==> r == FirstFileError(files)
    ensures r.None? <==> |files| <= MaxFiles && forall i :: 0 <= i < |files| ==> Acceptable(files[i])
  {
    if |files| > MaxFiles then Some(TooManyFiles) else FirstFileError(files)
  }

  /** A file rejected by its name is reported as such, whatever its size. */
  lemma NameCheckedBeforeSize(files: seq<Upload>, k: nat)
    requires |files| <= MaxFiles && k < |files| && !EndsWith(files[k].filename, ".pdf")
    requires forall i :: 0 <= i < k ==> Acceptable(files[i])
    ensures ValidateUpload(files) == Some(NotPdfPrefix + files[k].filename)
  {
    FirstRejectedDecides(files, k);
  }

  /** When the files before `k` pass and file `k` fails, file `k`'s error is the answer. */
  lemma {:induction false} FirstRejectedDecides(files: seq<Upload>, k: nat)
    requires k < |files| && !Acceptable(files[k])
    requires forall i :: 0 <= i < k ==> Acceptable(files[i])
    ensures FirstFileError(files) == FileError(files[k])
    decreases k
  {
    if k > 0 {
      assert forall i :: 0 <= i < k - 1 ==> files[1..][i] == files[i + 1];
      FirstRejectedDecides(files[1..], k - 1);
    }
  }

  /**
   * `os.path.join(dir, name)` on POSIX for a directory with no trailing `/`:
   * a name starting with `/` replaces the directory.
   */
  function JoinPath(dir: string, name: string): (r: string)
    ensures name != [] && name[0] == '/' ==> r == name
    ensures (name == [] || name[0] != '/') ==> r == dir + "/" + name
  {
    if name != [] && name[0] == '/' then name else dir + "/" + name
  }

  /** Where an upload is saved: `uploads/<job id>_<file name>`. */
  function SavedPath(jobId: string, filename: string): string {
    JoinPath(UploadDir, jobId + "_" + filename)
  }

  function SavedFiles(jobId: string, files: seq<Upload>): (r: seq<FileInfo>)
    ensures |r| == |files|
    ensures forall i :: 0 <= i < |r| ==>
      r[i] == FileInfo(files[i].filename, SavedPath(jobId, files[i].filename), files[i].size)
  {
    seq(|files|, i requires 0 <= i < |files| =>
      FileInfo(files[i].filename, SavedPath(jobId, files[i].filename), files[i].size))
  }

  const UploadedMessage := "Files uploaded, processing started"

  /** The record an accepted upload creates. */
  function NewJob(jobId: string, files: seq<Upload>): (j: Job)
    ensures j.status == Pending && j.progress == 0 && j.filesProcessed == 0
    ensures j.totalFiles == |files| == |j.files|
    ensures j.message == UploadedMessage
    ensures forall i :: 0 <= i < |files| ==> j.files[i].filename == files[i].filename && j.files[i].size == files[i].size
    ensures j.files == SavedFiles(jobId, files)
  {
    Job(Pending, 0, UploadedMessage, 0, |files|, SavedFiles(jobId, files))
  }

  /** A saved path begins with the upload directory unless the job id itself starts with `/`. */
  lemma SavedPathInUploadDir(jobId: string, filename: string)
    requires jobId == [] || jobId[0] != '/'
    ensures var p := SavedPath(jobId, filename);
      |p| > |UploadDir| + 1 + |jobId| && p[..|UploadDir| + 1] == UploadDir + "/"
      && p[|UploadDir| + 1..] == jobId + "_" + filename
  {
    var name := jobId + "_" + filename;
    if jobId == [] {
      assert name[0] == '_';
    } else {
      assert name[0] == jobId[0];
    }
  }
}
