/** `process_documents_task`: the background run that extracts and chunks
    each uploaded file, stores the embeddings and reports progress through the
    job record.

    The run is described by the writes it makes to the record (see `Jobs`).
    The PDF reader, the splitter, the embedding model and the vector index are
    parameters. Reading a file is `extract`, applied to the saved path. The
    properties of a run are proved for any per-file reader and any store
    outcome, then instantiated with `process_pdf` and `store_embeddings`. */
module Ingestion {
  import opened Wrappers
  import opened Jobs
  import TextCleaning
  import Documents
  import Vectors

  datatype Services = Services(
    isWord: TextCleaning.WordClass,
    split: Documents.Splitter,
    extract: string -> Documents.Extraction,
    embed: Vectors.Embedder,
    upsert: Vectors.Upserter)

  /** What reading one file gives: its chunks, or the text of the error raised. */
  type Reader = FileInfo -> Result<seq<Documents.Chunk>, string>

  /** What storing the chunks gives: `None`, or the text of the error raised. */
  type Store = seq<Documents.Chunk> -> Option<string>

  /** `doc_processor.process_pdf(path, filename)` for one saved file. */
  function ProcessFile(sv: Services, f: FileInfo): Result<seq<Documents.Chunk>, string> {
    Documents.ProcessPdf(sv.isWord, sv.split, sv.extract(f.path), f.filename)
  }

  /** `int((idx / n) * 50)`, read as exact arithmetic. */
  function FileProgress(idx: nat, n: nat): (p: nat)
    requires idx < n
    ensures p < 50
  {
    idx * 50 / n
  }

  lemma {:induction false} MulMonotone(a: nat, b: nat, n: nat)
    requires a <= b
    ensures a * n <= b * n
    decreases b - a
  {
    if a < b {
      MulMonotone(a, b - 1, n);
      assert b * n == (b - 1) * n + n;
    }
  }

  lemma DivMonotone(x: nat, y: nat, n: nat)
    requires x <= y && n > 0
    ensures x / n <= y / n
  {
    var a, b := x / n, y / n;
    assert a * n <= x;
    assert y < (b + 1) * n;
    if a > b {
      MulMonotone(b + 1, a, n);
    }
  }

  /** Later files never report less progress. */
  lemma FileProgressMonotone(a: nat, b: nat, n: nat)
    requires a <= b < n
    ensures FileProgress(a, n) <= FileProgress(b, n)
  {
    MulMonotone(a, b, 50);
    DivMonotone(a * 50, b * 50, n);
  }

  const StartMessage := "Extracting text from PDFs"
  const EmbedMessage := "Generating embeddings"
  const DoneMessage := "Processing completed successfully"
  const ProcessingPrefix := "Processing "
  const FailurePrefix := "Error: "
  const EmbedProgress := 60

  const StartWrites := [SetStatus(Processing), SetMessage(StartMessage)]
  const EmbedWrites := [SetProgress(EmbedProgress), SetMessage(EmbedMessage)]
  const CompleteWrites := [SetStatus(Completed), SetProgress(100), SetMessage(DoneMessage)]

  function FailWrites(e: string): seq<Write> {
    [SetStatus(Failed), SetMessage(FailurePrefix + e)]
  }

  /** The writes made before file `idx` is read. */
  function FileStartWrites(files: seq<FileInfo>, idx: nat): seq<Write>
    requires idx < |files|
  {
    [SetProgress(FileProgress(idx, |files|)), SetMessage(ProcessingPrefix + files[idx].filename)]
  }

  /** The outcome of the loop over the files: the writes it made and either
      the chunks of every file in order or the error that stopped it. */
  datatype LoopOutcome = LoopOutcome(writes: seq<Write>, chunks: Result<seq<Documents.Chunk>, string>)

  /** The loop from file `idx` on, with the chunks of the earlier files in `acc`. */
  function FileLoop(read: Reader, files: seq<FileInfo>, idx: nat, acc: seq<Documents.Chunk>): LoopOutcome
    requires idx <= |files|
    decreases |files| - idx
  {
    if idx == |files| then LoopOutcome([], Success(acc))
    else
      match read(files[idx])
      case Failure(e) => LoopOutcome(FileStartWrites(files, idx), Failure(e))
      case Success(cs) =>
        var rest := FileLoop(read, files, idx + 1, acc + cs);
        LoopOutcome(FileStartWrites(files, idx) + [SetFilesProcessed(idx + 1)] + rest.writes, rest.chunks)
  }

  /** The chunks of files `idx` onwards, in file order, or the first error. */
  function ChunksFrom(read: Reader, files: seq<FileInfo>, idx: nat): Result<seq<Documents.Chunk>, string>
    requires idx <= |files|
    decreases |files| - idx
  {
    if idx == |files| then Success([])
    else
      match read(files[idx])
      case Failure(e) => Failure(e)
      case Success(cs) =>
        match ChunksFrom(read, files, idx + 1)
        case Failure(e) => Failure(e)
        case Success(more) => Success(cs + more)
  }

  /** Reading fails exactly when some file cannot be read, and the error is
      that of the first such file. */
  lemma {:induction false} ChunksFromFails(read: Reader, files: seq<FileInfo>, idx: nat)
    requires idx <= |files|
    ensures ChunksFrom(read, files, idx).Failure? <==> exists k :: idx <= k < |files| && read(files[k]).Failure?
    ensures ChunksFrom(read, files, idx).Failure? ==>
      exists k :: idx <= k < |files| && read(files[k]).Failure?
        && ChunksFrom(read, files, idx).error == read(files[k]).error
        && (forall i :: idx <= i < k ==> read(files[i]).Success?)
    decreases |files| - idx
  {
    if idx < |files| {
      ChunksFromFails(read, files, idx + 1);
      if read(files[idx]).Success? && ChunksFrom(read, files, idx + 1).Failure? {
        var k :| idx + 1 <= k < |files| && read(files[k]).Failure?
          && ChunksFrom(read, files, idx + 1).error == read(files[k]).error
          && (forall i :: idx + 1 <= i < k ==> read(files[i]).Success?);
        assert forall i :: idx <= i < k ==> read(files[i]).Success?;
      }
    }
  }

  /** The loop gathers what `ChunksFrom` describes. Its progress writes are
      sorted from `lo`, below 50, and it never writes the status. */
  lemma FileLoopOutcome(read: Reader, files: seq<FileInfo>, idx: nat, acc: seq<Documents.Chunk>, lo: nat)
    requires idx <= |files|
    requires idx < |files| ==> lo <= FileProgress(idx, |files|)
    ensures var r := FileLoop(read, files, idx, acc);
      && (ChunksFrom(read, files, idx).Success? ==> r.chunks == Success(acc + ChunksFrom(read, files, idx).value))
      && (ChunksFrom(read, files, idx).Failure? ==> r.chunks == ChunksFrom(read, files, idx))
      && ProgressSorted(lo, r.writes)
      && WritesBelow(r.writes, 50)
      && (forall i :: 0 <= i < |r.writes| ==> !r.writes[i].SetStatus?)
  {
    FileLoopChunks(read, files, idx, acc);
    FileLoopWrites(read, files, idx, acc, lo);
  }

  /** The loop's chunks are those of `ChunksFrom` after `acc`, or its error. */
  lemma {:induction false} FileLoopChunks(read: Reader, files: seq<FileInfo>, idx: nat, acc: seq<Documents.Chunk>)
    requires idx <= |files|
    ensures var r := FileLoop(read, files, idx, acc);
      && (ChunksFrom(read, files, idx).Success? ==> r.chunks == Success(acc + ChunksFrom(read, files, idx).value))
      && (ChunksFrom(read, files, idx).Failure? ==> r.chunks == ChunksFrom(read, files, idx))
    decreases |files| - idx
  {
    if idx < |files| {
      match read(files[idx])
      case Failure(e) =>
      case Success(cs) =>
        FileLoopChunks(read, files, idx + 1, acc + cs);
        if ChunksFrom(read, files, idx + 1).Success? {
          assert acc + cs + ChunksFrom(read, files, idx + 1).value == acc + (cs + ChunksFrom(read, files, idx + 1).value);
        }
    } else {
      assert acc + [] == acc;
    }
  }

  /** The loop's progress writes are sorted from `lo` and below 50, and it
      never writes the status. */
  lemma {:induction false} FileLoopWrites(read: Reader, files: seq<FileInfo>, idx: nat, acc: seq<Documents.Chunk>, lo: nat)
    requires idx <= |files|
    requires idx < |files| ==> lo <= FileProgress(idx, |files|)
    ensures var ws := FileLoop(read, files, idx, acc).writes;
      && ProgressSorted(lo, ws)
      && WritesBelow(ws, 50)
      && (forall i :: 0 <= i < |ws| ==> !ws[i].SetStatus?)
    decreases |files| - idx
  {
    var r := FileLoop(read, files, idx, acc);
    if idx < |files| {
      var p := FileProgress(idx, |files|);
      var m := ProcessingPrefix + files[idx].filename;
      match read(files[idx])
      case Failure(e) =>
        AnnounceSorted(lo, p, m, []);
        assert r.writes == [SetProgress(p), SetMessage(m)] + [];
      case Success(cs) =>
        if idx + 1 < |files| {
          FileProgressMonotone(idx, idx + 1, |files|);
        }
        FileLoopWrites(read, files, idx + 1, acc + cs, p);
        var rest := FileLoop(read, files, idx + 1, acc + cs);
        var tail := [SetFilesProcessed(idx + 1)] + rest.writes;
        assert tail[1..] == rest.writes;
        assert forall i :: 1 <= i < |tail| ==> tail[i] == rest.writes[i - 1];
        AnnounceSorted(lo, p, m, tail);
        assert r.writes == [SetProgress(p), SetMessage(m)] + tail;
    }
  }

  /** Announcing a file at progress `p` and going on with writes sorted from
      `p` keeps the writes sorted from `lo`, below 50 and free of status writes. */
  lemma AnnounceSorted(lo: nat, p: nat, m: string, tail: seq<Write>)
    requires lo <= p < 50
    requires ProgressSorted(p, tail) && WritesBelow(tail, 50)
    requires forall i :: 0 <= i < |tail| ==> !tail[i].SetStatus?
    ensures var ws := [SetProgress(p), SetMessage(m)] + tail;
      && ProgressSorted(lo, ws) && WritesBelow(ws, 50)
      && (forall i :: 0 <= i < |ws| ==> !ws[i].SetStatus?)
  {
    var ws := [SetProgress(p), SetMessage(m)] + tail;
    assert ws[1..][1..] == tail;
    forall i | 2 <= i < |ws|
      ensures ws[i] == tail[i - 2]
    {
    }
  }

  /** The file count the loop leaves: every file when it gets through them
      all, otherwise the files before the failing one. */
  lemma FileLoopCount(read: Reader, files: seq<FileInfo>, idx: nat, acc: seq<Documents.Chunk>, j: Job)
    requires idx <= |files|
    requires idx > 0 ==> j.filesProcessed == idx
    ensures var r := FileLoop(read, files, idx, acc);
      && (r.chunks.Success? ==> After(j, r.writes).filesProcessed == (if idx < |files| then |files| else j.filesProcessed))
      && (r.chunks.Failure? ==>
            exists k :: idx <= k < |files| && read(files[k]).Failure?
              && (forall i :: idx <= i < k ==> read(files[i]).Success?)
              && After(j, r.writes).filesProcessed == (if k == 0 then j.filesProcessed else k))
  {
    if FileLoop(read, files, idx, acc).chunks.Success? {
      FileLoopDoneCount(read, files, idx, acc, j);
    } else {
      FileLoopFailCount(read, files, idx, acc, j);
    }
  }

  /** A loop that gets through its files leaves every file counted. */
  lemma {:induction false} FileLoopDoneCount(read: Reader, files: seq<FileInfo>, idx: nat, acc: seq<Documents.Chunk>, j: Job)
    requires idx <= |files|
    requires idx > 0 ==> j.filesProcessed == idx
    requires FileLoop(read, files, idx, acc).chunks.Success?
    ensures After(j, FileLoop(read, files, idx, acc).writes).filesProcessed ==
      (if idx < |files| then |files| else j.filesProcessed)
    decreases |files| - idx
  {
    if idx < |files| {
      var cs := read(files[idx]).value;
      var pre := FileStartWrites(files, idx) + [SetFilesProcessed(idx + 1)];
      StepCount(j, files, idx, FileLoop(read, files, idx + 1, acc + cs).writes);
      FileLoopDoneCount(read, files, idx + 1, acc + cs, After(j, pre));
    }
  }

  /** A loop that stops at an unreadable file leaves the files before it
      counted, and every file before it was read. */
  lemma {:induction false} FileLoopFailCount(read: Reader, files: seq<FileInfo>, idx: nat, acc: seq<Documents.Chunk>, j: Job)
    requires idx <= |files|
    requires idx > 0 ==> j.filesProcessed == idx
    requires FileLoop(read, files, idx, acc).chunks.Failure?
    ensures exists k ::
      && idx <= k < |files| && read(files[k]).Failure?
      && (forall i :: idx <= i < k ==> read(files[i]).Success?)
      && After(j, FileLoop(read, files, idx, acc).writes).filesProcessed == (if k == 0 then j.filesProcessed else k)
    decreases |files| - idx
  {
    match read(files[idx])
    case Failure(e) =>
      StartCount(j, files, idx);
      assert read(files[idx]).Failure?;
    case Success(cs) =>
      var pre := FileStartWrites(files, idx) + [SetFilesProcessed(idx + 1)];
      var rest := FileLoop(read, files, idx + 1, acc + cs);
      StepCount(j, files, idx, rest.writes);
      FileLoopFailCount(read, files, idx + 1, acc + cs, After(j, pre));
      var k :| idx + 1 <= k < |files| && read(files[k]).Failure?
        && (forall i :: idx + 1 <= i < k ==> read(files[i]).Success?)
        && After(After(j, pre), rest.writes).filesProcessed == k;
      assert forall i :: idx <= i < k ==> read(files[i]).Success?;
  }

  /** Announcing a file leaves the count alone. */
  lemma StartCount(j: Job, files: seq<FileInfo>, idx: nat)
    requires idx < |files|
    ensures After(j, FileStartWrites(files, idx)).filesProcessed == j.filesProcessed
  {
    var head := FileStartWrites(files, idx);
    TraceOfTwo(j, head[0], head[1]);
    assert head == [head[0], head[1]];
  }

  /** A file read successfully is counted before the loop goes on. */
  lemma StepCount(j: Job, files: seq<FileInfo>, idx: nat, tail: seq<Write>)
    requires idx < |files|
    ensures var pre := FileStartWrites(files, idx) + [SetFilesProcessed(idx + 1)];
      && After(j, pre).filesProcessed == idx + 1
      && After(j, pre + tail) == After(After(j, pre), tail)
  {
    var head := FileStartWrites(files, idx);
    var pre := head + [SetFilesProcessed(idx + 1)];
    TraceAppend(j, pre, tail);
    assert pre == [head[0], head[1], SetFilesProcessed(idx + 1)];
    TraceOfThree(j, head[0], head[1], SetFilesProcessed(idx + 1));
  }

  /** The writes after the loop: the failure report, or the embedding phase and its outcome. */
  function TailWrites(chunks: Result<seq<Documents.Chunk>, string>, store: Store): seq<Write> {
    match chunks
    case Failure(e) => FailWrites(e)
    case Success(cs) =>
      match store(cs)
      case Some(e) => EmbedWrites + FailWrites(e)
      case None => EmbedWrites + CompleteWrites
  }

  /** The writes of a run, given the loop's outcome and the store. */
  function RunWrites(loop: LoopOutcome, store: Store): seq<Write> {
    StartWrites + loop.writes + TailWrites(loop.chunks, store)
  }

  /** The error that ends a run, if any: the first unreadable file's, else the store's. */
  function RunError(read: Reader, store: Store, files: seq<FileInfo>): Option<string> {
    match ChunksFrom(read, files, 0)
    case Failure(e) => Some(e)
    case Success(chunks) => store(chunks)
  }

  /** Along the trace, progress never decreases and is below 100 until the
      status is `completed`; the first state of the trace is `processing`. */
  predicate WellReported(start: Job, t: seq<Job>) {
    && NonDecreasingFrom(start.progress, t)
    && (forall i :: 0 <= i < |t| && t[i].progress == 100 ==> t[i].status == Completed)
    && (t != [] ==> t[0].status == Processing)
  }

  /** Every run is well reported from a fresh job, and ends in a terminal state:
      completed with progress 100, every file counted and the success message,
      or failed with `"Error: "` and the error, progress below 100 and the
      files read before the failing one counted. The file list is never touched. */
  lemma RunOutcome(j: Job, read: Reader, store: Store, files: seq<FileInfo>)
    requires j.progress == 0 && j.filesProcessed == 0
    ensures var ws := RunWrites(FileLoop(read, files, 0, []), store);
      var r := After(j, ws);
      && WellReported(j, Trace(j, ws))
      && r.totalFiles == j.totalFiles && r.files == j.files
      && (RunError(read, store, files).None? ==>
            r.status == Completed && r.progress == 100 && r.message == DoneMessage && r.filesProcessed == |files|)
      && (RunError(read, store, files).Some? ==>
            r.status == Failed && r.progress < 100 && r.message == FailurePrefix + RunError(read, store, files).value)
      && (ChunksFrom(read, files, 0).Failure? ==>
            exists k :: 0 <= k < |files| && read(files[k]).Failure?
              && (forall i :: 0 <= i < k ==> read(files[i]).Success?) && r.filesProcessed == k)
      && (ChunksFrom(read, files, 0).Success? && RunError(read, store, files).Some? ==>
            r.progress == EmbedProgress && r.filesProcessed == |files|)
  {
    RunReport(j, read, store, files);
    RunResult(j, read, store, files);
  }

  /** The trace of every run is well reported, and the file list is untouched. */
  lemma RunReport(j: Job, read: Reader, store: Store, files: seq<FileInfo>)
    requires j.progress == 0
    ensures var ws := RunWrites(FileLoop(read, files, 0, []), store);
      && WellReported(j, Trace(j, ws))
      && After(j, ws).totalFiles == j.totalFiles && After(j, ws).files == j.files
  {
    var loop := FileLoop(read, files, 0, []);
    var pre := StartWrites + loop.writes;
    var tail := TailWrites(loop.chunks, store);
    TraceKeepsFiles(j, pre + tail);
    FileLoopWrites(read, files, 0, [], 0);
    PrefixWellReported(j, loop.writes);
    TraceAppend(j, pre, tail);
    var j1 := After(j, pre);
    match loop.chunks
    case Failure(e) =>
      FailTail(j1, e);
      AppendWellReported(j, pre, tail);
    case Success(cs) =>
      match store(cs)
      case Some(e) =>
        EmbedFailTail(j1, e);
        AppendWellReported(j, pre, tail);
      case None =>
        CompletionTail(j1);
        AppendWellReported(j, pre, tail);
  }

  /** How a run ends: its final status, progress, message and file count. */
  lemma RunResult(j: Job, read: Reader, store: Store, files: seq<FileInfo>)
    requires j.progress == 0 && j.filesProcessed == 0
    ensures var r := After(j, RunWrites(FileLoop(read, files, 0, []), store));
      && (RunError(read, store, files).None? ==>
            r.status == Completed && r.progress == 100 && r.message == DoneMessage && r.filesProcessed == |files|)
      && (RunError(read, store, files).Some? ==>
            r.status == Failed && r.progress < 100 && r.message == FailurePrefix + RunError(read, store, files).value)
      && (ChunksFrom(read, files, 0).Failure? ==>
            exists k :: 0 <= k < |files| && read(files[k]).Failure?
              && (forall i :: 0 <= i < k ==> read(files[i]).Success?) && r.filesProcessed == k)
      && (ChunksFrom(read, files, 0).Success? && RunError(read, store, files).Some? ==>
            r.progress == EmbedProgress && r.filesProcessed == |files|)
  {
    var loop := FileLoop(read, files, 0, []);
    var pre := StartWrites + loop.writes;
    var tail := TailWrites(loop.chunks, store);
    FileLoopOutcome(read, files, 0, [], 0);
    PrefixWellReported(j, loop.writes);
    PrefixCount(j, read, files);
    TraceAppend(j, pre, tail);
    var j1 := After(j, pre);
    match loop.chunks
    case Failure(e) =>
      FailTail(j1, e);
    case Success(cs) =>
      assert [] + ChunksFrom(read, files, 0).value == ChunksFrom(read, files, 0).value;
      match store(cs)
      case Some(e) =>
        EmbedFailTail(j1, e);
      case None =>
        CompletionTail(j1);
  }

  /** The file count after the start and the loop. */
  lemma PrefixCount(j: Job, read: Reader, files: seq<FileInfo>)
    requires j.filesProcessed == 0
    ensures var loop := FileLoop(read, files, 0, []);
      var r := After(j, StartWrites + loop.writes);
      && (loop.chunks.Success? ==> r.filesProcessed == |files|)
      && (loop.chunks.Failure? ==>
            exists k :: 0 <= k < |files| && read(files[k]).Failure?
              && (forall i :: 0 <= i < k ==> read(files[i]).Success?) && r.filesProcessed == k)
  {
    var loop := FileLoop(read, files, 0, []);
    TraceOfTwo(j, SetStatus(Processing), SetMessage(StartMessage));
    TraceAppend(j, StartWrites, loop.writes);
    FileLoopCount(read, files, 0, [], After(j, StartWrites));
  }

  /** The status is written before the progress, so the write sequence of a
      successful run has a state that is already `completed` but still at
      progress 60: along the trace, `completed` does not imply progress 100.
      A status request could read that state only if the run yielded between
      those two writes; the final state has both (`FinalHundredIffCompleted`). */
  lemma TraceCompletedAtSixty(j: Job, read: Reader, store: Store, files: seq<FileInfo>)
    requires RunError(read, store, files).None?
    ensures var t := Trace(j, RunWrites(FileLoop(read, files, 0, []), store));
      exists i :: 0 <= i < |t| && t[i].status == Completed && t[i].progress == EmbedProgress
  {
    var loop := FileLoop(read, files, 0, []);
    var pre := StartWrites + loop.writes;
    FileLoopOutcome(read, files, 0, [], 0);
    assert loop.chunks.Success?;
    assert [] + ChunksFrom(read, files, 0).value == ChunksFrom(read, files, 0).value;
    var tail := TailWrites(loop.chunks, store);
    assert tail == EmbedWrites + CompleteWrites;
    TraceAppend(j, pre, tail);
    var j1 := After(j, pre);
    TraceOfTwo(j1, SetProgress(EmbedProgress), SetMessage(EmbedMessage));
    TraceAppend(j1, EmbedWrites, CompleteWrites);
    TraceOfThree(After(j1, EmbedWrites), SetStatus(Completed), SetProgress(100), SetMessage(DoneMessage));
    var t := Trace(j, pre + tail);
    assert t[|pre| + 2] == Trace(j1, tail)[2];
  }

  /** Once a run from a fresh job is over, progress 100 and `completed` go
      together: a success writes both, and a failure leaves progress below 100. */
  lemma FinalHundredIffCompleted(j: Job, read: Reader, store: Store, files: seq<FileInfo>)
    requires j.progress == 0 && j.filesProcessed == 0
    ensures var r := After(j, RunWrites(FileLoop(read, files, 0, []), store));
      r.progress == 100 <==> r.status == Completed
  {
    RunResult(j, read, store, files);
  }

  /** The start and the loop are well reported and leave progress below 50. */
  lemma PrefixWellReported(j: Job, loopWrites: seq<Write>)
    requires j.progress == 0
    requires ProgressSorted(0, loopWrites) && WritesBelow(loopWrites, 50)
    requires forall i :: 0 <= i < |loopWrites| ==> !loopWrites[i].SetStatus?
    ensures WellReported(j, Trace(j, StartWrites + loopWrites))
    ensures After(j, StartWrites + loopWrites).progress < 50
    ensures After(j, StartWrites + loopWrites).status == Processing
  {
    var ws := StartWrites + loopWrites;
    var j0 := After(j, StartWrites);
    TraceOfTwo(j, SetStatus(Processing), SetMessage(StartMessage));
    assert LastProgress(0, StartWrites[1..][1..]) == 0;
    assert LastProgress(0, StartWrites[1..]) == 0;
    assert LastProgress(0, StartWrites) == 0;
    assert ProgressSorted(0, StartWrites[1..]);
    ProgressSortedAppend(0, StartWrites, loopWrites);
    SortedWritesNonDecreasing(j, ws);
    TraceAppend(j, StartWrites, loopWrites);
    ProgressStaysBelow(j0, loopWrites, 50);
    StatusUnwritten(j0, loopWrites);
    var t := Trace(j, ws);
    forall i | 0 <= i < |t|
      ensures t[i].progress < 50
    {
      if i >= 2 {
        assert t[i] == Trace(j0, loopWrites)[i - 2];
      }
    }
  }

  /** The embedding phase and a completed run, from a job still processing below 50. */
  lemma CompletionTail(j: Job)
    requires j.status == Processing && j.progress < 50
    ensures var t := Trace(j, EmbedWrites + CompleteWrites);
      && NonDecreasingFrom(j.progress, t)
      && (forall i :: 0 <= i < |t| && t[i].progress == 100 ==> t[i].status == Completed)
      && t[2].status == Completed && t[2].progress == EmbedProgress
    ensures After(j, EmbedWrites + CompleteWrites) == j.(status := Completed, progress := 100, message := DoneMessage)
  {
    CompletionStates(j, EmbedMessage, DoneMessage);
  }

  /** `CompletionTail` for any two messages. */
  lemma CompletionStates(j: Job, embedMsg: string, doneMsg: string)
    requires j.progress < 50
    ensures var ws := [SetProgress(EmbedProgress), SetMessage(embedMsg)] + [SetStatus(Completed), SetProgress(100), SetMessage(doneMsg)];
      var t := Trace(j, ws);
      && NonDecreasingFrom(j.progress, t)
      && (forall i :: 0 <= i < |t| && t[i].progress == 100 ==> t[i].status == Completed)
      && t[2].status == Completed && t[2].progress == EmbedProgress
      && After(j, ws) == j.(status := Completed, progress := 100, message := doneMsg)
  {
    var a := [SetProgress(EmbedProgress), SetMessage(embedMsg)];
    var b := [SetStatus(Completed), SetProgress(100), SetMessage(doneMsg)];
    var j2 := j.(progress := EmbedProgress, message := embedMsg);
    var t := [j.(progress := EmbedProgress), j2, j2.(status := Completed),
              j2.(status := Completed, progress := 100),
              j2.(status := Completed, progress := 100, message := doneMsg)];
    assert Trace(j, a + b) == t && After(j, a + b) == t[4] by {
      TraceAppend(j, a, b);
      TraceOfTwo(j, a[0], a[1]);
      TraceOfThree(After(j, a), b[0], b[1], b[2]);
    }
    StepwiseNonDecreasing(j.progress, t);
  }

  /** A failure reported straight after the loop. */
  lemma FailTail(j: Job, e: string)
    requires j.progress < 50
    ensures var t := Trace(j, FailWrites(e));
      && NonDecreasingFrom(j.progress, t)
      && (forall i :: 0 <= i < |t| ==> t[i].progress < 50)
    ensures After(j, FailWrites(e)) == j.(status := Failed, message := FailurePrefix + e)
  {
    TraceOfTwo(j, SetStatus(Failed), SetMessage(FailurePrefix + e));
  }

  /** A failure reported after the embedding phase began. */
  lemma EmbedFailTail(j: Job, e: string)
    requires j.progress < 50
    ensures var t := Trace(j, EmbedWrites + FailWrites(e));
      && NonDecreasingFrom(j.progress, t)
      && (forall i :: 0 <= i < |t| ==> t[i].progress == EmbedProgress)
    ensures After(j, EmbedWrites + FailWrites(e)) == j.(status := Failed, progress := EmbedProgress, message := FailurePrefix + e)
  {
    EmbedFailStates(j, EmbedMessage, FailurePrefix + e);
  }

  /** `EmbedFailTail` for any two messages. */
  lemma EmbedFailStates(j: Job, embedMsg: string, failMsg: string)
    requires j.progress < 50
    ensures var ws := [SetProgress(EmbedProgress), SetMessage(embedMsg)] + [SetStatus(Failed), SetMessage(failMsg)];
      var t := Trace(j, ws);
      && NonDecreasingFrom(j.progress, t)
      && (forall i :: 0 <= i < |t| ==> t[i].progress == EmbedProgress)
      && After(j, ws) == j.(status := Failed, progress := EmbedProgress, message := failMsg)
  {
    var a := [SetProgress(EmbedProgress), SetMessage(embedMsg)];
    var b := [SetStatus(Failed), SetMessage(failMsg)];
    var j2 := j.(progress := EmbedProgress, message := embedMsg);
    var t := [j.(progress := EmbedProgress), j2, j2.(status := Failed), j2.(status := Failed, message := failMsg)];
    assert Trace(j, a + b) == t && After(j, a + b) == t[3] by {
      TraceAppend(j, a, b);
      TraceOfTwo(j, a[0], a[1]);
      TraceOfTwo(After(j, a), b[0], b[1]);
    }
    StepwiseNonDecreasing(j.progress, t);
  }

  /** A well-reported prefix followed by a tail that does not go back below
      where the prefix stopped, and reaches 100 only when completed, is well reported. */
  lemma AppendWellReported(j: Job, a: seq<Write>, b: seq<Write>)
    requires WellReported(j, Trace(j, a)) && a != []
    requires After(j, a).progress >= j.progress
    requires NonDecreasingFrom(After(j, a).progress, Trace(After(j, a), b))
    requires forall i :: 0 <= i < |b| && Trace(After(j, a), b)[i].progress == 100 ==> Trace(After(j, a), b)[i].status == Completed
    ensures WellReported(j, Trace(j, a + b))
  {
    TraceAppend(j, a, b);
    TraceEndsAtAfter(j, a);
    var ta, tb := Trace(j, a), Trace(After(j, a), b);
    var t := ta + tb;
    forall i, k | 0 <= i < k < |t|
      ensures t[i].progress <= t[k].progress
    {
      if k >= |ta| {
        assert t[k] == tb[k - |ta|];
        if i < |ta| {
          assert ta[i].progress <= ta[|ta| - 1].progress;
        }
      }
    }
  }

  /** `process_documents_task` on one job record. */
  function TaskWrites(sv: Services, jobId: string, files: seq<FileInfo>): seq<Write> {
    RunWrites(FileLoop(f => ProcessFile(sv, f), files, 0, []),
              chunks => Vectors.StoreEmbeddings(chunks, jobId, sv.embed, sv.upsert))
  }

  function TaskError(sv: Services, jobId: string, files: seq<FileInfo>): Option<string> {
    RunError(f => ProcessFile(sv, f), chunks => Vectors.StoreEmbeddings(chunks, jobId, sv.embed, sv.upsert), files)
  }

  /** The run of the service: well reported, terminal, and failed exactly when
      some file cannot be read or the chunks cannot be stored. */
  lemma TaskOutcome(j: Job, sv: Services, jobId: string, files: seq<FileInfo>)
    requires j.progress == 0 && j.filesProcessed == 0
    ensures var r := After(j, TaskWrites(sv, jobId, files));
      && WellReported(j, Trace(j, TaskWrites(sv, jobId, files)))
      && r.totalFiles == j.totalFiles && r.files == j.files
      && (r.status == Completed || r.status == Failed)
      && (r.status == Completed <==> TaskError(sv, jobId, files).None?)
      && (r.status == Completed ==> r.progress == 100 && r.filesProcessed == |files| && r.message == DoneMessage)
      && (r.status == Failed ==> r.progress < 100 && r.message == FailurePrefix + TaskError(sv, jobId, files).value)
  {
    RunOutcome(j, f => ProcessFile(sv, f), chunks => Vectors.StoreEmbeddings(chunks, jobId, sv.embed, sv.upsert), files);
  }

  /** A file that cannot be read fails the run, whatever the other files and the store do. */
  lemma UnreadableFileFailsTask(j: Job, sv: Services, jobId: string, files: seq<FileInfo>, k: nat)
    requires j.progress == 0 && j.filesProcessed == 0
    requires k < |files| && ProcessFile(sv, files[k]).Failure?
    ensures After(j, TaskWrites(sv, jobId, files)).status == Failed
  {
    var read: Reader := f => ProcessFile(sv, f);
    ChunksFromFails(read, files, 0);
    RunOutcome(j, read, chunks => Vectors.StoreEmbeddings(chunks, jobId, sv.embed, sv.upsert), files);
  }
}
