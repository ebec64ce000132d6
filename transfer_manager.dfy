/** FileTransferManager: the batch loop of startSendingFiles (one sendFile per file, in array
    order, isLastFile for the final one, overall progress, status lines, onComplete), the
    address-based deduplication of startDiscovery over Sender.peerListener, and getFileInfo. */
module TransferManager {
  import opened JavaInts
  import opened Wrappers
  import opened Text
  import opened Progress
  import opened Wire
  import opened ChunkPlanner
  import opened SenderSide

  /** A file picked for sending: whether it exists and can be read, its name, its bytes, and
      what the network does while it is sent. */
  datatype SourceFile = SourceFile(name: string, readable: bool, content: seq<byte>, link: Link)

  /** Why a batch stops: a file that cannot be read, or a sendFile that threw. */
  datatype BatchError =
    | Unreadable(index: nat, fileName: string)
    | SendFailed(index: nat, fileName: string, error: SendError)

  /** The status lines startSendingFiles itself reports (sendFile's own lines are not part of
      this model). */
  datatype Status =
    | Starting
    | SendingFile(name: string)
    | CompletedFiles(done: nat, total: nat)
    | Failed(error: BatchError)

  /** "Completed %d of %d files". */
  function CompletedText(done: nat, total: nat): string
  {
    "Completed " + Decimal(done) + " of " + Decimal(total) + " files"
  }

  /** The text handed to statusCallback. For a failed sendFile the text ends in the message of
      the wrapped exception, which this model does not carry. */
  function StatusText(s: Status): (t: string)
    requires !(s.Failed? && s.error.SendFailed?)
  {
    match s
    case Starting => "Starting file transfer..."
    case SendingFile(name) => "Sending file: " + name
    case CompletedFiles(done, total) => CompletedText(done, total)
    case Failed(error) => "Error: Cannot read file: " + error.fileName
  }

  /** A "Completed" line names exactly one count and one total. */
  lemma CompletedTextInjective(a: nat, b: nat, c: nat, d: nat)
    requires CompletedText(a, b) == CompletedText(c, d)
    ensures a == c && b == d
  {
    TwoNumbers("Completed ", Decimal(a), " of ", Decimal(b), " files", Decimal(c), Decimal(d));
    DecimalInjective(a, c);
    DecimalInjective(b, d);
  }

  /** Text, digits, text starting with a space, digits, text starting with a space: the two runs
      of digits are determined by the whole. */
  lemma TwoNumbers(p: string, x1: string, q: string, y1: string, e: string, x2: string, y2: string)
    requires IsDigits(x1) && IsDigits(y1) && IsDigits(x2) && IsDigits(y2)
    requires |q| > 0 && q[0] == ' ' && |e| > 0 && e[0] == ' '
    requires p + x1 + q + y1 + e == p + x2 + q + y2 + e
    ensures x1 == x2 && y1 == y2
  {
    var s, t := p + x1 + q + y1 + e, p + x2 + q + y2 + e;
    assert s == p + (x1 + (q + y1 + e));
    assert t == p + (x2 + (q + y2 + e));
    assert s[|p|..] == x1 + (q + y1 + e);
    assert t[|p|..] == x2 + (q + y2 + e);
    DigitsThenSpace(x1, q + y1 + e, x2, q + y2 + e);
    assert (q + y1 + e)[|q|..] == y1 + e;
    assert (q + y2 + e)[|q|..] == y2 + e;
    DigitsThenSpace(y1, e, y2, e);
  }

  /** Two runs of digits each followed by text that starts with a space are equal when the
      whole strings are. */
  lemma DigitsThenSpace(x: string, rx: string, y: string, ry: string)
    requires IsDigits(x) && IsDigits(y) && |rx| > 0 && |ry| > 0 && rx[0] == ' ' && ry[0] == ' '
    requires x + rx == y + ry
    ensures x == y && rx == ry
  {
    var s := x + rx;
    assert forall k :: 0 <= k < |x| ==> s[k] == x[k];
    assert s[|x|] == ' ';
    assert forall k :: 0 <= k < |y| ==> s[k] == y[k];
    assert s[|y|] == ' ';
    if |x| != |y| {
      assert false;
    }
    assert x == s[..|x|];
    assert y == s[..|y|];
    assert rx == s[|x|..];
    assert ry == (y + ry)[|y|..];
  }

  /** sendFile's preconditions hold for the file if it is readable. */
  predicate FileReady(f: SourceFile, processors: nat)
  {
    f.readable ==> Announceable(f.content, f.name, processors) && Scripted(f.content, f.name, processors, f.link)
  }

  /** sendFile's preconditions hold for every readable file of the batch. */
  predicate Prepared(files: seq<SourceFile>, processors: nat)
  {
    forall i {:trigger FileReady(files[i], processors)} :: 0 <= i < |files| ==> FileReady(files[i], processors)
  }

  /** How file i ends: it cannot be read, or its sendFile (as the last file exactly when i is
      files.length - 1) throws or returns. */
  function FileResult(files: seq<SourceFile>, processors: nat, i: nat): Result<(), BatchError>
    requires Prepared(files, processors) && i < |files|
  {
    var f := files[i];
    assert FileReady(f, processors);
    if !f.readable then Failure(Unreadable(i, f.name))
    else match SendOutcome(f.content, f.name, processors, f.link, i == |files| - 1)
      case Failure(e) => Failure(SendFailed(i, f.name, e))
      case Success(_) => Success(())
  }

  /** The results of the files, in order. */
  function FileResults(files: seq<SourceFile>, processors: nat): (r: seq<Result<(), BatchError>>)
    requires Prepared(files, processors)
    ensures |r| == |files|
  {
    seq(|files|, i requires 0 <= i < |files| => FileResult(files, processors, i))
  }

  /** A file's result fails exactly when the file does not get through, and then names it. */
  lemma FileResultMeaning(files: seq<SourceFile>, processors: nat, i: nat)
    requires Prepared(files, processors) && i < |files|
    ensures FileResult(files, processors, i).Success? <==> FileSent(files, processors, i)
    ensures var r := FileResult(files, processors, i);
      r.Failure? ==>
        && r.error.index == i && r.error.fileName == files[i].name
        && (r.error.Unreadable? <==> !files[i].readable)
  {
  }

  /** File i gets through: it can be read and its sendFile returns normally. */
  predicate FileSent(files: seq<SourceFile>, processors: nat, i: nat)
    requires Prepared(files, processors) && i < |files|
  {
    assert FileReady(files[i], processors);
    files[i].readable
    && SendOutcome(files[i].content, files[i].name, processors, files[i].link, i == |files| - 1).Success?
  }

  /** The first file, from k on, whose result is a failure: the loop stops there. */
  function FirstFailure(results: seq<Result<(), BatchError>>, k: nat): (r: Option<nat>)
    requires k <= |results|
    ensures r.Some? ==>
      && k <= r.value < |results| && results[r.value].Failure?
      && forall i :: k <= i < r.value ==> results[i].Success?
    ensures r.None? ==> forall i :: k <= i < |results| ==> results[i].Success?
    decreases |results| - k
  {
    if k == |results| then None
    else if results[k].Failure? then Some(k)
    else FirstFailure(results, k + 1)
  }

  lemma {:induction false} FirstFailureSkips(results: seq<Result<(), BatchError>>, k: nat, i: nat)
    requires k <= i <= |results| && forall j :: k <= j < i ==> results[j].Success?
    ensures FirstFailure(results, k) == FirstFailure(results, i)
    decreases i - k
  {
    if k < i {
      FirstFailureSkips(results, k + 1, i);
    }
  }

  /** How the batch ends: the error of the first file that does not get through. */
  function BatchOutcome(files: seq<SourceFile>, processors: nat): Result<(), BatchError>
    requires Prepared(files, processors)
  {
    var results := FileResults(files, processors);
    match FirstFailure(results, 0)
    case None => Success(())
    case Some(i) => results[i]
  }

  /** The batch succeeds exactly when every file gets through; otherwise it names the first
      file that did not, and every file before that one got through. */
  lemma BatchOutcomeMeaning(files: seq<SourceFile>, processors: nat)
    requires Prepared(files, processors)
    ensures BatchOutcome(files, processors).Success? <==> forall i :: 0 <= i < |files| ==> FileSent(files, processors, i)
    ensures var r := BatchOutcome(files, processors);
      r.Failure? ==>
        && r.error.index < |files| && !FileSent(files, processors, r.error.index)
        && r.error.fileName == files[r.error.index].name
        && (r.error.Unreadable? <==> !files[r.error.index].readable)
        && forall i :: 0 <= i < r.error.index ==> FileSent(files, processors, i)
  {
    var results := FileResults(files, processors);
    forall i | 0 <= i < |files|
      ensures results[i] == FileResult(files, processors, i)
      ensures results[i].Success? <==> FileSent(files, processors, i)
    {
      FileResultMeaning(files, processors, i);
    }
    var first := FirstFailure(results, 0);
    if first.Some? {
      FileResultMeaning(files, processors, first.value);
    }
  }

  /** The lines reported for file k of n with result `r`: "Sending file" unless it cannot be
      read, then the error or "Completed k+1 of n files". */
  function FileStatuses(r: Result<(), BatchError>, name: string, k: nat, n: nat): (lines: seq<Status>)
  {
    match r
    case Failure(e) => if e.Unreadable? then [Failed(e)] else [SendingFile(name), Failed(e)]
    case Success(_) => [SendingFile(name), CompletedFiles(k + 1, n)]
  }

  /** The status lines of files 0 .. i - 1. */
  function StatusesUpTo(results: seq<Result<(), BatchError>>, names: seq<string>, i: nat): seq<Status>
    requires i <= |results| == |names|
  {
    if i == 0 then []
    else StatusesUpTo(results, names, i - 1) + FileStatuses(results[i - 1], names[i - 1], i - 1, |results|)
  }

  /** The names of files k, k + 1, ... in order. */
  function NamesFrom(files: seq<SourceFile>, k: nat): (r: seq<string>)
    requires k <= |files|
    ensures |r| == |files| - k
    decreases |files| - k
  {
    if k == |files| then [] else [files[k].name] + NamesFrom(files, k + 1)
  }

  lemma {:induction false} NamesAt(files: seq<SourceFile>, k: nat, i: nat)
    requires k <= i < |files|
    ensures NamesFrom(files, k)[i - k] == files[i].name
    decreases i - k
  {
    if k < i {
      NamesAt(files, k + 1, i);
    }
  }

  /** The status lines of a batch with these per-file results: those of every file up to the
      first failure, and the failure's own. */
  function BatchLines(results: seq<Result<(), BatchError>>, names: seq<string>): seq<Status>
    requires |results| == |names|
  {
    match FirstFailure(results, 0)
    case None => StatusesUpTo(results, names, |results|)
    case Some(i) => StatusesUpTo(results, names, i) + FileStatuses(results[i], names[i], i, |results|)
  }

  /** The status lines of the whole batch after "Starting file transfer...". */
  function BatchStatuses(files: seq<SourceFile>, processors: nat): seq<Status>
    requires Prepared(files, processors)
  {
    BatchLines(FileResults(files, processors), NamesFrom(files, 0))
  }

  /** When every file before i got through and file i did not, the batch ends with file i's
      error, after the lines of the files before it and file i's own. */
  lemma BatchStopsAt(files: seq<SourceFile>, processors: nat, i: nat)
    requires Prepared(files, processors) && i < |files|
    requires var results := FileResults(files, processors);
      results[i].Failure? && forall j :: 0 <= j < i ==> results[j].Success?
    ensures var results, names := FileResults(files, processors), NamesFrom(files, 0);
      && BatchOutcome(files, processors) == results[i]
      && BatchStatuses(files, processors) == StatusesUpTo(results, names, i) + FileStatuses(results[i], names[i], i, |files|)
    ensures BatchOverall(files, processors) == OverallUpTo(files, processors, i + 1)
  {
    FirstFailureSkips(FileResults(files, processors), 0, i);
  }

  /** When every file got through, the batch succeeds with every file's lines. */
  lemma BatchRunsThrough(files: seq<SourceFile>, processors: nat)
    requires Prepared(files, processors)
    requires var results := FileResults(files, processors);
      forall j :: 0 <= j < |files| ==> results[j].Success?
    ensures BatchOutcome(files, processors) == Success(())
    ensures BatchStatuses(files, processors) == StatusesUpTo(FileResults(files, processors), NamesFrom(files, 0), |files|)
    ensures BatchOverall(files, processors) == OverallUpTo(files, processors, |files|)
  {
    FirstFailureSkips(FileResults(files, processors), 0, |files|);
  }

  /** The files before i all got through: each has its "Sending file: name" line followed by
      "Completed j+1 of n files". */
  lemma {:induction false} StatusesUpToShape(results: seq<Result<(), BatchError>>, names: seq<string>, i: nat)
    requires i <= |results| == |names| && forall j :: 0 <= j < i ==> results[j].Success?
    ensures var st := StatusesUpTo(results, names, i);
      && |st| == 2 * i
      && forall j :: 0 <= j < i ==>
           st[2 * j] == SendingFile(names[j]) && st[2 * j + 1] == CompletedFiles(j + 1, |results|)
  {
    if i > 0 {
      StatusesUpToShape(results, names, i - 1);
      var before := StatusesUpTo(results, names, i - 1);
      var st := StatusesUpTo(results, names, i);
      assert st == before + [SendingFile(names[i - 1]), CompletedFiles(i, |results|)];
      forall j | 0 <= j < i - 1
        ensures st[2 * j] == SendingFile(names[j]) && st[2 * j + 1] == CompletedFiles(j + 1, |results|)
      {
        assert st[2 * j] == before[2 * j] && st[2 * j + 1] == before[2 * j + 1];
      }
    }
  }

  /** The lines of a batch: for each file that got through, "Sending file: name" and
      "Completed i+1 of n files"; then, if a file failed, "Sending file: name" for it unless it
      could not be read, and an error line naming it. */
  lemma StatusesShape(results: seq<Result<(), BatchError>>, names: seq<string>)
    requires |results| == |names|
    ensures var first, st := FirstFailure(results, 0), BatchLines(results, names);
      var sent := if first.None? then |results| else first.value;
      && |st| >= 2 * sent
      && (forall j :: 0 <= j < sent ==>
            st[2 * j] == SendingFile(names[j]) && st[2 * j + 1] == CompletedFiles(j + 1, |results|))
      && (first.None? ==> |st| == 2 * |results|)
      && (first.Some? && results[sent].error.Unreadable? ==> st[2 * sent..] == [Failed(results[sent].error)])
      && (first.Some? && !results[sent].error.Unreadable? ==>
            st[2 * sent..] == [SendingFile(names[sent]), Failed(results[sent].error)])
  {
    var first := FirstFailure(results, 0);
    if first.None? {
      StatusesUpToShape(results, names, |results|);
    } else {
      var i := first.value;
      StatusesUpToShape(results, names, i);
      var st := BatchLines(results, names);
      var up := StatusesUpTo(results, names, i);
      assert st[2 * i..] == FileStatuses(results[i], names[i], i, |results|);
      forall j | 0 <= j < i
        ensures st[2 * j] == SendingFile(names[j]) && st[2 * j + 1] == CompletedFiles(j + 1, |results|)
      {
        assert st[2 * j] == up[2 * j] && st[2 * j + 1] == up[2 * j + 1];
      }
    }
  }

  /** The overall percentages reported while file i of n is sent, one per chunk progress
      report. */
  function FileOverall(i: nat, progress: seq<nat>, n: nat): (r: seq<nat>)
    requires n > 0
    ensures |r| == |progress|
  {
    seq(|progress|, j requires 0 <= j < |progress| => OverallProgress(i, progress[j], n))
  }

  predicate Rising(s: seq<nat>)
  {
    forall j, k :: 0 <= j <= k < |s| ==> s[j] <= s[k]
  }

  predicate Below(s: seq<nat>, m: nat)
  {
    forall j :: 0 <= j < |s| ==> s[j] <= m
  }

  /** The overall reports for one file never go down and lie between where the file starts and
      where the next one starts. */
  lemma FileOverallFits(i: nat, progress: seq<nat>, chunks: nat, n: nat)
    requires i < n && ReportsSteps(progress, chunks)
    ensures Rising(FileOverall(i, progress, n))
    ensures forall j :: 0 <= j < |progress| ==>
      OverallProgress(i, 0, n) <= FileOverall(i, progress, n)[j] <= OverallProgress(i + 1, 0, n)
  {
    var o := FileOverall(i, progress, n);
    if chunks > 0 {
      ProgressStepsRise(chunks);
      assert forall j :: 0 <= j < |progress| ==> progress[j] == ProgressSteps(chunks)[j];
      forall j, k | 0 <= j <= k < |progress| ensures o[j] <= o[k] {
        OverallProgressMonotone(i, progress[j], i, progress[k], n);
      }
      forall j | 0 <= j < |progress|
        ensures OverallProgress(i, 0, n) <= o[j] <= OverallProgress(i + 1, 0, n)
      {
        OverallProgressMonotone(i, 0, i, progress[j], n);
        OverallProgressMonotone(i, progress[j], i, 100, n);
        OverallProgressJoins(i, n);
      }
    }
  }

  /** Appending reports that start where the earlier ones end keeps the whole rising. */
  lemma RisingAppend(a: seq<nat>, b: seq<nat>, m: nat)
    requires Rising(a) && Rising(b)
    requires forall j :: 0 <= j < |a| ==> a[j] <= m
    requires forall j :: 0 <= j < |b| ==> m <= b[j]
    ensures Rising(a + b)
  {
    var c := a + b;
    forall j, k | 0 <= j <= k < |c| ensures c[j] <= c[k] {
      if k < |a| {
        assert c[j] == a[j] && c[k] == a[k];
      } else if j >= |a| {
        assert c[j] == b[j - |a|] && c[k] == b[k - |a|];
      } else {
        assert c[j] == a[j] && c[k] == b[k - |a|];
      }
    }
  }

  /** Where file i starts never goes down as i grows, and the batch ends at 100. */
  lemma StartRises(i: nat, k: nat, n: nat)
    requires i <= k <= n && n > 0
    ensures OverallProgress(i, 0, n) <= OverallProgress(k, 0, n) <= 100
  {
    DivMonotone(i * 100, k * 100, n);
    DivMonotone(k * 100, n * 100, n);
    DivBetween(n * 100, 100, n);
  }

  /** The overall reports file i produces: none when it cannot be read, otherwise one for each
      chunk progress report of its sendFile. */
  function FileReports(files: seq<SourceFile>, processors: nat, i: nat): (r: seq<nat>)
    requires Prepared(files, processors) && i < |files|
  {
    var f := files[i];
    assert FileReady(f, processors);
    if !f.readable then []
    else FileOverall(i, SendProgress(f.content, f.name, processors, f.link), |files|)
  }

  /** The overall reports of every file, file by file. */
  function Reports(files: seq<SourceFile>, processors: nat): (r: seq<seq<nat>>)
    requires Prepared(files, processors)
    ensures |r| == |files|
  {
    seq(|files|, i requires 0 <= i < |files| => FileReports(files, processors, i))
  }

  /** The reports of files 0 .. k - 1, one file after another. */
  function Concat(reports: seq<seq<nat>>, k: nat): seq<nat>
    requires k <= |reports|
  {
    if k == 0 then [] else Concat(reports, k - 1) + reports[k - 1]
  }

  /** The overall reports of files 0 .. k - 1, in order. */
  function OverallUpTo(files: seq<SourceFile>, processors: nat, k: nat): seq<nat>
    requires Prepared(files, processors) && k <= |files|
  {
    Concat(Reports(files, processors), k)
  }

  /** How many files the loop reaches: all of them, or those up to and including the first that
      fails. */
  function Reached(files: seq<SourceFile>, processors: nat): (k: nat)
    requires Prepared(files, processors)
    ensures k <= |files|
  {
    match FirstFailure(FileResults(files, processors), 0)
    case None => |files|
    case Some(i) => i + 1
  }

  /** Every overall report of the batch. */
  function BatchOverall(files: seq<SourceFile>, processors: nat): seq<nat>
    requires Prepared(files, processors)
  {
    OverallUpTo(files, processors, Reached(files, processors))
  }

  /** The overall reports so far rise and stay below where file i starts. */
  predicate OverallSoFar(overall: seq<nat>, i: nat, n: nat)
  {
    Rising(overall) && (n == 0 ==> overall == []) && (n > 0 ==> Below(overall, OverallProgress(i, 0, n)))
  }

  /** The reports of file i rise and lie between where file i starts and where file i + 1
      starts. */
  lemma FileReportsFit(files: seq<SourceFile>, processors: nat, i: nat)
    requires Prepared(files, processors) && i < |files|
    ensures FitsSlot(FileReports(files, processors, i), i, |files|)
  {
    var f := files[i];
    assert FileReady(f, processors);
    if f.readable {
      FileOverallFits(i, SendProgress(f.content, f.name, processors, f.link),
                      Plan(|f.content|, processors).totalChunks, |files|);
    }
  }

  /** The reports of the first k files rise and stay below where file k starts. */
  lemma OverallUpToFits(files: seq<SourceFile>, processors: nat, k: nat)
    requires Prepared(files, processors) && k <= |files|
    ensures OverallSoFar(OverallUpTo(files, processors, k), k, |files|)
  {
    var reports := Reports(files, processors);
    forall i | 0 <= i < k ensures FitsSlot(reports[i], i, |files|) {
      FileReportsFit(files, processors, i);
    }
    ConcatFits(reports, k);
  }

  /** Files whose reports each fit their own slot: the reports of the first k, one after
      another, rise and stay below where file k starts. */
  lemma {:induction false} ConcatFits(reports: seq<seq<nat>>, k: nat)
    requires k <= |reports| && forall i :: 0 <= i < k ==> FitsSlot(reports[i], i, |reports|)
    ensures OverallSoFar(Concat(reports, k), k, |reports|)
  {
    if k > 0 {
      ConcatFits(reports, k - 1);
      ExtendSoFar(Concat(reports, k - 1), reports[k - 1], k - 1, |reports|);
    }
  }

  /** Reports that rise and lie between where file i starts and where file i + 1 starts. */
  predicate FitsSlot(reports: seq<nat>, i: nat, n: nat)
    requires i < n
  {
    Rising(reports)
    && forall j :: 0 <= j < |reports| ==> OverallProgress(i, 0, n) <= reports[j] <= OverallProgress(i + 1, 0, n)
  }

  lemma ExtendSoFar(before: seq<nat>, reports: seq<nat>, i: nat, n: nat)
    requires i < n && OverallSoFar(before, i, n) && FitsSlot(reports, i, n)
    ensures OverallSoFar(before + reports, i + 1, n)
  {
    Extend(before, reports, i, n);
  }

  /** The overall progress of a batch never goes down and never passes 100. */
  lemma BatchOverallBounds(files: seq<SourceFile>, processors: nat)
    requires Prepared(files, processors)
    ensures var o := BatchOverall(files, processors);
      Rising(o) && forall j :: 0 <= j < |o| ==> o[j] <= 100
  {
    var k := Reached(files, processors);
    OverallUpToFits(files, processors, k);
    OverallDone(OverallUpTo(files, processors, k), k, |files|);
  }

  /** Appending the reports of file i to a rising sequence that ends below where file i
      starts keeps it rising, below where file i + 1 starts. */
  lemma Extend(overall: seq<nat>, reports: seq<nat>, i: nat, n: nat)
    requires i < n && Rising(overall) && Below(overall, OverallProgress(i, 0, n)) && Rising(reports)
    requires forall j :: 0 <= j < |reports| ==>
      OverallProgress(i, 0, n) <= reports[j] <= OverallProgress(i + 1, 0, n)
    ensures Rising(overall + reports) && Below(overall + reports, OverallProgress(i + 1, 0, n))
  {
    RisingAppend(overall, reports, OverallProgress(i, 0, n));
    StartRises(i, i + 1, n);
    var all := overall + reports;
    forall j | 0 <= j < |all| ensures all[j] <= OverallProgress(i + 1, 0, n) {
      if j < |overall| {
        assert all[j] == overall[j];
      } else {
        assert all[j] == reports[j - |overall|];
      }
    }
  }

  lemma OverallDone(overall: seq<nat>, i: nat, n: nat)
    requires i <= n && OverallSoFar(overall, i, n)
    ensures Rising(overall) && forall j :: 0 <= j < |overall| ==> overall[j] <= 100
  {
    if n > 0 {
      StartRises(i, n, n);
    }
  }

  /** A peer found on the network; its identity is its address. */
  datatype User = User(username: string, ip: string)

  /** One poll of the non-blocking discovery channel: nothing, or a datagram from an address
      holding the broadcast name (as text). */
  datatype Poll = NoDatagram | Datagram(text: string, ip: string)

  predicate HasIp(users: seq<User>, ip: string)
  {
    exists k :: 0 <= k < |users| && users[k].ip == ip
  }

  predicate DistinctIps(users: seq<User>)
  {
    forall j, k :: 0 <= j < k < |users| ==> users[j].ip != users[k].ip
  }

  /** The users peerListener and the deduplicating callback add for the polls: a datagram
      whose address is neither listed nor processed adds its trimmed name and address. */
  function Admitted(list: seq<User>, processed: set<string>, polls: seq<Poll>): (r: seq<User>)
    decreases |polls|
  {
    if polls == [] then []
    else
      var p := polls[0];
      if p.Datagram? && !HasIp(list, p.ip) && p.ip !in processed then
        var u := User(Trim(p.text), p.ip);
        [u] + Admitted(list + [u], processed + {p.ip}, polls[1..])
      else Admitted(list, processed, polls[1..])
  }

  /** The snapshots published while `added` is appended to `list`, one per appended user. */
  function Snapshots(list: seq<User>, added: seq<User>): (r: seq<seq<User>>)
    ensures |r| == |added|
  {
    seq(|added|, k requires 0 <= k < |added| => list + added[..k + 1])
  }

  /** Discovery never lists an address twice: every admitted user has an address new to the
      list and to the processed set, and the admitted users have distinct addresses. */
  lemma {:induction false} AdmittedFresh(list: seq<User>, processed: set<string>, polls: seq<Poll>)
    ensures var a := Admitted(list, processed, polls);
      && DistinctIps(a)
      && forall k :: 0 <= k < |a| ==> !HasIp(list, a[k].ip) && a[k].ip !in processed
    decreases |polls|
  {
    if polls != [] {
      var p := polls[0];
      if p.Datagram? && !HasIp(list, p.ip) && p.ip !in processed {
        var u := User(Trim(p.text), p.ip);
        var list', processed' := list + [u], processed + {p.ip};
        AdmittedFresh(list', processed', polls[1..]);
        var rest := Admitted(list', processed', polls[1..]);
        var a := [u] + rest;
        forall k | 0 <= k < |rest| ensures !HasIp(list, rest[k].ip) && rest[k].ip != u.ip {
          HasIpAppend(list, [u], rest[k].ip);
          assert list'[|list|].ip == u.ip;
        }
        forall j, k | 0 <= j < k < |a| ensures a[j].ip != a[k].ip {
          if j > 0 {
            assert a[j] == rest[j - 1] && a[k] == rest[k - 1];
          } else {
            assert a[k] == rest[k - 1];
          }
        }
      } else {
        AdmittedFresh(list, processed, polls[1..]);
      }
    }
  }

  /** An address listed stays listed when users are appended. */
  lemma HasIpAppend(list: seq<User>, extra: seq<User>, ip: string)
    ensures HasIp(list, ip) ==> HasIp(list + extra, ip)
  {
    if HasIp(list, ip) {
      var m :| 0 <= m < |list| && list[m].ip == ip;
      assert (list + extra)[m] == list[m];
    }
  }

  /** A datagram from an address already listed adds nothing. */
  lemma RepeatedAddressIgnored(list: seq<User>, processed: set<string>, p: Poll)
    requires p.Datagram? && (HasIp(list, p.ip) || p.ip in processed)
    ensures Admitted(list, processed, [p]) == []
  {
  }

  /** The discovery state: the list of receivers shown to the user, the addresses the callback
      has processed, and the snapshots it has published. */
  class Discovery {
    const initial: seq<User>
    var discoveredReceivers: seq<User>
    var processedIPs: set<string>
    var published: seq<seq<User>>

    /** The list starts as given, every later entry was added by the callback with a fresh
        address, and one snapshot was published per addition. */
    ghost predicate Valid()
      reads this
    {
      && |initial| <= |discoveredReceivers| && discoveredReceivers[..|initial|] == initial
      && var added := discoveredReceivers[|initial|..];
      && published == Snapshots(initial, added)
      && DistinctIps(added)
      && forall a :: a in processedIPs <==> HasIp(added, a)
    }

    constructor (receivers: seq<User>)
      ensures Valid() && initial == receivers && discoveredReceivers == receivers
      ensures processedIPs == {} && published == []
    {
      initial := receivers;
      discoveredReceivers := receivers;
      processedIPs := {};
      published := [];
      new;
      assert discoveredReceivers[|initial|..] == [];
    }

    /** The startDiscovery callback: a user whose address was not processed yet is appended and
        a snapshot of the list is published; anything else changes nothing. */
    method OnNewUser(user: User)
      modifies this
      ensures if user.ip in old(processedIPs) then
          discoveredReceivers == old(discoveredReceivers) && processedIPs == old(processedIPs)
          && published == old(published)
        else
          discoveredReceivers == old(discoveredReceivers) + [user]
          && processedIPs == old(processedIPs) + {user.ip}
          && published == old(published) + [discoveredReceivers]
    {
      if user.ip !in processedIPs {
        processedIPs := processedIPs + {user.ip};
        discoveredReceivers := discoveredReceivers + [user];
        published := published + [discoveredReceivers];
      }
    }

    /** peerListener's loop over the polls made while listening: a datagram from an address not
        in the list yet goes to the callback with its trimmed name. */
    method PeerListener(polls: seq<Poll>)
      requires Valid()
      modifies this
      ensures Valid()
      ensures var added := Admitted(old(discoveredReceivers), old(processedIPs), polls);
        && discoveredReceivers == old(discoveredReceivers) + added
        && published == old(published) + Snapshots(old(discoveredReceivers), added)
    {
      var i := 0;
      while i < |polls|
        invariant 0 <= i <= |polls| && Valid()
        invariant old(discoveredReceivers) + Admitted(old(discoveredReceivers), old(processedIPs), polls)
               == discoveredReceivers + Admitted(discoveredReceivers, processedIPs, polls[i..])
        invariant |old(discoveredReceivers)| <= |discoveredReceivers|
        invariant discoveredReceivers[..|old(discoveredReceivers)|] == old(discoveredReceivers)
        invariant published == old(published)
                  + Snapshots(old(discoveredReceivers), discoveredReceivers[|old(discoveredReceivers)|..])
      {
        var p := polls[i];
        assert polls[i..][1..] == polls[i + 1..];
        if p.Datagram? && !HasIp(discoveredReceivers, p.ip) {
          ghost var before := discoveredReceivers;
          ghost var beforePublished := published;
          if p.ip in processedIPs {
            HasIpSuffix(discoveredReceivers, |initial|, p.ip);
            assert false;
          }
          OnNewUser(User(Trim(p.text), p.ip));
          ValidAfterAdd(before, beforePublished, p.ip);
          SnapshotsGrow(old(discoveredReceivers), before, User(Trim(p.text), p.ip));
        }
        i := i + 1;
      }
      assert polls[|polls|..] == [];
    }

    /** Adding a user with a fresh address keeps the discovery state valid. */
    lemma ValidAfterAdd(before: seq<User>, beforePublished: seq<seq<User>>, ip: string)
      requires |initial| <= |before| && before[..|initial|] == initial
      requires beforePublished == Snapshots(initial, before[|initial|..])
      requires DistinctIps(before[|initial|..]) && !HasIp(before, ip)
      requires |discoveredReceivers| == |before| + 1 && discoveredReceivers[..|before|] == before
      requires discoveredReceivers[|before|].ip == ip
      requires published == beforePublished + [discoveredReceivers]
      requires forall a :: a in processedIPs <==> HasIp(before[|initial|..], a) || a == ip
      ensures Valid()
    {
      assert discoveredReceivers == before + [discoveredReceivers[|before|]];
      var added, old_added := discoveredReceivers[|initial|..], before[|initial|..];
      assert added == old_added + [discoveredReceivers[|before|]];
      assert discoveredReceivers[..|initial|] == initial;
      forall j, k | 0 <= j < k < |added| ensures added[j].ip != added[k].ip {
        if k == |added| - 1 {
          assert added[j] == before[|initial| + j];
        } else {
          assert added[j] == old_added[j] && added[k] == old_added[k];
        }
      }
      forall a ensures a in processedIPs <==> HasIp(added, a) {
        if HasIp(old_added, a) {
          var m :| 0 <= m < |old_added| && old_added[m].ip == a;
          assert added[m] == old_added[m];
        }
        if HasIp(added, a) && a != ip {
          var m :| 0 <= m < |added| && added[m].ip == a;
          assert m < |old_added|;
          assert old_added[m] == added[m];
        }
        assert added[|added| - 1].ip == ip;
      }
      var s := Snapshots(initial, added);
      forall k | 0 <= k < |s| ensures s[k] == published[k] {
        if k < |old_added| {
          assert added[..k + 1] == old_added[..k + 1];
        } else {
          assert added[..k + 1] == added;
          assert initial + added == discoveredReceivers;
        }
      }
    }
  }

  lemma HasIpSuffix(list: seq<User>, from: nat, a: string)
    requires from <= |list| && HasIp(list[from..], a)
    ensures HasIp(list, a)
  {
    var m :| 0 <= m < |list[from..]| && list[from..][m].ip == a;
    assert list[from + m] == list[from..][m];
  }

  /** Consecutive snapshots: one more user, one more snapshot. */
  lemma SnapshotsGrow(start: seq<User>, list: seq<User>, u: User)
    requires |start| <= |list| && list[..|start|] == start
    ensures Snapshots(start, (list + [u])[|start|..]) == Snapshots(start, list[|start|..]) + [list + [u]]
  {
    var a, b := list[|start|..], (list + [u])[|start|..];
    assert b == a + [u];
    var s, t := Snapshots(start, b), Snapshots(start, a) + [list + [u]];
    forall k | 0 <= k < |s| ensures s[k] == t[k] {
      if k < |a| {
        assert b[..k + 1] == a[..k + 1];
      } else {
        assert b[..k + 1] == b;
        assert start + b == list + [u];
      }
    }
  }

  /** One line of the receiver's summary: the bullet, the name and a line break. */
  function Item(name: string): string
  {
    "• " + name + "<br>"
  }

  /** The bullet lines for `names`, in order. */
  function Items(names: seq<string>): string
  {
    if names == [] then [] else Items(names[..|names| - 1]) + Item(names[|names| - 1])
  }

  function Sum(sizes: seq<nat>): nat
  {
    if sizes == [] then 0 else Sum(sizes[..|sizes| - 1]) + sizes[|sizes| - 1]
  }

  const INFO_HEADER: string := "<html><body><h3>Files to be received:</h3><br>"

  /** The lines of two lists of files one after the other are the lines of the first list
      followed by those of the second. */
  lemma {:induction false} ItemsAppend(a: seq<string>, b: seq<string>)
    ensures Items(a + b) == Items(a) + Items(b)
    decreases |b|
  {
    if b == [] {
      assert a + b == a;
    } else {
      var c, init := a + b, b[..|b| - 1];
      assert c[..|c| - 1] == a + init;
      assert c[|c| - 1] == b[|b| - 1];
      ItemsAppend(a, init);
      assert Items(a) + Items(init) + Item(b[|b| - 1]) == Items(a) + (Items(init) + Item(b[|b| - 1]));
    }
  }

  /** Each file's line sits after the lines of the files before it and before those after it. */
  lemma ItemsAt(names: seq<string>, i: nat)
    requires i < |names|
    ensures Items(names) == Items(names[..i]) + Item(names[i]) + Items(names[i + 1..])
  {
    var before, one, after := names[..i], [names[i]], names[i + 1..];
    AroundIndex(names, i);
    ItemsAppend(before + one, after);
    ItemsAppend(before, one);
    assert one[..0] == [];
    assert Items(one) == Item(names[i]);
  }

  lemma AroundIndex<T>(s: seq<T>, i: nat)
    requires i < |s|
    ensures s == s[..i] + [s[i]] + s[i + 1..]
  {
  }

  /** The byte count of the whole batch is the sum of its parts. */
  lemma {:induction false} SumAppend(a: seq<nat>, b: seq<nat>)
    ensures Sum(a + b) == Sum(a) + Sum(b)
    decreases |b|
  {
    if b != [] {
      var c := a + b;
      assert c[..|c| - 1] == a + b[..|b| - 1];
      assert c[|c| - 1] == b[|b| - 1];
      SumAppend(a, b[..|b| - 1]);
    } else {
      assert a + b == a;
    }
  }

  /** getFileInfo up to the formatted total: the header, one line per file in order, and the
      total of the file lengths. */
  method GetFileInfo(names: seq<string>, sizes: seq<nat>) returns (listing: string, totalSize: nat)
    requires |names| == |sizes|
    ensures listing == INFO_HEADER + Items(names)
    ensures totalSize == Sum(sizes)
  {
    listing := INFO_HEADER;
    totalSize := 0;
    var i := 0;
    while i < |names|
      invariant 0 <= i <= |names|
      invariant listing == INFO_HEADER + Items(names[..i])
      invariant totalSize == Sum(sizes[..i])
    {
      listing := listing + Item(names[i]);
      totalSize := totalSize + sizes[i];
      assert names[..i + 1][..i] == names[..i];
      assert sizes[..i + 1][..i] == sizes[..i];
      i := i + 1;
    }
    assert names[..|names|] == names;
    assert sizes[..|sizes|] == sizes;
  }

  /** The per-file results, overall reports and names the batch loop works through. */
  predicate BatchTables(files: seq<SourceFile>, processors: nat, results: seq<Result<(), BatchError>>,
                        reports: seq<seq<nat>>, names: seq<string>)
  {
    Prepared(files, processors) && results == FileResults(files, processors)
    && reports == Reports(files, processors) && names == NamesFrom(files, 0)
  }

  class FileTransferManager {
    const sender: Sender

    constructor ()
      ensures fresh(sender) && sender.isListening && sender.chunkPortMap == map[]
    {
      sender := new Sender();
    }

    /** startSendingFiles: stop discovery, then send the files one by one in array order. An
        unreadable file or a failed sendFile ends the batch and onComplete does not run; the
        termination marker goes out once, after the last file. */
    method StartSendingFiles(files: seq<SourceFile>, processors: nat)
      returns (r: Result<(), BatchError>, statuses: seq<Status>, overall: seq<nat>,
               markers: seq<seq<byte>>, completed: bool)
      requires Prepared(files, processors)
      modifies sender
      ensures !sender.isListening
      ensures r == BatchOutcome(files, processors)
      ensures completed <==> r.Success?
      ensures statuses == [Starting] + BatchStatuses(files, processors)
      ensures markers == if r.Success? && |files| > 0 then [TerminationMarker()] else []
      ensures overall == BatchOverall(files, processors)
      ensures Rising(overall) && forall j :: 0 <= j < |overall| ==> overall[j] <= 100
    {
      sender.SetListening(false);
      var lines;
      r, lines, overall, markers := SendBatch(files, processors);
      statuses := [Starting] + lines;
      completed := r.Success?;
      BatchOverallBounds(files, processors);
    }

    /** The loop of startSendingFiles: each file in turn until one fails. */
    method SendBatch(files: seq<SourceFile>, processors: nat)
      returns (r: Result<(), BatchError>, statuses: seq<Status>, overall: seq<nat>, markers: seq<seq<byte>>)
      requires Prepared(files, processors)
      modifies sender
      ensures sender.isListening == old(sender.isListening)
      ensures r == BatchOutcome(files, processors)
      ensures statuses == BatchStatuses(files, processors)
      ensures markers == if r.Success? && |files| > 0 then [TerminationMarker()] else []
      ensures overall == BatchOverall(files, processors)
    {
      var stop;
      stop, r, statuses, overall, markers :=
        SendUntilFailure(files, processors, FileResults(files, processors), Reports(files, processors), NamesFrom(files, 0));
      if r.Failure? {
        BatchStopsAt(files, processors, stop);
      } else {
        BatchRunsThrough(files, processors);
      }
    }

    /** The files in turn from the first, up to the first whose result is a failure (`stop`), or
        all of them. */
    method SendUntilFailure(files: seq<SourceFile>, processors: nat,
                            ghost results: seq<Result<(), BatchError>>, ghost reports: seq<seq<nat>>,
                            ghost names: seq<string>)
      returns (stop: nat, r: Result<(), BatchError>, statuses: seq<Status>, overall: seq<nat>,
               markers: seq<seq<byte>>)
      requires BatchTables(files, processors, results, reports, names)
      modifies sender
      ensures sender.isListening == old(sender.isListening)
      ensures stop <= |files| && FirstFailure(results, 0) == FirstFailure(results, stop)
      ensures r == if stop < |files| then results[stop] else Success(())
      ensures r.Failure? <==> stop < |files|
      ensures statuses == StatusesUpTo(results, names, stop)
                          + if r.Failure? then FileStatuses(r, names[stop], stop, |files|) else []
      ensures overall == Concat(reports, if r.Failure? then stop + 1 else stop)
      ensures markers == if r.Success? && |files| > 0 then [TerminationMarker()] else []
    {
      statuses, overall, markers := [], [], [];
      r := Success(());
      stop := 0;
      while stop < |files|
        invariant 0 <= stop <= |files| && sender.isListening == old(sender.isListening)
        invariant FirstFailure(results, 0) == FirstFailure(results, stop)
        invariant statuses == StatusesUpTo(results, names, stop)
        invariant markers == if 0 < stop == |files| then [TerminationMarker()] else []
        invariant overall == Concat(reports, stop)
      {
        var res, lines, marks;
        res, lines, overall, marks := SendStep(files, processors, stop, results, reports, names, overall);
        statuses := statuses + lines;
        if res.Failure? {
          return stop, res, statuses, overall, markers;
        }
        markers := markers + marks;
        stop := stop + 1;
      }
    }

    /** One turn of the loop: file i is checked for readability and, if it can be read, sent;
        the lines and overall reports it produces, and the marker sent after the last file. */
    method SendStep(files: seq<SourceFile>, processors: nat, i: nat, ghost results: seq<Result<(), BatchError>>,
                    ghost reports: seq<seq<nat>>, ghost names: seq<string>, overall: seq<nat>)
      returns (r: Result<(), BatchError>, lines: seq<Status>, overall': seq<nat>, marks: seq<seq<byte>>)
      requires BatchTables(files, processors, results, reports, names) && i < |files|
      modifies sender
      ensures sender.isListening == old(sender.isListening)
      ensures r == results[i]
      ensures lines == FileStatuses(r, names[i], i, |files|)
      ensures overall' == overall + reports[i]
      ensures marks == if r.Success? && i == |files| - 1 then [TerminationMarker()] else []
    {
      var f := files[i];
      assert FileReady(f, processors);
      NamesAt(files, 0, i);
      if !f.readable {
        assert overall + [] == overall;
        return Failure(Unreadable(i, f.name)), [Failed(Unreadable(i, f.name))], overall, [];
      }
      var res, metadata, streams, m, progress := sender.SendFile(f.content, f.name, processors, f.link, i == |files| - 1);
      var reports := FileOverall(i, progress, |files|);
      overall' := overall + reports;
      r := if res.Failure? then Failure(SendFailed(i, f.name, res.error)) else Success(());
      lines := FileStatuses(r, f.name, i, |files|);
      marks := if m == [] then [] else [m];
    }
  }
}
