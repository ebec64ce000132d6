/** The receiving side (class Receiver): receiveFile for one connection on 9090, the session loop
    of handleIncomingConnection that calls it until the termination marker arrives, and the
    accept loop of listenForConnectionRequests. The save directory is a map from file names to
    contents; the network is given as what each connection carries. */
module ReceiverSide {
  import opened JavaInts
  import opened Wrappers
  import opened Wire
  import opened FileNames
  import opened ChunkReceiver
  import Text
  import opened Progress

  /** Why receiveFile returned false without a file. */
  datatype ReceiveError =
    | DirectoryUnavailable
    | BadMetadata(error: MetadataError)
    | NameUnavailable(renameError: RenameError)
    | FileNotCreated
    | ChunkServerFailed(chunk: nat)

  /** How one call of receiveFile ends. Terminated is the only `true`; Blocked is a chunk that
      never arrives or whose worker fails, after which completionService.take() waits forever. */
  datatype FileOutcome =
    | Terminated
    | Received(name: string)
    | Failed(error: ReceiveError)
    | Blocked(chunk: nat)

  /** One connection on 9090: the bytes the sender writes on it, whether the announced file can
      be opened with `new RandomAccessFile(name, "rw")` and pre-sized with `setLength` (a NUL in
      the name, a name too long for the file system or a full disk make that throw), and for
      chunk i what arrives on port 9091 + i (None if nobody connects there). */
  datatype Connection = Connection(metadata: seq<byte>, fileCreated: bool, chunkStreams: seq<Option<seq<byte>>>)

  /** What receiveFile did: its outcome, the lines it wrote back, the save directory afterwards
      and the chunk progress it reported. */
  datatype Receipt = Receipt(outcome: FileOutcome, replies: seq<string>, files: map<string, seq<byte>>,
                             progress: seq<nat>)

  /** new ServerSocket(port) fails for a port in use or out of range. */
  predicate PortUnusable(port: int, busy: set<int>)
  {
    port > MAX_PORT || port in busy
  }

  /** The first chunk, from k on, whose server socket cannot be opened. */
  function FirstBusyPort(n: nat, busy: set<int>, k: nat): (r: Option<nat>)
    ensures r.Some? ==>
      && k <= r.value < n && PortUnusable(ChunkPort(r.value), busy)
      && forall i :: k <= i < r.value ==> !PortUnusable(ChunkPort(i), busy)
    ensures r.None? <==> forall i :: k <= i < n ==> !PortUnusable(ChunkPort(i), busy)
    decreases n - k
  {
    if k >= n then None
    else if PortUnusable(ChunkPort(k), busy) then Some(k)
    else FirstBusyPort(n, busy, k + 1)
  }

  /** The file after the chunk tasks from k on, the first chunk (if any) whose task never
      completes normally, and how many tasks did. */
  datatype Gathered = Gathered(content: seq<byte>, stuck: Option<nat>, completed: nat)

  /** The task of chunk k on the file as it stands: the file it leaves when it completes
      normally, or None when nobody connects to its port or the worker throws (and writes
      nothing). */
  function TaskResult(file: seq<byte>, streams: seq<Option<seq<byte>>>, k: nat): Option<seq<byte>>
  {
    if k >= |streams| || streams[k].None? then None
    else match ChunkWork(file, streams[k].value)
      case Failure(_) => None
      case Success(f) => Some(f)
  }

  /** The chunk tasks from k on, one after another (the file lock serialises their writes). A
      task that fails or never starts does not stop the others: the completion loop swallows the
      failed future's exception and goes on taking the rest. */
  function Gather(file: seq<byte>, streams: seq<Option<seq<byte>>>, k: nat, n: nat): (g: Gathered)
    ensures |g.content| == |file|
    ensures g.stuck.Some? ==> k <= g.stuck.value < n
    ensures k <= n ==> g.completed <= n - k && (g.stuck.None? <==> g.completed == n - k)
    decreases n - k
  {
    if k >= n then Gathered(file, None, 0)
    else match TaskResult(file, streams, k)
      case None =>
        var rest := Gather(file, streams, k + 1, n);
        Gathered(rest.content, Some(k), rest.completed)
      case Some(f) =>
        var rest := Gather(f, streams, k + 1, n);
        Gathered(rest.content, rest.stuck, rest.completed + 1)
  }

  /** Tasks before a later range: `stuck` and `done` so far, joined with what the rest does. */
  function Join(stuck: Option<nat>, done: nat, rest: Gathered): Gathered
  {
    Gathered(rest.content, if stuck.Some? then stuck else rest.stuck, done + rest.completed)
  }

  /** Task k on top of the tasks before it: the file it leaves, the first stuck chunk so far,
      and how many tasks have completed. */
  function Step(g: Gathered, streams: seq<Option<seq<byte>>>, k: nat): Gathered
  {
    match TaskResult(g.content, streams, k)
    case None => Gathered(g.content, if g.stuck.Some? then g.stuck else Some(k), g.completed)
    case Some(f) => Gathered(f, g.stuck, g.completed + 1)
  }

  /** Step after a task whose outcome is known: `ok` tells whether it completed, `f` is the file
      it left. */
  lemma TaskStep(g: Gathered, streams: seq<Option<seq<byte>>>, k: nat, ok: bool, f: seq<byte>)
    requires ok <==> TaskResult(g.content, streams, k).Some?
    requires f == if ok then TaskResult(g.content, streams, k).value else g.content
    ensures Step(g, streams, k)
         == Gathered(f, if g.stuck.Some? then g.stuck else if ok then None else Some(k), g.completed + if ok then 1 else 0)
  {
  }

  /** The completion loop from task k on, carrying what the tasks before k did in `g`. */
  function Resume(g: Gathered, streams: seq<Option<seq<byte>>>, k: nat, n: nat): Gathered
    decreases n - k
  {
    if k >= n then g else Resume(Step(g, streams, k), streams, k + 1, n)
  }

  /** The loop from task k on is Gather from k on, joined after what came before. */
  lemma {:induction false} ResumeJoin(g: Gathered, streams: seq<Option<seq<byte>>>, k: nat, n: nat)
    ensures Resume(g, streams, k, n) == Join(g.stuck, g.completed, Gather(g.content, streams, k, n))
    decreases n - k
  {
    if k < n {
      ResumeJoin(Step(g, streams, k), streams, k + 1, n);
      match TaskResult(g.content, streams, k)
      case None =>
        JoinTwice(g.stuck, g.completed, Some(k), 0, Gather(g.content, streams, k + 1, n));
      case Some(f) =>
        JoinTwice(g.stuck, g.completed, None, 1, Gather(f, streams, k + 1, n));
    }
  }

  lemma JoinTwice(s1: Option<nat>, d1: nat, s2: Option<nat>, d2: nat, rest: Gathered)
    ensures Join(s1, d1, Join(s2, d2, rest)) == Join(if s1.Some? then s1 else s2, d1 + d2, rest)
  {
  }

  /** The zero-filled file RandomAccessFile.setLength leaves behind for a new name. */
  function Zeros(n: nat): (r: seq<byte>)
    ensures |r| == n && forall i :: 0 <= i < n ==> r[i] == 0
  {
    seq(n, _ => 0)
  }

  /** receiveFile on one connection, given whether the save directory exists or can be made,
      the ports in use on this host, and the directory's files. */
  function ReceiveFileSpec(conn: Connection, dirReady: bool, busy: set<int>, files: map<string, seq<byte>>)
    : Receipt
  {
    if !dirReady then Receipt(Failed(DirectoryUnavailable), [], files, [])
    else ReceiptFor(ReadMetadata(conn.metadata), conn, busy, files)
  }

  /** The names `File.exists` finds in the save directory: every file saved so far, and ".",
      which names the directory itself. */
  function DirectoryNames(files: map<string, seq<byte>>): set<string>
  {
    files.Keys + {"."}
  }

  /** receiveFile once the header has been read and checked. */
  function ReceiptFor(read: MetadataRead, conn: Connection, busy: set<int>, files: map<string, seq<byte>>)
    : Receipt
    requires read.Accept? ==> read.meta.fileSize > 0 && read.meta.totalChunks > 0
  {
    match read
    case Terminate => Receipt(Terminated, [], files, [])
    case Reject(e) => Receipt(Failed(BadMetadata(e)), [], files, [])
    case Accept(m) =>
      match UniqueName(m.fileName, DirectoryNames(files))
      case Failure(e) => Receipt(Failed(NameUnavailable(e)), [], files, [])
      case Success(name) => AcceptedReceipt(m, name, conn, busy, files)
  }

  /** receiveFile once the header is accepted and the file is to be saved as `name`: the file is
      created and pre-sized with zeros (when that throws, receiveFile returns false with nothing
      replied and nothing saved), the chunk servers are opened, READY is sent, and the chunks are
      written as they arrive. */
  function AcceptedReceipt(m: Metadata, name: string, conn: Connection, busy: set<int>,
                           files: map<string, seq<byte>>): Receipt
    requires m.fileSize > 0 && m.totalChunks > 0
  {
    var n := m.totalChunks;
    if !conn.fileCreated then Receipt(Failed(FileNotCreated), [], files, [])
    else match FirstBusyPort(n, busy, 0)
    case Some(i) => Receipt(Failed(ChunkServerFailed(i)), [], files[name := Zeros(m.fileSize)], [])
    case None =>
      var g := Gather(Zeros(m.fileSize), conn.chunkStreams, 0, n);
      Receipt(if g.stuck.Some? then Blocked(g.stuck.value) else Received(name), ["READY"],
              files[name := g.content], Reported(g, n))
  }

  /** The chunk progress reported: one step per chunk task that completed normally. */
  function Reported(g: Gathered, n: nat): (r: seq<nat>)
    requires n > 0 && g.completed <= n
  {
    ProgressSteps(n)[..g.completed]
  }

  /** The loop creating new ServerSocket(9091 + i) for every chunk. */
  method OpenChunkServers(n: nat, busy: set<int>) returns (r: Option<nat>)
    ensures r == FirstBusyPort(n, busy, 0)
  {
    var i := 0;
    while i < n
      invariant 0 <= i <= n && FirstBusyPort(n, busy, 0) == FirstBusyPort(n, busy, i)
    {
      if PortUnusable(ChunkPort(i), busy) {
        return Some(i);
      }
      i := i + 1;
    }
    return None;
  }

  /** The chunk tasks and the completion loop: each chunk is written into the pre-sized file in
      place, and progress is reported after each task that completes normally. `stuck` is the
      first chunk whose task does not. */
  method ReceiveChunks(file: array<byte>, streams: seq<Option<seq<byte>>>, n: nat)
    returns (stuck: Option<nat>, completedChunks: nat, progress: seq<nat>)
    requires n > 0
    modifies file
    ensures Gather(old(file[..]), streams, 0, n) == Gathered(file[..], stuck, completedChunks)
    ensures progress == Reported(Gathered(file[..], stuck, completedChunks), n)
  {
    progress := [];
    stuck := None;
    completedChunks := 0;
    var k := 0;
    ghost var total := Resume(Gathered(file[..], None, 0), streams, 0, n);
    while k < n
      invariant 0 <= k <= n && completedChunks <= k
      invariant Resume(Gathered(file[..], stuck, completedChunks), streams, k, n) == total
      invariant progress == ProgressUpTo(completedChunks, n)
    {
      ghost var done := Gathered(file[..], stuck, completedChunks);
      var ok := ReceiveOne(file, streams, k);
      TaskStep(done, streams, k, ok, file[..]);
      stuck := if stuck.Some? then stuck else if ok then None else Some(k);
      completedChunks := completedChunks + if ok then 1 else 0;
      if ok {
        progress := progress + [ChunkProgress(completedChunks, n)];
      }
      k := k + 1;
    }
    ProgressUpToSteps(completedChunks, n);
    ResumeJoin(Gathered(old(file[..]), None, 0), streams, 0, n);
  }

  /** The task for chunk k: accept on its port, read the header, write the data. `ok` is
      whether it completes normally. */
  method ReceiveOne(file: array<byte>, streams: seq<Option<seq<byte>>>, k: nat) returns (ok: bool)
    modifies file
    ensures ok <==> TaskResult(old(file[..]), streams, k).Some?
    ensures file[..] == if ok then TaskResult(old(file[..]), streams, k).value else old(file[..])
  {
    if k >= |streams| || streams[k].None? {
      return false;
    }
    var w := ReceiveChunk(file, streams[k].value);
    ok := w.Success?;
  }

  /** How a session on 9090 ends: the termination marker, the 15-second accept timeout (no
      further connection), a receiveFile that never returns, or a server socket on 9090 that
      could not be opened. */
  datatype SessionEnd = TerminationReceived | AcceptTimedOut | Hung | ServerSocketFailed

  datatype SessionLog = SessionLog(outcomes: seq<FileOutcome>, files: map<string, seq<byte>>, end: SessionEnd)

  /** The session of handleIncomingConnection: new ServerSocket(9090), whose failure ends the
      session before any connection is accepted, then the loop. */
  function SessionSpec(conns: seq<Connection>, dirReady: bool, busy: set<int>, files: map<string, seq<byte>>)
    : SessionLog
  {
    if PortUnusable(RECEIVER_PORT, busy) then SessionLog([], files, ServerSocketFailed)
    else SessionLoop(conns, dirReady, busy, files)
  }

  /** The while (true) loop of handleIncomingConnection over the connections accepted on 9090. */
  function SessionLoop(conns: seq<Connection>, dirReady: bool, busy: set<int>, files: map<string, seq<byte>>)
    : SessionLog
    decreases |conns|
  {
    if conns == [] then SessionLog([], files, AcceptTimedOut)
    else
      var r := ReceiveFileSpec(conns[0], dirReady, busy, files);
      if r.outcome.Terminated? then SessionLog([r.outcome], r.files, TerminationReceived)
      else if r.outcome.Blocked? then SessionLog([r.outcome], r.files, Hung)
      else
        var rest := SessionLoop(conns[1..], dirReady, busy, r.files);
        SessionLog([r.outcome] + rest.outcomes, rest.files, rest.end)
  }

  /** The session fails on its server socket exactly when 9090 cannot be bound, and then handles
      no connection and saves nothing; otherwise it is the loop. */
  lemma ServerPortNeeded(conns: seq<Connection>, dirReady: bool, busy: set<int>, files: map<string, seq<byte>>)
    ensures var log := SessionSpec(conns, dirReady, busy, files);
      && (log.end.ServerSocketFailed? <==> PortUnusable(RECEIVER_PORT, busy))
      && (log.end.ServerSocketFailed? ==> log.outcomes == [] && log.files == files)
      && (!log.end.ServerSocketFailed? ==> log == SessionLoop(conns, dirReady, busy, files))
  {
    LoopOpensNoServer(conns, dirReady, busy, files);
  }

  /** The loop runs only once the server socket is open, so it never ends on it. */
  lemma {:induction false} LoopOpensNoServer(conns: seq<Connection>, dirReady: bool, busy: set<int>,
                                             files: map<string, seq<byte>>)
    ensures !SessionLoop(conns, dirReady, busy, files).end.ServerSocketFailed?
    decreases |conns|
  {
    if conns != [] {
      var r := ReceiveFileSpec(conns[0], dirReady, busy, files);
      if !r.outcome.Terminated? && !r.outcome.Blocked? {
        LoopOpensNoServer(conns[1..], dirReady, busy, r.files);
      }
    }
  }

  /** The log of a session after the outcomes `done`. */
  function Prepend(done: seq<FileOutcome>, rest: SessionLog): SessionLog
  {
    SessionLog(done + rest.outcomes, rest.files, rest.end)
  }

  lemma PrependTwice(a: seq<FileOutcome>, b: seq<FileOutcome>, rest: SessionLog)
    ensures Prepend(a, Prepend(b, rest)) == Prepend(a + b, rest)
  {
    assert a + (b + rest.outcomes) == (a + b) + rest.outcomes;
  }

  /** One turn of the session loop. */
  lemma SessionStep(conns: seq<Connection>, dirReady: bool, busy: set<int>, files: map<string, seq<byte>>)
    requires conns != []
    ensures var r := ReceiveFileSpec(conns[0], dirReady, busy, files);
      SessionLoop(conns, dirReady, busy, files)
      == if r.outcome.Terminated? then SessionLog([r.outcome], r.files, TerminationReceived)
         else if r.outcome.Blocked? then SessionLog([r.outcome], r.files, Hung)
         else Prepend([r.outcome], SessionLoop(conns[1..], dirReady, busy, r.files))
  {
  }

  /** A connection request on 9080: whether the user answers YES, and what the session after a
      YES receives. */
  datatype Request = Request(confirm: bool, session: seq<Connection>)

  /** The request listenForConnectionRequests stops after: the first one answered YES. */
  function FirstConfirmed(requests: seq<Request>): (r: Option<nat>)
    ensures r.Some? ==>
      && r.value < |requests| && requests[r.value].confirm
      && forall j :: 0 <= j < r.value ==> !requests[j].confirm
    ensures r.None? <==> forall j :: 0 <= j < |requests| ==> !requests[j].confirm
    decreases |requests|
  {
    if requests == [] then None
    else if requests[0].confirm then Some(0)
    else match FirstConfirmed(requests[1..])
      case None => None
      case Some(j) => Some(j + 1)
  }

  class Receiver {
    /** Whether the broadcaster and the request listener keep going. */
    var isReceiving: bool
    /** The save directory: every file in it, by name. */
    var files: map<string, seq<byte>>

    constructor (saved: map<string, seq<byte>>)
      ensures isReceiving && files == saved
    {
      isReceiving := true;
      files := saved;
    }

    method SetReceiving(receiving: bool)
      modifies this
      ensures isReceiving == receiving && files == old(files)
    {
      isReceiving := receiving;
    }

    /** receiveFile: `completed` is its boolean result. */
    method ReceiveFile(conn: Connection, dirReady: bool, busy: set<int>)
      returns (completed: bool, outcome: FileOutcome, replies: seq<string>, progress: seq<nat>)
      modifies this
      ensures var r := ReceiveFileSpec(conn, dirReady, busy, old(files));
        outcome == r.outcome && replies == r.replies && files == r.files && progress == r.progress
      ensures completed <==> outcome.Terminated?
      ensures isReceiving == (old(isReceiving) && !outcome.Terminated?)
    {
      replies, progress := [], [];
      if !dirReady {
        return false, Failed(DirectoryUnavailable), replies, progress;
      }
      var read := ReadMetadata(conn.metadata);
      if read.Terminate? {
        isReceiving := false;
        return true, Terminated, replies, progress;
      }
      outcome, replies, progress := ReceiveAnnounced(read, conn, busy);
      completed := false;
    }

    /** receiveFile after the -1 test: the rest of the checks, then the file. */
    method ReceiveAnnounced(read: MetadataRead, conn: Connection, busy: set<int>)
      returns (outcome: FileOutcome, replies: seq<string>, progress: seq<nat>)
      requires !read.Terminate? && (read.Accept? ==> read.meta.fileSize > 0 && read.meta.totalChunks > 0)
      modifies this
      ensures var r := ReceiptFor(read, conn, busy, old(files));
        outcome == r.outcome && replies == r.replies && files == r.files && progress == r.progress
      ensures isReceiving == old(isReceiving)
    {
      replies, progress := [], [];
      if read.Reject? {
        return Failed(BadMetadata(read.error)), replies, progress;
      }
      var m := read.meta;
      var unique := GetUniqueFile(m.fileName, DirectoryNames(files));
      if unique.Failure? {
        return Failed(NameUnavailable(unique.error)), replies, progress;
      }
      outcome, replies, progress := ReceiveAccepted(m, unique.value, conn, busy);
    }

    /** The file is pre-sized, the chunk servers opened, READY sent and the chunks received. */
    method ReceiveAccepted(m: Metadata, name: string, conn: Connection, busy: set<int>)
      returns (outcome: FileOutcome, replies: seq<string>, progress: seq<nat>)
      requires m.fileSize > 0 && m.totalChunks > 0
      modifies this
      ensures var r := AcceptedReceipt(m, name, conn, busy, old(files));
        outcome == r.outcome && replies == r.replies && files == r.files && progress == r.progress
      ensures isReceiving == old(isReceiving)
    {
      replies, progress := [], [];
      if !conn.fileCreated {
        return Failed(FileNotCreated), replies, progress;
      }
      var file := new byte[m.fileSize](_ => 0);
      var zeros := file[..];
      assert zeros == Zeros(m.fileSize);
      var n := m.totalChunks;
      var busyChunk := OpenChunkServers(n, busy);
      if busyChunk.Some? {
        files := files[name := zeros];
        return Failed(ChunkServerFailed(busyChunk.value)), replies, progress;
      }
      replies := ["READY"];
      var stuck, completedChunks;
      stuck, completedChunks, progress := ReceiveChunks(file, conn.chunkStreams, n);
      var g := Gathered(file[..], stuck, completedChunks);
      assert g == Gather(Zeros(m.fileSize), conn.chunkStreams, 0, n);
      files := files[name := g.content];
      outcome := if stuck.Some? then Blocked(stuck.value) else Received(name);
    }

    /** The session of handleIncomingConnection: open the server socket on 9090, then accept
        and call receiveFile until it returns true; an accept that times out or any exception
        ends the loop. */
    method ReceiveSession(conns: seq<Connection>, dirReady: bool, busy: set<int>) returns (log: SessionLog)
      modifies this
      ensures log == SessionSpec(conns, dirReady, busy, old(files)) && files == log.files
      ensures isReceiving == (old(isReceiving) && !log.end.TerminationReceived?)
    {
      if PortUnusable(RECEIVER_PORT, busy) {
        return SessionLog([], files, ServerSocketFailed);
      }
      var outcomes: seq<FileOutcome> := [];
      var i := 0;
      while i < |conns|
        invariant 0 <= i <= |conns|
        invariant SessionLoop(conns, dirReady, busy, old(files)) == Prepend(outcomes, SessionLoop(conns[i..], dirReady, busy, files))
        invariant isReceiving == old(isReceiving)
      {
        ghost var before := files;
        SessionStep(conns[i..], dirReady, busy, files);
        assert conns[i..][1..] == conns[i + 1..];
        var completed, outcome, replies, progress := ReceiveFile(conns[i], dirReady, busy);
        if completed {
          return SessionLog(outcomes + [outcome], files, TerminationReceived);
        }
        if outcome.Blocked? {
          return SessionLog(outcomes + [outcome], files, Hung);
        }
        PrependTwice(outcomes, [outcome], SessionLoop(conns[i + 1..], dirReady, busy, files));
        outcomes := outcomes + [outcome];
        i := i + 1;
      }
      assert outcomes + [] == outcomes;
      return SessionLog(outcomes, files, AcceptTimedOut);
    }

    /** handleIncomingConnection after the request line: a YES stops the listener and runs the
        session; a NO changes nothing. */
    method HandleIncomingConnection(request: Request, dirReady: bool, busy: set<int>)
      returns (answer: string, log: Option<SessionLog>)
      modifies this
      ensures answer == if request.confirm then "YES" else "NO"
      ensures !request.confirm ==> log.None? && files == old(files) && isReceiving == old(isReceiving)
      ensures request.confirm ==>
        && log == Some(SessionSpec(request.session, dirReady, busy, old(files)))
        && files == log.value.files && !isReceiving
    {
      if !request.confirm {
        return "NO", None;
      }
      isReceiving := false;
      var s := ReceiveSession(request.session, dirReady, busy);
      return "YES", Some(s);
    }

    /** listenForConnectionRequests over the requests that arrive on 9080, while isReceiving
        holds: every request before the first YES is answered NO. */
    method ListenForConnectionRequests(requests: seq<Request>, dirReady: bool, busy: set<int>)
      returns (answers: seq<string>, log: Option<SessionLog>)
      modifies this
      ensures !old(isReceiving) ==> answers == [] && log.None? && files == old(files)
      ensures old(isReceiving) ==> match FirstConfirmed(requests)
        case None =>
          && answers == seq(|requests|, _ => "NO") && log.None?
          && files == old(files) && isReceiving
        case Some(k) =>
          && answers == seq(k, _ => "NO") + ["YES"]
          && log == Some(SessionSpec(requests[k].session, dirReady, busy, old(files)))
          && files == log.value.files && !isReceiving
    {
      answers, log := [], None;
      var i := 0;
      ghost var wasReceiving := isReceiving;
      while isReceiving && i < |requests|
        invariant 0 <= i <= |requests|
        invariant isReceiving ==> wasReceiving
        invariant wasReceiving && isReceiving ==>
          && answers == seq(i, _ => "NO") && log.None? && files == old(files)
          && forall j :: 0 <= j < i ==> !requests[j].confirm
        invariant !wasReceiving ==> answers == [] && log.None? && files == old(files) && !isReceiving
        invariant wasReceiving && !isReceiving ==>
          && 0 < i && FirstConfirmed(requests) == Some(i - 1)
          && answers == seq(i - 1, _ => "NO") + ["YES"]
          && log == Some(SessionSpec(requests[i - 1].session, dirReady, busy, old(files)))
          && files == log.value.files
      {
        var answer, l := HandleIncomingConnection(requests[i], dirReady, busy);
        answers := answers + [answer];
        log := l;
        i := i + 1;
      }
    }
  }

  /** Only the termination marker makes receiveFile return true; it reads nothing after the
      first eight bytes, writes nothing back and leaves the directory alone. */
  lemma TerminationOnly(conn: Connection, dirReady: bool, busy: set<int>, files: map<string, seq<byte>>)
    ensures var r := ReceiveFileSpec(conn, dirReady, busy, files);
      r.outcome.Terminated? <==> dirReady && |conn.metadata| >= 8 && conn.metadata[..8] == TerminationMarker()
    ensures var r := ReceiveFileSpec(conn, dirReady, busy, files);
      r.outcome.Terminated? ==> r.replies == [] && r.files == files
  {
    TerminationExactly(conn.metadata);
  }

  /** A header the validator rejects ends receiveFile before any reply and before any file is
      created. */
  lemma RejectedBeforeReply(conn: Connection, dirReady: bool, busy: set<int>, files: map<string, seq<byte>>)
    requires dirReady && ReadMetadata(conn.metadata).Reject?
    ensures ReceiveFileSpec(conn, dirReady, busy, files)
         == Receipt(Failed(BadMetadata(ReadMetadata(conn.metadata).error)), [], files, [])
  {
  }

  /** receiveFile leaves every file already in the save directory as it was. It creates exactly
      one file, under the name getUniqueFile picks, when the directory is usable, the header is
      accepted, a free name exists and the file can be created; that file has the announced
      size. Otherwise the directory does not change. */
  lemma SavesOnlyUnderUniqueName(conn: Connection, dirReady: bool, busy: set<int>, files: map<string, seq<byte>>)
    ensures var r := ReceiveFileSpec(conn, dirReady, busy, files);
      forall k :: k in files ==> k in r.files && r.files[k] == files[k]
    ensures var r := ReceiveFileSpec(conn, dirReady, busy, files);
      var read := ReadMetadata(conn.metadata);
      if && dirReady && read.Accept? && UniqueName(read.meta.fileName, DirectoryNames(files)).Success?
         && conn.fileCreated then
        var name := UniqueName(read.meta.fileName, DirectoryNames(files)).value;
        name !in DirectoryNames(files) && r.files.Keys == files.Keys + {name} && |r.files[name]| == read.meta.fileSize
      else r.files == files
  {
    var read := ReadMetadata(conn.metadata);
    if dirReady && read.Accept? {
      UniqueNameMeaning(read.meta.fileName, DirectoryNames(files));
      var unique := UniqueName(read.meta.fileName, DirectoryNames(files));
      if unique.Success? {
        AcceptedFiles(read.meta, unique.value, conn, busy, files);
      }
    }
  }

  /** An accepted file that can be created changes the directory only at its own name, which
      ends up holding a file of the announced size; one that cannot be created fails before any
      reply and leaves the directory as it was. */
  lemma AcceptedFiles(m: Metadata, name: string, conn: Connection, busy: set<int>, files: map<string, seq<byte>>)
    requires m.fileSize > 0 && m.totalChunks > 0
    ensures var r := AcceptedReceipt(m, name, conn, busy, files);
      conn.fileCreated ==> name in r.files && r.files == files[name := r.files[name]] && |r.files[name]| == m.fileSize
    ensures !conn.fileCreated ==> AcceptedReceipt(m, name, conn, busy, files) == Receipt(Failed(FileNotCreated), [], files, [])
  {
  }

  /** A sender announcing "." never gets a file called "." (the directory itself exists): the
      file is saved as "._1.", or as the first of "._2.", "._3.", ... not yet saved. */
  lemma DotIsRenamed(files: map<string, seq<byte>>)
    ensures UniqueName(".", DirectoryNames(files)).Success?
    ensures var name := UniqueName(".", DirectoryNames(files)).value;
      name != "." && name !in files
    ensures "._1." !in files ==> UniqueName(".", DirectoryNames(files)) == Success("._1.")
  {
    UniqueNameMeaning(".", DirectoryNames(files));
    assert Text.LastIndexOf(".", '.') == 0;
    assert Candidate(".", 1) == "._1.";
  }

  /** READY goes back exactly when the directory is usable, the header is accepted, a free name
      exists, the file can be created and every chunk server opens; by then the file exists, pre-sized. No other reply is
      ever written, and no progress is reported without READY. A received file reported every
      chunk, ending at 100. */
  lemma ReadyOnlyAfterSetup(conn: Connection, dirReady: bool, busy: set<int>, files: map<string, seq<byte>>)
    ensures var r := ReceiveFileSpec(conn, dirReady, busy, files);
      var read := ReadMetadata(conn.metadata);
      r.replies == ["READY"]
      <==> && dirReady && read.Accept? && UniqueName(read.meta.fileName, DirectoryNames(files)).Success?
           && conn.fileCreated
           && forall i :: 0 <= i < read.meta.totalChunks ==> !PortUnusable(ChunkPort(i), busy)
    ensures var r := ReceiveFileSpec(conn, dirReady, busy, files);
      r.replies != ["READY"] ==> r.replies == [] && r.progress == [] && !r.outcome.Received?
    ensures var r := ReceiveFileSpec(conn, dirReady, busy, files);
      r.outcome.Received? ==>
        ReadMetadata(conn.metadata).Accept? && var n := ReadMetadata(conn.metadata).meta.totalChunks;
        r.progress == ProgressSteps(n) && r.progress[n - 1] == 100
  {
    var read := ReadMetadata(conn.metadata);
    if dirReady && read.Accept? {
      ProgressStepsRise(read.meta.totalChunks);
      var unique := UniqueName(read.meta.fileName, DirectoryNames(files));
      if unique.Success? {
        AcceptedReplies(read.meta, unique.value, conn, busy, files);
      }
    }
  }

  /** Once a name is picked, READY goes back exactly when the file can be created and every chunk
      server opens; without it
      nothing is replied or reported and the file is not received, and a received file reported
      a step for every chunk. */
  lemma AcceptedReplies(m: Metadata, name: string, conn: Connection, busy: set<int>, files: map<string, seq<byte>>)
    requires m.fileSize > 0 && m.totalChunks > 0
    ensures var r := AcceptedReceipt(m, name, conn, busy, files);
      && (r.replies == ["READY"]
          <==> conn.fileCreated && forall i :: 0 <= i < m.totalChunks ==> !PortUnusable(ChunkPort(i), busy))
      && (r.replies != ["READY"] ==> r.replies == [] && r.progress == [] && !r.outcome.Received?)
      && (r.outcome.Received? ==> r.progress == ProgressSteps(m.totalChunks))
  {
  }

  /** With no connection on any chunk port, no chunk task completes: the file is left as it is
      and the first task from k on is the one the completion loop waits for. */
  lemma {:induction false} GatherUnconnected(file: seq<byte>, streams: seq<Option<seq<byte>>>, k: nat, n: nat)
    requires forall j :: 0 <= j < |streams| ==> streams[j].None?
    ensures Gather(file, streams, k, n) == Gathered(file, if k < n then Some(k) else None, 0)
    decreases n - k
  {
    if k < n {
      assert TaskResult(file, streams, k).None?;
      GatherUnconnected(file, streams, k + 1, n);
    }
  }

  /** A file accepted on 9090 whose sender then connects to none of its chunk ports: the
      receiver answers READY, creates the zero-filled file and waits in take() for chunk 0 for
      ever, so the session never accepts another connection on 9090 and whatever the sender
      writes there next (the port map of sendFileChunks, say) is never read. */
  lemma MapExchangeUnanswered(conn: Connection, later: seq<Connection>, busy: set<int>,
                              files: map<string, seq<byte>>)
    requires ReadMetadata(conn.metadata).Accept? && conn.fileCreated
    requires forall j :: 0 <= j < |conn.chunkStreams| ==> conn.chunkStreams[j].None?
    requires var m := ReadMetadata(conn.metadata).meta;
      && UniqueName(m.fileName, DirectoryNames(files)).Success?
      && forall i :: 0 <= i < m.totalChunks ==> !PortUnusable(ChunkPort(i), busy)
    ensures var m := ReadMetadata(conn.metadata).meta;
      var name := UniqueName(m.fileName, DirectoryNames(files)).value;
      && ReceiveFileSpec(conn, true, busy, files).replies == ["READY"]
      && SessionLoop([conn] + later, true, busy, files)
         == SessionLog([Blocked(0)], files[name := Zeros(m.fileSize)], Hung)
  {
    var m := ReadMetadata(conn.metadata).meta;
    GatherUnconnected(Zeros(m.fileSize), conn.chunkStreams, 0, m.totalChunks);
    assert ([conn] + later)[0] == conn;
  }

  /** With a stream on every chunk port, the chunk tasks complete exactly when the corrected
      workers, run one after another, all succeed, and then leave the same file. */
  lemma {:induction false} GatherDelivered(file: seq<byte>, streams: seq<seq<byte>>, k: nat)
    requires k <= |streams|
    ensures var g := Gather(file, Delivered(streams), k, |streams|);
      (g.stuck.None? <==> ReceiveAll(file, streams[k..]).Success?)
      && (g.stuck.None? ==> g.content == ReceiveAll(file, streams[k..]).value)
    decreases |streams| - k
  {
    if k < |streams| {
      assert streams[k..][0] == streams[k];
      assert streams[k..][1..] == streams[k + 1..];
      match ChunkWork(file, streams[k])
      case Success(f) => GatherDelivered(f, streams, k + 1);
      case Failure(_) =>
    }
  }

  /** A chunk port nobody connects to leaves the completion loop waiting at that chunk or an
      earlier one. */
  lemma {:induction false} MissingChunkBlocks(file: seq<byte>, streams: seq<Option<seq<byte>>>, k: nat, n: nat, i: nat)
    requires k <= i < n && (i >= |streams| || streams[i].None?)
    ensures Gather(file, streams, k, n).stuck.Some? && Gather(file, streams, k, n).stuck.value <= i
    decreases n - k
  {
    if k < i && k < |streams| && streams[k].Some? {
      match ChunkWork(file, streams[k].value)
      case Success(f) => MissingChunkBlocks(f, streams, k + 1, n, i);
      case Failure(_) =>
    }
  }

  /** The session's outcomes, one per connection handled: every file before the last one was
      neither the termination marker nor stuck, the session ends on the marker exactly when the
      last outcome is Terminated, and no file already saved is changed. */
  lemma {:induction false} SessionShape(conns: seq<Connection>, dirReady: bool, busy: set<int>,
                                        files: map<string, seq<byte>>)
    ensures var log := SessionLoop(conns, dirReady, busy, files);
      && |log.outcomes| <= |conns|
      && (conns != [] ==> |log.outcomes| > 0)
      && (forall j :: 0 <= j < |log.outcomes| - 1 ==> !log.outcomes[j].Terminated? && !log.outcomes[j].Blocked?)
      && (log.end.TerminationReceived? <==> |log.outcomes| > 0 && log.outcomes[|log.outcomes| - 1].Terminated?)
      && (log.end.Hung? <==> |log.outcomes| > 0 && log.outcomes[|log.outcomes| - 1].Blocked?)
      && (log.end.AcceptTimedOut? ==> |log.outcomes| == |conns|)
      && forall k :: k in files ==> k in log.files && log.files[k] == files[k]
    decreases |conns|
  {
    if conns != [] {
      var r := ReceiveFileSpec(conns[0], dirReady, busy, files);
      SavesOnlyUnderUniqueName(conns[0], dirReady, busy, files);
      if !r.outcome.Terminated? && !r.outcome.Blocked? {
        SessionShape(conns[1..], dirReady, busy, r.files);
        var rest := SessionLoop(conns[1..], dirReady, busy, r.files);
        var log := SessionLoop(conns, dirReady, busy, files);
        assert log.outcomes == [r.outcome] + rest.outcomes;
        forall j | 0 <= j < |log.outcomes| - 1
          ensures !log.outcomes[j].Terminated? && !log.outcomes[j].Blocked?
        {
          if j > 0 { assert log.outcomes[j] == rest.outcomes[j - 1]; }
        }
      }
    }
  }

  /** A header the receiver accepts, a free name, a file that can be created, free chunk ports,
      and a stream on every chunk port that the corrected workers write without error:
      receiveFile answers READY, reports every chunk and saves the file the workers leave
      behind. */
  lemma AcceptedAndDelivered(s: seq<byte>, streams: seq<seq<byte>>, busy: set<int>, files: map<string, seq<byte>>)
    requires ReadMetadata(s).Accept?
    requires var m := ReadMetadata(s).meta;
      && |streams| == m.totalChunks && UniqueName(m.fileName, DirectoryNames(files)).Success?
      && (forall i :: 0 <= i < m.totalChunks ==> !PortUnusable(ChunkPort(i), busy))
      && ReceiveAll(Zeros(m.fileSize), streams).Success?
    ensures var m := ReadMetadata(s).meta;
      ReceiveFileSpec(Connection(s, true, Delivered(streams)), true, busy, files)
      == Receipt(Received(UniqueName(m.fileName, DirectoryNames(files)).value), ["READY"],
                 files[UniqueName(m.fileName, DirectoryNames(files)).value := ReceiveAll(Zeros(m.fileSize), streams).value],
                 ProgressSteps(m.totalChunks))
  {
    var m := ReadMetadata(s).meta;
    DeliveredReceipt(m, UniqueName(m.fileName, DirectoryNames(files)).value, Connection(s, true, Delivered(streams)),
                     streams, busy, files);
  }

  /** The accepted part of AcceptedAndDelivered, for any metadata and saved name. */
  lemma DeliveredReceipt(m: Metadata, name: string, conn: Connection, streams: seq<seq<byte>>,
                         busy: set<int>, files: map<string, seq<byte>>)
    requires m.fileSize > 0 && |streams| == m.totalChunks > 0 && conn.fileCreated && conn.chunkStreams == Delivered(streams)
    requires forall i :: 0 <= i < m.totalChunks ==> !PortUnusable(ChunkPort(i), busy)
    requires ReceiveAll(Zeros(m.fileSize), streams).Success?
    ensures AcceptedReceipt(m, name, conn, busy, files)
      == Receipt(Received(name), ["READY"], files[name := ReceiveAll(Zeros(m.fileSize), streams).value],
                 ProgressSteps(m.totalChunks))
  {
    var n := m.totalChunks;
    GatherAll(Zeros(m.fileSize), streams);
    assert FirstBusyPort(n, busy, 0) == None;
    assert Reported(Gathered(ReceiveAll(Zeros(m.fileSize), streams).value, None, n), n) == ProgressSteps(n) by {
      assert ProgressSteps(n)[..n] == ProgressSteps(n);
    }
  }

  /** Every chunk port delivered and every corrected worker succeeding: all the tasks complete
      and leave what the workers, run in order, leave. */
  lemma GatherAll(file: seq<byte>, streams: seq<seq<byte>>)
    requires ReceiveAll(file, streams).Success?
    ensures Gather(file, Delivered(streams), 0, |streams|) == Gathered(ReceiveAll(file, streams).value, None, |streams|)
  {
    GatherDelivered(file, streams, 0);
    assert streams[0..] == streams;
  }

  /** A file received, then the termination marker on the next connection: the session logs
      both and ends on the marker with the file saved. */
  lemma ReceivedThenMarker(conn: Connection, markerRest: seq<byte>, markerStreams: seq<Option<seq<byte>>>,
                           busy: set<int>, files: map<string, seq<byte>>)
    requires ReceiveFileSpec(conn, true, busy, files).outcome.Received?
    ensures var r := ReceiveFileSpec(conn, true, busy, files);
      SessionLoop([conn, Connection(TerminationMarker() + markerRest, false, markerStreams)], true, busy, files)
      == SessionLog([r.outcome, Terminated], r.files, TerminationReceived)
  {
    var r := ReceiveFileSpec(conn, true, busy, files);
    var marker := Connection(TerminationMarker() + markerRest, false, markerStreams);
    assert marker.metadata[..8] == TerminationMarker();
    TerminationOnly(marker, true, busy, r.files);
    SessionStep([conn, marker], true, busy, files);
    assert [conn, marker][1..] == [marker];
    SessionStep([marker], true, busy, r.files);
  }
}
