/** The sending side of one file (Sender.sendFile and Sender.sendFileChunks): metadata on 9090,
    the READY handshake, the chunk fan-out with its port map, and the termination marker after the
    last file. The network is given as a script of what each connection does. */
module SenderSide {
  import opened JavaInts
  import opened Wrappers
  import Utf8
  import opened Wire
  import opened ChunkPlanner
  import opened Ports
  import opened ChunkSender
  import opened Response
  import opened ChunkReceiver
  import opened Progress

  datatype SendError =
    | MetadataConnectFailed
    | NotReady(response: Result<string, ResponseError>)
    | NoPort(chunk: nat)
    | MappingUnanswered
    | UnmappedChunk(chunk: nat)
    | ChunkFailed(chunk: nat, error: ChunkError)
    | MarkerConnectFailed

  /** What the network does while one file is sent: whether the metadata connection opens, the
      characters it delivers back, the ports free on this host, the random port draws for each
      chunk, the reply (if any) to the port map, each chunk's attempts, and whether the
      connection for the termination marker opens. */
  datatype Link = Link(
    metadataConnects: bool,
    reply: string,
    available: set<int>,
    portDraws: seq<seq<int>>,
    mappingReply: Option<map<int, int>>,
    attempts: seq<seq<Attempt>>,
    markerConnects: bool)

  /** The chunk lies inside the file. */
  predicate Within(content: seq<byte>, c: FileChunk)
  {
    0 <= c.startPosition <= c.startPosition + c.chunkSize <= |content|
  }

  /** Every chunk has a header that fits its fields, starts inside the file, and has three
      scripted attempts. */
  predicate Sendable(content: seq<byte>, chunks: seq<FileChunk>, attempts: seq<seq<Attempt>>)
  {
    && |attempts| >= |chunks|
    && forall i :: 0 <= i < |chunks| ==>
         && FitsFields(HeaderOf(chunks[i])) && 0 <= chunks[i].startPosition <= |content|
         && |attempts[i]| >= MAX_RETRIES
  }

  /** The random draws suffice for the port search of every chunk. */
  predicate Drawable(portDraws: seq<seq<int>>, n: nat)
  {
    |portDraws| >= n
    && forall i :: 0 <= i < n ==> InRange(portDraws[i]) && |TriedPorts(portDraws[i])| >= MAX_PORT_ATTEMPTS
  }

  function ChunkSucceeds(content: seq<byte>, c: FileChunk, attempts: seq<Attempt>): bool
    requires 0 <= c.startPosition <= |content| && |attempts| >= MAX_RETRIES
  {
    FirstSuccess(content, c.startPosition, c.chunkSize, attempts, MAX_RETRIES).Some?
  }

  /** The outcome of the chunk fan-out from chunk k on: the first chunk whose three attempts all
      fail ends the transfer with the error of its last attempt. */
  function ChunksOutcome(content: seq<byte>, chunks: seq<FileChunk>, attempts: seq<seq<Attempt>>, k: nat)
    : (r: Result<(), SendError>)
    requires Sendable(content, chunks, attempts) && k <= |chunks|
    ensures r.Failure? ==> r.error.ChunkFailed? && k <= r.error.chunk < |chunks|
    decreases |chunks| - k
  {
    if k == |chunks| then Success(())
    else
      var c := chunks[k];
      if ChunkSucceeds(content, c, attempts[k]) then ChunksOutcome(content, chunks, attempts, k + 1)
      else
        var last := AttemptOutcome(content, c.startPosition, c.chunkSize, attempts[k], MAX_RETRIES - 1);
        Failure(ChunkFailed(k, ChunkError(MAX_RETRIES, last.error)))
  }

  /** The number of chunks that got through before the fan-out stopped: all of them, or those
      before the chunk that failed. */
  function Completed(r: Result<(), SendError>, n: nat): nat
  {
    if r.Failure? && r.error.ChunkFailed? then r.error.chunk else n
  }

  /** The fan-out succeeds exactly when every chunk gets through within its three attempts, and
      a failure names the first chunk that did not. */
  lemma {:induction false} ChunksOutcomeMeaning(content: seq<byte>, chunks: seq<FileChunk>,
                                                attempts: seq<seq<Attempt>>, k: nat)
    requires Sendable(content, chunks, attempts) && k <= |chunks|
    ensures ChunksOutcome(content, chunks, attempts, k).Success?
        <==> forall i :: k <= i < |chunks| ==> ChunkSucceeds(content, chunks[i], attempts[i])
    ensures var r := ChunksOutcome(content, chunks, attempts, k);
      r.Failure? ==>
        && r.error.ChunkFailed? && k <= r.error.chunk < |chunks|
        && !ChunkSucceeds(content, chunks[r.error.chunk], attempts[r.error.chunk])
        && forall i :: k <= i < r.error.chunk ==> ChunkSucceeds(content, chunks[i], attempts[i])
    decreases |chunks| - k
  {
    if k < |chunks| && ChunkSucceeds(content, chunks[k], attempts[k]) {
      ChunksOutcomeMeaning(content, chunks, attempts, k + 1);
      assert ChunksOutcome(content, chunks, attempts, k) == ChunksOutcome(content, chunks, attempts, k + 1);
    }
  }

  /** The streams the chunk connections carry. */
  function ChunkStreams(content: seq<byte>, chunks: seq<FileChunk>): (r: seq<seq<byte>>)
    requires forall i :: 0 <= i < |chunks| ==> FitsFields(HeaderOf(chunks[i])) && Within(content, chunks[i])
    ensures |r| == |chunks|
  {
    seq(|chunks|, i requires 0 <= i < |chunks| && FitsFields(HeaderOf(chunks[i])) && Within(content, chunks[i])
                    => ChunkStream(content, chunks[i]))
  }

  /** The port chunk i asks for, as findAvailablePort decides it. */
  function AllocatedPort(i: nat, available: set<int>, draws: seq<int>): Result<int, PortError>
  {
    if ChunkPort(i) > MAX_PORT then Failure(PortOutOfRange(ChunkPort(i)))
    else if ChunkPort(i) in available then Success(ChunkPort(i))
    else RandomSearch(available, draws)
  }

  /** The first chunk, from k on, for which no port can be found. */
  function FirstUnallocated(n: nat, available: set<int>, portDraws: seq<seq<int>>, k: nat): (r: Option<nat>)
    requires |portDraws| >= n && k <= n
    ensures r.Some? ==>
      && k <= r.value < n && AllocatedPort(r.value, available, portDraws[r.value]).Failure?
      && forall i :: k <= i < r.value ==> AllocatedPort(i, available, portDraws[i]).Success?
    ensures r.None? ==> forall i :: k <= i < n ==> AllocatedPort(i, available, portDraws[i]).Success?
    decreases n - k
  {
    if k == n then None
    else if AllocatedPort(k, available, portDraws[k]).Failure? then Some(k)
    else FirstUnallocated(n, available, portDraws, k + 1)
  }

  lemma {:induction false} FirstUnallocatedSkips(n: nat, available: set<int>, portDraws: seq<seq<int>>, k: nat, i: nat)
    requires |portDraws| >= n && k <= i <= n
    requires forall j :: k <= j < i ==> AllocatedPort(j, available, portDraws[j]).Success?
    ensures FirstUnallocated(n, available, portDraws, k) == FirstUnallocated(n, available, portDraws, i)
    decreases i - k
  {
    if k < i {
      FirstUnallocatedSkips(n, available, portDraws, k + 1, i);
    }
  }

  /** The port map after the first n chunks have been allocated. */
  function PortMap(n: nat, available: set<int>, portDraws: seq<seq<int>>): (m: map<int, int>)
    requires |portDraws| >= n
    requires forall i :: 0 <= i < n ==> AllocatedPort(i, available, portDraws[i]).Success?
  {
    if n == 0 then map[]
    else PortMap(n - 1, available, portDraws)[n - 1 := AllocatedPort(n - 1, available, portDraws[n - 1]).value]
  }

  /** One more allocated chunk extends the map by its port. */
  lemma PortMapGrows(i: nat, available: set<int>, portDraws: seq<seq<int>>)
    requires |portDraws| > i
    requires forall j :: 0 <= j < i ==> AllocatedPort(j, available, portDraws[j]).Success?
    requires AllocatedPort(i, available, portDraws[i]).Success?
    ensures forall j :: 0 <= j < i + 1 ==> AllocatedPort(j, available, portDraws[j]).Success?
    ensures PortMap(i + 1, available, portDraws)
      == PortMap(i, available, portDraws)[i := AllocatedPort(i, available, portDraws[i]).value]
  {
  }

  /** The map announced for n chunks has one entry per chunk, holding the port findAvailablePort
      chose for it. */
  lemma {:induction false} PortMapEntries(n: nat, available: set<int>, portDraws: seq<seq<int>>)
    requires |portDraws| >= n
    requires forall i :: 0 <= i < n ==> AllocatedPort(i, available, portDraws[i]).Success?
    ensures forall i :: i in PortMap(n, available, portDraws) <==> 0 <= i < n
    ensures forall i :: 0 <= i < n ==> PortMap(n, available, portDraws)[i] == AllocatedPort(i, available, portDraws[i]).value
  {
    if n > 0 {
      PortMapEntries(n - 1, available, portDraws);
    }
  }

  /** What each chunk port receives while the chunks are sent in order: chunk i's accepted
      connection, if any, for every chunk up to and including the first that fails, and no
      connection for the chunks after it, which are cancelled before they start. */
  function SentWires(content: seq<byte>, chunks: seq<FileChunk>, attempts: seq<seq<Attempt>>)
    : (w: seq<Option<seq<byte>>>)
    requires Sendable(content, chunks, attempts)
    ensures |w| == |chunks|
  {
    var stop := Completed(ChunksOutcome(content, chunks, attempts, 0), |chunks|);
    seq(|chunks|, i requires 0 <= i < |chunks| && FitsFields(HeaderOf(chunks[i]))
                             && 0 <= chunks[i].startPosition <= |content| && |attempts[i]| >= MAX_RETRIES
                    => if i <= stop then ChunkWire(content, HeaderOf(chunks[i]), attempts[i]) else None)
  }

  lemma SentWiresEntries(content: seq<byte>, chunks: seq<FileChunk>, attempts: seq<seq<Attempt>>)
    requires Sendable(content, chunks, attempts)
    ensures var stop := Completed(ChunksOutcome(content, chunks, attempts, 0), |chunks|);
      forall i :: 0 <= i < |chunks| ==>
        SentWires(content, chunks, attempts)[i]
        == if i <= stop then ChunkWire(content, HeaderOf(chunks[i]), attempts[i]) else None
  {
  }

  /** What the ports of the first k chunks receive when each is sent. */
  function WiresUpTo(content: seq<byte>, chunks: seq<FileChunk>, attempts: seq<seq<Attempt>>, k: nat)
    : (w: seq<Option<seq<byte>>>)
    requires Sendable(content, chunks, attempts) && k <= |chunks|
    ensures |w| == k
    ensures forall i :: 0 <= i < k ==> w[i] == ChunkWire(content, HeaderOf(chunks[i]), attempts[i])
  {
    if k == 0 then [] else WiresUpTo(content, chunks, attempts, k - 1) + [ChunkWire(content, HeaderOf(chunks[k - 1]), attempts[k - 1])]
  }

  /** The chunk ports up to the one that failed received what was sent to them, and no later
      port received anything. */
  lemma WiresUpToFailure(content: seq<byte>, chunks: seq<FileChunk>, attempts: seq<seq<Attempt>>, k: nat)
    requires Sendable(content, chunks, attempts) && k < |chunks|
    requires Completed(ChunksOutcome(content, chunks, attempts, 0), |chunks|) == k
    ensures WiresUpTo(content, chunks, attempts, k + 1) + seq(|chunks| - k - 1, _ => None)
         == SentWires(content, chunks, attempts)
  {
    SentWiresEntries(content, chunks, attempts);
  }

  /** When every chunk went out, each port received what was sent to it. */
  lemma WiresUpToSuccess(content: seq<byte>, chunks: seq<FileChunk>, attempts: seq<seq<Attempt>>)
    requires Sendable(content, chunks, attempts) && ChunksOutcome(content, chunks, attempts, 0).Success?
    ensures WiresUpTo(content, chunks, attempts, |chunks|) == SentWires(content, chunks, attempts)
  {
    SentWiresEntries(content, chunks, attempts);
  }

  /** When the fan-out succeeds, every chunk port received exactly its chunk's header and
      bytes. */
  lemma SentWiresOnSuccess(content: seq<byte>, chunks: seq<FileChunk>, attempts: seq<seq<Attempt>>)
    requires Sendable(content, chunks, attempts) && ChunksOutcome(content, chunks, attempts, 0).Success?
    ensures forall i :: 0 <= i < |chunks| ==> Within(content, chunks[i])
    ensures SentWires(content, chunks, attempts) == Delivered(ChunkStreams(content, chunks))
  {
    ChunksOutcomeMeaning(content, chunks, attempts, 0);
    forall i | 0 <= i < |chunks|
      ensures Within(content, chunks[i])
      ensures ChunkWire(content, HeaderOf(chunks[i]), attempts[i]) == Some(ChunkStream(content, chunks[i]))
    {
      DeliveredChunk(content, chunks[i], attempts[i]);
    }
  }

  /** When chunk k fails, its port received the bytes of the one attempt it accepted (if any), and
      the ports of the chunks after it received nothing. */
  lemma SentWiresOnFailure(content: seq<byte>, chunks: seq<FileChunk>, attempts: seq<seq<Attempt>>)
    requires Sendable(content, chunks, attempts) && ChunksOutcome(content, chunks, attempts, 0).Failure?
    ensures var k := ChunksOutcome(content, chunks, attempts, 0).error.chunk;
      var w := SentWires(content, chunks, attempts);
      && (forall i :: 0 <= i < k ==> Within(content, chunks[i]) && w[i] == Some(ChunkStream(content, chunks[i])))
      && w[k] == ChunkWire(content, HeaderOf(chunks[k]), attempts[k])
      && (forall i :: k < i < |chunks| ==> w[i].None?)
  {
    ChunksOutcomeMeaning(content, chunks, attempts, 0);
    var k := ChunksOutcome(content, chunks, attempts, 0).error.chunk;
    forall i | 0 <= i < k
      ensures Within(content, chunks[i])
      ensures ChunkWire(content, HeaderOf(chunks[i]), attempts[i]) == Some(ChunkStream(content, chunks[i]))
    {
      DeliveredChunk(content, chunks[i], attempts[i]);
    }
  }

  /** A chunk that gets through lies inside the file and reached its port as its stream. */
  lemma DeliveredChunk(content: seq<byte>, c: FileChunk, attempts: seq<Attempt>)
    requires FitsFields(HeaderOf(c)) && 0 <= c.startPosition <= |content| && |attempts| >= MAX_RETRIES
    requires ChunkSucceeds(content, c, attempts)
    ensures Within(content, c) && ChunkWire(content, HeaderOf(c), attempts) == Some(ChunkStream(content, c))
  {
    DeliveredWire(content, HeaderOf(c), attempts);
  }

  /** The number of leading chunks the received map gives a port: the first chunk from k on
      without an entry, or n when each of them has one. */
  function MappedPrefix(mapping: map<int, int>, n: nat, k: nat): (u: nat)
    requires k <= n
    ensures k <= u <= n
    ensures forall j :: k <= j < u ==> j in mapping
    ensures u < n ==> u !in mapping
    decreases n - k
  {
    if k == n || k !in mapping then k else MappedPrefix(mapping, n, k + 1)
  }

  /** The fan-out as written when the received map gives ports to chunks 0..u-1 and not to chunk
      u (u = |chunks| when it maps them all): tasks 0..u-1 run as in the corrected loop, task u
      throws as it unboxes its missing port, before it connects, and the tasks after it are
      cancelled. */
  function MappedOutcome(content: seq<byte>, chunks: seq<FileChunk>, attempts: seq<seq<Attempt>>, u: nat)
    : Result<(), SendError>
    requires Sendable(content, chunks, attempts) && u <= |chunks|
  {
    var done := ChunksOutcome(content, chunks[..u], attempts, 0);
    if done.Success? && u < |chunks| then Failure(UnmappedChunk(u)) else done
  }

  /** What each chunk port receives in that fan-out. */
  function MappedWires(content: seq<byte>, chunks: seq<FileChunk>, attempts: seq<seq<Attempt>>, u: nat)
    : seq<Option<seq<byte>>>
    requires Sendable(content, chunks, attempts) && u <= |chunks|
  {
    SentWires(content, chunks[..u], attempts) + seq(|chunks| - u, _ => None)
  }

  /** With every chunk mapped, the fan-out as written is the corrected one. */
  lemma MappedAll(content: seq<byte>, chunks: seq<FileChunk>, attempts: seq<seq<Attempt>>)
    requires Sendable(content, chunks, attempts)
    ensures MappedOutcome(content, chunks, attempts, |chunks|) == ChunksOutcome(content, chunks, attempts, 0)
    ensures MappedWires(content, chunks, attempts, |chunks|) == SentWires(content, chunks, attempts)
  {
    assert chunks[..|chunks|] == chunks;
  }

  /** With chunk u unmapped, the fan-out fails on u exactly when chunks 0..u-1 all get through;
      then each of their ports received its chunk's stream, and neither u's port nor any later
      one received anything. Otherwise it fails on the first of them that does not get
      through. */
  lemma {:induction false} UnmappedFanOut(content: seq<byte>, chunks: seq<FileChunk>, attempts: seq<seq<Attempt>>, u: nat)
    requires Sendable(content, chunks, attempts) && u < |chunks|
    ensures var r := MappedOutcome(content, chunks, attempts, u);
      && (r == Failure(UnmappedChunk(u)) <==> forall i :: 0 <= i < u ==> ChunkSucceeds(content, chunks[i], attempts[i]))
      && (r != Failure(UnmappedChunk(u)) ==>
            r.Failure? && r.error.ChunkFailed? && r.error.chunk < u
            && !ChunkSucceeds(content, chunks[r.error.chunk], attempts[r.error.chunk]))
    ensures MappedOutcome(content, chunks, attempts, u) == Failure(UnmappedChunk(u)) ==>
      var w := MappedWires(content, chunks, attempts, u);
      && (forall i :: 0 <= i < u ==> Within(content, chunks[i]) && w[i] == Some(ChunkStream(content, chunks[i])))
      && (forall i :: u <= i < |chunks| ==> w[i].None?)
  {
    var cs := chunks[..u];
    ChunksOutcomeMeaning(content, cs, attempts, 0);
    if ChunksOutcome(content, cs, attempts, 0).Success? {
      SentWiresOnSuccess(content, cs, attempts);
    }
  }

  class Sender {
    /** The ports announced for the chunks of the file being sent; emptied after every file. */
    var chunkPortMap: map<int, int>
    /** Whether the peer listener keeps polling for broadcasts. */
    var isListening: bool

    constructor ()
      ensures chunkPortMap == map[] && isListening
    {
      chunkPortMap := map[];
      isListening := true;
    }

    method SetListening(listening: bool)
      modifies this
      ensures isListening == listening && chunkPortMap == old(chunkPortMap)
    {
      isListening := listening;
    }

    /** The chunk loop shared by both variants: chunk i goes to `ports[i]`. */
    method SendChunks(content: seq<byte>, chunks: seq<FileChunk>, attempts: seq<seq<Attempt>>)
      returns (r: Result<(), SendError>, wires: seq<Option<seq<byte>>>, progress: seq<nat>)
      requires Sendable(content, chunks, attempts)
      ensures r == ChunksOutcome(content, chunks, attempts, 0)
      ensures wires == SentWires(content, chunks, attempts)
      ensures ReportsSteps(progress, |chunks|) && |progress| == Completed(r, |chunks|)
      ensures r.Success? ==>
        && (forall i :: 0 <= i < |chunks| ==> Within(content, chunks[i]))
        && wires == Delivered(ChunkStreams(content, chunks))
    {
      r, wires, progress := ChunkLoop(content, chunks, attempts);
      if |chunks| > 0 {
        ProgressUpToSteps(|progress|, |chunks|);
      }
      if r.Success? {
        SentWiresOnSuccess(content, chunks, attempts);
      }
    }

    /** The loop itself, with what each port receives and the progress stated chunk by chunk. */
    static method ChunkLoop(content: seq<byte>, chunks: seq<FileChunk>, attempts: seq<seq<Attempt>>)
      returns (r: Result<(), SendError>, wires: seq<Option<seq<byte>>>, progress: seq<nat>)
      requires Sendable(content, chunks, attempts)
      ensures r == ChunksOutcome(content, chunks, attempts, 0)
      ensures wires == SentWires(content, chunks, attempts)
      ensures |progress| == Completed(r, |chunks|)
      ensures |chunks| > 0 ==> progress == ProgressUpTo(|progress|, |chunks|)
    {
      wires := [];
      progress := [];
      var completedChunks := 0;
      while completedChunks < |chunks|
        invariant 0 <= completedChunks <= |chunks| && |progress| == completedChunks
        invariant ChunksOutcome(content, chunks, attempts, 0) == ChunksOutcome(content, chunks, attempts, completedChunks)
        invariant wires == WiresUpTo(content, chunks, attempts, completedChunks)
        invariant |chunks| > 0 ==> progress == ProgressUpTo(completedChunks, |chunks|)
      {
        var failed, wire := SendOne(content, chunks, attempts, completedChunks);
        if failed.Some? {
          WiresUpToFailure(content, chunks, attempts, completedChunks);
          wires := wires + [wire] + seq(|chunks| - completedChunks - 1, _ => None);
          return Failure(failed.value), wires, progress;
        }
        wires := wires + [wire];
        progress := progress + [ChunkProgress(completedChunks + 1, |chunks|)];
        completedChunks := completedChunks + 1;
      }
      r := Success(());
      WiresUpToSuccess(content, chunks, attempts);
    }

    /** The task for chunk k: sendSingleChunk with the chunk's header. `wire` is what the chunk's
        port received. */
    static method SendOne(content: seq<byte>, chunks: seq<FileChunk>, attempts: seq<seq<Attempt>>, k: nat)
      returns (failed: Option<SendError>, wire: Option<seq<byte>>)
      requires Sendable(content, chunks, attempts) && k < |chunks|
      ensures wire == ChunkWire(content, HeaderOf(chunks[k]), attempts[k])
      ensures failed.Some? ==>
        && ChunksOutcome(content, chunks, attempts, k) == Failure(failed.value)
        && failed.value.ChunkFailed? && failed.value.chunk == k
      ensures failed.None? ==>
        && ChunksOutcome(content, chunks, attempts, k) == ChunksOutcome(content, chunks, attempts, k + 1)
        && Within(content, chunks[k]) && wire == Some(ChunkStream(content, chunks[k]))
    {
      var c := chunks[k];
      var result, delays;
      result, delays, wire := SendSingleChunk(HeaderOf(c), content, attempts[k]);
      if result.Failure? {
        return Some(ChunkFailed(k, result.error)), wire;
      }
      failed := None;
    }

    /** The allocation loop of sendFileChunks: findAvailablePort for each chunk in turn. */
    static method AllocatePorts(n: nat, available: set<int>, portDraws: seq<seq<int>>)
      returns (r: Result<map<int, int>, SendError>)
      requires Drawable(portDraws, n)
      ensures var missing := FirstUnallocated(n, available, portDraws, 0);
        && (missing.Some? ==> r == Failure(NoPort(missing.value)))
        && (missing.None? ==> r == Success(PortMap(n, available, portDraws)))
    {
      var ports: map<int, int> := map[];
      var i := 0;
      while i < n
        invariant 0 <= i <= n
        invariant forall j :: 0 <= j < i ==> AllocatedPort(j, available, portDraws[j]).Success?
        invariant ports == PortMap(i, available, portDraws)
      {
        var port := FindAvailablePort(i, available, portDraws[i]);
        assert port == AllocatedPort(i, available, portDraws[i]);
        if port.Failure? {
          FirstUnallocatedSkips(n, available, portDraws, 0, i);
          return Failure(NoPort(i));
        }
        PortMapGrows(i, available, portDraws);
        ports := ports[i := port.value];
        i := i + 1;
      }
      FirstUnallocatedSkips(n, available, portDraws, 0, n);
      return Success(ports);
    }

    /** sendFileChunks as written: allocate a port per chunk on this host, send the map on 9090
        and wait for the receiver's adjusted map, then send the chunks to the mapped ports. The
        map is emptied whatever happens. When the reply leaves chunk u without a port, the
        chunks before it are sent as usual and chunk u's task throws before it connects. */
    method SendFileChunksAsWritten(content: seq<byte>, chunks: seq<FileChunk>, available: set<int>,
                                   portDraws: seq<seq<int>>, mappingReply: Option<map<int, int>>,
                                   attempts: seq<seq<Attempt>>)
      returns (r: Result<(), SendError>, announced: map<int, int>, wires: seq<Option<seq<byte>>>)
      requires Sendable(content, chunks, attempts) && Drawable(portDraws, |chunks|)
      modifies this
      ensures chunkPortMap == map[] && isListening == old(isListening)
      ensures var missing := FirstUnallocated(|chunks|, available, portDraws, 0);
        && (missing.Some? ==> r == Failure(NoPort(missing.value)))
        && (missing.None? ==>
              && announced == old(chunkPortMap) + PortMap(|chunks|, available, portDraws)
              && (mappingReply.None? ==> r == Failure(MappingUnanswered)))
      ensures mappingReply.Some? && FirstUnallocated(|chunks|, available, portDraws, 0).None? ==>
        var u := MappedPrefix(mappingReply.value, |chunks|, 0);
        r == MappedOutcome(content, chunks, attempts, u) && wires == MappedWires(content, chunks, attempts, u)
      ensures r.Failure? && (r.error.NoPort? || r.error.MappingUnanswered?) ==> wires == []
      ensures r.Success? ==>
        && mappingReply.Some? && (forall i :: 0 <= i < |chunks| ==> i in mappingReply.value)
        && ChunksOutcome(content, chunks, attempts, 0).Success?
        && (forall i :: 0 <= i < |chunks| ==> Within(content, chunks[i]))
        && wires == Delivered(ChunkStreams(content, chunks))
    {
      announced := map[];
      wires := [];
      var ports := AllocatePorts(|chunks|, available, portDraws);
      if ports.Failure? {
        chunkPortMap := map[];
        return Failure(ports.error), announced, wires;
      }
      chunkPortMap := chunkPortMap + ports.value;
      announced := chunkPortMap;
      if mappingReply.None? {
        chunkPortMap := map[];
        return Failure(MappingUnanswered), announced, wires;
      }
      chunkPortMap := mappingReply.value;
      r, wires := SendMapped(content, chunks, attempts, chunkPortMap);
      chunkPortMap := map[];
    }

    /** The submission and completion loops as written, with the received map: each task
        unboxes its chunk's port from the map before it connects. */
    static method SendMapped(content: seq<byte>, chunks: seq<FileChunk>, attempts: seq<seq<Attempt>>,
                             mapping: map<int, int>)
      returns (r: Result<(), SendError>, wires: seq<Option<seq<byte>>>)
      requires Sendable(content, chunks, attempts)
      ensures var u := MappedPrefix(mapping, |chunks|, 0);
        r == MappedOutcome(content, chunks, attempts, u) && wires == MappedWires(content, chunks, attempts, u)
      ensures r.Success? ==>
        && (forall i :: 0 <= i < |chunks| ==> i in mapping)
        && ChunksOutcome(content, chunks, attempts, 0).Success?
        && (forall i :: 0 <= i < |chunks| ==> Within(content, chunks[i]))
        && wires == Delivered(ChunkStreams(content, chunks))
    {
      var unmapped := FirstUnmapped(mapping, |chunks|);
      var u := if unmapped.Some? then unmapped.value else |chunks|;
      var sent, progress;
      r, sent, progress := ChunkLoop(content, chunks[..u], attempts);
      if r.Success? && u < |chunks| {
        r := Failure(UnmappedChunk(u));
      }
      wires := sent + seq(|chunks| - u, _ => None);
      if u == |chunks| {
        MappedAll(content, chunks, attempts);
        if r.Success? {
          SentWiresOnSuccess(content, chunks, attempts);
        }
      }
    }

    /** The lookup of each chunk's port in the received map, chunk by chunk: the first chunk
        without an entry, if any. */
    static method FirstUnmapped(mapping: map<int, int>, n: nat) returns (missing: Option<nat>)
      ensures var u := MappedPrefix(mapping, n, 0); missing == if u < n then Some(u) else None
      ensures missing.None? <==> forall j :: 0 <= j < n ==> j in mapping
      ensures missing.Some? ==>
        && missing.value < n && missing.value !in mapping
        && forall j :: 0 <= j < missing.value ==> j in mapping
    {
      var k := 0;
      while k < n
        invariant 0 <= k <= n
        invariant forall j :: 0 <= j < k ==> j in mapping
      {
        if k !in mapping {
          return Some(k);
        }
        k := k + 1;
      }
      return None;
    }

    /** sendFileChunks corrected to match the receiver: chunk i goes straight to the port the
        receiver opens for it, 9091 + i, with no port map exchange. */
    method SendFileChunks(content: seq<byte>, chunks: seq<FileChunk>, attempts: seq<seq<Attempt>>)
      returns (r: Result<(), SendError>, ports: seq<int>, wires: seq<Option<seq<byte>>>, progress: seq<nat>)
      requires Sendable(content, chunks, attempts)
      modifies this
      ensures chunkPortMap == map[] && isListening == old(isListening)
      ensures |ports| == |chunks| && forall i :: 0 <= i < |chunks| ==> ports[i] == ChunkPort(i)
      ensures r == ChunksOutcome(content, chunks, attempts, 0)
      ensures wires == SentWires(content, chunks, attempts)
      ensures ReportsSteps(progress, |chunks|) && |progress| == Completed(r, |chunks|)
      ensures r.Success? ==>
        && (forall i :: 0 <= i < |chunks| ==> Within(content, chunks[i]))
        && wires == Delivered(ChunkStreams(content, chunks))
    {
      ports := seq(|chunks|, i => ChunkPort(i));
      r, wires, progress := SendChunks(content, chunks, attempts);
      chunkPortMap := map[];
    }

    /** sendFile with the corrected chunk fan-out: the metadata header, the wait for READY, the
        chunks, and the termination marker when this is the last file. `wires` is what each chunk
        port received. */
    method SendFile(content: seq<byte>, fileName: string, processors: nat, link: Link, isLastFile: bool)
      returns (r: Result<(), SendError>, metadata: seq<byte>, wires: seq<Option<seq<byte>>>, marker: seq<byte>,
               progress: seq<nat>)
      requires Announceable(content, fileName, processors) && Scripted(content, fileName, processors, link)
      modifies this
      ensures isListening == old(isListening)
      ensures r == SendOutcome(content, fileName, processors, link, isLastFile)
      ensures progress == SendProgress(content, fileName, processors, link)
      ensures wires == SendWires(content, fileName, processors, link)
      ensures if r.Failure? && (r.error.MetadataConnectFailed? || r.error.NotReady?)
              then chunkPortMap == old(chunkPortMap) else chunkPortMap == map[]
      ensures metadata == if link.metadataConnects then PlannedMetadata(content, fileName, processors) else []
      ensures var chunks := PlannedChunks(fileName, |content|, processors);
        r.Success? || (r.Failure? && r.error.MarkerConnectFailed?) ==>
          (forall i :: 0 <= i < |chunks| ==> Within(content, chunks[i]))
          && wires == Delivered(ChunkStreams(content, chunks))
      ensures marker == if r.Success? && isLastFile then TerminationMarker() else []
    {
      metadata, wires, marker, progress := [], [], [], [];
      if !link.metadataConnects {
        return Failure(MetadataConnectFailed), metadata, wires, marker, progress;
      }
      var plan := Plan(|content|, processors);
      metadata := EncodeMetadata(Metadata(|content|, plan.totalChunks, fileName));
      var response := WaitForResponse(link.reply);
      if response != Success("READY") {
        return Failure(NotReady(response)), metadata, wires, marker, progress;
      }
      var chunks := PlanChunks(fileName, |content|, plan.chunkSize, plan.totalChunks);
      assert chunks == PlannedChunks(fileName, |content|, processors);
      r, wires, marker, progress := SendPlanned(content, chunks, link.attempts, isLastFile, link.markerConnects);
    }

    /** The part of sendFile after READY: the chunks, then the termination marker if this is the
        last file and every chunk got through. */
    method SendPlanned(content: seq<byte>, chunks: seq<FileChunk>, attempts: seq<seq<Attempt>>,
                       isLastFile: bool, markerConnects: bool)
      returns (r: Result<(), SendError>, wires: seq<Option<seq<byte>>>, marker: seq<byte>, progress: seq<nat>)
      requires Sendable(content, chunks, attempts)
      modifies this
      ensures chunkPortMap == map[] && isListening == old(isListening)
      ensures wires == SentWires(content, chunks, attempts)
      ensures ReportsSteps(progress, |chunks|)
      ensures |progress| == Completed(ChunksOutcome(content, chunks, attempts, 0), |chunks|)
      ensures r == Finish(ChunksOutcome(content, chunks, attempts, 0), isLastFile, markerConnects)
      ensures r.Failure? ==> r.error.ChunkFailed? || r.error.MarkerConnectFailed?
      ensures r.Success? || (r.Failure? && r.error.MarkerConnectFailed?) ==>
        (forall i :: 0 <= i < |chunks| ==> Within(content, chunks[i]))
        && wires == Delivered(ChunkStreams(content, chunks))
      ensures marker == if r.Success? && isLastFile then TerminationMarker() else []
    {
      marker := [];
      var ports;
      r, ports, wires, progress := SendFileChunks(content, chunks, attempts);
      if r.Failure? {
        return;
      }
      if isLastFile {
        if !markerConnects {
          return Failure(MarkerConnectFailed), wires, marker, progress;
        }
        marker := TerminationMarker();
      }
    }
  }

  /** How a file ends once the receiver has answered READY: the chunks' outcome, and then the
      termination marker's connection for the last file. */
  function Finish(chunks: Result<(), SendError>, isLastFile: bool, markerConnects: bool): Result<(), SendError>
  {
    if chunks.Success? && isLastFile && !markerConnects then Failure(MarkerConnectFailed) else chunks
  }

  /** The file's size and name fit the metadata header's fields. */
  predicate Announceable(content: seq<byte>, fileName: string, processors: nat)
  {
    |content| <= INT64_MAX && IsInt32(|Utf8.Encode(fileName)|) && processors >= 1
  }

  /** The chunks sendFileChunks submits for a file. */
  function PlannedChunks(fileName: string, fileSize: nat, processors: nat): (chunks: seq<FileChunk>)
    requires fileSize <= INT64_MAX && processors >= 1
    ensures |chunks| == Plan(fileSize, processors).totalChunks
    ensures forall i :: 0 <= i < |chunks| ==>
      FitsFields(HeaderOf(chunks[i])) && 0 <= chunks[i].startPosition < fileSize && 0 < chunks[i].chunkSize
  {
    var plan := Plan(fileSize, processors);
    PlannedChunksFit(fileName, fileSize, processors);
    ChunksOf(fileName, fileSize, plan.chunkSize, plan.totalChunks)
  }

  /** The network script has three attempts for every chunk of the plan. */
  predicate Scripted(content: seq<byte>, fileName: string, processors: nat, link: Link)
    requires Announceable(content, fileName, processors)
  {
    Sendable(content, PlannedChunks(fileName, |content|, processors), link.attempts)
  }

  function PlannedMetadata(content: seq<byte>, fileName: string, processors: nat): seq<byte>
    requires Announceable(content, fileName, processors)
  {
    EncodeMetadata(Metadata(|content|, Plan(|content|, processors).totalChunks, fileName))
  }

  /** How sending one file ends. */
  function SendOutcome(content: seq<byte>, fileName: string, processors: nat, link: Link, isLastFile: bool)
    : Result<(), SendError>
    requires Announceable(content, fileName, processors) && Scripted(content, fileName, processors, link)
  {
    if !link.metadataConnects then Failure(MetadataConnectFailed)
    else if Scan(link.reply, []) != Success("READY") then Failure(NotReady(Scan(link.reply, [])))
    else
      var chunks := PlannedChunks(fileName, |content|, processors);
      Finish(ChunksOutcome(content, chunks, link.attempts, 0), isLastFile, link.markerConnects)
  }

  /** Whether sendFile reaches the chunks: the metadata connection opens and the receiver
      answers READY. */
  predicate Ready(link: Link)
  {
    link.metadataConnects && Scan(link.reply, []) == Success("READY")
  }

  /** The chunk progress sendFile reports: one step for every chunk that got through before the
      fan-out stopped, and none when the receiver never answered READY. */
  function SendProgress(content: seq<byte>, fileName: string, processors: nat, link: Link): (p: seq<nat>)
    requires Announceable(content, fileName, processors) && Scripted(content, fileName, processors, link)
    ensures ReportsSteps(p, Plan(|content|, processors).totalChunks)
  {
    var chunks := PlannedChunks(fileName, |content|, processors);
    if !Ready(link) || |chunks| == 0 then []
    else ProgressSteps(|chunks|)[..Completed(ChunksOutcome(content, chunks, link.attempts, 0), |chunks|)]
  }

  /** What each chunk port receives while sendFile sends the file: no connection at all before
      READY. */
  function SendWires(content: seq<byte>, fileName: string, processors: nat, link: Link): seq<Option<seq<byte>>>
    requires Announceable(content, fileName, processors) && Scripted(content, fileName, processors, link)
  {
    if !Ready(link) then [] else SentWires(content, PlannedChunks(fileName, |content|, processors), link.attempts)
  }

  /** A file that gets through has reached every chunk port as exactly its chunk's stream, and
      sendFile has reported every step up to 100%. */
  lemma SentFileIntact(content: seq<byte>, fileName: string, processors: nat, link: Link, isLastFile: bool)
    requires Announceable(content, fileName, processors) && Scripted(content, fileName, processors, link)
    requires SendOutcome(content, fileName, processors, link, isLastFile).Success?
    ensures var chunks := PlannedChunks(fileName, |content|, processors);
      && (forall i :: 0 <= i < |chunks| ==> Within(content, chunks[i]))
      && SendWires(content, fileName, processors, link) == Delivered(ChunkStreams(content, chunks))
      && SendProgress(content, fileName, processors, link)
         == if |chunks| == 0 then [] else ProgressSteps(|chunks|)
  {
    var chunks := PlannedChunks(fileName, |content|, processors);
    SentWiresOnSuccess(content, chunks, link.attempts);
    ChunksOutcomeMeaning(content, chunks, link.attempts, 0);
    if |chunks| > 0 {
      assert ProgressSteps(|chunks|)[..|chunks|] == ProgressSteps(|chunks|);
    }
  }

  /** A file gets through exactly when the metadata connection opens, the receiver answers READY,
      every chunk gets through within three attempts, and, for the last file, the connection for
      the termination marker opens. */
  lemma SendOutcomeMeaning(content: seq<byte>, fileName: string, processors: nat, link: Link, isLastFile: bool)
    requires Announceable(content, fileName, processors) && Scripted(content, fileName, processors, link)
    ensures var chunks := PlannedChunks(fileName, |content|, processors);
      SendOutcome(content, fileName, processors, link, isLastFile).Success?
      <==> && link.metadataConnects
           && Scan(link.reply, []) == Success("READY")
           && (forall i :: 0 <= i < |chunks| ==> ChunkSucceeds(content, chunks[i], link.attempts[i]))
           && (isLastFile ==> link.markerConnects)
  {
    ChunksOutcomeMeaning(content, PlannedChunks(fileName, |content|, processors), link.attempts, 0);
  }

  /** Every chunk of the plan has a header whose fields fit a Java int or long and starts inside
      the file, also when the chunk count saturates at Integer.MAX_VALUE. */
  lemma PlannedChunksFit(fileName: string, fileSize: nat, processors: nat)
    requires fileSize <= INT64_MAX && processors >= 1
    ensures var plan := Plan(fileSize, processors);
      forall i :: 0 <= i < plan.totalChunks ==>
        var c := ChunksOf(fileName, fileSize, plan.chunkSize, plan.totalChunks)[i];
        FitsFields(HeaderOf(c)) && 0 <= c.startPosition < fileSize && 0 < c.chunkSize
  {
    var plan := Plan(fileSize, processors);
    var chunks := ChunksOf(fileName, fileSize, plan.chunkSize, plan.totalChunks);
    forall i | 0 <= i < plan.totalChunks
      ensures FitsFields(HeaderOf(chunks[i])) && 0 <= chunks[i].startPosition < fileSize && 0 < chunks[i].chunkSize
    {
      ChunkStartInside(fileSize, plan.chunkSize, plan.totalChunks, i);
    }
  }

  lemma ChunkStartInside(fileSize: nat, chunkSize: nat, n: nat, i: nat)
    requires n == TotalChunks(fileSize, chunkSize) && i < n && 0 < chunkSize
    ensures i * chunkSize < fileSize
  {
    CeilDivBounds(fileSize, chunkSize);
    ChunkPlanner.MulLe(i, CeilDiv(fileSize, chunkSize) - 1, chunkSize);
  }
}
