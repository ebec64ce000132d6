/** Sender and receiver together: what sendFile puts on the wire, handed to receiveFile,
    rebuilds the file in the receiver's save directory. */
module EndToEnd {
  import opened JavaInts
  import opened Wrappers
  import Utf8
  import opened Wire
  import opened FileNames
  import opened ChunkPlanner
  import opened ChunkReceiver
  import opened Progress
  import opened SenderSide
  import opened ReceiverSide

  /** The chunk positions 0, 1, ..., n - 1, in order. */
  function InOrder(n: nat): (r: seq<nat>)
    ensures |r| == n && forall i :: 0 <= i < n ==> r[i] == i
  {
    seq(n, i => i)
  }

  /** The receiver reads back the header sendFile writes for a file whose name it accepts, and
      it announces at least one chunk. */
  lemma PlannedHeaderAccepted(content: seq<byte>, fileName: string, processors: nat, rest: seq<byte>)
    requires Announceable(content, fileName, processors) && 0 < |content| <= MAX_PLANNED_FILE_SIZE
    requires 1 <= |Utf8.Encode(fileName)| <= MAX_NAME_LENGTH && IsValidFileName(fileName)
    ensures var n := Plan(|content|, processors).totalChunks;
      n > 0 && ReadMetadata(PlannedMetadata(content, fileName, processors) + rest) == Accept(Metadata(|content|, n, fileName))
  {
    PlanTiles(fileName, |content|, processors);
    MetadataRoundTrip(Metadata(|content|, Plan(|content|, processors).totalChunks, fileName), rest);
  }

  /** The chunk streams sendFile sends, written by the corrected workers in the order the
      chunks were sent, turn the zero-filled file into the sender's content. */
  lemma PlannedStreamsRebuild(content: seq<byte>, fileName: string, processors: nat)
    requires Announceable(content, fileName, processors) && 0 < |content| <= MAX_PLANNED_FILE_SIZE
    ensures var chunks := PlannedChunks(fileName, |content|, processors);
      (forall i :: 0 <= i < |chunks| ==> Within(content, chunks[i]))
      && ReceiveAll(Zeros(|content|), ChunkStreams(content, chunks)) == Success(content)
  {
    var plan := Plan(|content|, processors);
    var chunks := PlannedChunks(fileName, |content|, processors);
    PlanTiles(fileName, |content|, processors);
    assert chunks == ChunksOf(fileName, |content|, plan.chunkSize, plan.totalChunks);
    var order := InOrder(|chunks|);
    forall i | 0 <= i < |chunks| ensures i in order {
      assert order[i] == i;
    }
    Reassembly(Zeros(|content|), content, chunks, order);
    assert OrderedStreams(content, chunks, order) == ChunkStreams(content, chunks);
  }

  /** A file whose name the receiver accepts, with its chunk ports free, a name free in the save
      directory and a file the receiver can create under it: the metadata header sendFile writes (whatever follows it) and the chunk
      streams it sends, one per chunk port, make receiveFile answer READY, report every chunk
      and save exactly the sender's content under the unique name. */
  lemma FileArrivesIntact(content: seq<byte>, fileName: string, processors: nat, rest: seq<byte>,
                          busy: set<int>, files: map<string, seq<byte>>)
    requires Announceable(content, fileName, processors) && 0 < |content| <= MAX_PLANNED_FILE_SIZE
    requires 1 <= |Utf8.Encode(fileName)| <= MAX_NAME_LENGTH && IsValidFileName(fileName)
    requires UniqueName(fileName, DirectoryNames(files)).Success?
    requires forall i :: 0 <= i < Plan(|content|, processors).totalChunks ==> !PortUnusable(ChunkPort(i), busy)
    ensures var chunks := PlannedChunks(fileName, |content|, processors);
      (forall i :: 0 <= i < |chunks| ==> Within(content, chunks[i]))
      && var conn := Connection(PlannedMetadata(content, fileName, processors) + rest, true,
                                Delivered(ChunkStreams(content, chunks)));
         var name := UniqueName(fileName, DirectoryNames(files)).value;
         ReceiveFileSpec(conn, true, busy, files)
         == Receipt(Received(name), ["READY"], files[name := content], ProgressSteps(|chunks|))
  {
    PlannedHeaderAccepted(content, fileName, processors, rest);
    PlannedStreamsRebuild(content, fileName, processors);
    var chunks := PlannedChunks(fileName, |content|, processors);
    AcceptedAndDelivered(PlannedMetadata(content, fileName, processors) + rest, ChunkStreams(content, chunks), busy, files);
  }

  /** The last file of a batch, which the receiver can create, followed by the termination marker
      on the next connection: the receiver's session saves the file and ends on the marker, with receiveFile returning true
      once. */
  lemma LastFileEndsSession(content: seq<byte>, fileName: string, processors: nat, rest: seq<byte>,
                            markerRest: seq<byte>, busy: set<int>, files: map<string, seq<byte>>)
    requires Announceable(content, fileName, processors) && 0 < |content| <= MAX_PLANNED_FILE_SIZE
    requires 1 <= |Utf8.Encode(fileName)| <= MAX_NAME_LENGTH && IsValidFileName(fileName)
    requires UniqueName(fileName, DirectoryNames(files)).Success?
    requires forall i :: 0 <= i < Plan(|content|, processors).totalChunks ==> !PortUnusable(ChunkPort(i), busy)
    ensures var chunks := PlannedChunks(fileName, |content|, processors);
      (forall i :: 0 <= i < |chunks| ==> Within(content, chunks[i]))
      && var file := Connection(PlannedMetadata(content, fileName, processors) + rest, true,
                                Delivered(ChunkStreams(content, chunks)));
         var marker := Connection(TerminationMarker() + markerRest, false, []);
         var name := UniqueName(fileName, DirectoryNames(files)).value;
         SessionLoop([file, marker], true, busy, files)
         == SessionLog([Received(name), Terminated], files[name := content], TerminationReceived)
  {
    FileArrivesIntact(content, fileName, processors, rest, busy, files);
    var chunks := PlannedChunks(fileName, |content|, processors);
    var file := Connection(PlannedMetadata(content, fileName, processors) + rest, true, Delivered(ChunkStreams(content, chunks)));
    ReceivedThenMarker(file, markerRest, [], busy, files);
  }

  /** What sendFile itself puts on the wire when it succeeds (its header, whatever follows it,
      and what reached each chunk port) makes a receiver that can create the file answer READY,
      save exactly the sender's content under the unique name, and report the same progress
      steps as the sender. */
  lemma SentFileSaved(content: seq<byte>, fileName: string, processors: nat, link: Link, isLastFile: bool,
                      rest: seq<byte>, busy: set<int>, files: map<string, seq<byte>>)
    requires Announceable(content, fileName, processors) && 0 < |content| <= MAX_PLANNED_FILE_SIZE
    requires Scripted(content, fileName, processors, link)
    requires SendOutcome(content, fileName, processors, link, isLastFile).Success?
    requires 1 <= |Utf8.Encode(fileName)| <= MAX_NAME_LENGTH && IsValidFileName(fileName)
    requires UniqueName(fileName, DirectoryNames(files)).Success?
    requires forall i :: 0 <= i < Plan(|content|, processors).totalChunks ==> !PortUnusable(ChunkPort(i), busy)
    ensures var conn := Connection(PlannedMetadata(content, fileName, processors) + rest, true,
                                   SendWires(content, fileName, processors, link));
      var name := UniqueName(fileName, DirectoryNames(files)).value;
      ReceiveFileSpec(conn, true, busy, files)
      == Receipt(Received(name), ["READY"], files[name := content], SendProgress(content, fileName, processors, link))
  {
    SentFileIntact(content, fileName, processors, link, isLastFile);
    FileArrivesIntact(content, fileName, processors, rest, busy, files);
    PlannedHeaderAccepted(content, fileName, processors, rest);
  }

  /** sendFile as written: after READY, sendFileChunks connects to no chunk port until the
      receiver answers its port map, so a receiver that can create the file waits in take() for
      chunk 0 with the zero-filled file created and never reads another connection on 9090, the one
      carrying the map included. */
  lemma AsWrittenSessionHangs(content: seq<byte>, fileName: string, processors: nat, rest: seq<byte>,
                              later: seq<Connection>, busy: set<int>, files: map<string, seq<byte>>)
    requires Announceable(content, fileName, processors) && 0 < |content| <= MAX_PLANNED_FILE_SIZE
    requires 1 <= |Utf8.Encode(fileName)| <= MAX_NAME_LENGTH && IsValidFileName(fileName)
    requires UniqueName(fileName, DirectoryNames(files)).Success?
    requires forall i :: 0 <= i < Plan(|content|, processors).totalChunks ==> !PortUnusable(ChunkPort(i), busy)
    ensures var conn := Connection(PlannedMetadata(content, fileName, processors) + rest, true, []);
      var name := UniqueName(fileName, DirectoryNames(files)).value;
      SessionLoop([conn] + later, true, busy, files)
      == SessionLog([Blocked(0)], files[name := Zeros(|content|)], Hung)
  {
    PlannedHeaderAccepted(content, fileName, processors, rest);
    MapExchangeUnanswered(Connection(PlannedMetadata(content, fileName, processors) + rest, true, []), later, busy, files);
  }
}
