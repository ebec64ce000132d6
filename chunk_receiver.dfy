/** The receiver's chunk worker (Receiver.receiveFile, one task per chunk): read the chunk
    header, seek to the chunk's start in the pre-sized file and copy the stream into it, at most
    chunkSize bytes and stopping early when the stream ends. */
module ChunkReceiver {
  import opened JavaInts
  import opened Wrappers
  import opened Wire
  import opened ChunkPlanner

  const BUFFER_SIZE: nat := 8 * 1024 * 1024

  datatype WorkerError = HeaderTruncated | BadPosition

  /** How many bytes the copy loop takes from a stream holding `available` bytes. */
  function ReadCount(chunkSize: int, available: nat): (n: nat)
    ensures n <= available && (chunkSize > 0 ==> n <= chunkSize)
    ensures n < available ==> n == Max(0, chunkSize)
  {
    if chunkSize <= 0 then 0 else Min(chunkSize, available)
  }

  /** `s` with the bytes from `start` on replaced by `d`. */
  function Overwrite(s: seq<byte>, start: nat, d: seq<byte>): (r: seq<byte>)
    requires start + |d| <= |s|
    ensures |r| == |s|
  {
    s[..start] + d + s[start + |d|..]
  }

  /** What writing `d` after seeking to `start` leaves: a seek past the end is legal, and a
      write of nothing there leaves the file as it is. */
  function Written(s: seq<byte>, start: int, d: seq<byte>): (r: seq<byte>)
    requires 0 <= start && (|d| > 0 ==> start + |d| <= |s|)
    ensures |r| == |s|
    ensures forall k :: 0 <= k < |d| ==> r[start + k] == d[k]
    ensures forall k :: 0 <= k < |s| && !(start <= k < start + |d|) ==> r[k] == s[k]
  {
    if start + |d| <= |s| then Overwrite(s, start, d) else s
  }

  /** The write puts `d` at `start` and keeps every other byte. */
  lemma OverwriteFacts(s: seq<byte>, start: nat, d: seq<byte>)
    requires start + |d| <= |s|
    ensures forall k :: 0 <= k < |d| ==> Overwrite(s, start, d)[start + k] == d[k]
    ensures forall k :: 0 <= k < |s| && !(start <= k < start + |d|) ==> Overwrite(s, start, d)[k] == s[k]
  {
  }

  /** The copy loop of the worker: `data` is what the connection carries after the header. */
  method WriteChunk(file: array<byte>, start: int, chunkSize: int, data: seq<byte>)
    returns (r: Result<nat, WorkerError>)
    modifies file
    ensures var n := ReadCount(chunkSize, |data|);
      if start < 0 || (n > 0 && start + n > file.Length) then
        r == Failure(BadPosition) && file[..] == old(file[..])
      else
        r == Success(n) && file[..] == Written(old(file[..]), start, data[..n])
  {
    var n := ReadCount(chunkSize, |data|);
    if start < 0 || (n > 0 && start + n > file.Length) {
      return Failure(BadPosition);
    }
    ghost var original := file[..];
    if start <= file.Length {
      OverwriteNothing(original, start, data);
    }
    var totalBytesRead := 0;
    while totalBytesRead < chunkSize
      invariant 0 <= totalBytesRead <= n
      invariant file[..] == Written(original, start, data[..totalBytesRead])
      decreases chunkSize - totalBytesRead
    {
      var request := Min(BUFFER_SIZE, chunkSize - totalBytesRead);
      if totalBytesRead == |data| {
        break;
      }
      var bytesRead := Min(request, |data| - totalBytesRead);
      CopyNext(file, original, start, data, totalBytesRead, bytesRead);
      totalBytesRead := totalBytesRead + bytesRead;
    }
    assert totalBytesRead == n;
    r := Success(totalBytesRead);
  }

  /** Before the first pass nothing has been written. */
  lemma OverwriteNothing(s: seq<byte>, start: nat, data: seq<byte>)
    requires start <= |s|
    ensures Overwrite(s, start, data[..0]) == s
  {
    assert data[..0] == [];
    assert s[..start] + s[start..] == s;
  }

  /** One pass of the copy loop: the next `count` bytes of the stream go right after the
      `done` bytes already written. */
  method CopyNext(file: array<byte>, ghost original: seq<byte>, start: nat, data: seq<byte>, done: nat, count: nat)
    requires done + count <= |data| && start + done + count <= |original| == file.Length
    requires file[..] == Overwrite(original, start, data[..done])
    modifies file
    ensures file[..] == Overwrite(original, start, data[..done + count])
  {
    var piece := data[done..done + count];
    CopyInto(file, start + done, piece);
    OverwriteExtend(original, start, data[..done], piece);
    assert data[..done] + piece == data[..done + count];
  }

  /** fileChannel.write of one buffer at the current position. */
  method CopyInto(file: array<byte>, pos: nat, piece: seq<byte>)
    requires pos + |piece| <= file.Length
    modifies file
    ensures file[..] == Overwrite(old(file[..]), pos, piece)
  {
    forall k | 0 <= k < |piece| {
      file[pos + k] := piece[k];
    }
    OverwriteAt(old(file[..]), file[..], pos, piece);
  }

  /** A sequence that agrees with `d` on [start, start + |d|) and with `s` elsewhere. */
  lemma OverwriteAt(s: seq<byte>, t: seq<byte>, start: nat, d: seq<byte>)
    requires start + |d| <= |s| == |t|
    requires forall k :: 0 <= k < |d| ==> t[start + k] == d[k]
    requires forall k :: 0 <= k < |s| && !(start <= k < start + |d|) ==> t[k] == s[k]
    ensures t == Overwrite(s, start, d)
  {
    var o := Overwrite(s, start, d);
    forall k | 0 <= k < |s| ensures t[k] == o[k] {
      if start <= k < start + |d| {
        assert t[start + (k - start)] == d[k - start];
      }
    }
  }

  /** Two adjacent writes are one write of their concatenation. */
  lemma OverwriteExtend(s: seq<byte>, start: nat, d: seq<byte>, e: seq<byte>)
    requires start + |d| + |e| <= |s|
    ensures Overwrite(Overwrite(s, start, d), start + |d|, e) == Overwrite(s, start, d + e)
  {
    var t := Overwrite(Overwrite(s, start, d), start + |d|, e);
    forall k | 0 <= k < |d + e| ensures t[start + k] == (d + e)[k] {
      if k >= |d| {
        assert t[start + |d| + (k - |d|)] == e[k - |d|];
      }
    }
    OverwriteAt(s, t, start, d + e);
  }

  /** The write a worker makes once it has read a header prefix. */
  function ChunkWrite(file: seq<byte>, p: ChunkPrefix, stream: seq<byte>): Result<seq<byte>, WorkerError>
    requires p.dataOffset <= |stream|
  {
    var data := stream[p.dataOffset..];
    var n := ReadCount(p.chunkSize, |data|);
    if p.startPosition < 0 || (n > 0 && p.startPosition + n > |file|) then Failure(BadPosition)
    else Success(Written(file, p.startPosition, data[..n]))
  }

  /** The worker with the corrected header read. */
  function ChunkWork(file: seq<byte>, stream: seq<byte>): Result<seq<byte>, WorkerError>
  {
    match ReadChunkPrefix(stream)
    case None => Failure(HeaderTruncated)
    case Some(p) => ChunkWrite(file, p, stream)
  }

  /** The worker as written, reading only 16 of the 20 header bytes. */
  function ChunkWorkAsWritten(file: seq<byte>, stream: seq<byte>): Result<seq<byte>, WorkerError>
  {
    match ReadChunkPrefixAsWritten(stream)
    case None => Failure(HeaderTruncated)
    case Some(p) => ChunkWrite(file, p, stream)
  }

  method ReceiveChunkFrom(file: array<byte>, stream: seq<byte>, prefix: Option<ChunkPrefix>)
    returns (r: Result<nat, WorkerError>)
    requires prefix.Some? ==> prefix.value.dataOffset <= |stream|
    modifies file
    ensures prefix.None? ==> r == Failure(HeaderTruncated) && file[..] == old(file[..])
    ensures prefix.Some? ==> match ChunkWrite(old(file[..]), prefix.value, stream)
      case Success(f) => r.Success? && file[..] == f
      case Failure(e) => r == Failure(e) && file[..] == old(file[..])
  {
    if prefix.None? {
      return Failure(HeaderTruncated);
    }
    var p := prefix.value;
    r := WriteChunk(file, p.startPosition, p.chunkSize, stream[p.dataOffset..]);
  }

  /** One chunk task, corrected: the file afterwards is what ChunkWork describes. */
  method ReceiveChunk(file: array<byte>, stream: seq<byte>) returns (r: Result<nat, WorkerError>)
    modifies file
    ensures match ChunkWork(old(file[..]), stream)
      case Success(f) => r.Success? && file[..] == f
      case Failure(e) => r == Failure(e) && file[..] == old(file[..])
  {
    r := ReceiveChunkFrom(file, stream, ReadChunkPrefix(stream));
  }

  /** One chunk task as written. */
  method ReceiveChunkAsWritten(file: array<byte>, stream: seq<byte>) returns (r: Result<nat, WorkerError>)
    modifies file
    ensures match ChunkWorkAsWritten(old(file[..]), stream)
      case Success(f) => r.Success? && file[..] == f
      case Failure(e) => r == Failure(e) && file[..] == old(file[..])
  {
    r := ReceiveChunkFrom(file, stream, ReadChunkPrefixAsWritten(stream));
  }

  /** The worker changes only [startPosition, startPosition + n) with n <= chunkSize, and a
      stream that ends early stops the copy there. */
  lemma ChunkWorkFrame(file: seq<byte>, h: ChunkHeader, data: seq<byte>)
    requires FitsFields(h)
    requires ChunkWork(file, EncodeChunkHeader(h) + data).Success?
    ensures var f := ChunkWork(file, EncodeChunkHeader(h) + data).value;
      var n := ReadCount(h.chunkSize, |data|);
      && |f| == |file| && 0 <= h.startPosition && (n > 0 ==> h.startPosition + n <= |file|)
      && (h.chunkSize > 0 ==> n == Min(h.chunkSize, |data|))
      && (forall k :: 0 <= k < n ==> f[h.startPosition + k] == data[k])
      && (forall k :: 0 <= k < |file| && !(h.startPosition <= k < h.startPosition + n) ==> f[k] == file[k])
  {
    ReadChunkPrefixFindsData(h, data);
  }

  /** A worker fails on its position exactly when the position is negative or a byte it copies
      would land past the end; seeking past the end and copying nothing leaves the file as it is. */
  lemma ChunkWorkPosition(file: seq<byte>, h: ChunkHeader, data: seq<byte>)
    requires FitsFields(h)
    ensures var r := ChunkWork(file, EncodeChunkHeader(h) + data);
      var n := ReadCount(h.chunkSize, |data|);
      && (r == Failure(BadPosition) <==> h.startPosition < 0 || (n > 0 && h.startPosition + n > |file|))
      && (r != Failure(BadPosition) ==> r.Success?)
      && (0 <= h.startPosition && n == 0 ==> r == Success(file))
  {
    ReadChunkPrefixFindsData(h, data);
    if 0 <= h.startPosition <= |file| {
      OverwriteNothing(file, h.startPosition, data);
    }
  }

  /** The header the sender puts in front of chunk `c`. */
  function HeaderOf(c: FileChunk): ChunkHeader
  {
    ChunkHeader(c.chunkIndex, c.startPosition, c.chunkSize, c.totalChunks)
  }

  /** A stream that carries, after its header, the piece of `content` the header places. */
  predicate Faithful(stream: seq<byte>, content: seq<byte>)
  {
    |stream| >= CHUNK_HEADER_SIZE
    && var h := DecodeChunkHeader(stream);
    var d := stream[CHUNK_HEADER_SIZE..];
    var n := ReadCount(h.chunkSize, |d|);
    0 <= h.startPosition && h.startPosition + n <= |content|
    && d[..n] == content[h.startPosition..h.startPosition + n]
  }

  /** The range of the file a faithful stream writes. */
  predicate Writes(stream: seq<byte>, p: int)
  {
    |stream| >= CHUNK_HEADER_SIZE
    && var h := DecodeChunkHeader(stream);
    h.startPosition <= p < h.startPosition + ReadCount(h.chunkSize, |stream| - CHUNK_HEADER_SIZE)
  }

  /** The corrected workers applied one after another, as the file lock serialises them. */
  function ReceiveAll(file: seq<byte>, streams: seq<seq<byte>>): Result<seq<byte>, WorkerError>
    decreases |streams|
  {
    if streams == [] then Success(file)
    else match ChunkWork(file, streams[0])
      case Failure(e) => Failure(e)
      case Success(f) => ReceiveAll(f, streams[1..])
  }

  lemma FaithfulWork(file: seq<byte>, stream: seq<byte>, content: seq<byte>)
    requires |file| == |content| && Faithful(stream, content)
    ensures ChunkWork(file, stream).Success?
    ensures var f := ChunkWork(file, stream).value;
      |f| == |file| && forall p :: 0 <= p < |file| ==> f[p] == if Writes(stream, p) then content[p] else file[p]
  {
    var h := DecodeChunkHeader(stream);
    var d := stream[CHUNK_HEADER_SIZE..];
    var n := ReadCount(h.chunkSize, |d|);
    var f := ChunkWork(file, stream).value;
    assert f == Overwrite(file, h.startPosition, d[..n]);
    forall p | 0 <= p < |file|
      ensures f[p] == if Writes(stream, p) then content[p] else file[p]
    {
      if h.startPosition <= p < h.startPosition + n {
        assert f[p] == d[..n][p - h.startPosition];
      }
    }
  }

  /** Faithful streams applied in any order, repeats allowed, leave each byte either as it was
      or equal to the content, the latter wherever some stream writes. */
  lemma {:induction false} ReceiveAllFaithful(file: seq<byte>, streams: seq<seq<byte>>, content: seq<byte>)
    requires |file| == |content|
    requires forall i :: 0 <= i < |streams| ==> Faithful(streams[i], content)
    ensures ReceiveAll(file, streams).Success?
    ensures var f := ReceiveAll(file, streams).value;
      |f| == |file|
      && forall p :: 0 <= p < |file| ==>
           f[p] == if exists i :: 0 <= i < |streams| && Writes(streams[i], p) then content[p] else file[p]
    decreases |streams|
  {
    if streams != [] {
      FaithfulWork(file, streams[0], content);
      var f0 := ChunkWork(file, streams[0]).value;
      ReceiveAllFaithful(f0, streams[1..], content);
      var f := ReceiveAll(file, streams).value;
      forall p | 0 <= p < |file|
        ensures f[p] == if exists i :: 0 <= i < |streams| && Writes(streams[i], p) then content[p] else file[p]
      {
        if exists i :: 0 <= i < |streams[1..]| && Writes(streams[1..][i], p) {
          var i :| 0 <= i < |streams[1..]| && Writes(streams[1..][i], p);
          assert Writes(streams[i + 1], p);
        } else if Writes(streams[0], p) {
        } else {
          forall i | 0 <= i < |streams| ensures !Writes(streams[i], p) {
            if i > 0 { assert streams[i] == streams[1..][i - 1]; }
          }
        }
      }
    }
  }

  /** The stream the sender puts on the connection of chunk `c`. */
  function ChunkStream(content: seq<byte>, c: FileChunk): seq<byte>
    requires FitsFields(HeaderOf(c)) && 0 <= c.startPosition <= c.startPosition + c.chunkSize <= |content|
  {
    EncodeChunkHeader(HeaderOf(c)) + content[c.startPosition..c.startPosition + c.chunkSize]
  }

  /** The sender's stream for a chunk inside the file is faithful and writes exactly the chunk's
      range. */
  lemma ChunkStreamFaithful(content: seq<byte>, c: FileChunk)
    requires FitsFields(HeaderOf(c)) && 0 <= c.startPosition <= c.startPosition + c.chunkSize <= |content|
    ensures Faithful(ChunkStream(content, c), content)
    ensures forall p :: Writes(ChunkStream(content, c), p) <==> Covers(c, p)
  {
    var d := content[c.startPosition..c.startPosition + c.chunkSize];
    ReadChunkPrefixFindsData(HeaderOf(c), d);
    ChunkHeaderRoundTrip(HeaderOf(c), d);
    assert ChunkStream(content, c)[CHUNK_HEADER_SIZE..] == d;
    assert d[..c.chunkSize] == d;
  }

  /** Every chunk connection carries a stream. */
  function Delivered(streams: seq<seq<byte>>): (r: seq<Option<seq<byte>>>)
    ensures |r| == |streams| && forall i :: 0 <= i < |streams| ==> r[i] == Some(streams[i])
  {
    seq(|streams|, i requires 0 <= i < |streams| => Some(streams[i]))
  }

  /** The streams of the chunks named by `order`, in that order. */
  function OrderedStreams(content: seq<byte>, chunks: seq<FileChunk>, order: seq<nat>): (r: seq<seq<byte>>)
    requires forall k :: 0 <= k < |order| ==> order[k] < |chunks|
    requires forall i :: 0 <= i < |chunks| ==>
      FitsFields(HeaderOf(chunks[i])) && 0 <= chunks[i].startPosition <= chunks[i].startPosition + chunks[i].chunkSize <= |content|
    ensures |r| == |order|
  {
    seq(|order|, k requires 0 <= k < |order| => ChunkStream(content, chunks[order[k]]))
  }

  /** Every stream sent for a chunk inside the file is faithful and writes exactly its chunk. */
  lemma OrderedStreamsFaithful(content: seq<byte>, chunks: seq<FileChunk>, order: seq<nat>)
    requires forall k :: 0 <= k < |order| ==> order[k] < |chunks|
    requires forall i :: 0 <= i < |chunks| ==>
      FitsFields(HeaderOf(chunks[i])) && 0 <= chunks[i].startPosition <= chunks[i].startPosition + chunks[i].chunkSize <= |content|
    ensures var streams := OrderedStreams(content, chunks, order);
      forall k :: 0 <= k < |order| ==>
        && Faithful(streams[k], content)
        && forall p :: Writes(streams[k], p) <==> Covers(chunks[order[k]], p)
  {
    var streams := OrderedStreams(content, chunks, order);
    forall k | 0 <= k < |order|
      ensures Faithful(streams[k], content)
      ensures forall p :: Writes(streams[k], p) <==> Covers(chunks[order[k]], p)
    {
      ChunkStreamFaithful(content, chunks[order[k]]);
    }
  }

  /** Receiving the chunks of a tiling, each at least once and in any order, rebuilds the file
      exactly, whatever the pre-sized file held before. */
  lemma Reassembly(file: seq<byte>, content: seq<byte>, chunks: seq<FileChunk>, order: seq<nat>)
    requires |file| == |content| && Tiles(chunks, |content|)
    requires forall i :: 0 <= i < |chunks| ==> FitsFields(HeaderOf(chunks[i]))
    requires forall k :: 0 <= k < |order| ==> order[k] < |chunks|
    requires forall i :: 0 <= i < |chunks| ==> i in order
    ensures forall i :: 0 <= i < |chunks| ==>
      0 <= chunks[i].startPosition <= chunks[i].startPosition + chunks[i].chunkSize <= |content|
    ensures ReceiveAll(file, OrderedStreams(content, chunks, order)) == Success(content)
  {
    forall i | 0 <= i < |chunks|
      ensures 0 <= chunks[i].startPosition <= chunks[i].startPosition + chunks[i].chunkSize <= |content|
    {
      TilesWithinFile(chunks, |content|, i);
    }
    var streams := OrderedStreams(content, chunks, order);
    OrderedStreamsFaithful(content, chunks, order);
    ReceiveAllFaithful(file, streams, content);
    RebuiltFromCover(file, content, chunks, order, streams, ReceiveAll(file, streams).value);
  }

  /** When every byte is written by some stream, the received file is the content. */
  lemma RebuiltFromCover(file: seq<byte>, content: seq<byte>, chunks: seq<FileChunk>, order: seq<nat>,
                         streams: seq<seq<byte>>, f: seq<byte>)
    requires |f| == |file| == |content| && Tiles(chunks, |content|) && |streams| == |order|
    requires forall k :: 0 <= k < |order| ==> order[k] < |chunks|
    requires forall i :: 0 <= i < |chunks| ==> i in order
    requires forall k :: 0 <= k < |order| ==> forall p :: Writes(streams[k], p) <==> Covers(chunks[order[k]], p)
    requires forall p :: 0 <= p < |file| ==>
      f[p] == if exists i :: 0 <= i < |streams| && Writes(streams[i], p) then content[p] else file[p]
    ensures f == content
  {
    forall p | 0 <= p < |content|
      ensures f[p] == content[p]
    {
      var k := OrderCovers(chunks, order, |content|, p);
      assert Writes(streams[k], p);
    }
  }

  /** An order that names every chunk of a tiling covers every byte of the file: `k` is a
      position in the order whose chunk holds byte p. */
  lemma OrderCovers(chunks: seq<FileChunk>, order: seq<nat>, fileSize: nat, p: int) returns (k: nat)
    requires Tiles(chunks, fileSize) && 0 <= p < fileSize
    requires forall k :: 0 <= k < |order| ==> order[k] < |chunks|
    requires forall i :: 0 <= i < |chunks| ==> i in order
    ensures k < |order| && Covers(chunks[order[k]], p)
  {
    TilesCoverOnce(chunks, fileSize, p);
    var i :| 0 <= i < |chunks| && Covers(chunks[i], p);
    assert i in order;
    k :| 0 <= k < |order| && order[k] == i;
  }

  /** The worker as written copies the encoded totalChunks into the file's first four bytes of
      the chunk and drops the chunk's last four bytes. */
  lemma AsWrittenWritesCount(file: seq<byte>, h: ChunkHeader, data: seq<byte>)
    requires FitsFields(h)
    ensures ChunkWorkAsWritten(file, EncodeChunkHeader(h) + data)
         == ChunkWrite(file, ChunkPrefix(h.chunkIndex, h.startPosition, h.chunkSize, 16), EncodeChunkHeader(h) + data)
    ensures (EncodeChunkHeader(h) + data)[16..] == Int32ToBytes(h.totalChunks) + data
  {
    AsWrittenPrefixMisplacesData(h, data);
  }

  lemma EncodedOne()
    ensures Int32ToBytes(1) == [0, 0, 0, 1]
  {
    var one: seq<byte> := [0, 0, 0, 1];
    var z3: seq<byte> := [0, 0, 0];
    var z2: seq<byte> := [0, 0];
    var z1: seq<byte> := [0];
    assert FromBigEndian(one) == 1 by {
      assert one[..3] == z3 && z3[..2] == z2 && z2[..1] == z1 && z1[..0] == [];
    }
    Int32BytesRoundTrip(one);
  }

  /** A one-byte chunk at offset 0 of a one-byte file: the corrected worker stores the byte, the
      worker as written stores the top byte of the encoded chunk count instead. */
  lemma OneByteChunk(h: ChunkHeader, b: byte)
    requires FitsFields(h) && h.startPosition == 0 && h.chunkSize == 1
    ensures ChunkWork([0], EncodeChunkHeader(h) + [b]) == Success([b])
    ensures ChunkWorkAsWritten([0], EncodeChunkHeader(h) + [b]) == Success([Int32ToBytes(h.totalChunks)[0]])
  {
    ReadChunkPrefixFindsData(h, [b]);
    AsWrittenPrefixMisplacesData(h, [b]);
    var s := EncodeChunkHeader(h) + [b];
    assert ReadCount(1, |s[16..]|) == 1;
    assert s[16..][..1] == [Int32ToBytes(h.totalChunks)[0]];
    assert s[20..][..1] == [b];
    assert Overwrite([0], 0, [b]) == [b];
    assert Overwrite([0], 0, [Int32ToBytes(h.totalChunks)[0]]) == [Int32ToBytes(h.totalChunks)[0]];
  }

  /** A one-byte file holding 5, sent as its single chunk: the corrected worker stores 5, the worker
      as written stores 0. */
  lemma AsWrittenCorruptsOneByteFile()
    ensures var h := ChunkHeader(0, 0, 1, 1);
      && ChunkWork([0], EncodeChunkHeader(h) + [5]) == Success([5])
      && ChunkWorkAsWritten([0], EncodeChunkHeader(h) + [5]) == Success([0])
  {
    OneByteChunk(ChunkHeader(0, 0, 1, 1), 5);
    EncodedOne();
  }
}
