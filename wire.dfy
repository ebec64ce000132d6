/** What travels on the transfer connections: the per-file metadata header the sender writes on
    port 9090 and the receiver validates, the termination marker, and the 20-byte header in
    front of every chunk. */
module Wire {
  import opened JavaInts
  import opened Wrappers
  import Utf8
  import opened FileNames

  const RECEIVER_PORT: int := 9090
  /** The largest TCP port; new ServerSocket(port) throws IllegalArgumentException above it. */
  const MAX_PORT: int := 65535
  const MAX_NAME_LENGTH: int := 1024
  const TERMINATION_SIGNAL: int := -1
  const CHUNK_HEADER_SIZE: nat := 20

  /** The port the receiver opens for chunk i: RECEIVING_PORT + 1 + i. */
  function ChunkPort(i: int): (p: int)
    ensures p > RECEIVER_PORT <==> i >= 0
  {
    RECEIVER_PORT + 1 + i
  }

  /** What the sender announces for one file. */
  datatype Metadata = Metadata(fileSize: int, totalChunks: int, fileName: string)

  /** A header the receiver accepts: positive size and count, a name of 1 to 1024 UTF-8 bytes
      that passes isValidFileName. */
  predicate ValidMetadata(m: Metadata)
  {
    && 0 < m.fileSize <= INT64_MAX
    && 0 < m.totalChunks <= INT32_MAX
    && 1 <= |Utf8.Encode(m.fileName)| <= MAX_NAME_LENGTH
    && IsValidFileName(m.fileName)
  }

  /** writeLong(fileSize), writeInt(totalChunks), writeInt(nameBytes.length), write(nameBytes). */
  function EncodeMetadata(m: Metadata): (r: seq<byte>)
    requires IsInt64(m.fileSize) && IsInt32(m.totalChunks) && IsInt32(|Utf8.Encode(m.fileName)|)
    ensures |r| == 16 + |Utf8.Encode(m.fileName)|
  {
    var nameBytes := Utf8.Encode(m.fileName);
    Int64ToBytes(m.fileSize) + Int32ToBytes(m.totalChunks) + Int32ToBytes(|nameBytes|) + nameBytes
  }

  /** writeLong(-1) on a fresh connection. */
  function TerminationMarker(): (r: seq<byte>)
    ensures |r| == 8
  {
    Int64ToBytes(TERMINATION_SIGNAL)
  }

  datatype MetadataError =
    | Truncated
    | InvalidFileSize(size: int)
    | InvalidChunkCount(count: int)
    | InvalidNameLength(length: int)
    | MalformedName
    | InvalidFileName(name: string)

  /** What receiveFile makes of the start of a connection on 9090. */
  datatype MetadataRead = Terminate | Reject(error: MetadataError) | Accept(meta: Metadata)

  /** The reads and checks at the head of receiveFile, in their order: readLong, the -1 test,
      fileSize <= 0, readInt and totalChunks <= 0, readInt and the length bounds, readFully,
      the UTF-8 decoding and isValidFileName. A stream that ends early is Truncated. */
  function ReadMetadata(s: seq<byte>): (r: MetadataRead)
    ensures r.Accept? ==> r.meta.fileSize > 0 && r.meta.totalChunks > 0 && IsValidFileName(r.meta.fileName)
  {
    if |s| < 8 then Reject(Truncated)
    else
      var fileSize := BytesToInt64(s[..8]);
      if fileSize == TERMINATION_SIGNAL then Terminate
      else if fileSize <= 0 then Reject(InvalidFileSize(fileSize))
      else if |s| < 12 then Reject(Truncated)
      else
        var totalChunks := BytesToInt32(s[8..12]);
        if totalChunks <= 0 then Reject(InvalidChunkCount(totalChunks))
        else if |s| < 16 then Reject(Truncated)
        else
          var nameLength := BytesToInt32(s[12..16]);
          if nameLength <= 0 || nameLength > MAX_NAME_LENGTH then Reject(InvalidNameLength(nameLength))
          else if |s| < 16 + nameLength then Reject(Truncated)
          else match Utf8.Decode(s[16..16 + nameLength])
            case None => Reject(MalformedName)
            case Some(name) =>
              if !IsValidFileName(name) then Reject(InvalidFileName(name))
              else Accept(Metadata(fileSize, totalChunks, name))
  }

  /** The receiver reads back exactly the header the sender wrote, whatever follows it. */
  lemma MetadataRoundTrip(m: Metadata, rest: seq<byte>)
    requires ValidMetadata(m)
    ensures ReadMetadata(EncodeMetadata(m) + rest) == Accept(m)
  {
    var nameBytes := Utf8.Encode(m.fileName);
    var s := EncodeMetadata(m) + rest;
    assert s[..8] == Int64ToBytes(m.fileSize);
    assert s[8..12] == Int32ToBytes(m.totalChunks);
    assert s[12..16] == Int32ToBytes(|nameBytes|);
    assert s[16..16 + |nameBytes|] == nameBytes;
    Int64RoundTrip(m.fileSize);
    Int32RoundTrip(m.totalChunks);
    Int32RoundTrip(|nameBytes|);
    Utf8.DecodeEncode(m.fileName);
  }

  /** Only a valid header is accepted, and what is accepted is exactly what its first bytes
      encode: together with MetadataRoundTrip the validator accepts precisely the valid
      encodings. */
  lemma AcceptedIsEncoded(s: seq<byte>)
    requires ReadMetadata(s).Accept?
    ensures var m := ReadMetadata(s).meta;
      ValidMetadata(m) && |EncodeMetadata(m)| <= |s| && s[..|EncodeMetadata(m)|] == EncodeMetadata(m)
  {
    var m := ReadMetadata(s).meta;
    var nameLength := BytesToInt32(s[12..16]);
    var raw := s[16..16 + nameLength];
    Utf8.EncodeDecode(raw);
    assert Utf8.Encode(m.fileName) == raw;
    Int64BytesRoundTrip(s[..8]);
    Int32BytesRoundTrip(s[8..12]);
    Int32BytesRoundTrip(s[12..16]);
    assert s[..16 + nameLength] == s[..8] + s[8..12] + s[12..16] + raw;
  }

  lemma TerminationMarkerBytes()
    ensures TerminationMarker() == [0xFF, 0xFF, 0xFF, 0xFF, 0xFF, 0xFF, 0xFF, 0xFF]
  {
    Pow256Widths();
    var x := 0x1_0000_0000_0000_0000 - 1;
    assert ToBigEndian(x / 0x1_0000_0000_0000_00, 1) == [0xFF];
    assert ToBigEndian(x / 0x1_0000_0000_0000, 2) == [0xFF, 0xFF];
    assert ToBigEndian(x / 0x1_0000_0000_00, 3) == [0xFF, 0xFF, 0xFF];
    assert ToBigEndian(x / 0x1_0000_0000, 4) == [0xFF, 0xFF, 0xFF, 0xFF];
    assert ToBigEndian(x / 0x1_0000_00, 5) == [0xFF, 0xFF, 0xFF, 0xFF, 0xFF];
    assert ToBigEndian(x / 0x1_0000, 6) == [0xFF, 0xFF, 0xFF, 0xFF, 0xFF, 0xFF];
    assert ToBigEndian(x / 0x100, 7) == [0xFF, 0xFF, 0xFF, 0xFF, 0xFF, 0xFF, 0xFF];
  }

  /** A connection opening with the marker ends the session, whatever else it carries; and the
      marker is the only opening that does. */
  lemma TerminationExactly(s: seq<byte>)
    ensures ReadMetadata(s).Terminate? <==> |s| >= 8 && s[..8] == TerminationMarker()
  {
    Int64RoundTrip(TERMINATION_SIGNAL);
    if |s| >= 8 {
      Int64BytesRoundTrip(s[..8]);
    }
  }

  /** An announced file of size 0 is refused as an invalid size. */
  lemma EmptyFileRejected(m: Metadata, rest: seq<byte>)
    requires m.fileSize == 0 && IsInt32(m.totalChunks) && IsInt32(|Utf8.Encode(m.fileName)|)
    ensures ReadMetadata(EncodeMetadata(m) + rest) == Reject(InvalidFileSize(0))
  {
    var s := EncodeMetadata(m) + rest;
    assert s[..8] == Int64ToBytes(0);
    Int64RoundTrip(0);
  }

  /** The four fields the sender puts in front of every chunk. */
  datatype ChunkHeader = ChunkHeader(chunkIndex: int, startPosition: int, chunkSize: int, totalChunks: int)

  predicate FitsFields(h: ChunkHeader)
  {
    IsInt32(h.chunkIndex) && IsInt64(h.startPosition) && IsInt32(h.chunkSize) && IsInt32(h.totalChunks)
  }

  /** ByteBuffer.allocate(20).putInt(chunkIndex).putLong(startPosition).putInt(chunkSize)
      .putInt(totalChunks). */
  function EncodeChunkHeader(h: ChunkHeader): (r: seq<byte>)
    requires FitsFields(h)
    ensures |r| == CHUNK_HEADER_SIZE
  {
    Int32ToBytes(h.chunkIndex) + Int64ToBytes(h.startPosition) + Int32ToBytes(h.chunkSize)
      + Int32ToBytes(h.totalChunks)
  }

  /** The four fields read back from a 20-byte header. */
  function DecodeChunkHeader(s: seq<byte>): (h: ChunkHeader)
    requires |s| >= CHUNK_HEADER_SIZE
    ensures FitsFields(h)
  {
    ChunkHeader(BytesToInt32(s[..4]), BytesToInt64(s[4..12]), BytesToInt32(s[12..16]),
                BytesToInt32(s[16..20]))
  }

  lemma ChunkHeaderRoundTrip(h: ChunkHeader, rest: seq<byte>)
    requires FitsFields(h)
    ensures DecodeChunkHeader(EncodeChunkHeader(h) + rest) == h
  {
    var s := EncodeChunkHeader(h) + rest;
    assert s[..4] == Int32ToBytes(h.chunkIndex);
    assert s[4..12] == Int64ToBytes(h.startPosition);
    assert s[12..16] == Int32ToBytes(h.chunkSize);
    assert s[16..20] == Int32ToBytes(h.totalChunks);
    Int32RoundTrip(h.chunkIndex);
    Int64RoundTrip(h.startPosition);
    Int32RoundTrip(h.chunkSize);
    Int32RoundTrip(h.totalChunks);
  }

  lemma ChunkHeaderBytesRoundTrip(s: seq<byte>)
    requires |s| == CHUNK_HEADER_SIZE
    ensures EncodeChunkHeader(DecodeChunkHeader(s)) == s
  {
    Int32BytesRoundTrip(s[..4]);
    Int64BytesRoundTrip(s[4..12]);
    Int32BytesRoundTrip(s[12..16]);
    Int32BytesRoundTrip(s[16..20]);
    assert s == s[..4] + s[4..12] + s[12..16] + s[16..20];
  }

  /** The fields a chunk worker uses, and where in its stream the chunk's data begins. */
  datatype ChunkPrefix = ChunkPrefix(chunkIndex: int, startPosition: int, chunkSize: int, dataOffset: nat)

  /** The chunk worker as written: readInt, readLong, readInt, so the data is taken to start
      after 16 bytes. A stream shorter than that fails the worker. */
  function ReadChunkPrefixAsWritten(s: seq<byte>): (r: Option<ChunkPrefix>)
    ensures r.Some? <==> |s| >= 16
    ensures r.Some? ==> r.value.dataOffset == 16
  {
    if |s| < 16 then None
    else Some(ChunkPrefix(BytesToInt32(s[..4]), BytesToInt64(s[4..12]), BytesToInt32(s[12..16]), 16))
  }

  /** The corrected worker: it consumes the whole 20-byte header before the data. */
  function ReadChunkPrefix(s: seq<byte>): (r: Option<ChunkPrefix>)
    ensures r.Some? <==> |s| >= CHUNK_HEADER_SIZE
    ensures r.Some? ==> r.value.dataOffset == CHUNK_HEADER_SIZE
  {
    if |s| < CHUNK_HEADER_SIZE then None
    else
      var h := DecodeChunkHeader(s);
      Some(ChunkPrefix(h.chunkIndex, h.startPosition, h.chunkSize, CHUNK_HEADER_SIZE))
  }

  /** The corrected worker finds the header's fields and the chunk's data exactly where the
      sender put them. */
  lemma ReadChunkPrefixFindsData(h: ChunkHeader, data: seq<byte>)
    requires FitsFields(h)
    ensures var s := EncodeChunkHeader(h) + data;
      ReadChunkPrefix(s) == Some(ChunkPrefix(h.chunkIndex, h.startPosition, h.chunkSize, CHUNK_HEADER_SIZE))
      && s[CHUNK_HEADER_SIZE..] == data
  {
    ChunkHeaderRoundTrip(h, data);
  }

  /** The worker as written gets the three fields right but takes the encoded totalChunks for
      the first four bytes of the chunk's data. */
  lemma AsWrittenPrefixMisplacesData(h: ChunkHeader, data: seq<byte>)
    requires FitsFields(h)
    ensures var s := EncodeChunkHeader(h) + data;
      ReadChunkPrefixAsWritten(s) == Some(ChunkPrefix(h.chunkIndex, h.startPosition, h.chunkSize, 16))
      && s[16..] == Int32ToBytes(h.totalChunks) + data
  {
    ChunkHeaderRoundTrip(h, data);
    var s := EncodeChunkHeader(h) + data;
    assert s[16..] == Int32ToBytes(h.totalChunks) + data;
  }
}
