# FileSharingApp transfer engine in Dafny

This project models the transfer engine of FileSharingApp, a peer-to-peer file sharing
application on a local network. The engine lives in the package `org.app.backend`. It has three
parts, and each is modelled here:

- **The sender** (`Sender.java`) announces a file on TCP port 9090 with a metadata header
  (`fileSize`, `totalChunks`, the name's UTF-8 length, then the name). It waits for the
  receiver's `READY` line. It then splits the file into chunks of a planned size and sends each
  chunk with a 20-byte header on its own port. After the last file of a batch it sends a
  termination marker (-1).
  - Ports are picked by a default-then-random search.
  - Each chunk is sent with up to three attempts and exponential backoff, through a byte-pump
    loop that tolerates up to 100 stalls.
  - Receivers are discovered from UDP broadcasts.
- **The receiver** (`Receiver.java`):
  - It checks the header field by field.
  - It picks a name that is free in the save directory, renaming `a.txt` to `a_1.txt`,
    `a_2.txt`, and so on.
  - It pre-sizes the file, opens one server socket per chunk, answers `READY` and writes every
    chunk in place.
  - It keeps accepting connections on 9090 until the termination marker arrives.
- **The manager** (`FileTransferManager.java`):
  - It sends a batch of files strictly in order and stops at the first unreadable or failed
    file.
  - It reports overall progress across the batch and the status line
    `Completed i of n files`.
  - It removes duplicate discovered peers by address.
  - It builds the file summary shown to the receiver.

How the model handles what it cannot run:

- The network, the clock, `Random` and the file system become inputs:
  - byte sequences for what arrives on a connection, and whether the file it announces can be created;
  - sets of busy or free ports, including 9090 for the session's server socket;
  - the random draws as a sequence;
  - a script of what each `transferTo` call and each attempt does;
  - a map from names to contents for the save directory. The name "." is always taken, because `new File(dir, ".")` is the directory itself and exists.
- The machine's processor count is a parameter.
- Concurrency is left out. The chunk workers run one after another in the order the chunks
  arrive; any order in which every chunk arrives rebuilds the file.
- Java's fixed-width integers are explicit:
  - `int`/`long` ranges for headers;
  - the saturating `(int)` cast of the chunk count;
  - big-endian two's-complement encodings.
- Java's `double` arithmetic is modelled as exact integer arithmetic:
  - In the progress formulas it agrees with Java: the quotients lie in [0, 100] and the
    divisors are ints.
  - The chunk count `Math.ceil((double) fileSize / chunkSize)` agrees with the integer ceiling
    only up to 2^53 bytes. Every lemma that relies on the count is stated up to there.

Modules, one per file:

| module | what it holds |
|---|---|
| `JavaInts` | Java integer ranges and `DataOutputStream` big-endian encodings |
| `Wrappers` | `Option` and `Result` |
| `Text` | `String.trim()`, decimal rendering, `lastIndexOf` |
| `Utf8` | the UTF-8 encoding of names and its decoder |
| `Wire` | the metadata header, the termination marker, the chunk header, and the receiver's decoding of each |
| `ChunkPlanner` | `calculateOptimalChunkSize`, the chunk count and the chunk offsets and sizes |
| `FileNames` | `isValidFileName` and `getUniqueFile` |
| `Ports` | `findAvailablePort` |
| `ChunkSender` | the byte pump and the retry loop of `sendSingleChunk` |
| `Response` | `waitForResponse` |
| `ChunkReceiver` | the chunk worker writing into the pre-sized file array, and the reassembly of a whole file |
| `Progress` | the chunk and overall progress formulas |
| `SenderSide` | class `Sender`: `sendFileChunks` (as written, and corrected) and `sendFile` |
| `ReceiverSide` | class `Receiver`: `receiveFile`, the session loop, `handleIncomingConnection`, `listenForConnectionRequests` |
| `TransferManager` | class `FileTransferManager` (`startSendingFiles`), class `Discovery` (`startDiscovery` and `peerListener`), `getFileInfo` |
| `EndToEnd` | what the sender writes, handed to the receiver, saves the sender's file |

The sender and the receiver, as written, do not fit together in two places. The model keeps
each as written and also models the corrected behaviour (see Findings):

- `sendFileChunks` sends a serialized port map to 9090 and waits for an adjusted map
  (Sender.java:206-224). `Receiver.java` has no code that reads such a map: it opens
  `9091 + i` for chunk `i` and waits for the chunks. The corrected sender sends chunk `i`
  straight to `9091 + i`.
- The chunk worker reads 16 bytes of header (Receiver.java:256-258), while the sender writes
  20 (Sender.java:315-320). The corrected worker reads all 20.

`SenderSide.Sender.SendFile`, `SendPlanned` and `SendOutcome` are built on the corrected
sender. `ReceiverSide.Receiver.ReceiveFile`, `ReceiveAccepted` and the function `ReceiveFileSpec`
are built on the corrected worker. The `EndToEnd` lemmas use both corrections, except
`AsWrittenSessionHangs`.

## Model

| member | source | states |
|---|---|---|
| JavaInts.Int32RoundTrip | src/main/java/org/app/backend/Sender.java:115-117 | reading back the four bytes `writeInt` produces gives the same int |
| JavaInts.Int32BytesRoundTrip | src/main/java/org/app/backend/Receiver.java:204-209 | every four bytes `readInt` accepts are the encoding of the int it returns |
| JavaInts.Int64RoundTrip | src/main/java/org/app/backend/Sender.java:114 | reading back the eight bytes `writeLong` produces gives the same long |
| JavaInts.Int64BytesRoundTrip | src/main/java/org/app/backend/Receiver.java:192 | every eight bytes `readLong` accepts are the encoding of the long it returns |
| JavaInts.Int64SignBit | src/main/java/org/app/backend/Receiver.java:200-202 | a long read from the wire is negative exactly when its first byte has the high bit set |
| Utf8.DecodeEncode | src/main/java/org/app/backend/Receiver.java:214-216 | decoding the UTF-8 bytes of any name gives back that name |
| Utf8.EncodeDecode | src/main/java/org/app/backend/Sender.java:116 | bytes that decode to a name are exactly that name's UTF-8 encoding, so encoding and decoding are inverse on well-formed input |
| Text.Trim | src/main/java/org/app/backend/Sender.java:435 | the result is the slice of the input between its leading and trailing chars up to U+0020: everything cut off at either end is such a char, and the result neither starts nor ends with one |
| Text.TrimEmpty | src/main/java/org/app/backend/Sender.java:436 | trimming gives the empty string exactly when every char is at most U+0020 |
| Text.TrimKeeps | src/main/java/org/app/backend/Sender.java:435 | a string without white space at either end is unchanged by trim |
| Text.TrimDropsTrailing | src/main/java/org/app/backend/Sender.java:57 | trailing white space (such as the padding of a datagram) does not change the trimmed result |
| Text.Decimal | src/main/java/org/app/backend/FileTransferManager.java:76 | the decimal rendering of a count is a nonempty string of digits |
| Text.DecimalValueOfDecimal | src/main/java/org/app/backend/FileTransferManager.java:76 | reading the rendered digits back gives the number, so no two counts render alike |
| Text.DecimalInjective | src/main/java/org/app/backend/FileTransferManager.java:76 | two counts with the same rendering are equal |
| Text.LastIndexOf | src/main/java/org/app/backend/Receiver.java:359 | `lastIndexOf` is -1 or an index holding the char, and no later index holds it |
| ChunkPlanner.TargetChunks | src/main/java/org/app/backend/Sender.java:417-418 | the target count `min(2 * processors, 16)` lies in [2, 16] |
| ChunkPlanner.OptimalChunkSize | src/main/java/org/app/backend/Sender.java:408-424 | the size is an int, and it depends on the file size. Below 64 MiB it is the file size. From 64 MiB on it lies in [64 MiB, 256 MiB] and never exceeds the file. It is the file's share of the target count, unless the share is under 64 MiB (then 64 MiB) or over 256 MiB (then 256 MiB) |
| ChunkPlanner.TotalChunks | src/main/java/org/app/backend/Sender.java:107 | the `(int)` ceiling is an int, zero for an empty file and at least one otherwise |
| ChunkPlanner.Plan | src/main/java/org/app/backend/Sender.java:105-107 | the planned chunk size and chunk count both fit the `int` fields they are sent in |
| ChunkPlanner.PlanChunks | src/main/java/org/app/backend/Sender.java:229-232 | chunk i starts at `i * chunkSize`, has size `min(chunkSize, fileSize - start)` and carries its index and the totals. With the ceiling count, the chunks tile [0, fileSize), all but the last are full, and the sizes sum to fileSize |
| ChunkPlanner.CeilingTiles | src/main/java/org/app/backend/Sender.java:229-232 | for any positive chunk size, the ceiling count of chunks tiles the file with all but the last chunk full |
| ChunkPlanner.PlanCountIsExact | src/main/java/org/app/backend/Sender.java:106-107 | for files of 1 to 2^53 bytes, where `Math.ceil` of the double quotient is the integer ceiling, the chunk size is positive and the count is exactly the ceiling of fileSize / chunkSize (the int cast does not saturate) |
| ChunkPlanner.PlanTiles | src/main/java/org/app/backend/Sender.java:105-107 | for files of 1 to 2^53 bytes, the planned chunks tile [0, fileSize), their sizes sum to fileSize, and only the last may be short |
| ChunkPlanner.SmallFileIsOneChunk | src/main/java/org/app/backend/Sender.java:412-414 | a nonempty file under 64 MiB is one chunk of the whole file |
| ChunkPlanner.ChunkCountNearTarget | src/main/java/org/app/backend/Sender.java:416-423 | when the chunk size is not capped at 256 MiB, the count is at most the target plus one |
| ChunkPlanner.StartIsPrefixSum | src/main/java/org/app/backend/Sender.java:231 | in a tiling, each chunk starts where the sizes of the chunks before it add up to |
| ChunkPlanner.TilesSum | src/main/java/org/app/backend/Sender.java:232 | the sizes of a tiling add up to the file size |
| ChunkPlanner.TilesWithinFile | src/main/java/org/app/backend/Sender.java:231-232 | every chunk of a tiling lies inside the file |
| ChunkPlanner.TilesCoverOnce | src/main/java/org/app/backend/Sender.java:229-232 | every byte position of the file lies in exactly one chunk |
| Wire.ChunkPort | src/main/java/org/app/backend/Receiver.java:232 | chunk i uses port `9090 + 1 + i`, which is above 9090 exactly for valid indices |
| Wire.EncodeMetadata | src/main/java/org/app/backend/Sender.java:114-118 | the header is 8 + 4 + 4 bytes followed by exactly the name's UTF-8 bytes |
| Wire.ReadMetadata | src/main/java/org/app/backend/Receiver.java:192-220 | a header the receiver accepts has a positive size, a positive count and a name that passes `isValidFileName` |
| Wire.MetadataRoundTrip | src/main/java/org/app/backend/Sender.java:114-118 | the receiver reads back exactly the fields the sender wrote, whatever follows on the stream |
| Wire.AcceptedIsEncoded | src/main/java/org/app/backend/Receiver.java:192-220 | every stream the receiver accepts starts with the encoding of the valid header it accepted |
| Wire.TerminationMarker | src/main/java/org/app/backend/Sender.java:136 | the termination marker is one 8-byte long |
| Wire.TerminationMarkerBytes | src/main/java/org/app/backend/Sender.java:136 | `writeLong(-1)` is eight 0xFF bytes |
| Wire.TerminationExactly | src/main/java/org/app/backend/Receiver.java:192-198 | the receiver ends the session exactly when the first eight bytes are the -1 marker; nothing after them is read |
| Wire.EmptyFileRejected | src/main/java/org/app/backend/Receiver.java:200-202 | the header of an empty file is refused with file size 0 |
| Wire.EncodeChunkHeader | src/main/java/org/app/backend/Sender.java:315-320 | the chunk header is 20 bytes |
| Wire.DecodeChunkHeader | src/main/java/org/app/backend/Sender.java:315-320 | the four fields decoded from 20 bytes fit their int/long widths |
| Wire.ChunkHeaderRoundTrip | src/main/java/org/app/backend/Sender.java:315-320 | decoding the 20-byte header gives back `chunkIndex, startPosition, chunkSize, totalChunks` |
| Wire.ChunkHeaderBytesRoundTrip | src/main/java/org/app/backend/Sender.java:315-320 | every 20 bytes are the header of the fields they decode to |
| Wire.ReadChunkPrefixAsWritten | src/main/java/org/app/backend/Receiver.java:256-258 | the worker as written reads a header exactly when 16 bytes are there, and takes the data to start at byte 16 |
| Wire.ReadChunkPrefix | src/main/java/org/app/backend/Receiver.java:256-258 | the corrected worker reads a header exactly when 20 bytes are there, and takes the data to start at byte 20 |
| Wire.ReadChunkPrefixFindsData | src/main/java/org/app/backend/Receiver.java:256-258 | on what the sender writes, the corrected reader gets the sender's index, position and size, and the data exactly |
| Wire.AsWrittenPrefixMisplacesData | src/main/java/org/app/backend/Receiver.java:256-258 | on what the sender writes, the reader as written takes the four bytes of `totalChunks` as the start of the data |
| FileNames.ValidFileNameExactly | src/main/java/org/app/backend/Receiver.java:345-352 | a name is refused exactly when it is empty or contains `..`, `/`, a backslash, a vertical bar or one of `< > : " ? *` |
| FileNames.BaseName | src/main/java/org/app/backend/Receiver.java:358 | `replaceFirst("[.][^.]+$", "")` drops the last dot and what follows only when something follows it |
| FileNames.Extension | src/main/java/org/app/backend/Receiver.java:359 | the extension is the suffix of the name from its last dot: it starts with that dot and holds no other |
| FileNames.CandidateInjective | src/main/java/org/app/backend/Receiver.java:365 | different counters give different candidate names |
| FileNames.UniqueFromMeaning | src/main/java/org/app/backend/Receiver.java:362-366 | the do-while returns the first candidate from the counter on that is not taken, and every candidate before it is taken |
| FileNames.UniqueNameMeaning | src/main/java/org/app/backend/Receiver.java:354-368 | a free name is kept, and a taken name without a dot fails (`substring(-1)` throws). A taken name with a dot becomes `base_k.ext` for the smallest k >= 1 not taken. The result never names an existing file |
| FileNames.GetUniqueFile | src/main/java/org/app/backend/Receiver.java:354-368 | the counter loop computes exactly that unique name (or the failure) |
| FileNames.RenamedNameIsValid | src/main/java/org/app/backend/Receiver.java:365 | renaming a valid name gives a name that still passes `isValidFileName` |
| Ports.TriedPorts | src/main/java/org/app/backend/Sender.java:158-164 | every drawn offset names a tried port `50000 + offset` |
| Ports.FindAvailablePort | src/main/java/org/app/backend/Sender.java:148-184 | a default port `9091 + chunkIndex` above 65535 fails with `PortOutOfRange`, since `new ServerSocket` throws IllegalArgumentException, which `catch (IOException)` does not catch. Otherwise the default port is returned when it is free, and the random search decides when it is not. A port found is never above 65535 |
| Ports.SearchRandomPorts | src/main/java/org/app/backend/Sender.java:157-171 | the loop over `triedPorts` computes the random search |
| Ports.RandomSearchFinds | src/main/java/org/app/backend/Sender.java:160-168 | a port found is free and in [50000, 60000). It is the first free drawn port, found before 100 distinct ports were tried |
| Ports.RandomSearchGivesUp | src/main/java/org/app/backend/Sender.java:160-171 | the search fails only after exactly 100 distinct ports were tried, none of them free |
| ChunkSender.Moved | src/main/java/org/app/backend/Sender.java:343-347 | one `transferTo` moves no more than requested, than the file holds, or than the channel takes |
| ChunkSender.Pump | src/main/java/org/app/backend/Sender.java:336-361 | the pump loop sends exactly the bytes of the file from the chunk start, as many as it counts as transferred |
| ChunkSender.PumpBounds | src/main/java/org/app/backend/Sender.java:336-365 | `transferred` never exceeds chunkSize, and the attempt succeeds exactly when it reaches chunkSize |
| ChunkSender.StallsFail | src/main/java/org/app/backend/Sender.java:349-353 | 101 consecutive calls without progress fail the attempt as stalled |
| ChunkSender.ProgressForgivesStalls | src/main/java/org/app/backend/Sender.java:358-359 | any progress resets the stall counter: stalls before progress leave no trace |
| ChunkSender.SteadyChannelSends | src/main/java/org/app/backend/Sender.java:336-367 | a channel that takes at least one byte per call delivers the whole chunk |
| ChunkSender.FirstSuccess | src/main/java/org/app/backend/Sender.java:288-388 | the retry loop stops at the first attempt that succeeds, after all earlier ones failed. An attempt made after the one the receiver's worker accepted is refused |
| ChunkSender.FirstConnected | src/main/java/org/app/backend/Receiver.java:247-249 | the first attempt whose connect goes through, every earlier one having been refused, or none |
| ChunkSender.AcceptOnce | src/main/java/org/app/backend/Sender.java:288-312 | a chunk gets through exactly when the first attempt that connects sends the header and the whole chunk; a retry helps only after attempts that did not connect |
| ChunkSender.NoSecondChance | src/main/java/org/app/backend/Sender.java:288-312 | once an accepted attempt fails, the chunk fails whatever the later attempts would do |
| ChunkSender.DeliveredWire | src/main/java/org/app/backend/Sender.java:315-367 | a chunk that gets through reached its port as exactly its header followed by its bytes |
| ChunkSender.SendSingleChunk | src/main/java/org/app/backend/Sender.java:279-394 | success exactly when one of three attempts succeeds, returning chunkIndex. Failure after exactly three attempts, carrying the last error. The waits are 2000 and 4000 ms before retries 1 and 2. The chunk's port receives the bytes of the first attempt that connects, and on success exactly the header and the chunk bytes |
| ChunkSender.BackoffDelays | src/main/java/org/app/backend/Sender.java:299-303 | the backoff `2000 * 2^(k-1)` is 2000 ms before the second attempt and 4000 ms before the third |
| Response.WaitForResponse | src/main/java/org/app/backend/Sender.java:426-453 | the char loop computes the line scan below |
| Response.ScanAccumulates | src/main/java/org/app/backend/Sender.java:440-441 | chars other than line ends are appended to the pending line |
| Response.FirstLineIsResponse | src/main/java/org/app/backend/Sender.java:434-437 | the first line that is not blank after trimming is the response, trimmed |
| Response.BlankLineSkipped | src/main/java/org/app/backend/Sender.java:434-439 | a blank line is dropped and reading goes on |
| Response.UnterminatedTimesOut | src/main/java/org/app/backend/Sender.java:430-452 | input without a line end times out |
| Response.ResponseShape | src/main/java/org/app/backend/Sender.java:435-437 | a response is nonempty, holds no line end and has no white space at either end |
| Response.ReadyIsRecognised | src/main/java/org/app/backend/Sender.java:122-125 | a `READY` line (with `\n` or `\r\n`) is read as `READY` |
| ChunkReceiver.ReadCount | src/main/java/org/app/backend/Receiver.java:268-274 | the copy loop takes no more than the stream holds or chunkSize, and stops short only at the end of the stream |
| ChunkReceiver.OverwriteFacts | src/main/java/org/app/backend/Receiver.java:267-272 | writing at a position changes exactly that range to the data and nothing else |
| ChunkReceiver.WriteChunk | src/main/java/org/app/backend/Receiver.java:262-275 | the in-place buffered copy writes the bytes read at [start, start + n) and leaves the array otherwise unchanged; a negative start, or bytes that would land past the end, fail and change nothing, while a seek past the end that copies nothing succeeds with the array unchanged |
| ChunkReceiver.OverwriteExtend | src/main/java/org/app/backend/Receiver.java:272-273 | two consecutive buffer writes equal one write of both pieces |
| ChunkReceiver.ReceiveChunk | src/main/java/org/app/backend/Receiver.java:247-278 | the corrected worker changes the file array to what the chunk work function gives, or fails and changes nothing |
| ChunkReceiver.ReceiveChunkAsWritten | src/main/java/org/app/backend/Receiver.java:247-278 | the worker as written (16-byte header) changes the file to what its work function gives, or fails and changes nothing |
| ChunkReceiver.ChunkWorkFrame | src/main/java/org/app/backend/Receiver.java:262-275 | a chunk write keeps the file length and changes only [startPosition, startPosition + n) to the data, with n = min(chunkSize, bytes available) |
| ChunkReceiver.ChunkWorkPosition | src/main/java/org/app/backend/Receiver.java:262-275 | a worker fails on its position exactly when the start is negative or a copied byte would land past the end; a start past the end with nothing to copy succeeds and leaves the file as it is |
| ChunkReceiver.FaithfulWork | src/main/java/org/app/backend/Receiver.java:265-275 | a stream carrying true content at its position writes that content there and nothing elsewhere |
| ChunkReceiver.ReceiveAllFaithful | src/main/java/org/app/backend/Receiver.java:244-304 | running faithful workers one after another leaves every position written by some stream with the content and every other position as it was |
| ChunkReceiver.ChunkStreamFaithful | src/main/java/org/app/backend/Sender.java:315-367 | what `sendSingleChunk` writes is faithful to the file, and writes exactly the positions of its chunk |
| ChunkReceiver.Reassembly | src/main/java/org/app/backend/Receiver.java:244-304 | when the chunks tile the file and each arrives at least once, in any order, the pre-sized file becomes the sender's content |
| ChunkReceiver.AsWrittenWritesCount | src/main/java/org/app/backend/Receiver.java:256-258 | the worker as written copies from byte 16, which holds the `totalChunks` field followed by the data |
| ChunkReceiver.OneByteChunk | src/main/java/org/app/backend/Receiver.java:256-272 | a one-byte chunk at 0 is written correctly by the corrected worker, but as the first byte of `totalChunks` by the worker as written |
| ChunkReceiver.AsWrittenCorruptsOneByteFile | src/main/java/org/app/backend/Receiver.java:256-258 | the one-byte file `[5]` is saved as `[5]` by the corrected worker and as `[0]` by the worker as written |
| Progress.ChunkProgressBounds | src/main/java/org/app/backend/Receiver.java:293 | chunk progress stays within [0, 100] and is 100 exactly when the last chunk is done |
| Progress.ChunkProgressMonotone | src/main/java/org/app/backend/Sender.java:257 | chunk progress never goes down as chunks complete |
| Progress.OverallProgressBounds | src/main/java/org/app/backend/FileTransferManager.java:72 | overall progress stays within [0, 100] while the file index is in range and the file's progress is within [0, 100] |
| Progress.OverallProgressMonotone | src/main/java/org/app/backend/FileTransferManager.java:72 | overall progress never goes down, within a file or from one file to the next |
| Progress.OverallProgressJoins | src/main/java/org/app/backend/FileTransferManager.java:72 | finishing a file reads the same as starting the next; finishing the last reads 100 |
| Progress.ProgressStepsRise | src/main/java/org/app/backend/Receiver.java:286-299 | the progress reported after each chunk never goes down, stays within 100, and ends at 100 |
| Progress.ProgressUpToSteps | src/main/java/org/app/backend/Sender.java:246-258 | the reports after k chunks are the first k of the full sequence |
| SenderSide.ChunksOutcomeMeaning | src/main/java/org/app/backend/Sender.java:245-269 | the chunk phase succeeds exactly when every chunk succeeds. A failure names the first chunk that failed, every chunk before it having succeeded |
| SenderSide.SentWiresOnSuccess | src/main/java/org/app/backend/Sender.java:229-269 | when every chunk gets through, every chunk lies in the file and each port received exactly its chunk's stream |
| SenderSide.SentWiresOnFailure | src/main/java/org/app/backend/Sender.java:229-269 | when chunk k fails, the ports before it received their chunk streams, port k received what its accepted attempt sent (if any), and later ports received nothing |
| SenderSide.FirstUnallocated | src/main/java/org/app/backend/Sender.java:197-202 | the port allocation loop fails at the first chunk for which no port is found |
| SenderSide.PortMapEntries | src/main/java/org/app/backend/Sender.java:198-201 | the port map holds exactly the chunk indices 0 .. n-1, each with its allocated port |
| SenderSide.Sender.constructor | src/main/java/org/app/backend/Sender.java:26-43 | a new sender is listening and has an empty port map |
| SenderSide.Sender.SetListening | src/main/java/org/app/backend/Sender.java:28-30 | sets the listening flag only |
| SenderSide.Sender.SendChunks | src/main/java/org/app/backend/Sender.java:227-269 | the result is the chunk phase's outcome. Each chunk port up to the failed chunk receives the bytes of the first attempt that connects to it, and later ports receive nothing. Progress has one step per chunk that got through, the failed chunk's index on failure. On success every port received exactly its chunk's stream |
| SenderSide.Sender.ChunkLoop | src/main/java/org/app/backend/Sender.java:229-269 | the chunk loop computes the chunk phase's outcome and what each port receives, and reports the first k progress steps, k being the number of chunks that got through before it stopped |
| SenderSide.Sender.SendOne | src/main/java/org/app/backend/Sender.java:237-260 | chunk k either fails the phase with its error or passes on to the rest. Its port receives what its first connecting attempt sends, exactly its header and bytes when it gets through |
| SenderSide.Sender.AllocatePorts | src/main/java/org/app/backend/Sender.java:197-202 | allocation fails with the first chunk without a port, or yields the full port map |
| SenderSide.Sender.SendFileChunksAsWritten | src/main/java/org/app/backend/Sender.java:189-274 | as written: after allocation the map is announced on 9090 and, with no reply, the transfer fails and no chunk port is contacted. With a reply, the chunk tasks run against the received map as `MappedOutcome` and `MappedWires` say. Success needs a reply mapping every chunk. The port map is cleared in every case |
| SenderSide.Sender.SendMapped | src/main/java/org/app/backend/Sender.java:226-270 | the submission and completion loops with the received map: the outcome and the port contents are those of the chunks before the first unmapped one, followed by that chunk's failure; success means every chunk is mapped and every port received its chunk's stream |
| SenderSide.MappedPrefix | src/main/java/org/app/backend/Sender.java:238-240 | the first chunk the received map gives no port to (or the chunk count): every chunk before it has an entry, and it has none |
| SenderSide.MappedAll | src/main/java/org/app/backend/Sender.java:226-270 | with every chunk mapped, the as-written fan-out has the outcome and port contents of the corrected one |
| SenderSide.UnmappedFanOut | src/main/java/org/app/backend/Sender.java:226-270 | with chunk u unmapped, the transfer fails on u exactly when chunks 0..u-1 all get through, and each of their ports then received its chunk's stream while u's and later ports received nothing; otherwise it fails on the first earlier chunk that does not get through |
| SenderSide.Sender.FirstUnmapped | src/main/java/org/app/backend/Sender.java:234-240 | finds the first chunk missing from the adjusted map (the `MappedPrefix` of the map), or reports that all are mapped |
| SenderSide.Sender.SendFileChunks | src/main/java/org/app/backend/Sender.java:189-274 | corrected: chunk i goes to `9091 + i` with no port-map exchange. The result is the chunk phase's outcome. The ports receive what the accept-once workers read (as in SendChunks), and progress counts the chunks that got through. The port map is cleared |
| SenderSide.Sender.SendFile | src/main/java/org/app/backend/Sender.java:93-144 | with the corrected chunk phase: the result is the send outcome. The header is written once the connection opens. No chunk port is contacted before READY. The termination marker is sent exactly when the file succeeds and is the last. Progress has one step per chunk that got through, all of them on success |
| SenderSide.Sender.SendPlanned | src/main/java/org/app/backend/Sender.java:128-138 | with the corrected chunk phase: the chunks are sent and, for the last file, the marker follows only when the chunks all went through |
| SenderSide.PlannedChunks | src/main/java/org/app/backend/Sender.java:229-232 | the planned chunks are the planned count, each nonempty, inside the file and with header fields that fit |
| SenderSide.SendOutcomeMeaning | src/main/java/org/app/backend/Sender.java:93-144 | with the corrected chunk phase, `sendFile` succeeds exactly when four things hold: the connection opens; the reply is `READY`; every chunk succeeds; and, for the last file, the marker connection opens |
| SenderSide.SentFileIntact | src/main/java/org/app/backend/Sender.java:93-144 | when sendFile succeeds, every chunk port received exactly its chunk's stream and every progress step up to 100 was reported |
| SenderSide.PlannedChunksFit | src/main/java/org/app/backend/Sender.java:231-232 | every planned chunk starts inside the file, is nonempty, and its header fields fit |
| SenderSide.ChunkStartInside | src/main/java/org/app/backend/Sender.java:231 | every chunk index below the count starts before the end of the file |
| ReceiverSide.FirstBusyPort | src/main/java/org/app/backend/Receiver.java:229-234 | opening the chunk servers fails at the first port in use or out of range, or succeeds for all |
| ReceiverSide.Gather | src/main/java/org/app/backend/Receiver.java:244-304 | the chunk tasks keep the file length. A failed or unconnected task does not stop the others. The phase is stuck at the first chunk whose task did not complete, exactly when fewer than all tasks completed |
| ReceiverSide.ResumeJoin | src/main/java/org/app/backend/Receiver.java:286-304 | the completion loop, carrying what the tasks before k did, ends where Gather from k on ends, joined after them |
| ReceiverSide.Zeros | src/main/java/org/app/backend/Receiver.java:225-227 | `setLength(fileSize)` gives a zero-filled file of that size |
| ReceiverSide.OpenChunkServers | src/main/java/org/app/backend/Receiver.java:229-234 | the loop opening `9091 + i` finds the first port that cannot be opened |
| ReceiverSide.ReceiveChunks | src/main/java/org/app/backend/Receiver.java:286-304 | the completion loop leaves the file array, the first stuck chunk and the number of completed tasks as Gather says, and reports one progress step per completed task |
| ReceiverSide.ReceiveOne | src/main/java/org/app/backend/Receiver.java:246-278 | one chunk task completes exactly when a stream reached its port and the corrected worker succeeds on it. Then the file array is what the worker wrote; otherwise it is unchanged |
| ReceiverSide.SessionStep | src/main/java/org/app/backend/Receiver.java:119-147 | once port 9090 is open (`SessionLoop`), the session ends on the termination marker, hangs on a chunk that never arrives, and otherwise goes on to the next connection with the updated directory |
| ReceiverSide.FirstConfirmed | src/main/java/org/app/backend/Receiver.java:70-79 | the listener stops at the first request answered YES, having refused every earlier one |
| ReceiverSide.Receiver.constructor | src/main/java/org/app/backend/Receiver.java:19 | a new receiver is receiving and holds the given directory |
| ReceiverSide.Receiver.SetReceiving | src/main/java/org/app/backend/Receiver.java:21-23 | sets the receiving flag only |
| ReceiverSide.Receiver.ReceiveFile | src/main/java/org/app/backend/Receiver.java:172-343 | with the corrected worker, does what `ReceiveFileSpec` says (outcome, replies, directory, progress). It returns true exactly on the termination marker, which alone clears `isReceiving` |
| ReceiverSide.Receiver.ReceiveAnnounced | src/main/java/org/app/backend/Receiver.java:200-342 | a refused header or name ends the call; an accepted one goes on to the file, under the name getUniqueFile picks among the saved files and "." (the directory itself) |
| ReceiverSide.Receiver.ReceiveAccepted | src/main/java/org/app/backend/Receiver.java:222-342 | with the corrected worker: fails with `FileNotCreated` when the file cannot be created; otherwise pre-sizes, opens the chunk servers, answers READY and receives the chunks, as `AcceptedReceipt` says |
| ReceiverSide.Receiver.ReceiveSession | src/main/java/org/app/backend/Receiver.java:117-160 | computes the session log (`SessionSpec`): when port 9090 cannot be opened the session ends at once with `ServerSocketFailed`; otherwise the session loop runs. The directory is left as the log says, and `isReceiving` is cleared only on the termination marker |
| ReceiverSide.Receiver.HandleIncomingConnection | src/main/java/org/app/backend/Receiver.java:88-170 | answers YES or NO as confirmed. A refusal changes nothing. An acceptance clears `isReceiving` and runs the session, which fails at once when port 9090 is busy |
| ReceiverSide.Receiver.ListenForConnectionRequests | src/main/java/org/app/backend/Receiver.java:65-86 | while receiving, requests are refused until the first confirmed one, whose session runs and ends the loop. A receiver not receiving answers nothing |
| ReceiverSide.TerminationOnly | src/main/java/org/app/backend/Receiver.java:192-198 | `receiveFile` returns true exactly when the directory is there and the stream starts with -1; then it replies nothing and saves nothing |
| ReceiverSide.RejectedBeforeReply | src/main/java/org/app/backend/Receiver.java:200-220 | a refused header fails with its error before any reply, saving nothing and reporting no progress |
| ReceiverSide.SavesOnlyUnderUniqueName | src/main/java/org/app/backend/Receiver.java:223-227 | existing files are never changed. An accepted file that can be created adds exactly one new name, the unique name, pre-sized to the announced size; that name is neither a saved file nor "." (which `exists()` reports as the directory). Otherwise the directory is unchanged |
| ReceiverSide.AcceptedFiles | src/main/java/org/app/backend/Receiver.java:225-236 | once a name is picked and the file can be created, the directory changes only at that name, which holds a file of the announced size. When creation throws, the call fails with `FileNotCreated`, replies nothing and leaves the directory unchanged |
| ReceiverSide.AcceptedReplies | src/main/java/org/app/backend/Receiver.java:225-299 | once a name is picked, READY goes back exactly when the file is created and every chunk server opens; without it nothing is replied or reported and nothing is received; a received file reported every chunk |
| ReceiverSide.DotIsRenamed | src/main/java/org/app/backend/Receiver.java:354-368 | a file announced as "." is always renamed, since the directory itself exists: it is saved as "._1.", or the first later candidate not yet saved, and never as "." |
| ReceiverSide.ReadyOnlyAfterSetup | src/main/java/org/app/backend/Receiver.java:225-236 | READY is sent exactly when five things hold: the directory is there; the header is accepted; a unique name exists; the file can be created; and every chunk port opens. Without READY nothing is replied or reported, and no file is received. A received file reports every chunk, ending at 100 |
| ReceiverSide.GatherDelivered | src/main/java/org/app/backend/Receiver.java:244-304 | when every chunk stream arrives, the chunk phase completes exactly when all workers succeed, with the content they write |
| ReceiverSide.MissingChunkBlocks | src/main/java/org/app/backend/Receiver.java:286-304 | a chunk nobody sends leaves the phase stuck at or before it (`take()` waits forever) |
| ReceiverSide.GatherUnconnected | src/main/java/org/app/backend/Receiver.java:249 | with no connection on any chunk port, no task completes, the file is unchanged and the loop waits at the first chunk |
| ReceiverSide.MapExchangeUnanswered | src/main/java/org/app/backend/Receiver.java:236-289 | a file accepted on 9090 and created, whose chunk ports get no connection: READY is sent, the zero-filled file is created, and the session waits in `take()` for chunk 0 for ever, reading no later 9090 connection |
| ReceiverSide.SessionShape | src/main/java/org/app/backend/Receiver.java:119-147 | once port 9090 is open (`SessionLoop`), the session handles at most one file per connection, and only the last outcome can be the marker or a hang. It ends on the marker exactly when the last outcome is Terminated. It times out only after all connections. Existing files are kept |
| ReceiverSide.AcceptedAndDelivered | src/main/java/org/app/backend/Receiver.java:172-317 | an accepted header with free ports and a free name, whose file can be created, and every chunk delivered, is received under the unique name. READY is the only reply, every chunk is reported, and the directory gains the reassembled content |
| ReceiverSide.DeliveredReceipt | src/main/java/org/app/backend/Receiver.java:222-317 | for any accepted header and saved name, a file that can be created, free ports and every stream delivered to corrected workers that all succeed: READY, every chunk reported, and the reassembled content saved |
| ReceiverSide.ReceivedThenMarker | src/main/java/org/app/backend/Receiver.java:119-147 | once port 9090 is open, a received file followed by the termination marker ends the session after those two connections |
| ReceiverSide.ServerPortNeeded | src/main/java/org/app/backend/Receiver.java:117-160 | the session ends with `ServerSocketFailed` exactly when port 9090 cannot be opened, and then has handled no connection and left the directory unchanged; otherwise it is the session loop |
| ReceiverSide.LoopOpensNoServer | src/main/java/org/app/backend/Receiver.java:119-147 | once port 9090 is open, the session loop never ends with `ServerSocketFailed`: only the outer catch yields that end |
| EndToEnd.PlannedHeaderAccepted | src/main/java/org/app/backend/Sender.java:105-118 | for files of 1 to 2^53 bytes, the receiver accepts the header the sender writes for a valid name, with at least one chunk |
| EndToEnd.PlannedStreamsRebuild | src/main/java/org/app/backend/Sender.java:229-241 | for files of 1 to 2^53 bytes, the chunk streams the sender writes, handed to the corrected workers, turn the zero-filled file into the sender's content |
| EndToEnd.FileArrivesIntact | src/main/java/org/app/backend/Sender.java:93-130 | with both corrections and for files of 1 to 2^53 bytes: a file with a valid name, free ports and a free name, which the receiver can create, whose chunk ports each receive the chunk's stream (what a successful sendFile delivers, see SentFileSaved), arrives intact. The receiver answers READY, reports every chunk, and saves exactly the sender's content under the unique name |
| EndToEnd.LastFileEndsSession | src/main/java/org/app/backend/Sender.java:132-137 | with both corrections and for files of 1 to 2^53 bytes: the last file, created by the receiver and its chunk streams delivered, followed by the marker leaves the receiver's session ended, with the file saved |
| EndToEnd.SentFileSaved | src/main/java/org/app/backend/Sender.java:93-144 | with both corrections: what a successful sendFile writes, header and chunk ports alike, makes a receiveFile that can create the file answer READY, save exactly the sender's content under the unique name, and report the same progress steps as the sender |
| EndToEnd.AsWrittenSessionHangs | src/main/java/org/app/backend/Sender.java:206-224 | as written, with the file created: after READY the sender contacts no chunk port until its port map is answered, so the receiver's session waits for chunk 0 for ever with the zero-filled file saved, and never reads the map |
| TransferManager.CompletedTextInjective | src/main/java/org/app/backend/FileTransferManager.java:76 | two `Completed %d of %d files` lines are equal only for the same counts |
| TransferManager.FileResultMeaning | src/main/java/org/app/backend/FileTransferManager.java:63-79 | a file succeeds exactly when it is readable and its `sendFile` succeeds. A failure names the file and its index, and is Unreadable exactly for an unreadable file |
| TransferManager.FirstFailure | src/main/java/org/app/backend/FileTransferManager.java:61-80 | the loop stops at the first failing file, every earlier one having succeeded |
| TransferManager.BatchOutcomeMeaning | src/main/java/org/app/backend/FileTransferManager.java:61-86 | the batch succeeds exactly when every file is sent. A failure names a file not sent, every earlier file having been sent |
| TransferManager.BatchStopsAt | src/main/java/org/app/backend/FileTransferManager.java:64-79 | when file i is the first to fail, the batch ends with its error and its status lines stop there |
| TransferManager.BatchRunsThrough | src/main/java/org/app/backend/FileTransferManager.java:61-82 | when every file succeeds the batch succeeds with the status lines of all files |
| TransferManager.StatusesUpToShape | src/main/java/org/app/backend/FileTransferManager.java:69-76 | each file sent reports "Sending file" then "Completed i+1 of n files" |
| TransferManager.StatusesShape | src/main/java/org/app/backend/FileTransferManager.java:61-84 | the status lines are those of every file before the first failure. An unreadable file adds only the error; a failed send adds "Sending file" and the error |
| TransferManager.FileOverallFits | src/main/java/org/app/backend/FileTransferManager.java:71-73 | the overall progress of file i never goes down and stays between its start and the next file's start |
| TransferManager.FileReportsFit | src/main/java/org/app/backend/FileTransferManager.java:63-73 | the overall reports of file i rise and lie between where file i starts and where file i + 1 starts |
| TransferManager.ConcatFits | src/main/java/org/app/backend/FileTransferManager.java:61-80 | reports that each fit their file's slot, concatenated for the first k files, rise and stay below where file k starts |
| TransferManager.OverallUpToFits | src/main/java/org/app/backend/FileTransferManager.java:61-80 | the overall reports of the first k files rise and stay below where file k starts |
| TransferManager.BatchOverallBounds | src/main/java/org/app/backend/FileTransferManager.java:61-80 | the overall progress of a batch never goes down and never passes 100 |
| TransferManager.AdmittedFresh | src/main/java/org/app/backend/FileTransferManager.java:229-237 | discovery never lists an address twice: each added user has an address new to the list and to `processedIPs` |
| TransferManager.RepeatedAddressIgnored | src/main/java/org/app/backend/FileTransferManager.java:231 | a datagram from an address already listed or processed adds nothing |
| TransferManager.Discovery.constructor | src/main/java/org/app/backend/FileTransferManager.java:226-227 | discovery starts from the given list, with nothing processed or published |
| TransferManager.Discovery.OnNewUser | src/main/java/org/app/backend/FileTransferManager.java:229-238 | a new address is appended, marked processed and a snapshot is published; a processed address changes nothing |
| TransferManager.Discovery.PeerListener | src/main/java/org/app/backend/Sender.java:52-66 | the poll loop adds exactly the admitted users (with trimmed names) and publishes one snapshot each, keeping the discovery invariant |
| TransferManager.ItemsAppend | src/main/java/org/app/backend/FileTransferManager.java:95-96 | the lines of two lists together are the lines of the first list then the second |
| TransferManager.ItemsAt | src/main/java/org/app/backend/FileTransferManager.java:95-96 | each file's line comes after the lines of the files before it and before those after it |
| TransferManager.SumAppend | src/main/java/org/app/backend/FileTransferManager.java:97 | the total of two lists of sizes is the sum of their totals |
| TransferManager.GetFileInfo | src/main/java/org/app/backend/FileTransferManager.java:90-103 | the summary is the header and one bullet per file in input order, and the total is the sum of the file lengths |
| TransferManager.FileTransferManager.constructor | src/main/java/org/app/backend/FileTransferManager.java:30-36 | the manager owns a fresh, listening sender |
| TransferManager.FileTransferManager.StartSendingFiles | src/main/java/org/app/backend/FileTransferManager.java:42-88 | stops discovery, then sends the batch. `onComplete` runs exactly on success. The result is the batch outcome and the status lines are "Starting" followed by the batch's. One marker is sent only when all files succeed. Overall progress is `(int)((i * 100.0 + p) / n)` for each chunk report p of each file i reached, in order; it rises within [0, 100] |
| TransferManager.FileTransferManager.SendBatch | src/main/java/org/app/backend/FileTransferManager.java:61-80 | the file loop gives the batch outcome and the batch status lines. The marker is sent once, after the last file, only if all succeed. Overall progress is the per-file reports of every file reached, in order |
| TransferManager.FileTransferManager.SendUntilFailure | src/main/java/org/app/backend/FileTransferManager.java:61-80 | the loop stops at the first failing file or runs through all; its result, status lines, overall reports and marker are those of the files up to the stop |
| TransferManager.FileTransferManager.SendStep | src/main/java/org/app/backend/FileTransferManager.java:62-79 | file i gives its own result and lines, and appends its own overall reports. `isLastFile` holds only for index n - 1, so the marker follows only the last file |

## Left out

- The GUI is not part of this model: dialogs, the progress dialog, `SwingUtilities` and the confirmation prompt. The user's answer to a request is an input (`Request.confirm`).
- Concurrency, executors, `CompletionService`, `CompletableFuture` and `volatile` are left out. The chunk workers on both sides run one after another in a given order. The file lock leaves that order open, and `ChunkReceiver.Reassembly` covers every order.
- Sockets, datagram channels, `RandomAccessFile` and `FileChannel` become byte sequences, arrays and maps. The save directory is a map from names to contents.
- Timeouts, `Thread.sleep` and `System.currentTimeMillis` are left out. A timeout is the end of a scripted input. `Ports.FindAvailablePort` takes the random draws as a sequence.
- `formatFileSize` (Sender.java:455-459, FileTransferManager.java:105-116) uses double arithmetic and `%.1f`/`%.2f` formatting, so it is left out. The "Preparing to send" line is not modelled for the same reason.
- TransferManager.GetFileInfo: the trailing `<br>Total size: ...</body></html>` is not rendered. The total is returned as an unbounded number, so the overflow of a Java `long` past 2^63 - 1 bytes is not modelled.
- The connection handshake (`sendConnectionRequest` in Sender.java:76-87 and FileTransferManager.java:38-40) and the reading of the request line in `handleIncomingConnection` are plain socket text I/O. They are left out.
- `peerBroadcaster` (Receiver.java:34-62) only sends datagrams in a timed loop, so it is left out.
- `startReceiving`, `stopReceiving`, `shutdown`, `shutdownExecutors` and `stopDiscovery` (FileTransferManager.java:118-215, 247-252) only start or stop threads. They call `setAcceptingConnections` and `stopReceiving`, which Receiver.java does not define. They are left out.
- The 5-second wait on `discoveryFuture` in `startSendingFiles` (FileTransferManager.java:50-56) is left out. So are the log lines printed to the console.
- Wire.ReadMetadata: Java decodes a malformed UTF-8 name with replacement characters (U+FFFD). The model refuses it as `MalformedName`.
- Datagram decoding in `peerListener` is left out. A poll carries the name already decoded as text, and the 1024-byte truncation of a datagram is not modelled.
- TransferManager.Discovery.PeerListener: the `isListening` flag and the one-second sleep between polls are not modelled. The loop runs over a given sequence of polls.
- ReceiverSide.Receiver.ListenForConnectionRequests: the loop over accepted requests ends when the given requests run out, not by a socket error or `isReceiving` turning false from outside.
- TransferManager.StatusText: the text of a failed send's status line (`e.getMessage()` of nested exceptions) is not modelled. The status itself is kept as a value.
- The status lines `sendFile` and `sendFileChunks` report themselves ("Connecting to receiver", "Allocated port", "Completed chunk", ...) are not modelled. Only the lines of `startSendingFiles` are.
- ChunkReceiver.WriteChunk: in Java, a write past the end of the pre-sized file extends the file. In the model a worker that would copy at least one byte past the end fails with `BadPosition`; one that seeks past the end and copies nothing succeeds, as in Java. Partial reads are modelled only as a stream that ends early.
- ReceiverSide.Receiver.ReceiveFile: when a chunk task throws, the completion loop swallows the exception (Receiver.java:300-303). It takes and reports every other chunk, then waits in `take()` forever. The model writes and reports those chunks too, then ends with the outcome `Blocked` (the first such chunk) rather than hanging. The session stops there.
- ReceiverSide.Receiver.ReceiveFile: whether `new RandomAccessFile` and `setLength` succeed (Receiver.java:225-227) is a scripted input, `Connection.fileCreated`. The model does not derive it from the name (a NUL, a name too long for the file system) or from the free disk space. When `setLength` fails after the file opened, Java leaves an empty file behind; the model leaves the directory unchanged.
- ReceiverSide.Receiver.ReceiveFile: a chunk port nobody connects to is handled the same way. The worker waits in `accept()` with no timeout, and the model ends with `Blocked`.
- SenderSide.Sender.SendFile: the metadata socket that fails to open and the marker socket that fails to open are inputs of the network script. The other failures of `new Socket` inside `sendSingleChunk` fold into a failed attempt.
- EndToEnd.FileArrivesIntact: stated for files of at most 2^53 bytes. Above that, the double ceiling of the chunk count can fall one short, and the planned chunks no longer cover the file.
- EndToEnd.PlannedStreamsRebuild: stated for files of at most 2^53 bytes, for the same reason.
- EndToEnd.LastFileEndsSession: stated for files of at most 2^53 bytes. Like FileArrivesIntact, it hands the receiver each chunk's stream; SentFileSaved shows that this is what a successful sendFile delivers.
- ChunkPlanner.TotalChunks: models `(int) Math.ceil((double) fileSize / chunkSize)` as the integer ceiling, saturated at `Integer.MAX_VALUE`. The two agree up to 2^53 bytes. The double rounding above that is not modelled.
- SenderSide.Sender.SendFile: models sendFile with the corrected sendFileChunks. As written, every file with at least one chunk fails at the port-map exchange; SendFileChunksAsWritten models that path.
- SenderSide.SendOutcomeMeaning: describes sendFile with the corrected sendFileChunks, like SendFile.
- SenderSide.Sender.SendFileChunksAsWritten: the chunk tasks run in chunk order, so when the received map leaves chunk u without a port, chunks 0..u-1 finish before task u throws. In Java task u can throw first, and `cancel(true)` can then interrupt the earlier tasks mid-transfer. The progress reports of this variant are not returned.
- ReceiverSide.Receiver.ReceiveAccepted: uses the corrected 20-byte chunk worker; ReceiveChunkAsWritten models the worker as written.
- Utf8.Encode: a Java string can hold a lone surrogate, which `getBytes(UTF_8)` replaces with `?`. A Dafny `char` cannot hold one, so such names are not modelled.
- The thread pools are left out: `min(processors, totalChunks)` chunk workers on the receiver (Receiver.java:239-240) and `min(4, processors)` chunk senders (Sender.java:192-193). The model treats every chunk as having its own thread. A chunk that waits for a free thread, and the sender's 30-second poll timeout this can trigger (Sender.java:249-252), are not modelled.
- `FileChunk.java` and `User.java` hold fields only. They appear as the datatypes `ChunkPlanner.FileChunk` and `TransferManager.User`, with a user identified by address.

## Findings

| source | as written | input that shows it | evidently intended | confidence | as-written member | corrected member |
|---|---|---|---|---|---|---|
| src/main/java/org/app/backend/Receiver.java:256-258 | The chunk worker reads `chunkIndex`, `startPosition` and `chunkSize`, 16 of the 20 header bytes the sender writes, and copies the file data from byte 16, so the `totalChunks` field is written into the file and the last four data bytes are never read. | the one-byte file `[5]` as one chunk: header `(0, 0, 1, 1)` then `5`; the worker writes `0`, the first byte of `totalChunks` | read all four header fields (20 bytes) before the data | not executed | ChunkReceiver.ReceiveChunkAsWritten, ChunkReceiver.AsWrittenCorruptsOneByteFile | ChunkReceiver.ReceiveChunk, ChunkReceiver.Reassembly |
| src/main/java/org/app/backend/Sender.java:206-224 | After READY, `sendFileChunks` opens a new connection to 9090, writes a serialized port map and waits for an adjusted map before it contacts any chunk port. The receiver never reads that connection: its session is waiting in `take()` for chunk 0, whose worker waits in `accept()` on 9091 with no timeout. | any file of at least one chunk: `readObject` times out after 30 s and the transfer fails; the receiver keeps the zero-filled file and hangs | send each chunk straight to `9091 + i`, the port the receiver opened | not executed | SenderSide.Sender.SendFileChunksAsWritten, EndToEnd.AsWrittenSessionHangs | SenderSide.Sender.SendFileChunks |
