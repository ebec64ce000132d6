/** Sender.sendSingleChunk: up to three attempts with exponential backoff, each sending the
    20-byte chunk header and then pumping the chunk's bytes with FileChannel.transferTo. What
    the network does is given as a script of outcomes. */
module ChunkSender {
  import opened JavaInts
  import opened Wrappers
  import opened Wire

  const MAX_RETRIES: nat := 3
  const BASE_DELAY_MS: nat := 2000
  const MAX_STALLS: nat := 100

  /** One call of transferTo: the channel takes up to `count` bytes (0 or less is a stall), or
      the call throws an IOException. */
  datatype PumpStep = Transfer(count: int) | Broken

  /** How an attempt's pump loop ends. Timeout stands for the 60-second no-progress limit: the
      script ran out before the chunk was sent. */
  datatype PumpOutcome = Sent | Stalled | Incomplete | Timeout | BrokenPipe

  datatype PumpResult = PumpResult(outcome: PumpOutcome, transferred: int)

  /** The bytes one transferTo call moves: what the channel takes, bounded by what is still
      requested (chunkSize - transferred) and by what the file still holds at that position. */
  function Moved(file: seq<byte>, start: nat, chunkSize: int, transferred: nat, count: int): (m: nat)
    ensures m <= Max(0, chunkSize - transferred) && start + transferred + m <= Max(|file|, start + transferred)
    ensures m > 0 ==> m <= count
  {
    Max(0, Min(count, Min(chunkSize - transferred, |file| - (start + transferred))))
  }

  /** The pump loop of one attempt, from `transferred` bytes sent and `stalls` consecutive
      zero-byte calls, followed by the check transferred == chunkSize. */
  function PumpRun(file: seq<byte>, start: nat, chunkSize: int, steps: seq<PumpStep>,
                   transferred: nat, stalls: nat): (r: PumpResult)
    ensures transferred <= r.transferred
    ensures start + transferred <= |file| ==> start + r.transferred <= |file|
    decreases |steps|
  {
    if transferred >= chunkSize then
      PumpResult(if transferred == chunkSize then Sent else Incomplete, transferred)
    else if steps == [] then PumpResult(Timeout, transferred)
    else match steps[0]
      case Broken => PumpResult(BrokenPipe, transferred)
      case Transfer(count) =>
        var m := Moved(file, start, chunkSize, transferred, count);
        if m == 0 then
          if stalls + 1 > MAX_STALLS then PumpResult(Stalled, transferred)
          else PumpRun(file, start, chunkSize, steps[1..], transferred, stalls + 1)
        else PumpRun(file, start, chunkSize, steps[1..], transferred + m, 0)
  }

  /** The pump loop as the source writes it; `sent` is what went down the channel. */
  method Pump(file: seq<byte>, start: nat, chunkSize: int, steps: seq<PumpStep>)
    returns (result: PumpResult, sent: seq<byte>)
    requires start <= |file|
    ensures result == PumpRun(file, start, chunkSize, steps, 0, 0)
    ensures 0 <= result.transferred && start + result.transferred <= |file|
    ensures sent == file[start..start + result.transferred]
  {
    var transferred: nat := 0;
    var stallCount: nat := 0;
    var i := 0;
    sent := [];
    while transferred < chunkSize
      invariant 0 <= i <= |steps|
      invariant start + transferred <= |file|
      invariant sent == file[start..start + transferred]
      invariant PumpRun(file, start, chunkSize, steps, 0, 0)
             == PumpRun(file, start, chunkSize, steps[i..], transferred, stallCount)
      decreases |steps| - i
    {
      if i == |steps| {
        return PumpResult(Timeout, transferred), sent;
      }
      match steps[i]
      case Broken =>
        return PumpResult(BrokenPipe, transferred), sent;
      case Transfer(count) =>
        var m := Moved(file, start, chunkSize, transferred, count);
        assert steps[i..][1..] == steps[i + 1..];
        if m == 0 {
          stallCount := stallCount + 1;
          if stallCount > MAX_STALLS {
            return PumpResult(Stalled, transferred), sent;
          }
        } else {
          sent := sent + file[start + transferred..start + transferred + m];
          assert sent == file[start..start + transferred + m];
          transferred := transferred + m;
          stallCount := 0;
        }
        i := i + 1;
    }
    if transferred != chunkSize {
      return PumpResult(Incomplete, transferred), sent;
    }
    return PumpResult(Sent, transferred), sent;
  }

  /** transferred never exceeds the chunk size, and the loop reports Sent exactly when it holds
      the whole chunk. */
  lemma {:induction false} PumpBounds(file: seq<byte>, start: nat, chunkSize: int, steps: seq<PumpStep>,
                                      transferred: nat, stalls: nat)
    requires transferred <= Max(0, chunkSize)
    ensures var r := PumpRun(file, start, chunkSize, steps, transferred, stalls);
      transferred <= r.transferred <= Max(0, chunkSize)
      && (r.outcome == Sent <==> chunkSize >= 0 && r.transferred == chunkSize)
    decreases |steps|
  {
    if transferred < chunkSize && steps != [] && steps[0].Transfer? {
      var m := Moved(file, start, chunkSize, transferred, steps[0].count);
      if m == 0 {
        if stalls + 1 <= MAX_STALLS {
          PumpBounds(file, start, chunkSize, steps[1..], transferred, stalls + 1);
        }
      } else {
        PumpBounds(file, start, chunkSize, steps[1..], transferred + m, 0);
      }
    }
  }

  /** A zero-byte call counts as a stall whatever the channel's reason. */
  predicate Idle(step: PumpStep) { step.Transfer? && step.count <= 0 }

  /** More than 100 consecutive zero-byte calls fail the attempt. */
  lemma {:induction false} StallsFail(file: seq<byte>, start: nat, chunkSize: int, steps: seq<PumpStep>,
                                      transferred: nat, stalls: nat)
    requires transferred < chunkSize && stalls <= MAX_STALLS
    requires |steps| >= MAX_STALLS + 1 - stalls
    requires forall j :: 0 <= j < MAX_STALLS + 1 - stalls ==> Idle(steps[j])
    ensures PumpRun(file, start, chunkSize, steps, transferred, stalls) == PumpResult(Stalled, transferred)
    decreases |steps|
  {
    assert Idle(steps[0]);
    if stalls + 1 <= MAX_STALLS {
      StallsFail(file, start, chunkSize, steps[1..], transferred, stalls + 1);
    }
  }

  /** Progress clears the stall counter: up to 100 zero-byte calls followed by one that moves
      data leave the attempt exactly where that call alone would. */
  lemma {:induction false} ProgressForgivesStalls(file: seq<byte>, start: nat, chunkSize: int,
                                                  idle: seq<PumpStep>, count: int, rest: seq<PumpStep>,
                                                  transferred: nat, stalls: nat)
    requires transferred < chunkSize && stalls + |idle| <= MAX_STALLS
    requires forall j :: 0 <= j < |idle| ==> Idle(idle[j])
    requires Moved(file, start, chunkSize, transferred, count) > 0
    ensures PumpRun(file, start, chunkSize, idle + [Transfer(count)] + rest, transferred, stalls)
         == PumpRun(file, start, chunkSize, rest, transferred + Moved(file, start, chunkSize, transferred, count), 0)
    decreases |idle|
  {
    var steps := idle + [Transfer(count)] + rest;
    if idle == [] {
      assert steps[1..] == rest;
    } else {
      assert steps[1..] == idle[1..] + [Transfer(count)] + rest;
      ProgressForgivesStalls(file, start, chunkSize, idle[1..], count, rest, transferred, stalls + 1);
    }
  }

  /** A channel that always takes at least one byte delivers a chunk the file holds, given enough
      calls. */
  lemma {:induction false} SteadyChannelSends(file: seq<byte>, start: nat, chunkSize: int, steps: seq<PumpStep>,
                                              transferred: nat, stalls: nat)
    requires 0 <= transferred <= chunkSize && start + chunkSize <= |file|
    requires |steps| >= chunkSize - transferred
    requires forall j :: 0 <= j < |steps| ==> steps[j].Transfer? && steps[j].count >= 1
    ensures PumpRun(file, start, chunkSize, steps, transferred, stalls) == PumpResult(Sent, chunkSize)
    decreases |steps|
  {
    if transferred < chunkSize {
      var m := Moved(file, start, chunkSize, transferred, steps[0].count);
      SteadyChannelSends(file, start, chunkSize, steps[1..], transferred + m, 0);
    }
  }

  /** What the network does with one attempt: whether connect succeeds, whether the header goes
      out within its 30 seconds, and the script of the pump loop. */
  datatype Attempt = Attempt(connects: bool, headerSent: bool, pump: seq<PumpStep>)

  datatype AttemptError = ConnectFailed | HeaderTimeout | PumpFailed(outcome: PumpOutcome)

  datatype ChunkError = ChunkError(attempts: nat, lastError: AttemptError)

  /** One pass of the retry loop's body, after the backoff, on a port that takes the connection. */
  function AttemptRun(file: seq<byte>, start: nat, chunkSize: int, a: Attempt): Result<PumpResult, AttemptError>
  {
    if !a.connects then Failure(ConnectFailed)
    else if !a.headerSent then Failure(HeaderTimeout)
    else
      var r := PumpRun(file, start, chunkSize, a.pump, 0, 0);
      if r.outcome == Sent then Success(r) else Failure(PumpFailed(r.outcome))
  }

  /** The first of the first `n` attempts whose connect goes through. The receiver's worker
      accepts that connection and no other: it reads it until the sender closes it and then
      closes its server socket, so every later connect to the chunk's port is refused. */
  function FirstConnected(attempts: seq<Attempt>, n: nat): (k: Option<nat>)
    requires n <= |attempts|
    ensures k.Some? ==>
      && k.value < n && attempts[k.value].connects
      && forall j :: 0 <= j < k.value ==> !attempts[j].connects
    ensures k.None? ==> forall j :: 0 <= j < n ==> !attempts[j].connects
  {
    if n == 0 then None
    else match FirstConnected(attempts, n - 1)
      case Some(k) => Some(k)
      case None => if attempts[n - 1].connects then Some(n - 1) else None
  }

  /** Later attempts find the same first connection. */
  lemma {:induction false} FirstConnectedStable(attempts: seq<Attempt>, m: nat, n: nat)
    requires m <= n <= |attempts| && FirstConnected(attempts, m).Some?
    ensures FirstConnected(attempts, n) == FirstConnected(attempts, m)
    decreases n - m
  {
    if m < n {
      FirstConnectedStable(attempts, m, n - 1);
    }
  }

  /** How attempt j ends: refused once an earlier attempt has been accepted, otherwise as its
      script says. */
  function AttemptOutcome(file: seq<byte>, start: nat, chunkSize: int, attempts: seq<Attempt>, j: nat)
    : Result<PumpResult, AttemptError>
    requires j < |attempts|
  {
    if FirstConnected(attempts, j).Some? then Failure(ConnectFailed)
    else AttemptRun(file, start, chunkSize, attempts[j])
  }

  /** The index of the first attempt, among the first `n`, that gets the chunk through. */
  function FirstSuccess(file: seq<byte>, start: nat, chunkSize: int, attempts: seq<Attempt>, n: nat): (k: Option<nat>)
    requires n <= |attempts|
    ensures k.Some? ==>
      && k.value < n && AttemptOutcome(file, start, chunkSize, attempts, k.value).Success?
      && forall j :: 0 <= j < k.value ==> AttemptOutcome(file, start, chunkSize, attempts, j).Failure?
    ensures k.None? ==> forall j :: 0 <= j < n ==> AttemptOutcome(file, start, chunkSize, attempts, j).Failure?
  {
    if n == 0 then None
    else match FirstSuccess(file, start, chunkSize, attempts, n - 1)
      case Some(k) => Some(k)
      case None => if AttemptOutcome(file, start, chunkSize, attempts, n - 1).Success? then Some(n - 1) else None
  }

  /** A chunk gets through exactly when the first attempt that connects sends the header and the
      whole chunk; a retry helps only after attempts that did not connect at all. */
  lemma {:induction false} AcceptOnce(file: seq<byte>, start: nat, chunkSize: int, attempts: seq<Attempt>, n: nat)
    requires n <= |attempts|
    ensures var first := FirstConnected(attempts, n);
      FirstSuccess(file, start, chunkSize, attempts, n)
      == if first.Some? && AttemptRun(file, start, chunkSize, attempts[first.value]).Success? then first else None
  {
    if n > 0 {
      AcceptOnce(file, start, chunkSize, attempts, n - 1);
    }
  }

  /** An accepted attempt that fails dooms the chunk, whatever the later attempts' scripts say. */
  lemma NoSecondChance(file: seq<byte>, start: nat, chunkSize: int, attempts: seq<Attempt>, j: nat)
    requires |attempts| >= MAX_RETRIES && j < MAX_RETRIES
    requires attempts[j].connects && forall i :: 0 <= i < j ==> !attempts[i].connects
    requires AttemptRun(file, start, chunkSize, attempts[j]).Failure?
    ensures FirstSuccess(file, start, chunkSize, attempts, MAX_RETRIES).None?
  {
    assert FirstConnected(attempts, j).None?;
    assert FirstConnected(attempts, j + 1) == Some(j);
    FirstConnectedStable(attempts, j + 1, MAX_RETRIES);
    AcceptOnce(file, start, chunkSize, attempts, MAX_RETRIES);
  }

  /** The bytes an attempt that connects puts on its connection before closing it: nothing when
      the header does not go out, otherwise the header and the bytes the pump loop moved. */
  function AttemptBytes(file: seq<byte>, h: ChunkHeader, a: Attempt): seq<byte>
    requires FitsFields(h) && 0 <= h.startPosition <= |file|
  {
    if !a.headerSent then []
    else
      var moved := PumpRun(file, h.startPosition, h.chunkSize, a.pump, 0, 0).transferred;
      EncodeChunkHeader(h) + file[h.startPosition..h.startPosition + moved]
  }

  /** What the chunk's port receives: the bytes of the first attempt that connects, or nothing. */
  function ChunkWire(file: seq<byte>, h: ChunkHeader, attempts: seq<Attempt>): Option<seq<byte>>
    requires FitsFields(h) && 0 <= h.startPosition <= |file| && |attempts| >= MAX_RETRIES
  {
    match FirstConnected(attempts, MAX_RETRIES)
    case None => None
    case Some(j) => Some(AttemptBytes(file, h, attempts[j]))
  }

  /** A chunk that gets through reached its port as exactly its header and its bytes. */
  lemma DeliveredWire(file: seq<byte>, h: ChunkHeader, attempts: seq<Attempt>)
    requires FitsFields(h) && 0 <= h.startPosition <= |file| && |attempts| >= MAX_RETRIES
    requires FirstSuccess(file, h.startPosition, h.chunkSize, attempts, MAX_RETRIES).Some?
    ensures 0 <= h.chunkSize && h.startPosition + h.chunkSize <= |file|
    ensures ChunkWire(file, h, attempts)
         == Some(EncodeChunkHeader(h) + file[h.startPosition..h.startPosition + h.chunkSize])
  {
    AcceptOnce(file, h.startPosition, h.chunkSize, attempts, MAX_RETRIES);
    var j := FirstConnected(attempts, MAX_RETRIES).value;
    PumpBounds(file, h.startPosition, h.chunkSize, attempts[j].pump, 0, 0);
  }

  function Pow2(n: nat): (r: nat)
    ensures r >= 1
  {
    if n == 0 then 1 else 2 * Pow2(n - 1)
  }

  /** baseDelay * (1 << (retryCount - 1)): the wait before retry number `retry`. */
  function RetryDelay(retry: nat): nat
    requires retry >= 1
  {
    BASE_DELAY_MS * Pow2(retry - 1)
  }

  /** sendSingleChunk: `delays` are the backoff sleeps in order, `wire` is what the chunk's port
      received (the bytes of the one attempt it accepted). */
  method SendSingleChunk(h: ChunkHeader, file: seq<byte>, attempts: seq<Attempt>)
    returns (r: Result<int, ChunkError>, delays: seq<nat>, wire: Option<seq<byte>>)
    requires FitsFields(h) && 0 <= h.startPosition <= |file| && |attempts| >= MAX_RETRIES
    ensures var first := FirstSuccess(file, h.startPosition, h.chunkSize, attempts, MAX_RETRIES);
      && (r.Success? <==> first.Some?)
      && (r.Success? ==> r.value == h.chunkIndex && |delays| == first.value)
      && (r.Failure? ==>
            && |delays| == MAX_RETRIES - 1 && r.error.attempts == MAX_RETRIES
            && Failure(r.error.lastError)
               == AttemptOutcome(file, h.startPosition, h.chunkSize, attempts, MAX_RETRIES - 1))
    ensures forall j :: 0 <= j < |delays| ==> delays[j] == RetryDelay(j + 1)
    ensures wire == ChunkWire(file, h, attempts)
    ensures r.Success? ==>
      0 <= h.chunkSize && h.startPosition + h.chunkSize <= |file|
      && wire == Some(EncodeChunkHeader(h) + file[h.startPosition..h.startPosition + h.chunkSize])
  {
    var start: nat := h.startPosition;
    var retryCount := 0;
    var lastError := ConnectFailed;
    var accepted := false;
    delays := [];
    wire := None;
    while retryCount < MAX_RETRIES
      invariant 0 <= retryCount <= MAX_RETRIES
      invariant FirstSuccess(file, start, h.chunkSize, attempts, retryCount).None?
      invariant |delays| == if retryCount == 0 then 0 else retryCount - 1
      invariant forall j :: 0 <= j < |delays| ==> delays[j] == RetryDelay(j + 1)
      invariant retryCount > 0 ==>
        Failure(lastError) == AttemptOutcome(file, start, h.chunkSize, attempts, retryCount - 1)
      invariant accepted <==> FirstConnected(attempts, retryCount).Some?
      invariant wire == match FirstConnected(attempts, retryCount)
        case None => None
        case Some(j) => Some(AttemptBytes(file, h, attempts[j]))
    {
      if retryCount > 0 {
        delays := delays + [RetryDelay(retryCount)];
      }
      var a := attempts[retryCount];
      if accepted || !a.connects {
        lastError := ConnectFailed;
      } else {
        accepted := true;
        if !a.headerSent {
          wire := Some([]);
          lastError := HeaderTimeout;
        } else {
          var header := EncodeChunkHeader(h);
          var result, sent := Pump(file, start, h.chunkSize, a.pump);
          wire := Some(header + sent);
          if result.outcome == Sent {
            PumpBounds(file, start, h.chunkSize, a.pump, 0, 0);
            FirstConnectedStable(attempts, retryCount + 1, MAX_RETRIES);
            DeliveredWire(file, h, attempts);
            return Success(h.chunkIndex), delays, wire;
          }
          lastError := PumpFailed(result.outcome);
        }
      }
      retryCount := retryCount + 1;
    }
    return Failure(ChunkError(MAX_RETRIES, lastError)), delays, wire;
  }

  /** The backoff before the second and third attempts is 2 and 4 seconds. */
  lemma BackoffDelays()
    ensures RetryDelay(1) == 2000 && RetryDelay(2) == 4000
  {
    assert Pow2(1) == 2;
  }
}
