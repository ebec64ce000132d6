/** Sender.findAvailablePort: the default port for a chunk, else a bounded search over random
    ports in [50000, 60000); the port probe and the random stream are given as inputs. */
module Ports {
  import opened Wrappers
  import opened Wire

  const MAX_PORT_ATTEMPTS: nat := 100
  const PORT_RANGE_START: int := 50000
  const PORT_RANGE_END: int := 60000

  /** Why no port was found: 100 distinct random ports were busy, or the default port is past
      the TCP range, where isPortAvailable's `new ServerSocket` throws an
      IllegalArgumentException that its `catch (IOException e)` lets through. */
  datatype PortError = NoAvailablePort | PortOutOfRange(port: int)

  /** The ports a prefix of the random stream has named: each offset is one value of
      random.nextInt(PORT_RANGE_END - PORT_RANGE_START). */
  function TriedPorts(offsets: seq<int>): (r: set<int>)
    ensures forall j :: 0 <= j < |offsets| ==> PORT_RANGE_START + offsets[j] in r
  {
    if offsets == [] then {}
    else TriedPorts(offsets[..|offsets| - 1]) + {PORT_RANGE_START + offsets[|offsets| - 1]}
  }

  predicate InRange(offsets: seq<int>)
  {
    forall j :: 0 <= j < |offsets| ==> 0 <= offsets[j] < PORT_RANGE_END - PORT_RANGE_START
  }

  /** The port chosen for chunk `chunkIndex`, probing `available` (isPortAvailable). `offsets` is
      the stream of random draws, long enough to name 100 distinct ports. */
  method FindAvailablePort(chunkIndex: int, available: set<int>, offsets: seq<int>)
    returns (r: Result<int, PortError>)
    requires InRange(offsets) && |TriedPorts(offsets)| >= MAX_PORT_ATTEMPTS
    ensures ChunkPort(chunkIndex) > MAX_PORT ==> r == Failure(PortOutOfRange(ChunkPort(chunkIndex)))
    ensures ChunkPort(chunkIndex) <= MAX_PORT && ChunkPort(chunkIndex) in available ==> r == Success(ChunkPort(chunkIndex))
    ensures ChunkPort(chunkIndex) <= MAX_PORT && ChunkPort(chunkIndex) !in available ==> r == RandomSearch(available, offsets)
    ensures r.Success? ==> r.value <= MAX_PORT
  {
    var defaultPort := ChunkPort(chunkIndex);
    if defaultPort > MAX_PORT {
      return Failure(PortOutOfRange(defaultPort));
    }
    if defaultPort in available {
      return Success(defaultPort);
    }
    r := SearchRandomPorts(available, offsets);
    if r.Success? {
      assert offsets[..0] == [];
      RandomSearchFinds(available, offsets, 0, {});
    }
  }

  /** The loop over random draws: the first draw not tried before that is free, or a failure
      once 100 distinct ports have been found busy. */
  method SearchRandomPorts(available: set<int>, offsets: seq<int>) returns (r: Result<int, PortError>)
    requires InRange(offsets) && |TriedPorts(offsets)| >= MAX_PORT_ATTEMPTS
    ensures r == RandomSearch(available, offsets)
  {
    var triedPorts: set<int> := {};
    var k := 0;
    assert offsets[..|offsets|] == offsets;
    while |triedPorts| < MAX_PORT_ATTEMPTS
      invariant 0 <= k <= |offsets|
      invariant triedPorts == TriedPorts(offsets[..k])
      invariant RandomSearch(available, offsets) == SearchFrom(available, offsets, k, triedPorts)
      decreases |offsets| - k
    {
      if k == |offsets| {
        assert false;
      }
      var port := PORT_RANGE_START + offsets[k];
      TriedPortsStep(offsets, k);
      if port !in triedPorts {
        if port in available {
          return Success(port);
        }
        triedPorts := triedPorts + {port};
      }
      k := k + 1;
    }
    return Failure(NoAvailablePort);
  }

  /** The search as a function: `tried` holds the ports drawn before position k. */
  function SearchFrom(available: set<int>, offsets: seq<int>, k: nat, tried: set<int>): Result<int, PortError>
    requires k <= |offsets|
    decreases |offsets| - k
  {
    if |tried| >= MAX_PORT_ATTEMPTS || k == |offsets| then Failure(NoAvailablePort)
    else
      var port := PORT_RANGE_START + offsets[k];
      if port !in tried && port in available then Success(port)
      else SearchFrom(available, offsets, k + 1, tried + {port})
  }

  function RandomSearch(available: set<int>, offsets: seq<int>): Result<int, PortError>
  {
    SearchFrom(available, offsets, 0, {})
  }

  /** A port found by the random search is free, lies in [50000, 60000), is the first draw that
      is free, and was reached before 100 distinct ports had been tried. */
  lemma {:induction false} RandomSearchFinds(available: set<int>, offsets: seq<int>, k: nat, tried: set<int>)
    requires InRange(offsets) && k <= |offsets| && tried == TriedPorts(offsets[..k]) && tried !! available
    requires SearchFrom(available, offsets, k, tried).Success?
    ensures var p := SearchFrom(available, offsets, k, tried).value;
      && p in available && PORT_RANGE_START <= p < PORT_RANGE_END
      && exists m ::
           && k <= m < |offsets| && p == PORT_RANGE_START + offsets[m]
           && |TriedPorts(offsets[..m])| < MAX_PORT_ATTEMPTS
           && (forall j :: 0 <= j < m ==> PORT_RANGE_START + offsets[j] !in available)
    decreases |offsets| - k
  {
    var port := PORT_RANGE_START + offsets[k];
    TriedPortsStep(offsets, k);
    if port !in tried && port in available {
      NoneAvailableBefore(offsets, k, available);
    } else {
      RandomSearchFinds(available, offsets, k + 1, tried + {port});
    }
  }

  /** The random search fails only after 100 distinct ports drawn from the stream were all busy. */
  lemma {:induction false} RandomSearchGivesUp(available: set<int>, offsets: seq<int>, k: nat, tried: set<int>)
    requires InRange(offsets) && k <= |offsets| && tried == TriedPorts(offsets[..k]) && tried !! available
    requires |tried| <= MAX_PORT_ATTEMPTS && |TriedPorts(offsets)| >= MAX_PORT_ATTEMPTS
    requires SearchFrom(available, offsets, k, tried).Failure?
    ensures exists m ::
      && k <= m <= |offsets| && |TriedPorts(offsets[..m])| == MAX_PORT_ATTEMPTS
      && (forall j :: 0 <= j < m ==> PORT_RANGE_START + offsets[j] !in available)
    decreases |offsets| - k
  {
    assert offsets[..|offsets|] == offsets;
    if |tried| >= MAX_PORT_ATTEMPTS {
      NoneAvailableBefore(offsets, k, available);
    } else if k == |offsets| {
      assert false;
    } else {
      var port := PORT_RANGE_START + offsets[k];
      TriedPortsStep(offsets, k);
      RandomSearchGivesUp(available, offsets, k + 1, tried + {port});
    }
  }

  lemma TriedPortsStep(offsets: seq<int>, k: nat)
    requires k < |offsets|
    ensures TriedPorts(offsets[..k + 1]) == TriedPorts(offsets[..k]) + {PORT_RANGE_START + offsets[k]}
  {
    assert offsets[..k + 1][..k] == offsets[..k];
  }

  /** Every port drawn before position k was probed and found busy. */
  lemma NoneAvailableBefore(offsets: seq<int>, k: nat, available: set<int>)
    requires k <= |offsets| && TriedPorts(offsets[..k]) !! available
    ensures forall j :: 0 <= j < k ==> PORT_RANGE_START + offsets[j] !in available
  {
    forall j | 0 <= j < k
      ensures PORT_RANGE_START + offsets[j] !in available
    {
      assert offsets[..k][j] == offsets[j];
    }
  }
}
