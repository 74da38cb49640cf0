/** The sending side of one connection (`Connection::sender_runner`): for each
    duration the handler enqueues, in order, stream filler chunks until that
    many milliseconds have passed since the first one started, then mark the
    end of the test.

    The wall clock is a parameter: for the request at queue position `i`,
    `clock[i][j]` is the number of nanoseconds elapsed since the request was
    taken off the queue, as read right after its chunk `j` was flushed. */
module Sender {
  import opened Wire

  /** `n` zero bytes. */
  function Zeros(n: nat): (z: seq<u8>)
    ensures |z| == n && forall i :: 0 <= i < n ==> z[i] == 0
  {
    seq(n, _ => 0)
  }

  /** The all-zero buffer streamed after each data opcode. */
  const FILLER: seq<u8> := Zeros(BUFFER_SIZE)

  /** One chunk on the wire: the data opcode, then the filler. */
  const CHUNK: seq<u8> := [OP_DATA] + FILLER

  /** `k` chunks back to back. */
  function Chunks(k: nat): seq<u8>
  {
    if k == 0 then [] else Chunks(k - 1) + CHUNK
  }

  /** What the sender writes for one request: `k` chunks and the end-of-test
      marker. */
  function Block(k: nat): seq<u8>
  {
    Chunks(k) + [OP_END_OF_TEST]
  }

  /** The loop's exit test: whole milliseconds elapsed (integer division) have
      reached the requested duration. */
  predicate Expired(ms: u64, ns: nat)
  {
    ns / 1_000_000 >= ms as nat
  }

  /** Some reading of the clock reaches the requested duration: the loop
      ends. */
  ghost predicate Reaches(ms: u64, readings: seq<nat>)
  {
    |readings| > 0 && (Expired(ms, readings[0]) || Reaches(ms, readings[1..]))
  }

  /** How many chunks the sender writes for a request of `ms` milliseconds:
      one more than the readings that had not yet reached it. */
  function ChunkCount(ms: u64, readings: seq<nat>): (k: nat)
    requires Reaches(ms, readings)
    ensures 1 <= k <= |readings|
    ensures Expired(ms, readings[k - 1])
    ensures forall j :: 0 <= j < k - 1 ==> !Expired(ms, readings[j])
  {
    if Expired(ms, readings[0]) then 1
    else
      var k := 1 + ChunkCount(ms, readings[1..]);
      assert forall j :: 1 <= j < k - 1 ==> readings[j] == readings[1..][j - 1];
      k
  }

  /** One clock trace per queued request, each of which ends its loop. */
  ghost predicate Paced(rx: seq<u64>, clock: seq<seq<nat>>)
  {
    |clock| == |rx| && (rx == [] || (Reaches(rx[0], clock[0]) && Paced(rx[1..], clock[1..])))
  }

  lemma {:induction false} PacedSuffix(rx: seq<u64>, clock: seq<seq<nat>>, i: nat)
    requires Paced(rx, clock) && i <= |rx|
    ensures Paced(rx[i..], clock[i..])
  {
    if i > 0 {
      PacedSuffix(rx, clock, i - 1);
      assert rx[i - 1..][1..] == rx[i..] && clock[i - 1..][1..] == clock[i..];
    }
  }

  /** Everything the sender writes for the requests `rx`, taken in queue
      order. */
  function Transmission(rx: seq<u64>, clock: seq<seq<nat>>): (t: seq<u8>)
    requires Paced(rx, clock)
    ensures |t| >= |rx| * (2 + BUFFER_SIZE)
    decreases |rx|
  {
    if rx == [] then []
    else
      PacedSuffix(rx, clock, 1);
      var k := ChunkCount(rx[0], clock[0]);
      ChunksZero(k);
      Block(k) + Transmission(rx[1..], clock[1..])
  }

  /** `Connection::sender_runner`: take requests off the queue in order and
      answer each. Writes do not fail here, so the only way out is the one
      that returns `Ok(())`: the queue closed and drained, which is this
      method returning. */
  method SenderRunner(rx: seq<u64>, clock: seq<seq<nat>>) returns (stream: seq<u8>)
    requires Paced(rx, clock)
    ensures stream == Transmission(rx, clock)
  {
    var buf := FILLER;
    stream := [];
    var i := 0;
    while i < |rx|
      invariant 0 <= i <= |rx|
      invariant Paced(rx[i..], clock[i..])
      invariant stream + Transmission(rx[i..], clock[i..]) == Transmission(rx, clock)
    {
      var time, readings := rx[i], clock[i];
      assert rx[i..][0] == time && clock[i..][0] == readings;
      ghost var k := ChunkCount(time, readings);
      ghost var before := stream;
      var j := 0;
      while true
        invariant 0 <= j < k
        invariant stream == before + Chunks(j)
        decreases k - j
      {
        stream := stream + [OP_DATA];
        stream := stream + buf;
        AppendChunk(before, j);
        if readings[j] / 1_000_000 >= time as nat {
          assert j + 1 == k;
          break;
        }
        j := j + 1;
      }
      assert stream == before + Chunks(k);
      stream := stream + [OP_END_OF_TEST];
      RunnerStep(rx, clock, i, before);
      i := i + 1;
    }
    assert rx[i..] == [];
  }

  /** The bookkeeping of one pass of the outer loop: after the block for
      request `i`, what is left to send is the rest of the queue. */
  lemma RunnerStep(rx: seq<u64>, clock: seq<seq<nat>>, i: nat, before: seq<u8>)
    requires Paced(rx, clock) && i < |rx|
    requires Paced(rx[i..], clock[i..])
    requires before + Transmission(rx[i..], clock[i..]) == Transmission(rx, clock)
    ensures Reaches(rx[i], clock[i])
    ensures Paced(rx[i + 1..], clock[i + 1..])
    ensures var k := ChunkCount(rx[i], clock[i]);
      before + Chunks(k) + [OP_END_OF_TEST] + Transmission(rx[i + 1..], clock[i + 1..]) == Transmission(rx, clock)
  {
    assert rx[i..][0] == rx[i] && clock[i..][0] == clock[i];
    assert rx[i..][1..] == rx[i + 1..] && clock[i..][1..] == clock[i + 1..];
    PacedSuffix(rx, clock, i + 1);
    var k := ChunkCount(rx[i], clock[i]);
    ConcatAssoc(before, Block(k), Transmission(rx[i + 1..], clock[i + 1..]));
    ConcatAssoc(before, Chunks(k), [OP_END_OF_TEST]);
  }

  /** Writing the data opcode and then the filler adds one chunk. */
  lemma AppendChunk(before: seq<u8>, j: nat)
    ensures before + Chunks(j) + [OP_DATA] + FILLER == before + Chunks(j + 1)
  {
    ConcatAssoc(before + Chunks(j), [OP_DATA], FILLER);
    ConcatAssoc(before, Chunks(j), CHUNK);
  }

  // ---------------------------------------------------------------------------
  // Properties of what the sender writes

  /** Even a request for 0 ms gets one chunk before the end marker. */
  lemma ZeroDurationOneChunk(readings: seq<nat>)
    requires |readings| >= 1
    ensures Reaches(0, readings)
    ensures Block(ChunkCount(0, readings)) == CHUNK + [OP_END_OF_TEST]
  {
  }

  /** `k` chunks are `k` times the chunk size, all zero bytes. */
  lemma {:induction false} ChunksZero(k: nat)
    ensures |Chunks(k)| == k * (1 + BUFFER_SIZE)
    ensures forall i :: 0 <= i < |Chunks(k)| ==> Chunks(k)[i] == 0
  {
    if k > 0 {
      ChunksZero(k - 1);
      var c := Chunks(k);
      forall i | 0 <= i < |c|
        ensures c[i] == 0
      {
        if i >= |Chunks(k - 1)| {
          var d := i - |Chunks(k - 1)|;
          assert c[i] == CHUNK[d];
          if d > 0 {
            assert CHUNK[d] == FILLER[d - 1];
          }
        }
      }
    }
  }

  /** The layout of one request's answer: its length is a whole number of
      chunks plus one, every byte is zero except the last, and the last is the
      end-of-test opcode. */
  lemma BlockLayout(k: nat)
    ensures |Block(k)| == k * (1 + BUFFER_SIZE) + 1
    ensures Block(k)[|Block(k)| - 1] == OP_END_OF_TEST
    ensures forall i :: 0 <= i < |Block(k)| - 1 ==> Block(k)[i] == 0
  {
    ChunksZero(k);
  }

  /** `k` data commands, each carrying the all-zero filler. */
  function DataFrames(k: nat): (cmds: seq<Command>)
    ensures |cmds| == k && AllWellFormed(cmds)
  {
    if k == 0 then [] else DataFrames(k - 1) + [Data(FILLER)]
  }

  /** Read with the command framing, one request's answer is `k` data frames
      and then an end-of-test command. */
  lemma {:induction false} BlockFrames(k: nat)
    ensures AllWellFormed(DataFrames(k) + [EndOfTest])
    ensures Block(k) == EncodeAll(DataFrames(k) + [EndOfTest])
  {
    ChunksEncoded(k);
    assert EncodeAll([EndOfTest]) == [OP_END_OF_TEST];
    EncodeAllAppend(DataFrames(k), [EndOfTest]);
  }

  lemma {:induction false} ChunksEncoded(k: nat)
    ensures Chunks(k) == EncodeAll(DataFrames(k))
  {
    if k > 0 {
      ChunksEncoded(k - 1);
      assert EncodeAll([Data(FILLER)]) == CHUNK;
      EncodeAllAppend(DataFrames(k - 1), [Data(FILLER)]);
    }
  }

  /** The commands the sender's whole output frames into: per request in
      queue order, its data frames and an end-of-test. */
  function Frames(rx: seq<u64>, clock: seq<seq<nat>>): (cmds: seq<Command>)
    requires Paced(rx, clock)
    ensures AllWellFormed(cmds)
    decreases |rx|
  {
    if rx == [] then []
    else
      PacedSuffix(rx, clock, 1);
      var head := DataFrames(ChunkCount(rx[0], clock[0])) + [EndOfTest];
      var tail := Frames(rx[1..], clock[1..]);
      assert forall c | c in head + tail :: c in head || c in tail;
      head + tail
  }

  /** The sender's output is exactly the encoding of those commands, so a
      peer reading it with the same framing sees them and nothing else. */
  lemma {:induction false} TransmissionFrames(rx: seq<u64>, clock: seq<seq<nat>>)
    requires Paced(rx, clock)
    ensures Transmission(rx, clock) == EncodeAll(Frames(rx, clock))
    decreases |rx|
  {
    if rx != [] {
      PacedSuffix(rx, clock, 1);
      var k := ChunkCount(rx[0], clock[0]);
      TransmissionFrames(rx[1..], clock[1..]);
      BlockFrames(k);
      EncodeAllAppend(DataFrames(k) + [EndOfTest], Frames(rx[1..], clock[1..]));
    }
  }

  lemma {:induction false} PacedAppend(rx1: seq<u64>, c1: seq<seq<nat>>, rx2: seq<u64>, c2: seq<seq<nat>>)
    requires Paced(rx1, c1) && Paced(rx2, c2)
    ensures Paced(rx1 + rx2, c1 + c2)
    decreases |rx1|
  {
    if rx1 == [] {
      assert rx1 + rx2 == rx2 && c1 + c2 == c2;
    } else {
      PacedAppend(rx1[1..], c1[1..], rx2, c2);
      assert (rx1 + rx2)[1..] == rx1[1..] + rx2 && (c1 + c2)[1..] == c1[1..] + c2;
    }
  }

  /** Requests are answered first in, first out: the answer to a queue that
      is one queue followed by another is the answer to the first followed
      by the answer to the second. */
  lemma {:induction false} TransmissionAppend(rx1: seq<u64>, c1: seq<seq<nat>>, rx2: seq<u64>, c2: seq<seq<nat>>)
    requires Paced(rx1, c1) && Paced(rx2, c2)
    ensures Paced(rx1 + rx2, c1 + c2)
    ensures Transmission(rx1 + rx2, c1 + c2) == Transmission(rx1, c1) + Transmission(rx2, c2)
    decreases |rx1|
  {
    PacedAppend(rx1, c1, rx2, c2);
    if rx1 == [] {
      assert rx1 + rx2 == rx2 && c1 + c2 == c2;
    } else {
      PacedSuffix(rx1, c1, 1);
      TransmissionAppend(rx1[1..], c1[1..], rx2, c2);
      TransmissionAppendCons(rx1, c1, rx2, c2);
    }
  }

  /** The step of `TransmissionAppend`: the first request's block, then the
      rest as the induction hypothesis gives it. */
  lemma TransmissionAppendCons(rx1: seq<u64>, c1: seq<seq<nat>>, rx2: seq<u64>, c2: seq<seq<nat>>)
    requires Paced(rx1, c1) && Paced(rx2, c2) && rx1 != []
    requires Paced(rx1 + rx2, c1 + c2) && Paced(rx1[1..], c1[1..])
    requires Paced(rx1[1..] + rx2, c1[1..] + c2)
    requires Transmission(rx1[1..] + rx2, c1[1..] + c2) == Transmission(rx1[1..], c1[1..]) + Transmission(rx2, c2)
    ensures Transmission(rx1 + rx2, c1 + c2) == Transmission(rx1, c1) + Transmission(rx2, c2)
  {
    var rx, c := rx1 + rx2, c1 + c2;
    var b := Block(ChunkCount(rx1[0], c1[0]));
    var t1, t2 := Transmission(rx1[1..], c1[1..]), Transmission(rx2, c2);
    assert Transmission(rx, c) == b + (t1 + t2) by {
      assert rx[1..] == rx1[1..] + rx2 && c[1..] == c1[1..] + c2;
      assert rx[0] == rx1[0] && c[0] == c1[0];
    }
    assert Transmission(rx1, c1) == b + t1;
    ConcatAssoc(b, t1, t2);
  }

  /** Exactly one end-of-test marker per request: every other byte the
      sender writes is zero. */
  lemma {:induction false} EndMarkers(rx: seq<u64>, clock: seq<seq<nat>>)
    requires Paced(rx, clock)
    ensures multiset(Transmission(rx, clock))[OP_END_OF_TEST] == |rx|
    ensures multiset(Transmission(rx, clock))[OP_DATA] + |rx| == |Transmission(rx, clock)|
    decreases |rx|
  {
    if rx != [] {
      PacedSuffix(rx, clock, 1);
      var k := ChunkCount(rx[0], clock[0]);
      EndMarkers(rx[1..], clock[1..]);
      BlockCounts(k);
    }
  }

  lemma BlockCounts(k: nat)
    ensures multiset(Block(k))[OP_END_OF_TEST] == 1
    ensures multiset(Block(k))[OP_DATA] + 1 == |Block(k)|
  {
    ChunksCounts(k);
    assert multiset(Block(k)) == multiset(Chunks(k)) + multiset([OP_END_OF_TEST]);
  }

  lemma {:induction false} ChunksCounts(k: nat)
    ensures multiset(Chunks(k))[OP_END_OF_TEST] == 0
    ensures multiset(Chunks(k))[OP_DATA] == |Chunks(k)|
  {
    if k > 0 {
      ChunksCounts(k - 1);
      ZerosCount(BUFFER_SIZE);
      assert multiset(CHUNK) == multiset([OP_DATA]) + multiset(FILLER);
      assert multiset(Chunks(k)) == multiset(Chunks(k - 1)) + multiset(CHUNK);
    }
  }

  lemma {:induction false} ZerosCount(n: nat)
    ensures multiset(Zeros(n))[OP_DATA] == n
    ensures multiset(Zeros(n))[OP_END_OF_TEST] == 0
  {
    if n > 0 {
      ZerosCount(n - 1);
      assert Zeros(n) == Zeros(n - 1) + [0];
    }
  }
}
