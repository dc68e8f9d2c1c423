/** Runs in which there come to be too many intervals. */
module Fragments {
  // Of two paths only one is received, so that every second frame is missing, although all that is scheduled fits the
  // window: sequencer/quic_stream_sequencer_buffer.cc:139-169 and tpproxy/mpproxy_types.cc:541-602.

  import opened Words
  import opened Lists
  import opened ByteCodec
  import opened Framing
  import opened Striping
  import opened Receivers
  import opened SequencerBuffers
  import opened Paths
  import opened Arrangements
  import opened Multipath
  import opened Progress
  import opened Overruns
  import opened HalfRounds
  import opened Stalls
  import Streams

  // ---------- as many frames on their way as there may be ----------

  /** Both paths of a new session become ready. */
  lemma BothReady(capacity: nat) returns (steps: seq<Step>)
    ensures IsRun(Start([true, true], capacity), steps)
    ensures After(Start([true, true], capacity), steps) == Start([true, true], capacity).(ready := [0, 1])
    ensures Striped(Start([true, true], capacity).(ready := [0, 1]))
  {
    hide Invariant, IsRun, After;
    StartIsSound([true, true], capacity);
    assert NoDuplicates([0, 1]);
    MakeReady(Start([true, true], capacity), [0, 1]);
    steps := [Ready([0, 1])];
  }

  /** With few frames left, and all that is scheduled inside the window, a path is received as a whole. */
  lemma ReceiveFew(net: Net, p: nat) returns (steps: seq<Step>)
    requires Invariant(net) && !net.refused && |net.paths| == 2 && p < 2 && net.paths[p].writeBuffer == []
    requires |net.paths[0].Left()| <= 1 && |net.paths[1].Left()| <= 1
    requires |net.Scheduled()| <= net.capacity < U64_RANGE - VARINT62_LIMIT
    ensures IsRun(net, steps)
    ensures
      var r := After(net, steps);
      && |r.paths| == 2 && r == net.(paths := net.paths[p := r.paths[p]], stream := r.stream, output := r.output,
                                     halted := r.halted, crashed := r.crashed)
      && Invariant(r) && !r.refused && r.Scheduled() == net.Scheduled()
      && r.paths[p].Left() == [] && r.paths[p].writeBuffer == [] && r.paths[p].known == net.paths[p].known
  {
    hide Invariant, IsRun, After, DispatchAll, Intact;
    NotHalted(net);
    OutputIsRead(net);
    FewLeft(net);
    steps := ReceiveAll(net, p);
    ReceiveInRoom(net, p, |net.paths[p].inFlight|);
    OneStep(net, steps[0]);
  }

  /** One round is received as a whole. */
  lemma WholeRound(net: Net) returns (steps: seq<Step>)
    requires Striped(net) && HasPlace(net, 1) && net == Start([true, true], net.capacity).(ready := [0, 1])
    ensures IsRun(net, steps)
    ensures
      var r := After(net, steps);
      && Striped(r) && r.capacity == net.capacity && |r.Scheduled()| == |r.output| == r.stream.read == ROUND
      && r.stream.pending == map[] && r.paths[0].Left() == []
  {
    hide Invariant, IsRun, After;
    var first := Spread(net);
    var a := After(net, first);
    var second := ReceiveFew(a, 1);
    var b := After(a, second);
    var third := ReceiveFew(b, 0);
    var c := After(b, third);
    NothingLeftHasAll(c);
    OutputIsRead(c);
    RunInTwo(net, first, second);
    RunInTwo(net, first + second, third);
    steps := first + second + third;
  }

  lemma FewLeft(net: Net)
    requires |net.paths| == 2 && |net.paths[0].Left()| <= 1 && |net.paths[1].Left()| <= 1
    ensures Undelivered(Lefts(net.paths)) < MAX_INTERVALS
  {
    var a, b := net.paths[0].Left(), net.paths[1].Left();
    UndeliveredOnTwo(net);
    OneCounts(a);
    OneCounts(b);
  }

  lemma OneCounts(frames: seq<Frame>)
    requires |frames| <= 1
    ensures DataCount(frames) <= 1
  {
  }

  lemma UndeliveredOnTwo(net: Net)
    requires |net.paths| == 2
    ensures Undelivered(Lefts(net.paths)) == DataCount(net.paths[0].Left()) + DataCount(net.paths[1].Left())
  {
    hide DataCount;
    var a, b := net.paths[0].Left(), net.paths[1].Left();
    assert Lefts(net.paths) == [a, b] && [a, b][1..] == [b] && [b][1..] == [];
    assert Undelivered([b]) == DataCount(b) && Undelivered([a, b]) == DataCount(a) + Undelivered([b]);
  }

  lemma OneInterval(s: Streams.Stream)
    requires s.read > 0 && s.pending == map[]
    ensures Streams.IntervalCount(s) == 1
  {
    assert Streams.Starts(s) == {0} by {
      forall o: nat
        ensures o in Streams.Starts(s) <==> o == 0
      {
        Streams.StartsAre(s, o);
      }
    }
  }

  /** A whole round, and 9998 of which only the second halves are received. */
  lemma ManyRounds(net: Net) returns (steps: seq<Step>)
    requires net == Start([true, true], net.capacity).(ready := [0, 1]) && Striped(net)
    requires MAX_INTERVALS * ROUND <= net.capacity < U64_RANGE - VARINT62_LIMIT
    ensures IsRun(net, steps)
    ensures
      var r := After(net, steps);
      && Striped(r) && HasPlace(r, 1) && |r.Scheduled()| + ROUND <= r.capacity == net.capacity
      && Streams.IntervalCount(r.stream) == MAX_INTERVALS - 1 && DataCount(r.paths[0].Left()) == MAX_INTERVALS - 2
  {
    hide Striped, Invariant, IsRun, After, Streams.IntervalCount;
    var first := WholeRound(net);
    var a := After(net, first);
    OneInterval(a.stream);
    StripedExtent(a);
    var second := Rounds(a, MAX_INTERVALS - 2);
    var b := After(a, second);
    PlaceLeft(a, b, MAX_INTERVALS - 2);
    RepeatedCounts(a, b, MAX_INTERVALS - 2);
    RunInTwo(net, first, second);
    steps := first + second;
  }

  /** One round more: now there are too many frames on their way, and too many intervals when the next one arrives. */
  lemma LastRound(net: Net) returns (steps: seq<Step>, last: Step)
    requires Striped(net) && HasPlace(net, 1)
    requires Streams.IntervalCount(net.stream) == MAX_INTERVALS - 1
    requires DataCount(net.paths[0].Left()) == MAX_INTERVALS - 2
    ensures IsRun(net, steps)
    ensures
      var r := After(net, steps);
      && !r.refused && |r.Scheduled()| == |net.Scheduled()| + ROUND && Undelivered(Lefts(r.paths)) == MAX_INTERVALS
      && Enabled(r, last) && Next(r, last).refused && Next(r, last).halted
  {
    hide Invariant, IsRun, After, DispatchAll, Dispatch, Streams.IntervalCount;
    steps := Spread(net);
    var r := After(net, steps);
    NotHalted(r);
    var more := ReceiveAll(r, 1);
    last := more[0];
    FarArrives(net, r);
    DispatchFirst(r.View(1), Far(net));
    OneDataMore(net.paths[0].Left(), Near(net));
    OneDataMore([], Far(net));
    assert [] + [Far(net)] == [Far(net)];
    UndeliveredOnTwo(r);
  }

  /**
   A session over two paths in which everything that is scheduled fits the window and exactly 10000 frames are on their
   way, one more than is always fine: what is received next is refused, and the run ends.
   */
  lemma TooManyFrames(capacity: nat) returns (steps: seq<Step>, last: Step)
    requires MAX_INTERVALS * ROUND <= capacity < U64_RANGE - VARINT62_LIMIT
    ensures IsRun(Start([true, true], capacity), steps)
    ensures
      var net := After(Start([true, true], capacity), steps);
      && !net.refused && |net.Scheduled()| <= capacity && Undelivered(Lefts(net.paths)) == MAX_INTERVALS
      && Enabled(net, last) && Next(net, last).refused && Next(net, last).halted
  {
    hide Striped, Invariant, IsRun, After, Lefts, Undelivered, Enabled, Next, HasPlace, DataCount;
    var start := Start([true, true], capacity);
    var first := BothReady(capacity);
    var a := After(start, first);
    var second := ManyRounds(a);
    var b := After(a, second);
    StripedExtent(b);
    var third;
    third, last := LastRound(b);
    RunInTwo(start, first, second);
    RunInTwo(start, first + second, third);
    steps := first + second + third;
  }

  // ---------- a first frame that cannot be accepted any more ----------

  /** The first path is ready, the first frame goes to it, and the second path becomes ready. */
  lemma FirstFrame(capacity: nat) returns (steps: seq<Step>)
    requires capacity > 0
    ensures IsRun(Start([true, true], capacity), steps)
    ensures
      var r := After(Start([true, true], capacity), steps);
      && Striped(r) && r.capacity == capacity && |r.Scheduled()| == MIN_PAYLOAD_SIZE
      && r.stream == Streams.Stream(0, map[])
      && r.paths[0].Left() == [Frame(RESERVE_OFFSET, Zeros(MIN_PAYLOAD_SIZE))] && r.output == []
  {
    hide Invariant, IsRun, After, Segments, EncodeFrames;
    var start := Start([true, true], capacity);
    var first := FirstReady(capacity);
    var a := After(start, first);
    TwoReady(a.paths);
    var second := InputOnOne(a, 0, Zeros(MIN_PAYLOAD_SIZE));
    var b := After(a, second);
    OneSegment(RESERVE_OFFSET, Zeros(MIN_PAYLOAD_SIZE));
    FirstOnPath([Frame(RESERVE_OFFSET, Zeros(MIN_PAYLOAD_SIZE))]);
    var third := SendAll(b, 0);
    var c := After(b, third);
    SecondReady(c);
    RunInTwo(start, first, second);
    RunInTwo(start, first + second, third);
    RunInTwo(start, first + second + third, [Ready([1])]);
    steps := first + second + third + [Ready([1])];
  }

  /**
   A session over two paths in which everything that is scheduled fits the window, nothing is refused and 9999 intervals
   wait behind a first frame that touches none of them: it is one too many, and whatever happens from then on, nothing
   is ever handed on.
   */
  lemma NothingCanArrive(capacity: nat) returns (steps: seq<Step>)
    requires MAX_INTERVALS * ROUND <= capacity < U64_RANGE - VARINT62_LIMIT
    ensures IsRun(Start([true, true], capacity), steps)
    ensures
      var net := After(Start([true, true], capacity), steps);
      && !net.refused && 0 < |net.Scheduled()| <= capacity && |net.paths| == 2 && net.paths[0].Left() != []
      && net.stream.read == 0 && Streams.IntervalCount(net.stream) == MAX_INTERVALS - 1
      && IsData(net.paths[0].Left()[0]) && net.paths[0].Left()[0].offset == RESERVE_OFFSET
      && AnswerTo(net.View(0), net.paths[0].Left()[0]) == TooManyIntervals
      && !Joinable(net.stream, Lefts(net.paths), capacity)
      && forall more :: IsRun(net, more) ==> After(net, more).output == []
  {
    hide Striped, Invariant, IsRun, After, AnswerTo, Joinable, Lefts, HasPlace, Full, FirstWaits, Behind;
    var start := Start([true, true], capacity);
    var first := FirstFrame(capacity);
    var a := After(start, first);
    StripedExtent(a);
    NothingCounted(a.stream);
    NothingHad();
    FirstHasPlace(a);
    var second := Rounds(a, MAX_INTERVALS - 1);
    RunInTwo(start, first, second);
    steps := first + second;
    var net := After(start, steps);
    RepeatedCounts(a, net, MAX_INTERVALS - 1);
    ManyAreFull(a, net);
    NoneIsHandedOn(net);
    EverythingCanArrive([true, true], capacity, steps);
    forall more
      ensures !Delivers(net, more)
    {
    }
  }

  lemma FirstHasPlace(net: Net)
    requires Striped(net) && |net.Scheduled()| == MIN_PAYLOAD_SIZE
    requires MAX_INTERVALS * ROUND <= net.capacity < U64_RANGE - VARINT62_LIMIT
    ensures HasPlace(net, MAX_INTERVALS - 1)
  {
    hide Invariant;
    Extent(net);
  }

  lemma ManyAreFull(net: Net, r: Net)
    requires |net.paths| == |r.paths| == 2 && net.stream == Streams.Stream(0, map[]) && net.output == []
    requires net.paths[0].Left() == [Frame(RESERVE_OFFSET, Zeros(MIN_PAYLOAD_SIZE))]
    requires MAX_INTERVALS * ROUND <= net.capacity < U64_RANGE - VARINT62_LIMIT
    requires Striped(net) && Repeated(net, r, MAX_INTERVALS - 1) && |net.Scheduled()| == MIN_PAYLOAD_SIZE
    ensures FirstWaits(r.paths[0]) && AnswerTo(r.View(0), r.paths[0].Left()[0]) == TooManyIntervals
    ensures r.stream.read == 0 && Streams.IntervalCount(r.stream) == MAX_INTERVALS - 1
    ensures !r.halted && !r.refused && r.capacity == net.capacity && |r.Scheduled()| <= r.capacity && Blocked(r)
  {
    hide Invariant, AnswerTo, Streams.IntervalCount;
    NothingHad();
    NothingCounted(net.stream);
    NotHalted(r);
    assert Blocked(r);
    FirstIsAnswered(r);
  }
}
