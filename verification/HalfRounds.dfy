/**
 Rounds of a session over two paths in which all that is scheduled is shared out, and only the second path is received:
 every round makes one interval more and leaves one frame more on its way.

 Scheduling: tpproxy/mpproxy_types.cc:541-602. Intervals: sequencer/quic_stream_sequencer_buffer.cc:139-169.
 */
module HalfRounds {
  import opened Words
  import opened Lists
  import opened ByteCodec
  import opened Framing
  import opened Striping
  import opened Receivers
  import opened SequencerBuffers
  import opened Paths
  import opened Arrangements
  import opened Multipath
  import opened Progress
  import opened Overruns
  import Streams

  /** What is read in one round: two shares of the least size, one for each path. */
  const ROUND := 2 * MIN_PAYLOAD_SIZE

  // ---------- one round ----------

  /** Both paths are ready with nothing to write, and nothing is left on the second one. */
  ghost predicate Striped(net: Net) {
    && Invariant(net) && !net.refused && |net.paths| == 2 && net.ready == [0, 1] && net.unscheduled == []
    && (forall p :: 0 <= p < 2 ==> net.paths[p].writeBuffer == [] && net.paths[p].known)
    && net.paths[1].Left() == []
  }

  /** The two frames of a round. */
  function Near(net: Net): Frame {
    Frame(RESERVE_OFFSET + |net.Scheduled()|, Zeros(MIN_PAYLOAD_SIZE))
  }

  function Far(net: Net): Frame {
    Frame(RESERVE_OFFSET + |net.Scheduled()| + MIN_PAYLOAD_SIZE, Zeros(MIN_PAYLOAD_SIZE))
  }

  /** With equal rates each of two paths gets half of a round. */
  lemma PlanOfRound(offset: nat)
    ensures SharedOut(offset, Zeros(ROUND), [MIN_PAYLOAD_SIZE]) ==
      [[Frame(offset, Zeros(MIN_PAYLOAD_SIZE))], [Frame(offset + MIN_PAYLOAD_SIZE, Zeros(MIN_PAYLOAD_SIZE))]]
  {
    hide Segments;
    var n, data := MIN_PAYLOAD_SIZE, Zeros(ROUND);
    assert [n][1..] == [] && Shares(n, []) == [n] && [n, n][1..] == [n] && [n] + [n] == [n, n];
    assert Shares(ROUND, [n]) == [n, n];
    assert data[..n] == Zeros(n) && data[n..] == Zeros(n) && Zeros(n)[..n] == Zeros(n);
    OneSegment(offset, Zeros(n));
    OneSegment(offset + n, Zeros(n));
    assert Plan(offset + n, data[n..], [n]) == [Segments(offset + n, Zeros(n))];
  }

  lemma DistributeTwo(paths: seq<Path>, a: seq<Frame>, b: seq<Frame>)
    requires |paths| == 2 && AllWritable(a) && AllWritable(b)
    ensures Distribute(paths, [0, 1], [a, b]) == [paths[0].Write(a), paths[1].Write(b)]
  {
    hide EncodeFrames;
    assert [a, b][1..] == [b] && [0, 1][1..] == [1];
    DistributeOne(paths[0 := paths[0].Write(a)], 1, b);
  }

  lemma ScheduleOnBoth(net: Net)
    requires |net.paths| == 2 && net.ready == [0, 1] && net.unscheduled == Zeros(ROUND)
    requires forall p :: 0 <= p < 2 ==> net.paths[p].writeBuffer == []
    requires net.writeOffset + ROUND <= VARINT62_LIMIT && net.writeOffset == RESERVE_OFFSET + |net.Scheduled()|
    ensures Enabled(net, Schedule([MIN_PAYLOAD_SIZE])) && AllWritable([Near(net)]) && AllWritable([Far(net)])
    ensures Next(net, Schedule([MIN_PAYLOAD_SIZE])) ==
      net.(paths := [net.paths[0].Write([Near(net)]), net.paths[1].Write([Far(net)])],
           writeOffset := net.writeOffset + ROUND, unscheduled := [])
  {
    hide EncodeFrames, Distribute, SharedOut;
    TwoReady(net.paths);
    assert WithRoom(net.paths, net.ready) == [0] + [1] == [0, 1];
    PlanOfRound(net.writeOffset);
    assert SchedulePlan(net, [MIN_PAYLOAD_SIZE]) == [[Near(net)], [Far(net)]];
    DistributeTwo(net.paths, [Near(net)], [Far(net)]);
  }

  /** A round is read and goes to both paths. */
  lemma InputOnBoth(net: Net) returns (steps: seq<Step>)
    requires Striped(net) && net.writeOffset + ROUND <= VARINT62_LIMIT
    ensures IsRun(net, steps) && AllWritable([Near(net)]) && AllWritable([Far(net)])
    ensures
      var r := After(net, steps);
      && Invariant(r) && r.unscheduled == [] && r.ready == net.ready && SameReceiver(net, r)
      && r.Scheduled() == net.Scheduled() + Zeros(ROUND)
      && r.paths == [net.paths[0].Write([Near(net)]), net.paths[1].Write([Far(net)])]
  {
    hide EncodeFrames, Invariant, Next, Enabled, IsRun, After;
    var input, schedule := Input(Zeros(ROUND)), Schedule([MIN_PAYLOAD_SIZE]);
    InputIsRead(net, Zeros(ROUND));
    var middle := Next(net, input);
    ScheduleOnBoth(middle);
    StepKeeps(middle, schedule);
    TwoSteps(net, input, schedule);
    steps := [input, schedule];
  }

  /** And all of it is put on the wire. */
  lemma Spread(net: Net) returns (steps: seq<Step>)
    requires Striped(net) && net.writeOffset + ROUND <= VARINT62_LIMIT
    ensures IsRun(net, steps)
    ensures
      var r := After(net, steps);
      && Invariant(r) && |r.paths| == 2 && r.unscheduled == [] && r.ready == net.ready && SameReceiver(net, r)
      && r.Scheduled() == net.Scheduled() + Zeros(ROUND)
      && (forall p :: 0 <= p < 2 ==> r.paths[p].writeBuffer == [] && r.paths[p].known)
      && r.paths[0].Left() == net.paths[0].Left() + [Near(net)] && r.paths[1].Left() == [Far(net)]
  {
    hide EncodeFrames, Invariant, IsRun, After;
    var first := InputOnBoth(net);
    var a := After(net, first);
    SoundIn(net, 0);
    SoundIn(net, 1);
    WriteKeepsSound(net.paths[0], [Near(net)]);
    WriteKeepsSound(net.paths[1], [Far(net)]);
    assert [] + [Far(net)] == [Far(net)];
    var second := SendAll(a, 0);
    var b := After(a, second);
    var third := SendAll(b, 1);
    RunInTwo(net, first, second);
    RunInTwo(net, first + second, third);
    steps := first + second + third;
  }

  lemma SoundIn(net: Net, p: nat)
    requires Invariant(net) && p < |net.paths|
    ensures Sound(net.paths[p])
  {
    hide Sound, Fed, Arranged, AllOnPaths, Lefts, Named;
  }

  // ---------- the far frame ----------

  /** A frame that joins nothing is accepted as long as one more interval is not too many. */
  lemma FarAnswer(k: Sink, f: Frame, text: seq<byte>, end: nat)
    requires Fed(k, text) && !k.refused && k.attached && PieceOf(f, text) && IsData(f) && Sized(k.capacity, text)
    requires |text| <= k.stream.read + k.capacity && forall o: nat :: Streams.Has(k.stream, o) ==> o < end
    requires end < f.offset - RESERVE_OFFSET
    ensures
      var r, full := Dispatch(k, f), Streams.IntervalCount(k.stream) + 1 == MAX_INTERVALS;
      && r.refused == full && r.halted == full && (full ==> AnswerTo(k, f) == TooManyIntervals)
      && (!full ==>
            && Gained(k.stream, f, r.stream) && r.stream.read == k.stream.read && r.output == k.output
            && Streams.IntervalCount(r.stream) == Streams.IntervalCount(k.stream) + 1)
  {
    hide OutOfRange, Streams.IntervalCount, Streams.NewOffsets, Streams.Accept, Matches, Streams.Readable, Cast16,
      Dispatch, AnswerTo, TouchesLeft, TouchesRight;
    AgreesMatches(k, text);
    HaltedIsRefused(k, text);
    CountIsLimited(k, text);
    FarTouchesNothing(k.stream, f, end);
    FarCounts(k, f, text);
    if Streams.IntervalCount(k.stream) + 1 == MAX_INTERVALS {
      TooManyHalts(k, f);
    } else {
      FarStays(k, f, text);
    }
  }

  lemma FarTouchesNothing(s: Streams.Stream, f: Frame, end: nat)
    requires IsData(f) && f.data != [] && forall o: nat :: Streams.Has(s, o) ==> o < end
    requires end < f.offset - RESERVE_OFFSET
    ensures !TouchesLeft(f, s) && !TouchesRight(f, s) && !Covers(f, s.read)
    ensures forall o: nat :: Covers(f, o) ==> !Streams.Has(s, o)
  {
    assert s.read > 0 ==> Streams.Has(s, s.read - 1);
  }

  lemma FarCounts(k: Sink, f: Frame, text: seq<byte>)
    requires Fed(k, text) && PieceOf(f, text) && IsData(f) && Sized(k.capacity, text)
    requires f.offset - RESERVE_OFFSET + |f.data| <= k.stream.read + k.capacity
    requires !TouchesLeft(f, k.stream) && !TouchesRight(f, k.stream)
    requires forall o: nat :: Covers(f, o) ==> !Streams.Has(k.stream, o)
    ensures AnswerTo(k, f) ==
      if Streams.IntervalCount(k.stream) + 1 >= MAX_INTERVALS then TooManyIntervals else NoError
  {
    hide OutOfRange, Streams.IntervalCount, Streams.NewOffsets, Streams.Accept, Matches, Streams.Readable, Cast16,
      TouchesLeft, TouchesRight, Streams.Has;
    AgreesMatches(k, text);
    PieceInRange(k, f, text);
    AcceptMatches(k.stream, f, text);
    GainedCount(k.stream, f, Streams.Accept(k.stream, f.offset - RESERVE_OFFSET, Cast16(f.data)), text);
    assert Covers(f, f.offset - RESERVE_OFFSET);
    IsNew(k.stream, f.offset - RESERVE_OFFSET, f.data);
  }

  /** The cursor does not move, because the byte there is still missing. */
  lemma FarStays(k: Sink, f: Frame, text: seq<byte>)
    requires Fed(k, text) && !k.refused && !k.halted && k.attached && PieceOf(f, text) && IsData(f)
    requires AnswerTo(k, f) == NoError && !TouchesLeft(f, k.stream) && !TouchesRight(f, k.stream)
    requires (forall o: nat :: Covers(f, o) ==> !Streams.Has(k.stream, o)) && !Covers(f, k.stream.read)
    ensures
      var r := Dispatch(k, f);
      && !r.refused && !r.halted && Gained(k.stream, f, r.stream) && r.stream.read == k.stream.read
      && r.output == k.output && Streams.IntervalCount(r.stream) == Streams.IntervalCount(k.stream) + 1
  {
    hide AnswerTo, Receivers.Received, Within, Streams.IntervalCount, Streams.Readable, TouchesLeft, TouchesRight,
      Matches;
    var r := Receivers.Received(k, f);
    assert Dispatch(k, f) == r;
    ReceivedFlags(k, f);
    DispatchFeeds(k, f, text);
    ReceivedAgrees(k, f, text);
    AgreesMatches(k, text);
    AgreesMatches(r, text);
    GainedCount(k.stream, f, r.stream, text);
    AtCursor(k.stream);
    ReadGrows(k, f);
    OutputLength(k, text);
    OutputLength(r, text);
  }

  // ---------- many rounds ----------

  /** The second half of a round arrives, and is refused exactly if there are too many intervals. */
  lemma FarArrives(net: Net, a: Net)
    requires Invariant(net) && Invariant(a) && !net.refused && SameReceiver(net, a) && |net.paths| == |a.paths| == 2
    requires a.Scheduled() == net.Scheduled() + Zeros(ROUND) && a.paths[1].Left() == [Far(net)] && a.paths[1].known
    requires |a.Scheduled()| <= a.stream.read + a.capacity && a.capacity < U64_RANGE - VARINT62_LIMIT
    ensures
      var k, full := Dispatch(a.View(1), Far(net)), Streams.IntervalCount(net.stream) + 1 == MAX_INTERVALS;
      && k.refused == full && k.halted == full
      && (!full ==>
            && Gained(net.stream, Far(net), k.stream) && k.stream.read == net.stream.read && k.output == net.output
            && Streams.IntervalCount(k.stream) == Streams.IntervalCount(net.stream) + 1)
  {
    hide Intact, Arranged, Fed, Dispatch, AnswerTo, Named, Streams.IntervalCount, PieceOf, Streams.Has, Gained, Matches;
    LeftsWith(a.paths, 1, a.paths[1]);
    assert AllPieces(Lefts(a.paths)[1], a.Scheduled());
    assert Far(net) in a.paths[1].Left();
    AnyAttached(a, 1, a.Scheduled());
    AnyAttached(net, 1, net.Scheduled());
    AgreesMatches(net.View(1), net.Scheduled());
    HasBelow(net.stream, net.Scheduled());
    assert Sound(a.paths[1]);
    FarAnswer(a.View(1), Far(net), a.Scheduled(), |net.Scheduled()|);
  }

  /** The limits of a run are not reached by the next round either. */
  predicate HasPlace(net: Net, n: nat) {
    && |net.Scheduled()| + n * ROUND <= net.stream.read + net.capacity && net.capacity < U64_RANGE - VARINT62_LIMIT
    && net.writeOffset + n * ROUND <= VARINT62_LIMIT
  }

  /** After some rounds of which only the second halves are received, there are as many intervals more. */
  ghost predicate Repeated(net: Net, r: Net, n: nat)
    requires Striped(net)
  {
    && Striped(r) && r.capacity == net.capacity && |r.Scheduled()| == |net.Scheduled()| + n * ROUND
    && r.stream.read == net.stream.read && r.output == net.output
    && Streams.IntervalCount(r.stream) == Streams.IntervalCount(net.stream) + n
    && net.paths[0].Left() <= r.paths[0].Left() && DataCount(r.paths[0].Left()) == DataCount(net.paths[0].Left()) + n
    && forall o: nat ::
         Streams.Has(r.stream, o) ==> Streams.Has(net.stream, o) || o >= |net.Scheduled()| + MIN_PAYLOAD_SIZE
  }

  lemma OneRound(net: Net) returns (steps: seq<Step>)
    requires Striped(net) && HasPlace(net, 1) && Streams.IntervalCount(net.stream) + 1 < MAX_INTERVALS
    ensures IsRun(net, steps) && Repeated(net, After(net, steps), 1)
  {
    hide Invariant, IsRun, After, Dispatch, DispatchAll, Streams.IntervalCount, Streams.Has;
    var first := Spread(net);
    var a := After(net, first);
    NotHalted(a);
    var second := ReceiveAll(a, 1);
    RunInTwo(net, first, second);
    steps := first + second;
    FarArrives(net, a);
    DispatchFirst(a.View(1), Far(net));
    OneDataMore(net.paths[0].Left(), Near(net));
  }

  lemma NotHalted(net: Net)
    requires Invariant(net)
    ensures net.halted ==> net.refused
  {
    hide Sound, Arranged, AllOnPaths, Lefts, Named;
  }

  lemma {:induction false} OneDataMore(frames: seq<Frame>, f: Frame)
    requires IsData(f)
    ensures DataCount(frames + [f]) == DataCount(frames) + 1
  {
    if frames == [] {
      assert [f][1..] == [];
    } else {
      assert (frames + [f])[1..] == frames[1..] + [f];
      OneDataMore(frames[1..], f);
    }
  }

  lemma {:induction false} Rounds(net: Net, n: nat) returns (steps: seq<Step>)
    requires Striped(net) && HasPlace(net, n) && Streams.IntervalCount(net.stream) + n < MAX_INTERVALS
    ensures IsRun(net, steps) && Repeated(net, After(net, steps), n)
    decreases n
  {
    hide Striped, Repeated, HasPlace, IsRun, After;
    if n == 0 {
      steps := [];
      NoStep(net);
      NoRound(net);
    } else {
      RoundsFit(net, n);
      steps := Rounds(net, n - 1);
      var a := After(net, steps);
      PlaceLeft(net, a, n - 1);
      var more := OneRound(a);
      RepeatedMore(net, a, After(a, more), n - 1);
      RunInTwo(net, steps, more);
      steps := steps + more;
    }
  }

  lemma NoRound(net: Net)
    requires Striped(net)
    ensures Repeated(net, net, 0)
  {
    hide Striped, Streams.IntervalCount, Streams.Has;
  }

  lemma RoundsFit(net: Net, n: nat)
    requires HasPlace(net, n) && n > 0
    ensures HasPlace(net, n - 1)
  {
  }

  lemma PlaceLeft(net: Net, r: Net, n: nat)
    requires Striped(net) && Repeated(net, r, n) && HasPlace(net, n + 1)
    ensures Striped(r) && HasPlace(r, 1)
    ensures Streams.IntervalCount(r.stream) == Streams.IntervalCount(net.stream) + n
  {
    hide Invariant, Streams.IntervalCount, Streams.Has;
    Extent(net);
    Extent(r);
  }

  lemma RepeatedMore(net: Net, a: Net, r: Net, n: nat)
    requires Striped(net) && Repeated(net, a, n) && Striped(a) && Repeated(a, r, 1)
    ensures Repeated(net, r, n + 1)
  {
    hide Striped, Streams.IntervalCount, Streams.Has;
  }

  lemma OutputIsRead(net: Net)
    requires Invariant(net)
    ensures |net.output| == net.stream.read <= |net.Scheduled()|
  {
    hide Sound, Arranged, AllOnPaths, Lefts, Named, Fed;
    OutputLength(Sink(net.capacity, net.stream, net.output, true, net.refused, net.halted, net.crashed),
      net.Scheduled());
  }

  lemma StripedExtent(net: Net)
    requires Striped(net)
    ensures net.writeOffset == RESERVE_OFFSET + |net.Scheduled()| && Invariant(net) && |net.paths| == 2
  {
    hide Invariant;
    Extent(net);
  }

  lemma RepeatedCounts(net: Net, r: Net, n: nat)
    requires Striped(net) && Repeated(net, r, n)
    ensures |r.Scheduled()| == |net.Scheduled()| + n * ROUND && r.capacity == net.capacity
    ensures |net.paths| == |r.paths| == 2
    ensures DataCount(r.paths[0].Left()) == DataCount(net.paths[0].Left()) + n
  {
    hide Invariant, Streams.IntervalCount, Streams.Has;
  }
}
