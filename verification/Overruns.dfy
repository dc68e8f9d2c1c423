/** Runs in which a window is overrun and data is lost. */
module Overruns {
  // Scheduling takes every ready path with room, as the proxy does; a path becomes ready when its session is known at
  // both ends: tpproxy/mpproxy_types.cc:541-602.

  import opened Words
  import opened Lists
  import opened ByteCodec
  import opened Framing
  import opened Striping
  import opened Receivers
  import opened SequencerBuffers
  import opened Paths
  import opened Arrangements
  import opened Multipath
  import opened Progress
  import Streams

  function Zeros(n: nat): (data: seq<byte>)
    ensures |data| == n
  {
    seq(n, _ => 0)
  }

  // ---------- short runs ----------

  /** One of the states between two steps, as far as the receiver and what it was sent are concerned. */
  ghost predicate SameReceiver(a: Net, b: Net) {
    && a.capacity == b.capacity && a.stream == b.stream && a.output == b.output && a.refused == b.refused
    && a.halted == b.halted
  }

  lemma DistributeOne(paths: seq<Path>, p: nat, frames: seq<Frame>)
    requires p < |paths| && AllWritable(frames)
    ensures Distribute(paths, [p], [frames]) == paths[p := paths[p].Write(frames)]
  {
    hide EncodeFrames;
    assert [frames][1..] == [] && [p][1..] == [];
    assert Distribute(paths[p := paths[p].Write(frames)], [], []) == paths[p := paths[p].Write(frames)];
  }

  /** If one path has room, all that is unscheduled goes to it. */
  lemma ScheduleOnOne(net: Net, p: nat)
    requires WithRoom(net.paths, net.ready) == [p] && net.writeOffset + |net.unscheduled| <= VARINT62_LIMIT
    ensures AllWritable(Segments(net.writeOffset, net.unscheduled)) && p < |net.paths| && Enabled(net, Schedule([]))
    ensures Next(net, Schedule([])) ==
      net.(paths := net.paths[p := net.paths[p].Write(Segments(net.writeOffset, net.unscheduled))],
           writeOffset := net.writeOffset + |net.unscheduled|, unscheduled := [])
  {
    hide Segments, EncodeFrames;
    var data, n := net.unscheduled, |net.unscheduled|;
    SegmentsAreWritable(net.writeOffset, data);
    assert data[..n] == data;
    var plan := SchedulePlan(net, []);
    assert Shares(n, []) == [n] && [n][1..] == [] && [p][0] == p;
    assert plan == [Segments(net.writeOffset, data)];
    DistributeOne(net.paths, p, Segments(net.writeOffset, data));
  }

  lemma InputIsRead(net: Net, data: seq<byte>)
    requires net.unscheduled == [] && Invariant(net)
    ensures Enabled(net, Input(data))
    ensures Next(net, Input(data)) == net.(input := net.Scheduled() + data, unscheduled := data)
    ensures Invariant(Next(net, Input(data))) && Next(net, Input(data)).Scheduled() == net.Scheduled()
    ensures net.writeOffset == RESERVE_OFFSET + |net.Scheduled()|
  {
    hide Invariant;
    Extent(net);
    StepKeeps(net, Input(data));
    assert net.input == net.Scheduled() && [] + data == data;
  }

  /** Some bytes are read, and all of them go to the one path with room. */
  lemma InputOnOne(net: Net, p: nat, data: seq<byte>) returns (steps: seq<Step>)
    requires Invariant(net) && net.unscheduled == [] && WithRoom(net.paths, net.ready) == [p]
    requires net.writeOffset + |data| <= VARINT62_LIMIT
    ensures IsRun(net, steps) && p < |net.paths| && AllWritable(Segments(net.writeOffset, data))
    ensures
      var r := After(net, steps);
      && Invariant(r) && r.unscheduled == [] && r.Scheduled() == net.Scheduled() + data && SameReceiver(net, r)
      && r.paths == net.paths[p := net.paths[p].Write(Segments(net.writeOffset, data))] && r.ready == net.ready
      && r.writeOffset == net.writeOffset + |data|
  {
    hide Segments, EncodeFrames, Invariant, Next, Enabled, IsRun, After, WithRoom;
    var input, schedule := Input(data), Schedule([]);
    InputIsRead(net, data);
    var middle := Next(net, input);
    ScheduleOnOne(middle, p);
    StepKeeps(middle, schedule);
    TwoSteps(net, input, schedule);
    steps := [input, schedule];
  }

  lemma MakeReady(net: Net, list: seq<nat>)
    requires Invariant(net) && Enabled(net, Ready(list))
    ensures IsRun(net, [Ready(list)]) && After(net, [Ready(list)]) == net.(ready := net.ready + list)
    ensures Invariant(After(net, [Ready(list)])) && After(net, [Ready(list)]).Scheduled() == net.Scheduled()
  {
    hide Invariant;
    StepKeeps(net, Ready(list));
    OneStep(net, Ready(list));
  }

  /** All of a path is put on the wire. */
  lemma SendAll(net: Net, p: nat) returns (steps: seq<Step>)
    requires Invariant(net) && p < |net.paths|
    ensures IsRun(net, steps) && OnlyDelivers(steps)
    ensures
      var r := After(net, steps);
      && Invariant(r) && r.Scheduled() == net.Scheduled() && SameReceiver(net, r)
      && |r.paths| == |net.paths| && r == net.(paths := net.paths[p := r.paths[p]])
      && r.paths[p].Left() == net.paths[p].Left() && r.paths[p].writeBuffer == []
      && r.paths[p].known == net.paths[p].known && r.paths[p].attached == net.paths[p].attached
  {
    hide Fed, Arranged, AllOnPaths, Intact, Lefts, Named;
    var send := Step.Send(p, |net.paths[p].writeBuffer|);
    SendKeeps(net, p, |net.paths[p].writeBuffer|);
    SendKeepsIntact(net.paths[p], |net.paths[p].writeBuffer|);
    OneStep(net, send);
    steps := [send];
  }

  /** All that is on the wire of a path is received: the receiver is given exactly the frames that were left. */
  lemma ReceiveAll(net: Net, p: nat) returns (steps: seq<Step>)
    requires Invariant(net) && !net.halted && p < |net.paths| && net.paths[p].writeBuffer == []
    ensures IsRun(net, steps) && steps == [Step.Receive(p, |net.paths[p].inFlight|)]
    ensures
      var r, k := After(net, steps), DispatchAll(net.View(p), net.paths[p].Left());
      && Invariant(r) && r.Scheduled() == net.Scheduled() && r == Next(net, steps[0])
      && |r.paths| == |net.paths| && r == net.With(k, p, r.paths[p]) && r.View(p) == k
      && r.paths[p].Left() == [] && r.paths[p].writeBuffer == [] && r.paths[p].known == net.paths[p].known
  {
    hide Fed, Arranged, AllOnPaths, Intact, DispatchAll, Deliver, Lefts, Named;
    var path := net.paths[p];
    var n := |path.inFlight|;
    var receive := Step.Receive(p, n);
    ReceiveKeeps(net, p, n);
    OneStep(net, receive);
    DispatchKeepsCapacity(net.View(p), path.Left());
    var r := Next(net, receive);
    ViewAfter(net, p, path.Receive(n), DispatchAll(net.View(p), path.Left()));
    DeliveredInTime(path, n);
    assert Sound(r.paths[p]);
    QuietPathIsEmpty(r.paths[p]);
    assert r.paths[p].Left() == path.Receive(n).Left();
    assert path.Left() == Deliver(path.Arrived(n)).frames;
    steps := [receive];
  }

  lemma NothingHad()
    ensures forall o: nat :: !Streams.Has(Streams.Stream(0, map[]), o)
  {
  }

  // ---------- a window that is overrun ----------

  /** With the first byte missing there is no place for the byte that lies a whole window further on. */
  lemma LastIsLost(net: Net, o: nat, n: nat)
    requires Invariant(net) && |net.paths| == 2 && o == net.capacity == |net.Scheduled()| - 1 && n <= o
    requires net.paths[1].Left() == [] && !Streams.Has(net.stream, 0)
    requires forall x: nat :: SomeCovers(net.paths[0].Left(), x) <==> x < n
    ensures LostFrom(net, o) && net.refused && net.output == []
  {
    hide AllSound, AllOnPaths, Streams.IntervalCount, Covers, Named;
    assert Lefts(net.paths) == [net.paths[0].Left(), []];
  }

  lemma {:induction false} LongFrames(frames: seq<Frame>)
    requires AllWritable(frames)
    ensures |EncodeFrames(frames)| >= |Payload(frames)|
  {
    hide EncodeVarInt62;
    if frames != [] {
      LongFrames(frames[1..]);
    }
  }

  lemma TwoReady(paths: seq<Path>)
    requires |paths| == 2
    ensures WithRoom(paths, [0]) == if |paths[0].writeBuffer| <= WRITE_BUFFER_THRESHOLD then [0] else []
    ensures WithRoom(paths, [0, 1]) ==
      (if |paths[0].writeBuffer| <= WRITE_BUFFER_THRESHOLD then [0] else [])
      + (if |paths[1].writeBuffer| <= WRITE_BUFFER_THRESHOLD then [1] else [])
  {
    assert [0, 1][1..] == [1] && [1][1..] == [] && [0][1..] == [];
  }

  /** The start of a session over two paths of which the first is ready. */
  lemma FirstReady(capacity: nat) returns (steps: seq<Step>)
    ensures IsRun(Start([true, true], capacity), steps)
    ensures After(Start([true, true], capacity), steps) == Start([true, true], capacity).(ready := [0])
    ensures Invariant(Start([true, true], capacity).(ready := [0]))
  {
    hide Invariant, IsRun, After;
    StartIsSound([true, true], capacity);
    MakeReady(Start([true, true], capacity), [0]);
    steps := [Ready([0])];
  }

  /** A window of less than one frame: the frame does not fit. */
  lemma OneFrameOverruns(net: Net) returns (steps: seq<Step>)
    requires net == Start([true, true], net.capacity).(ready := [0]) && Invariant(net) && net.capacity < MAX_PAYLOAD
    ensures IsRun(net, steps)
    ensures
      var r := After(net, steps);
      && Invariant(r) && r.refused && r.output == [] && |r.Scheduled()| == net.capacity + 1 && LostFrom(r, net.capacity)
  {
    hide Invariant, IsRun, After, SomeCovers, Streams.Has, Segments, Dispatch;
    var data := Zeros(net.capacity + 1);
    TwoReady(net.paths);
    var first := InputOnOne(net, 0, data);
    var a := After(net, first);
    OneSegment(RESERVE_OFFSET, data);
    FirstOnPath([Frame(RESERVE_OFFSET, data)]);
    var second := ReceiveOne(a, 0);
    RunInTwo(net, first, second);
    steps := first + second;
    FrameTooLong(a, Frame(RESERVE_OFFSET, data));
    NothingHad();
    NothingIsLeft(After(a, second), a);
  }

  lemma OneSegment(offset: nat, data: seq<byte>)
    requires 0 < |data| <= MAX_PAYLOAD
    ensures Segments(offset, data) == [Frame(offset, data)]
  {
    assert data[..|data|] == data;
  }

  lemma FirstOnPath(frames: seq<Frame>)
    requires AllWritable(frames)
    ensures NewPath(true).Write(frames).Left() == frames
  {
    hide EncodeFrames;
  }

  lemma FrameTooLong(net: Net, f: Frame)
    requires Invariant(net) && |net.paths| > 0 && net.paths[0].Left() == [f]
      && f == Frame(RESERVE_OFFSET, net.Scheduled())
    requires |net.Scheduled()| == net.capacity + 1 <= MAX_PAYLOAD && net.stream == Streams.Stream(0, map[])
    requires !net.halted && net.paths[0].attached
    ensures Dispatch(net.View(0), f) == net.View(0).(refused := true)
  {
    hide Sound, Arranged, Fed, OutOfRange, Named, Cast16;
    LeftsWith(net.paths, 0, net.paths[0]);
    var k, text := net.View(0), net.Scheduled();
    assert AllPieces(Lefts(net.paths)[0], text);
    assert f in net.paths[0].Left();
    PieceInRange(k, f, text);
  }

  lemma NothingIsLeft(net: Net, before: Net)
    requires |before.paths| == 2 && before.paths[1].Left() == [] && Lefts(net.paths) == Lefts(before.paths)[0 := []]
    requires forall o: nat :: !Streams.Has(net.stream, o)
    requires |net.Scheduled()| == net.capacity + 1
    ensures LostFrom(net, net.capacity)
  {
    assert Lefts(net.paths)[1] == [];
  }

  /** The first path is filled above the threshold, and then the second one becomes ready. */
  lemma FirstFills(net: Net) returns (steps: seq<Step>)
    requires net == Start([true, true], net.capacity).(ready := [0]) && Invariant(net)
    ensures IsRun(net, steps)
    ensures
      var r, n := After(net, steps), WRITE_BUFFER_THRESHOLD + 1;
      && |r.paths| == 2 && Invariant(r) && SameReceiver(net, r) && r.ready == [0, 1] && r.unscheduled == []
      && |r.Scheduled()| == n && WithRoom(r.paths, r.ready) == [1] && r.paths[1] == NewPath(true)
      && forall x: nat :: SomeCovers(r.paths[0].Left(), x) <==> x < n
  {
    hide Invariant, IsRun, After, SomeCovers, Segments, Carry, EncodeFrames;
    var n := WRITE_BUFFER_THRESHOLD + 1;
    TwoReady(net.paths);
    var first := InputOnOne(net, 0, Zeros(n));
    var a := After(net, first);
    var frames := Segments(net.writeOffset, Zeros(n));
    SegmentsConserve(net.writeOffset, Zeros(n));
    CarriedLength(frames, net.writeOffset, Zeros(n));
    FirstOnPath(frames);
    CarriedPieces(frames, [], Zeros(n));
    SecondReady(a);
    TwoReady(a.paths);
    RunInTwo(net, first, [Ready([1])]);
    steps := first + [Ready([1])];
  }

  /** The second path takes the rest and is received. */
  lemma SecondArrives(net: Net) returns (steps: seq<Step>)
    requires |net.paths| == 2 && Invariant(net) && net.unscheduled == [] && WithRoom(net.paths, net.ready) == [1]
    requires net.paths[1] == NewPath(true) && !net.halted && net.stream == Streams.Stream(0, map[])
    requires 0 < |net.Scheduled()| <= net.capacity < VARINT62_LIMIT - RESERVE_OFFSET
    ensures IsRun(net, steps)
    ensures
      var r := After(net, steps);
      && |r.paths| == 2 && Invariant(r) && r.capacity == net.capacity && |r.Scheduled()| == net.capacity + 1
      && r.paths[0] == net.paths[0] && r.paths[1].Left() == [] && !Streams.Has(r.stream, 0)
  {
    hide Invariant, IsRun, After, SomeCovers, Streams.Has, Segments, DispatchAll, Carry, EncodeFrames;
    Extent(net);
    var rest := Zeros(net.capacity + 1 - |net.Scheduled()|);
    var first := InputOnOne(net, 1, rest);
    var a := After(net, first);
    FirstOnPath(Segments(net.writeOffset, rest));
    SegmentsConserve(net.writeOffset, rest);
    CarriedPieces(Segments(net.writeOffset, rest), net.Scheduled(), rest);
    var second := SendAll(a, 1);
    var b := After(a, second);
    var third := ReceiveAll(b, 1);
    NothingHad();
    AddsNothing(b, 1, 0);
    DispatchKeepsCapacity(b.View(1), b.paths[1].Left());
    RunInTwo(net, first, second);
    RunInTwo(net, first + second, third);
    steps := first + second + third;
  }

  /** A longer window: the first path fills up, the second one takes the rest and is received first. */
  lemma TwoPathsOverrun(net: Net) returns (steps: seq<Step>)
    requires net == Start([true, true], net.capacity).(ready := [0]) && Invariant(net)
    requires MAX_PAYLOAD <= net.capacity < VARINT62_LIMIT - RESERVE_OFFSET
    ensures IsRun(net, steps)
    ensures
      var r := After(net, steps);
      && Invariant(r) && r.refused && r.output == [] && |r.Scheduled()| == net.capacity + 1 && LostFrom(r, net.capacity)
  {
    hide Invariant, IsRun, After, SomeCovers, Streams.Has, WithRoom;
    var first := FirstFills(net);
    var a := After(net, first);
    var second := SecondArrives(a);
    RunInTwo(net, first, second);
    steps := first + second;
    LastIsLost(After(a, second), net.capacity, WRITE_BUFFER_THRESHOLD + 1);
  }

  lemma CarriedLength(frames: seq<Frame>, offset: nat, data: seq<byte>)
    requires Carry(frames, offset, data) && AllWritable(frames)
    ensures |EncodeFrames(frames)| >= |data|
  {
    LongFrames(frames);
  }

  /** The second path knows its session, so it becomes ready. */
  lemma SecondReady(net: Net)
    requires Invariant(net) && |net.paths| == 2 && net.paths[0].known && net.paths[1].known && net.ready == [0]
    ensures IsRun(net, [Ready([1])]) && After(net, [Ready([1])]) == net.(ready := [0, 1])
    ensures Invariant(net.(ready := [0, 1])) && net.(ready := [0, 1]).Scheduled() == net.Scheduled()
  {
    hide Invariant, IsRun, After;
    assert [0] + [1] == [0, 1];
    assert NoDuplicates([0, 1]);
    MakeReady(net, [1]);
  }

  lemma AddsNothing(net: Net, p: nat, o: nat)
    requires Invariant(net) && !net.halted && p < |net.paths| && net.paths[p].writeBuffer == []
    requires !Streams.Has(net.stream, o) && !SomeCovers(net.paths[p].Left(), o)
    ensures !Streams.Has(Next(net, Step.Receive(p, |net.paths[p].inFlight|)).stream, o)
  {
    hide Invariant, Streams.Has, SomeCovers, DispatchAll, Deliver;
    ReceiveAdds(net, p, |net.paths[p].inFlight|, o);
  }

  /** For every window one byte more than it holds can be scheduled, so that the last byte is lost for good. */
  lemma FullWindowLoses(capacity: nat) returns (steps: seq<Step>)
    requires capacity < VARINT62_LIMIT - RESERVE_OFFSET
    ensures IsRun(Start([true, true], capacity), steps)
    ensures
      var net := After(Start([true, true], capacity), steps);
      && net.refused && net.output == [] && |net.Scheduled()| == capacity + 1
      && forall more :: IsRun(net, more) ==> |After(net, more).output| <= capacity < |After(net, more).Scheduled()|
  {
    hide Invariant, IsRun, After, LostFrom;
    var start := Start([true, true], capacity);
    var first := FirstReady(capacity);
    var a := After(start, first);
    var second;
    if capacity < MAX_PAYLOAD {
      second := OneFrameOverruns(a);
    } else {
      second := TwoPathsOverrun(a);
    }
    RunInTwo(start, first, second);
    steps := first + second;
    var net := After(start, steps);
    forall more | IsRun(net, more)
      ensures |After(net, more).output| <= capacity < |After(net, more).Scheduled()|
    {
      LostForGood(net, more, capacity);
    }
  }
}
