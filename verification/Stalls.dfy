/**
 Sessions in which nothing is handed on any more: so many intervals wait that the first frame is one too many.

 What waits in front of the first path cannot be received, and what comes on the second path is either refused or makes
 the last interval longer; sequencer/quic_stream_sequencer_buffer.cc:139-169.
 */
module Stalls {
  import opened Words
  import opened Lists
  import opened ByteCodec
  import opened Framing
  import opened Striping
  import opened Receivers
  import opened SequencerBuffers
  import opened Paths
  import opened Arrangements
  import opened Multipath
  import opened Progress
  import opened Overruns
  import opened HalfRounds
  import Streams

  /** The window takes a frame of any length, and does not wrap around. */
  predicate Ample(capacity: nat) {
    MAX_PAYLOAD <= capacity < U64_RANGE - VARINT62_LIMIT
  }

  /** What has been received when the first frame is one too many. */
  ghost predicate Full(s: Streams.Stream) {
    && s.read == 0 && Streams.IntervalCount(s) + 1 == MAX_INTERVALS
    && forall o: nat :: Streams.Has(s, o) ==> o > MIN_PAYLOAD_SIZE
  }

  /** The frame lies behind the first one, and behind all that was received. */
  ghost predicate Above(f: Frame, s: Streams.Stream) {
    f.offset > RESERVE_OFFSET + MIN_PAYLOAD_SIZE && forall o: nat :: Streams.Has(s, o) ==> RESERVE_OFFSET + o < f.offset
  }

  ghost predicate Behind(frames: seq<Frame>, s: Streams.Stream) {
    Ascending(frames) && forall f :: f in frames && IsData(f) ==> Above(f, s)
  }

  predicate FirstWaits(path: Path) {
    path.known && path.Left() != [] && path.Left()[0] == Frame(RESERVE_OFFSET, Zeros(MIN_PAYLOAD_SIZE))
  }

  /** The run has ended, or the first frame waits in front of its path and the other path has only what is behind. */
  ghost predicate Blocked(net: Net) {
    && Invariant(net) && |net.paths| == 2 && net.output == [] && Ample(net.capacity)
    && (net.halted
        || (Full(net.stream) && FirstWaits(net.paths[0]) && net.paths[1].known && |net.Scheduled()| > MIN_PAYLOAD_SIZE
            && Behind(net.paths[1].Left(), net.stream)))
  }

  lemma FirstIsTooMany(k: Sink, f: Frame, text: seq<byte>)
    requires Fed(k, text) && Full(k.stream) && Ample(k.capacity) && |text| < VARINT62_LIMIT
    requires f == Frame(RESERVE_OFFSET, Zeros(MIN_PAYLOAD_SIZE)) && PieceOf(f, text)
    ensures AnswerTo(k, f) == TooManyIntervals
  {
    hide Fed, AnswerTo, PieceOf, Streams.IntervalCount, Streams.Has;
    FarCounts(k, f, text);
  }

  /** A frame behind all that was received is refused, or makes the last interval longer. */
  lemma BehindFrame(k: Sink, f: Frame, text: seq<byte>)
    requires Fed(k, text) && Full(k.stream) && !k.halted && k.attached && IsData(f) && PieceOf(f, text)
    requires Above(f, k.stream)
    ensures
      var r := Dispatch(k, f);
      && r.stream.read == 0
      && (r.halted
          || (Full(r.stream)
              && forall o: nat :: Streams.Has(r.stream, o) ==> Streams.Has(k.stream, o) || Covers(f, o)))
  {
    hide AnswerTo, Receivers.Received, Within, Streams.IntervalCount, Matches, Streams.Readable, PieceOf;
    if AnswerTo(k, f) == NoError {
      var r := Receivers.Received(k, f);
      ReceivedFlags(k, f);
      ReceivedAgrees(k, f, text);
      AcceptFits(k, f);
      AboveTouches(k.stream, f);
      PieceIsSome(f, text);
      GainedCount(k.stream, f, r.stream, text);
      assert !Streams.Has(r.stream, 0);
    }
  }

  lemma FullIsUnread(s: Streams.Stream)
    requires Full(s)
    ensures s.read == 0
  {
    hide Streams.IntervalCount, Streams.Has;
  }

  lemma PieceIsSome(f: Frame, text: seq<byte>)
    requires PieceOf(f, text) && IsData(f)
    ensures f.data != []
  {
  }

  lemma AboveTouches(s: Streams.Stream, f: Frame)
    requires IsData(f) && Above(f, s)
    ensures !TouchesRight(f, s) && !Covers(f, 0)
    ensures forall o: nat :: Covers(f, o) ==> o > MIN_PAYLOAD_SIZE && !Streams.Has(s, o)
  {
  }

  lemma {:induction false} BehindFrames(k: Sink, frames: seq<Frame>, text: seq<byte>)
    requires Fed(k, text) && Full(k.stream) && !k.halted && k.attached && Behind(frames, k.stream)
    requires forall f :: f in frames ==> PieceOf(f, text)
    ensures
      var r := DispatchAll(k, frames);
      && Fed(r, text) && r.stream.read == 0
      && (r.halted
          || (r.attached && Full(r.stream)
              && forall o: nat :: Streams.Has(r.stream, o) ==> Streams.Has(k.stream, o) || SomeCovers(frames, o)))
  {
    hide Dispatch, Fed, PieceOf, Full, Streams.Has, Covers, AnswerTo;
    DispatchAllFeeds(k, frames, text);
    FullIsUnread(k.stream);
    if frames != [] {
      var n := |frames| - 1;
      var f, before := frames[n], DispatchAll(k, frames[..n]);
      BehindFrames(k, frames[..n], text);
      if before.halted {
        DispatchFlags(before, f);
      } else {
        NextIsAbove(k.stream, frames, before.stream);
        NextFrame(before, f, text);
        assert frames == frames[..n] + [f];
        forall o: nat
          ensures SomeCovers(frames, o) <==> SomeCovers(frames[..n], o) || Covers(f, o)
        {
          CoversBoth(frames[..n], [f], o);
          CoversOne(f, o);
        }
      }
    }
  }

  lemma NextFrame(k: Sink, f: Frame, text: seq<byte>)
    requires Fed(k, text) && Full(k.stream) && !k.halted && k.attached && PieceOf(f, text)
    requires IsData(f) ==> Above(f, k.stream)
    ensures
      var r := Dispatch(k, f);
      && r.stream.read == 0
      && (r.halted
          || (r.attached && Full(r.stream)
              && forall o: nat :: Streams.Has(r.stream, o) ==> Streams.Has(k.stream, o) || Covers(f, o)))
  {
    hide Dispatch, Fed, PieceOf, Full, Streams.Has, AnswerTo;
    FullIsUnread(k.stream);
    DispatchFlags(k, f);
    if IsData(f) {
      BehindFrame(k, f, text);
    } else {
      MessageMovesNothing(k, f);
    }
  }

  lemma NextIsAbove(s: Streams.Stream, frames: seq<Frame>, t: Streams.Stream)
    requires frames != [] && Behind(frames, s)
    requires forall o: nat :: Streams.Has(t, o) ==> Streams.Has(s, o) || SomeCovers(frames[..|frames| - 1], o)
    ensures IsData(frames[|frames| - 1]) ==> Above(frames[|frames| - 1], t)
  {
    hide Streams.Has;
    var n := |frames| - 1;
    forall o: nat | SomeCovers(frames[..n], o) && IsData(frames[n])
      ensures RESERVE_OFFSET + o < frames[n].offset
    {
      var f :| f in frames[..n] && Covers(f, o);
      var i :| 0 <= i < n && frames[i] == f;
    }
  }

  // ---------- it stays so, whatever happens ----------

  /** Data that comes in order from an offset on. */
  ghost predicate NextOnes(frames: seq<Frame>, offset: nat) {
    Ascending(frames) && forall f :: f in frames ==> f.offset >= offset
  }

  ghost predicate Extended(a: Path, b: Path, offset: nat) {
    b.known == a.known && exists part :: NextOnes(part, offset) && b.Left() == a.Left() + part
  }

  lemma {:induction false} PlanIsNext(low: nat, offset: nat, data: seq<byte>, shares: seq<nat>)
    requires Sum(shares) <= |data| && low <= offset
    ensures forall frames :: frames in Plan(offset, data, shares) ==> NextOnes(frames, low)
    decreases |shares|
  {
    hide Segments, Ascending, Payload, Contiguous;
    if shares != [] {
      var first := data[..shares[0]];
      SegmentsConserve(offset, first);
      ContiguousAscends(Segments(offset, first), offset);
      PlanIsNext(low, offset + shares[0], data[shares[0]..], shares[1..]);
    }
  }

  lemma {:induction false} DistributeExtends(paths: seq<Path>, available: seq<nat>, plan: seq<seq<Frame>>, offset: nat)
    requires |available| == |plan| && DistinctIn(available, |paths|)
    requires forall p :: 0 <= p < |paths| ==> paths[p].taken <= |paths[p].written|
    requires forall frames :: frames in plan ==> AllWritable(frames) && NextOnes(frames, offset)
    ensures
      var r := Distribute(paths, available, plan);
      forall p :: 0 <= p < |paths| ==> Extended(paths[p], r[p], offset) && (p !in available ==> r[p] == paths[p])
    decreases |plan|
  {
    hide EncodeFrames, NextOnes, Extended;
    if plan == [] {
      forall p | 0 <= p < |paths|
        ensures Extended(paths[p], paths[p], offset)
      {
        ExtendedByNothing(paths[p], offset);
      }
    } else {
      var p, r := available[0], Distribute(paths, available, plan);
      assert plan[0] in plan;
      TailIsDistinct(available);
      var next := paths[p := paths[p].Write(plan[0])];
      DistributeExtends(next, available[1..], plan[1..], offset);
      ExtendedOnce(paths[p], plan[0], offset);
      assert r[p] == next[p];
    }
  }

  lemma ExtendedByNothing(path: Path, offset: nat)
    ensures Extended(path, path, offset)
  {
    assert NextOnes([], offset) && path.Left() == path.Left() + [];
  }

  lemma ExtendedOnce(path: Path, frames: seq<Frame>, offset: nat)
    requires path.taken <= |path.written| && AllWritable(frames) && NextOnes(frames, offset)
    ensures Extended(path, path.Write(frames), offset)
  {
    hide EncodeFrames, NextOnes;
    assert path.Write(frames).Left() == path.Left() + frames;
  }

  /** What is scheduled next lies behind all that was received. */
  lemma ExtendedIsBehind(net: Net, r: Path)
    requires Invariant(net) && |net.paths| == 2 && Behind(net.paths[1].Left(), net.stream)
    requires |net.Scheduled()| > MIN_PAYLOAD_SIZE && Extended(net.paths[1], r, RESERVE_OFFSET + |net.Scheduled()|)
    ensures Behind(r.Left(), net.stream)
  {
    hide AllSound, Fed, Arranged, Named, Streams.Has, Ascending, Matches;
    var text := net.Scheduled();
    var part :| NextOnes(part, RESERVE_OFFSET + |text|) && r.Left() == net.paths[1].Left() + part;
    LeftsWith(net.paths, 1, net.paths[1]);
    assert AllPieces(Lefts(net.paths)[1], text);
    AgreesMatches(Sink(net.capacity, net.stream, net.output, true, net.refused, net.halted, net.crashed), text);
    HasBelow(net.stream, text);
    AscendingTogether(net.paths[1].Left(), part, RESERVE_OFFSET + |text|);
  }

  lemma ExtendedStillWaits(a: Path, b: Path, offset: nat)
    requires FirstWaits(a) && Extended(a, b, offset)
    ensures FirstWaits(b)
  {
  }

  lemma ScheduleStaysBlocked(net: Net, targets: seq<nat>)
    requires Enabled(net, Schedule(targets)) && Blocked(net)
    ensures Blocked(Next(net, Schedule(targets)))
  {
    hide Invariant, Full, FirstWaits, Behind, Distribute, Extended, WithRoom, NextOnes;
    var r := Next(net, Schedule(targets));
    var available, plan := WithRoom(net.paths, net.ready), SchedulePlan(net, targets);
    StepKeeps(net, Schedule(targets));
    ScheduleKeeps(net, targets);
    Extent(net);
    SharesAddUp(|net.unscheduled|, targets);
    PlanIsNext(net.writeOffset, net.writeOffset, net.unscheduled, Shares(|net.unscheduled|, targets));
    ReadyOnce(net);
    WithRoomIs(net.paths, net.ready);
    DistributeExtends(net.paths, available, plan, net.writeOffset);
    if !net.halted {
      ExtendedStillWaits(net.paths[0], r.paths[0], net.writeOffset);
      ExtendedIsBehind(net, r.paths[1]);
      assert r.paths[1].known == net.paths[1].known by {
        ExtendedKnows(net.paths[1], r.paths[1], net.writeOffset);
      }
    }
  }

  lemma ExtendedKnows(a: Path, b: Path, offset: nat)
    requires Extended(a, b, offset)
    ensures a.known == b.known
  {
  }

  lemma ReadyOnce(net: Net)
    requires Invariant(net)
    ensures NoDuplicates(net.ready)
    ensures forall p :: 0 <= p < |net.paths| ==> net.paths[p].taken <= |net.paths[p].written|
  {
    hide Fed, Arranged, AllOnPaths, Lefts, Intact;
    forall p | 0 <= p < |net.paths|
      ensures net.paths[p].taken <= |net.paths[p].written|
    {
      assert Sound(net.paths[p]);
      IntactBounds(net.paths[p]);
    }
  }

  lemma MessageStaysBlocked(net: Net, p: nat, data: seq<byte>)
    requires Enabled(net, Message(p, data)) && Blocked(net)
    ensures Blocked(Next(net, Message(p, data)))
  {
    hide Invariant, Full, Behind, EncodeFrames, Named;
    StepKeeps(net, Message(p, data));
    ReadyOnce(net);
    var path, f := net.paths[p], Frame(0, data);
    assert path.Write([f]).Left() == path.Left() + [f];
    if !net.halted && p == 1 {
      MessageIsBehind(path.Left(), f, net.stream);
    }
  }

  lemma MessageIsBehind(frames: seq<Frame>, f: Frame, s: Streams.Stream)
    requires Behind(frames, s) && !IsData(f)
    ensures Behind(frames + [f], s)
  {
    hide Above, Ascending;
    MessageAscends(frames, f);
  }

  lemma SendStaysBlocked(net: Net, p: nat, n: nat)
    requires Enabled(net, Step.Send(p, n)) && Blocked(net)
    ensures Blocked(Next(net, Step.Send(p, n)))
  {
    hide Invariant, Full, Behind;
    StepKeeps(net, Step.Send(p, n));
    assert net.paths[p].Send(n).Left() == net.paths[p].Left();
  }

  lemma InputStaysBlocked(net: Net, data: seq<byte>)
    requires Enabled(net, Input(data)) && Blocked(net)
    ensures Blocked(Next(net, Input(data)))
  {
    hide Invariant, Full, Behind;
    StepKeeps(net, Input(data));
    InputKeeps(net, data);
  }

  lemma ReadyStaysBlocked(net: Net, list: seq<nat>)
    requires Enabled(net, Ready(list)) && Blocked(net)
    ensures Blocked(Next(net, Ready(list)))
  {
    hide Invariant, Full, Behind;
    StepKeeps(net, Ready(list));
    ReadyKeeps(net, list);
  }

  lemma LeftArePieces(net: Net, p: nat)
    requires Invariant(net) && p < |net.paths|
    ensures forall f :: f in net.paths[p].Left() ==> PieceOf(f, net.Scheduled())
    ensures Fed(net.View(p), net.Scheduled()) && Sound(net.paths[p])
  {
    hide Fed, Arranged, Named, PieceOf, Sound;
    LeftsWith(net.paths, p, net.paths[p]);
    assert AllPieces(Lefts(net.paths)[p], net.Scheduled());
    AnyAttached(net, p, net.Scheduled());
  }

  /** A blocked path of a run that has not ended. */
  lemma BlockedPath(net: Net, p: nat)
    requires p < |net.paths| && !net.halted && Blocked(net)
    ensures Fed(net.View(p), net.Scheduled()) && net.paths[p].attached && Sound(net.paths[p])
    ensures |net.Scheduled()| < VARINT62_LIMIT && forall f :: f in net.paths[p].Left() ==> PieceOf(f, net.Scheduled())
  {
    hide Invariant, Fed, PieceOf, Intact, Full, Behind;
    Extent(net);
    LeftArePieces(net, p);
  }

  /** Receiving from the first path ends the run. */
  lemma ReceiveHalts(k: Sink, frames: seq<Frame>)
    requires frames != [] && IsData(frames[0]) && k.attached && !k.halted && AnswerTo(k, frames[0]) == TooManyIntervals
    ensures DispatchAll(k, frames) == k.(refused := true, halted := true)
  {
    hide Dispatch, DispatchAll, AnswerTo;
    TooManyHalts(k, frames[0]);
    HaltedStays(Dispatch(k, frames[0]), frames[1..]);
    DispatchFirst(k, frames[0]);
    DispatchInTwo(k, [frames[0]], frames[1..]);
    assert frames == [frames[0]] + frames[1..];
  }

  lemma FirstStaysBlocked(net: Net, n: nat)
    requires Enabled(net, Step.Receive(0, n)) && Blocked(net)
    ensures Blocked(Next(net, Step.Receive(0, n)))
  {
    hide Sound, Invariant, DispatchAll, Deliver, AnswerTo, Full, Behind, Fed, PieceOf;
    StepKeeps(net, Step.Receive(0, n));
    BlockedPath(net, 0);
    DeliveredInTime(net.paths[0], n);
    var frames := Deliver(net.paths[0].Arrived(n)).frames;
    if frames == [] {
      NoFrames(net.View(0));
    } else {
      FirstIsTooMany(net.View(0), frames[0], net.Scheduled());
      ReceiveHalts(net.View(0), frames);
    }
  }

  lemma SecondStaysBlocked(net: Net, n: nat)
    requires Enabled(net, Step.Receive(1, n)) && Blocked(net)
    ensures Blocked(Next(net, Step.Receive(1, n)))
  {
    hide Sound, Invariant, DispatchAll, Deliver, AnswerTo, Full, Behind, Fed, PieceOf, Streams.Has, SomeCovers;
    StepKeeps(net, Step.Receive(1, n));
    BlockedPath(net, 1);
    DeliveredInTime(net.paths[1], n);
    var frames, later := Deliver(net.paths[1].Arrived(n)).frames, net.paths[1].Receive(n).Left();
    var k, r := net.View(1), DispatchAll(net.View(1), frames);
    BehindIsBoth(frames, later, k.stream);
    BehindFrames(k, frames, net.Scheduled());
    OutputLength(r, net.Scheduled());
    if !r.halted {
      LaterIsBehind(frames, later, k.stream, r.stream);
    }
  }

  lemma BehindIsBoth(frames: seq<Frame>, later: seq<Frame>, s: Streams.Stream)
    requires Behind(frames + later, s)
    ensures Behind(frames, s)
  {
    hide Above;
    var all := frames + later;
    assert forall i :: 0 <= i < |frames| ==> all[i] == frames[i];
    assert forall f :: f in frames ==> f in all;
  }

  lemma LaterIsBehind(frames: seq<Frame>, later: seq<Frame>, s: Streams.Stream, t: Streams.Stream)
    requires Behind(frames + later, s)
    requires forall o: nat :: Streams.Has(t, o) ==> Streams.Has(s, o) || SomeCovers(frames, o)
    ensures Behind(later, t)
  {
    hide Streams.Has;
    var all := frames + later;
    assert forall j :: 0 <= j < |later| ==> all[|frames| + j] == later[j];
    forall f, o: nat | f in later && IsData(f) && Streams.Has(t, o)
      ensures RESERVE_OFFSET + o < f.offset
    {
      assert f in all;
      var j :| 0 <= j < |later| && later[j] == f;
      if SomeCovers(frames, o) {
        var g :| g in frames && Covers(g, o);
        var i :| 0 <= i < |frames| && frames[i] == g;
        assert all[i] == g && all[|frames| + j] == f;
      }
    }
    assert forall f :: f in later ==> f in all;
  }

  lemma StepStaysBlocked(net: Net, step: Step)
    requires Blocked(net) && Enabled(net, step)
    ensures Blocked(Next(net, step))
  {
    hide Invariant, Full, Behind, FirstWaits, Next;
    match step
    case Message(p, data) => MessageStaysBlocked(net, p, data);
    case Ready(list) => ReadyStaysBlocked(net, list);
    case Input(data) => InputStaysBlocked(net, data);
    case Schedule(targets) => ScheduleStaysBlocked(net, targets);
    case Send(p, n) => SendStaysBlocked(net, p, n);
    case Receive(p, n) =>
      if p == 0 {
        FirstStaysBlocked(net, n);
      } else {
        SecondStaysBlocked(net, n);
      }
  }

  lemma {:induction false} RunStaysBlocked(start: Net, steps: seq<Step>)
    requires Blocked(start) && IsRun(start, steps)
    ensures Blocked(After(start, steps))
    decreases |steps|
  {
    hide Blocked, Enabled, Next;
    if steps != [] {
      StepStaysBlocked(start, steps[0]);
      RunStaysBlocked(Next(start, steps[0]), steps[1..]);
    }
  }

  lemma FirstIsAnswered(net: Net)
    requires |net.paths| == 2 && FirstWaits(net.paths[0]) && !net.halted && Blocked(net)
    ensures AnswerTo(net.View(0), net.paths[0].Left()[0]) == TooManyIntervals
  {
    hide Invariant, Fed, AnswerTo, Full, PieceOf, Sound, Behind;
    BlockedPath(net, 0);
    assert net.paths[0].Left()[0] in net.paths[0].Left();
    FirstIsTooMany(net.View(0), net.paths[0].Left()[0], net.Scheduled());
  }

  lemma NoneIsHandedOn(net: Net)
    requires Blocked(net)
    ensures forall more :: IsRun(net, more) ==> After(net, more).output == []
  {
    hide IsRun, After;
    forall more | IsRun(net, more)
      ensures After(net, more).output == []
    {
      RunStaysBlocked(net, more);
    }
  }
}
