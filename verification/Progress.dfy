/** From which states everything that is scheduled can still be handed on. */
module Progress {
  import opened Words
  import opened ByteCodec
  import opened Framing
  import opened Striping
  import opened Receivers
  import opened Sequencers
  import opened SequencerBuffers
  import opened Paths
  import opened Arrangements
  import opened Multipath
  import Streams

  /** The frame at the cursor is not one interval too many: there is room for it, or it joins what waits behind it. */
  predicate CanGoOn(net: Net) {
    RoomAtCursor(net.stream, Lefts(net.paths))
  }

  predicate RoomAtCursor(s: Streams.Stream, lefts: seq<seq<Frame>>) {
    s.read > 0 || Streams.IntervalCount(s) + 1 < MAX_INTERVALS || FirstTouches(lefts, s)
  }

  /** The window takes any frame of the text, and does not wrap around. */
  predicate Usable(capacity: nat, text: seq<byte>) {
    Min(MAX_PAYLOAD, |text|) <= capacity < U64_RANGE - VARINT62_LIMIT
  }

  /** Nothing more is read or scheduled. */
  predicate OnlyDelivers(steps: seq<Step>) {
    forall s :: s in steps ==> s.Send? || s.Receive?
  }

  /** All of a path is sent, and of it exactly the next frame is received. */
  lemma ReceiveOne(net: Net, p: nat) returns (steps: seq<Step>)
    requires Invariant(net) && !net.halted && p < |net.paths| && net.paths[p].Left() != []
    ensures IsRun(net, steps) && OnlyDelivers(steps)
    ensures
      var r, f := After(net, steps), net.paths[p].Left()[0];
      var k := Dispatch(net.View(p), f);
      && Invariant(r) && r.Scheduled() == net.Scheduled() && r.capacity == net.capacity
      && |r.paths| == |net.paths| && Lefts(r.paths) == Lefts(net.paths)[p := net.paths[p].Left()[1..]]
      && r.View(p) == k
  {
    hide Fed, Arranged, AllOnPaths, Intact, Dispatch, DispatchAll, Deliver;
    var send := Step.Send(p, |net.paths[p].writeBuffer|);
    var sent := Next(net, send);
    var path := sent.paths[p];
    SendKeeps(net, p, |net.paths[p].writeBuffer|);
    LeftsWith(net.paths, p, path);
    LeftsWith(sent.paths, p, path);
    NextFrameAlone(path);
    var receive := Step.Receive(p, Missing(path));
    ReceiveKeeps(sent, p, Missing(path));
    var r := Next(sent, receive);
    DeliveredInTime(path, Missing(path));
    DispatchFirst(sent.View(p), path.Left()[0]);
    LeftsWith(sent.paths, p, r.paths[p]);
    TwoSteps(net, send, receive);
    CapacityStays(sent, receive);
    steps := [send, receive];
    var left, rest := path.Left(), path.Receive(Missing(path)).Left();
    assert left == [left[0]] + rest;
    assert rest == left[1..];
    DispatchFlags(sent.View(p), left[0]);
    ViewAfter(sent, p, path.Receive(Missing(path)), Dispatch(sent.View(p), left[0]));
  }

  /** One step towards handing on everything: the next frame of the path that holds the byte at the cursor. */
  lemma GoOn(net: Net) returns (steps: seq<Step>)
    requires Invariant(net) && !net.refused && Usable(net.capacity, net.Scheduled()) && CanGoOn(net)
    requires net.output != net.Scheduled()
    ensures IsRun(net, steps) && OnlyDelivers(steps)
    ensures
      var r := After(net, steps);
      && Invariant(r) && !r.refused && r.capacity == net.capacity && CanGoOn(r)
      && r.Scheduled() == net.Scheduled() && FrameCount(Lefts(r.paths)) < FrameCount(Lefts(net.paths))
  {
    hide IsRun, After, Lefts, FrameCount, Fed, Arranged, AllOnPaths, Streams.IntervalCount, Dispatch, AnswerTo, Intact,
      FirstTouches;
    var text := net.Scheduled();
    var k := Sink(net.capacity, net.stream, net.output, true, net.refused, net.halted, net.crashed);
    OutputLength(k, text);
    HaltedIsRefused(k, text);
    var p := CursorFrame(k, Lefts(net.paths), text);
    LeftsWith(net.paths, p, net.paths[p]);
    AnyAttached(net, p, text);
    steps := ReceiveOne(net, p);
    LessFrames(Lefts(net.paths), p);
    AttachedInTime(net, p);
    if IsData(net.paths[p].Left()[0]) {
      CursorIsAccepted(net.View(p), Lefts(net.paths), p, text);
    } else {
      MessageMovesNothing(net.View(p), net.paths[p].Left()[0]);
      if FirstTouches(Lefts(net.paths), net.stream) {
        FirstTouchesStill(Lefts(net.paths), p, net.stream);
      }
    }
  }

  /** Data at the front of a path finds the session known. */
  lemma AttachedInTime(net: Net, p: nat)
    requires Invariant(net) && p < |net.paths| && net.paths[p].Left() != []
    ensures IsData(net.paths[p].Left()[0]) ==> net.paths[p].attached
  {
    hide Intact, Fed, Arranged, AllOnPaths, Lefts;
    IntactBounds(net.paths[p]);
    assert Sound(net.paths[p]);
  }

  /** It is accepted exactly then. */
  lemma CursorIsAccepted(k: Sink, lefts: seq<seq<Frame>>, p: nat, text: seq<byte>)
    requires Arranged(lefts, text, k.stream) && AllOnPaths(lefts, text) && Fed(k, text) && !k.refused
    requires p < |lefts| && lefts[p] != [] && Usable(k.capacity, text) && |text| < VARINT62_LIMIT
    requires IsData(lefts[p][0]) && k.attached && lefts[p][0].offset == RESERVE_OFFSET + k.stream.read
    ensures
      var r := Dispatch(k, lefts[p][0]);
      && (!r.refused <==> RoomAtCursor(k.stream, lefts)) && (!r.refused ==> r.stream.read > 0)
      && (r.refused ==> r.halted && r.stream == k.stream)
  {
    hide Fed, Streams.IntervalCount, Dispatch, AnswerTo, PieceOf, Apart, Ascending, Awaited, Streams.Has, FirstTouches;
    var f := lefts[p][0];
    assert AllPieces(lefts[p], text);
    HaltedIsRefused(k, text);
    DispatchFlags(k, f);
    forall o: nat | Covers(f, o)
      ensures !Streams.Has(k.stream, o)
    {
      assert SomeCovers(lefts[p], o);
    }
    PieceIsShort(f, text);
    CursorAnswer(k, f, text);
    CountIsLimited(k, text);
    if k.stream.read == 0 {
      FirstIsUnique(lefts, p, text, k.stream);
    }
    if AnswerTo(k, f) == NoError {
      ReadMoves(k, f, text);
    } else {
      TooManyHalts(k, f);
    }
  }

  lemma CountIsLimited(k: Sink, text: seq<byte>)
    requires Fed(k, text) && !k.refused
    ensures Streams.IntervalCount(k.stream) < MAX_INTERVALS
  {
  }

  lemma TooManyHalts(k: Sink, f: Frame)
    requires IsData(f) && k.attached && !k.halted && AnswerTo(k, f) == TooManyIntervals
    ensures Dispatch(k, f) == k.(refused := true, halted := true)
  {
    hide AnswerTo;
  }

  lemma PieceIsShort(f: Frame, text: seq<byte>)
    requires PieceOf(f, text) && IsData(f)
    ensures |f.data| <= Min(MAX_PAYLOAD, |text|)
  {
  }

  lemma MessageMovesNothing(k: Sink, f: Frame)
    requires !IsData(f)
    ensures Dispatch(k, f).stream == k.stream && Dispatch(k, f).refused == k.refused
  {
  }

  lemma ReadMoves(k: Sink, f: Frame, text: seq<byte>)
    requires Fed(k, text) && PieceOf(f, text) && IsData(f) && f.offset == RESERVE_OFFSET + k.stream.read
    requires k.attached && !k.halted && AnswerTo(k, f) == NoError
    ensures Dispatch(k, f).stream.read > k.stream.read && |f.data| > 0
  {
    hide Receivers.Received, AnswerTo, Within, Streams.IntervalCount, Streams.Readable, Matches;
    ReceivedAgrees(k, f, text);
    assert Covers(f, k.stream.read);
    AtCursor(Receivers.Received(k, f).stream);
    ReadGrows(k, f);
  }

  lemma {:induction false} GoOnToTheEnd(net: Net) returns (steps: seq<Step>)
    requires Invariant(net) && !net.refused && Usable(net.capacity, net.Scheduled()) && CanGoOn(net)
    ensures IsRun(net, steps) && OnlyDelivers(steps)
    ensures !After(net, steps).refused && After(net, steps).output == After(net, steps).Scheduled() == net.Scheduled()
    decreases FrameCount(Lefts(net.paths))
  {
    hide Invariant, IsRun, After, CanGoOn;
    steps := [];
    NoStep(net);
    if net.output != net.Scheduled() {
      steps := GoOn(net);
      var more := GoOnToTheEnd(After(net, steps));
      RunInTwo(net, steps, more);
      steps := steps + more;
    }
  }

  // ---------- at the limit ----------

  /** The stream after a frame that is not refused. */
  function Joined(s: Streams.Stream, f: Frame): Streams.Stream {
    if IsData(f) then Drained(Streams.Accept(s, f.offset - RESERVE_OFFSET, Cast16(f.data))) else s
  }

  /** At the limit a frame passes if it lies within the window and joins something that waits. */
  predicate CanPass(s: Streams.Stream, capacity: nat, f: Frame) {
    IsData(f) ==>
      f.offset - RESERVE_OFFSET + |f.data| <= s.read + capacity && (TouchesLeft(f, s) || TouchesRight(f, s))
  }

  /**
   There is room for the frame at the cursor, or there comes to be if frames that pass are delivered first, each when it
   is the next one of its path.
   */
  predicate Joinable(s: Streams.Stream, lefts: seq<seq<Frame>>, capacity: nat)
    decreases FrameCount(lefts)
  {
    RoomAtCursor(s, lefts)
    || exists p :: 0 <= p < |lefts| && lefts[p] != [] && CanPass(s, capacity, lefts[p][0])
         && (LessFrames(lefts, p); Joinable(Joined(s, lefts[p][0]), lefts[p := lefts[p][1..]], capacity))
  }

  /** At the limit exactly the frames that pass are accepted. */
  lemma PassIsAccepted(k: Sink, lefts: seq<seq<Frame>>, p: nat, text: seq<byte>)
    requires Arranged(lefts, text, k.stream) && AllOnPaths(lefts, text) && Fed(k, text) && !k.refused
    requires p < |lefts| && lefts[p] != [] && Usable(k.capacity, text) && |text| < VARINT62_LIMIT
    requires !RoomAtCursor(k.stream, lefts) && (IsData(lefts[p][0]) ==> k.attached)
    ensures
      var r := Dispatch(k, lefts[p][0]);
      && (!r.refused <==> CanPass(k.stream, k.capacity, lefts[p][0]))
      && (!r.refused ==> r.stream == Joined(k.stream, lefts[p][0]))
  {
    hide Fed, Streams.IntervalCount, Dispatch, AnswerTo, PieceOf, Apart, Ascending, Awaited, Streams.Has, FirstTouches;
    var f := lefts[p][0];
    assert AllPieces(lefts[p], text);
    HaltedIsRefused(k, text);
    CountIsLimited(k, text);
    if IsData(f) {
      forall o: nat | Covers(f, o)
        ensures !Streams.Has(k.stream, o)
      {
        assert SomeCovers(lefts[p], o);
      }
      LimitAnswer(k, f, text);
      AcceptedIsJoined(k, f);
    } else {
      MessageMovesNothing(k, f);
    }
  }

  lemma LimitAnswer(k: Sink, f: Frame, text: seq<byte>)
    requires Fed(k, text) && PieceOf(f, text) && IsData(f) && Sized(k.capacity, text)
    requires Streams.IntervalCount(k.stream) + 1 == MAX_INTERVALS
    requires forall o: nat :: Covers(f, o) ==> !Streams.Has(k.stream, o)
    ensures AnswerTo(k, f) == NoError <==> CanPass(k.stream, k.capacity, f)
  {
    hide OutOfRange, Streams.IntervalCount, Streams.NewOffsets, Streams.Accept, Matches, Streams.Readable, Cast16,
      TouchesLeft, TouchesRight, Streams.Has;
    AgreesMatches(k, text);
    PieceInRange(k, f, text);
    AcceptMatches(k.stream, f, text);
    GainedCount(k.stream, f, Streams.Accept(k.stream, f.offset - RESERVE_OFFSET, Cast16(f.data)), text);
    assert Covers(f, f.offset - RESERVE_OFFSET);
    IsNew(k.stream, f.offset - RESERVE_OFFSET, f.data);
  }

  lemma AcceptedIsJoined(k: Sink, f: Frame)
    requires IsData(f) && k.attached && !k.halted && !k.refused
    ensures Dispatch(k, f).refused <==> AnswerTo(k, f) != NoError
    ensures AnswerTo(k, f) == NoError ==> Dispatch(k, f).stream == Joined(k.stream, f)
  {
    hide AnswerTo, Streams.Accept, Streams.Readable, Streams.Front;
    ReceivedFlags(k, f);
  }

  /** Unless that is so, frames that are not refused leave it so. */
  lemma {:induction false} StuckFrames(k: Sink, frames: seq<Frame>, lefts: seq<seq<Frame>>, p: nat,
        later: seq<Frame>, text: seq<byte>)
    requires p < |lefts| && lefts[p] == frames + later && Arranged(lefts, text, k.stream) && AllOnPaths(lefts, text)
    requires Fed(k, text) && InTime(k, frames) && !DispatchAll(k, frames).refused
    requires Usable(k.capacity, text) && |text| < VARINT62_LIMIT && !Joinable(k.stream, lefts, k.capacity)
    ensures !Joinable(DispatchAll(k, frames).stream, lefts[p := later], k.capacity)
    decreases |frames|
  {
    hide Dispatch, DispatchAll, Fed, Arranged, PieceOf, AllOnPaths, Joinable, RoomAtCursor, CanPass, Joined;
    if frames == [] {
      NoFrames(k);
      assert frames + later == later && lefts[p := later] == lefts;
    } else {
      var r := lefts[p := lefts[p][1..]];
      FirstOf(k, frames, lefts, p, later, text);
      FirstArranges(k, lefts, p, text);
      StuckHasNoRoom(k.stream, lefts, k.capacity, p);
      PassIsAccepted(k, lefts, p, text);
      StuckFrames(Dispatch(k, frames[0]), frames[1..], r, p, later, text);
      assert r[p := later] == lefts[p := later];
    }
  }

  lemma StuckHasNoRoom(s: Streams.Stream, lefts: seq<seq<Frame>>, capacity: nat, p: nat)
    requires p < |lefts| && lefts[p] != [] && !Joinable(s, lefts, capacity)
    ensures !RoomAtCursor(s, lefts)
    ensures CanPass(s, capacity, lefts[p][0]) ==>
      !Joinable(Joined(s, lefts[p][0]), lefts[p := lefts[p][1..]], capacity)
  {
    hide RoomAtCursor, CanPass, Joined;
  }

  lemma StuckStep(net: Net, step: Step)
    requires Invariant(net) && Enabled(net, step) && (step.Send? || step.Receive?)
    requires Usable(net.capacity, net.Scheduled()) && !Joinable(net.stream, Lefts(net.paths), net.capacity)
    requires !Next(net, step).refused
    ensures
      var r := Next(net, step);
      !Joinable(r.stream, Lefts(r.paths), r.capacity) && r.Scheduled() == net.Scheduled() && !net.refused
  {
    hide Sound, Fed, Lefts, Arranged, AllOnPaths, DispatchAll, Deliver, PieceOf, Joinable, Named;
    var r := Next(net, step);
    match step
    case Send(p, n) =>
      SendKeeps(net, p, n);
      assert r.Scheduled() == net.Scheduled();
    case Receive(p, n) =>
      var path, text := net.paths[p], net.Scheduled();
      var frames := Deliver(path.Arrived(n)).frames;
      DeliveredInTime(path, n);
      LeftsWith(net.paths, p, r.paths[p]);
      AnyAttached(net, p, text);
      DeliveredPieces(Lefts(net.paths), p, frames, path.Receive(n).Left(), text);
      DispatchAllFeeds(net.View(p), frames, text);
      StuckFrames(net.View(p), frames, Lefts(net.paths), p, path.Receive(n).Left(), text);
  }

  lemma DeliveredPieces(lefts: seq<seq<Frame>>, p: nat, frames: seq<Frame>, later: seq<Frame>, text: seq<byte>)
    requires p < |lefts| && lefts[p] == frames + later && AllOnPaths(lefts, text)
    ensures forall f :: f in frames ==> PieceOf(f, text)
  {
    hide PieceOf;
    assert AllPieces(lefts[p], text);
  }

  lemma {:induction false} RefusedStays(start: Net, steps: seq<Step>)
    requires Invariant(start) && IsRun(start, steps) && start.refused
    ensures After(start, steps).refused
    decreases |steps|
  {
    hide Invariant, Enabled, Next;
    if steps != [] {
      RefusedOnce(start, steps[0]);
      StepKeeps(start, steps[0]);
      RefusedStays(Next(start, steps[0]), steps[1..]);
    }
  }

  lemma RefusedOnce(net: Net, step: Step)
    requires Invariant(net) && Enabled(net, step) && net.refused
    ensures Next(net, step).refused
  {
    hide Sound, Fed, Lefts, Arranged, AllOnPaths, DispatchAll, Deliver, PieceOf, Named, Distribute;
    match step
    case Message(_, _) =>
    case Ready(_) =>
    case Input(_) =>
    case Schedule(_) =>
    case Send(_, _) =>
    case Receive(p, n) =>
      var path, text := net.paths[p], net.Scheduled();
      DeliveredInTime(path, n);
      LeftsWith(net.paths, p, path);
      AnyAttached(net, p, text);
      DeliveredPieces(Lefts(net.paths), p, Deliver(path.Arrived(n)).frames, path.Receive(n).Left(), text);
      DispatchAllFeeds(net.View(p), Deliver(path.Arrived(n)).frames, text);
  }

  /** Without that nothing is ever handed on, unless more is scheduled or something is refused. */
  lemma {:induction false} StuckRun(start: Net, steps: seq<Step>)
    requires Invariant(start) && IsRun(start, steps) && OnlyDelivers(steps) && !After(start, steps).refused
    requires Usable(start.capacity, start.Scheduled()) && !Joinable(start.stream, Lefts(start.paths), start.capacity)
    ensures After(start, steps).output == [] != start.Scheduled()
    decreases |steps|
  {
    hide Invariant, Enabled, Next, Lefts, Joinable;
    if steps == [] {
      StuckIsEmpty(start);
    } else {
      var r := Next(start, steps[0]);
      assert steps[0] in steps && forall s :: s in steps[1..] ==> s in steps;
      StepKeeps(start, steps[0]);
      if r.refused {
        RefusedStays(r, steps[1..]);
      }
      StuckStep(start, steps[0]);
      StuckRun(r, steps[1..]);
    }
  }

  lemma StuckIsEmpty(net: Net)
    requires Invariant(net) && !net.refused && !Joinable(net.stream, Lefts(net.paths), net.capacity)
    ensures net.output == [] != net.Scheduled()
  {
    hide Sound, Arranged, AllOnPaths, Lefts, FirstTouches;
    var k := Sink(net.capacity, net.stream, net.output, true, net.refused, net.halted, net.crashed);
    OutputLength(k, net.Scheduled());
    if net.Scheduled() == [] {
      NothingCounted(net.stream);
    }
  }

  lemma NothingCounted(s: Streams.Stream)
    requires s.pending == map[] && s.read == 0
    ensures Streams.IntervalCount(s) == 0
  {
    assert Streams.Starts(s) == {};
  }

  /** If it is so, a run of sends and receives hands everything on. */
  lemma {:induction false} JoinToTheEnd(net: Net) returns (steps: seq<Step>)
    requires Invariant(net) && !net.refused && Usable(net.capacity, net.Scheduled())
    requires Joinable(net.stream, Lefts(net.paths), net.capacity)
    ensures Delivers(net, steps)
    decreases FrameCount(Lefts(net.paths))
  {
    hide IsRun, After, Lefts, FrameCount, Fed, Arranged, AllOnPaths, Dispatch, Intact, RoomAtCursor, CanPass, Joined,
      Named;
    if CanGoOn(net) {
      steps := GoOnToTheEnd(net);
      GoneOn(net, steps);
    } else {
      var lefts, text := Lefts(net.paths), net.Scheduled();
      var p: nat :| p < |lefts| && lefts[p] != [] && CanPass(net.stream, net.capacity, lefts[p][0])
        && Joinable(Joined(net.stream, lefts[p][0]), lefts[p := lefts[p][1..]], net.capacity);
      var k := Sink(net.capacity, net.stream, net.output, true, net.refused, net.halted, net.crashed);
      HaltedIsRefused(k, text);
      LeftsWith(net.paths, p, net.paths[p]);
      AnyAttached(net, p, text);
      AttachedInTime(net, p);
      PassIsAccepted(net.View(p), lefts, p, text);
      LessFrames(lefts, p);
      steps := ReceiveOne(net, p);
      var r := After(net, steps);
      var more := JoinToTheEnd(r);
      DeliversInTwo(net, steps, more);
      steps := steps + more;
    }
  }

  /** Nothing but sends and receives, nothing refused, and everything that was scheduled is handed on. */
  ghost predicate Delivers(net: Net, steps: seq<Step>) {
    && OnlyDelivers(steps) && IsRun(net, steps) && !After(net, steps).refused
    && After(net, steps).output == net.Scheduled()
  }

  lemma GoneOn(net: Net, steps: seq<Step>)
    requires IsRun(net, steps) && OnlyDelivers(steps) && !After(net, steps).refused
    requires After(net, steps).output == net.Scheduled()
    ensures Delivers(net, steps)
  {
  }

  lemma DeliversInTwo(net: Net, steps: seq<Step>, more: seq<Step>)
    requires IsRun(net, steps) && OnlyDelivers(steps) && After(net, steps).Scheduled() == net.Scheduled()
    requires Delivers(After(net, steps), more)
    ensures Delivers(net, steps + more)
  {
    hide IsRun, After;
    RunInTwo(net, steps, more);
  }

  /**
   From a state in which nothing was refused, all that was scheduled can still be handed on if and only if there is room
   for the frame at the cursor, or there comes to be by delivering frames that join what waits. There always is once
   anything has been read, and while fewer than 9999 intervals wait.
   */
  lemma EverythingCanArrive(known: seq<bool>, capacity: nat, steps: seq<Step>)
    requires IsRun(Start(known, capacity), steps) && !After(Start(known, capacity), steps).refused
    requires Usable(capacity, After(Start(known, capacity), steps).Scheduled())
    ensures
      var net := After(Start(known, capacity), steps);
      && ((exists more :: Delivers(net, more)) <==> Joinable(net.stream, Lefts(net.paths), capacity))
      && (net.stream.read > 0 || Streams.IntervalCount(net.stream) < MAX_INTERVALS - 1 ==>
            Joinable(net.stream, Lefts(net.paths), capacity))
  {
    hide IsRun, After, Invariant, Joinable, Lefts;
    StartIsSound(known, capacity);
    RunKeeps(Start(known, capacity), steps);
    var net := After(Start(known, capacity), steps);
    RoomIsJoinable(net.stream, Lefts(net.paths), capacity);
    if Joinable(net.stream, Lefts(net.paths), capacity) {
      var more := JoinToTheEnd(net);
    } else {
      forall more | OnlyDelivers(more) && IsRun(net, more) && !After(net, more).refused
        ensures After(net, more).output != net.Scheduled()
      {
        StuckRun(net, more);
      }
    }
  }

  lemma RoomIsJoinable(s: Streams.Stream, lefts: seq<seq<Frame>>, capacity: nat)
    ensures RoomAtCursor(s, lefts) ==> Joinable(s, lefts, capacity)
  {
  }
}
