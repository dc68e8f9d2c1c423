/** A whole session as a state machine: bytes are striped over several paths and put together again at the other end. */
module Multipath {
  // Each path is a FIFO channel of bytes: tpproxy/mpproxy_types.cc:45-78, :171-187, :279-340, :385-399, :534-602.

  import opened Words
  import opened Lists
  import opened Streams
  import opened ByteCodec
  import opened Framing
  import opened Striping
  import opened Receivers
  import opened SequencerBuffers
  import opened Paths
  import opened Arrangements

  /**
   The state of a session. The input is every byte ever read at the sending end, and ready lists the paths it schedules
   on; capacity, stream, output, refused, halted and crashed are those of the receiving end.
   */
  datatype Net = Net(input: seq<byte>, unscheduled: seq<byte>, writeOffset: nat, paths: seq<Path>, ready: seq<nat>,
    capacity: nat, stream: Stream, output: seq<byte>, refused: bool, halted: bool, crashed: bool)
  {
    function Scheduled(): seq<byte> {
      if |unscheduled| <= |input| then input[..|input| - |unscheduled|] else []
    }

    /** The receiving end as one path sees it. */
    function View(p: nat): Sink
      requires p < |paths|
    {
      Sink(capacity, stream, output, paths[p].attached, refused, halted, crashed)
    }

    /** What a path sees has changed, and the path itself. */
    function With(k: Sink, p: nat, path: Path): Net
      requires p < |paths|
    {
      this.(paths := paths[p := path.(attached := k.attached)], stream := k.stream, output := k.output,
            refused := k.refused, halted := k.halted, crashed := k.crashed)
    }
  }

  datatype Step =
    | Message(path: nat, data: seq<byte>)
    | Ready(list: seq<nat>)
    | Input(data: seq<byte>)
    | Schedule(targets: seq<nat>)
    | Send(path: nat, n: nat)
    | Receive(path: nat, n: nat)

  /** A session over some paths, of which is given whether they know the session from the start. */
  function Start(known: seq<bool>, capacity: nat): Net {
    var paths := seq(|known|, p requires 0 <= p < |known| => NewPath(known[p]));
    Net([], [], RESERVE_OFFSET, paths, [], capacity, Stream(0, map[]), [], false, false, false)
  }

  predicate InRange(available: seq<nat>, n: nat) {
    forall i :: 0 <= i < |available| ==> available[i] < n
  }

  ghost predicate DistinctIn(available: seq<nat>, n: nat) {
    InRange(available, n) && NoDuplicates(available)
  }

  /** Of the ready paths those with room in their write buffers, in order. */
  function WithRoom(paths: seq<Path>, ready: seq<nat>): (r: seq<nat>)
    ensures InRange(r, |paths|)
  {
    if ready == [] then []
    else
      var p := ready[0];
      (if p < |paths| && |paths[p].writeBuffer| <= WRITE_BUFFER_THRESHOLD then [p] else [])
      + WithRoom(paths, ready[1..])
  }

  /**
   A message has at least its type byte, and the first one on a path that does not know its session is META. Only paths
   on which it has been written, or that know their session, become ready; Sessions derives both. Scheduling takes
   exactly the ready paths with room, if there are any. Any part of what a path holds may move on.
   */
  ghost predicate Enabled(net: Net, step: Step) {
    match step
    case Message(p, data) =>
      && p < |net.paths| && data != [] && |data| < VARINT62_LIMIT
      && (net.paths[p].written == [] && !net.paths[p].known ==> IsMeta(Frame(0, data)))
    case Ready(list) => Named(net.paths, net.ready + list)
    case Input(_) => true
    case Schedule(targets) =>
      |WithRoom(net.paths, net.ready)| == |targets| + 1 && net.writeOffset + |net.unscheduled| <= VARINT62_LIMIT
    case Send(p, n) => p < |net.paths| && n <= |net.paths[p].writeBuffer|
    case Receive(p, n) => !net.halted && p < |net.paths| && n <= |net.paths[p].inFlight|
  }

  /** Each of these paths once, and META was written on it if it is needed. */
  ghost predicate Named(paths: seq<Path>, ready: seq<nat>) {
    DistinctIn(ready, |paths|) && forall p :: p in ready ==> paths[p].written != [] || paths[p].known
  }

  /** Writes to each available path its part of the plan. */
  function Distribute(paths: seq<Path>, available: seq<nat>, plan: seq<seq<Frame>>): (r: seq<Path>)
    requires |available| == |plan| && InRange(available, |paths|)
    requires forall frames :: frames in plan ==> AllWritable(frames)
    ensures |r| == |paths|
    decreases |plan|
  {
    if plan == [] then paths
    else
      var p := available[0];
      Distribute(paths[p := paths[p].Write(plan[0])], available[1..], plan[1..])
  }

  function SchedulePlan(net: Net, targets: seq<nat>): (plan: seq<seq<Frame>>)
    requires net.writeOffset + |net.unscheduled| <= VARINT62_LIMIT
    ensures |plan| == |targets| + 1 && forall frames :: frames in plan ==> AllWritable(frames)
  {
    SharesAddUp(|net.unscheduled|, targets);
    PlanIsWritable(net.writeOffset, net.unscheduled, Shares(|net.unscheduled|, targets));
    SharedOut(net.writeOffset, net.unscheduled, targets)
  }

  ghost function Next(net: Net, step: Step): Net
    requires Enabled(net, step)
  {
    match step
    case Message(p, data) => net.(paths := net.paths[p := net.paths[p].Write([Frame(0, data)])])
    case Ready(list) => net.(ready := net.ready + list)
    case Input(data) => net.(input := net.input + data, unscheduled := net.unscheduled + data)
    case Schedule(targets) =>
      net.(paths := Distribute(net.paths, WithRoom(net.paths, net.ready), SchedulePlan(net, targets)),
           writeOffset := net.writeOffset + |net.unscheduled|, unscheduled := [])
    case Send(p, n) => net.(paths := net.paths[p := net.paths[p].Send(n)])
    case Receive(p, n) =>
      net.With(DispatchAll(net.View(p), Deliver(net.paths[p].Arrived(n)).frames), p, net.paths[p].Receive(n))
  }

  ghost predicate IsRun(start: Net, steps: seq<Step>)
    decreases |steps|
  {
    steps != [] ==> Enabled(start, steps[0]) && IsRun(Next(start, steps[0]), steps[1..])
  }

  ghost function After(start: Net, steps: seq<Step>): Net
    requires IsRun(start, steps)
    decreases |steps|
  {
    if steps == [] then start else After(Next(start, steps[0]), steps[1..])
  }

  function Lefts(paths: seq<Path>): (lefts: seq<seq<Frame>>)
    ensures |lefts| == |paths|
  {
    seq(|paths|, p requires 0 <= p < |paths| => paths[p].Left())
  }

  lemma LeftsWith(paths: seq<Path>, p: nat, path: Path)
    requires p < |paths|
    ensures Lefts(paths[p := path]) == Lefts(paths)[p := path.Left()] && Lefts(paths)[p] == paths[p].Left()
    ensures path.Left() == paths[p].Left() ==> Lefts(paths[p := path]) == Lefts(paths)
  {
    assert forall q :: 0 <= q < |paths| && q != p ==> Lefts(paths[p := path])[q] == Lefts(paths)[q];
  }

  // ---------- what every step keeps ----------

  /** The path is intact, META comes first on it, and the session is known on it once anything was delivered. */
  ghost predicate Sound(path: Path) {
    && Intact(path)
    && (path.written != [] && !path.known ==> IsMeta(path.written[0]))
    && (path.attached <==> path.known || path.taken > 0)
  }

  ghost predicate AllSound(paths: seq<Path>) {
    forall p :: 0 <= p < |paths| ==> Sound(paths[p])
  }

  /** Nothing is lost until data is refused: then every byte has been received or is left on exactly one path. */
  ghost predicate Invariant(net: Net) {
    var text := net.Scheduled();
    && net.input == text + net.unscheduled && net.writeOffset == RESERVE_OFFSET + |text| <= VARINT62_LIMIT
    && AllSound(net.paths) && Named(net.paths, net.ready) && AllOnPaths(Lefts(net.paths), text) && !net.crashed
    && Fed(Sink(net.capacity, net.stream, net.output, true, net.refused, net.halted, net.crashed), text)
    && (!net.refused ==> Arranged(Lefts(net.paths), text, net.stream))
  }

  lemma StartIsSound(known: seq<bool>, capacity: nat)
    ensures Invariant(Start(known, capacity))
  {
    hide Sound, Fed, Arranged;
    NothingYet(capacity);
    forall p | 0 <= p < |known|
      ensures Sound(NewPath(known[p])) && NewPath(known[p]).Left() == []
    {
      NewPathIsSound(known[p]);
    }
    NothingLeft(Lefts(Start(known, capacity).paths));
  }

  lemma Extent(net: Net)
    requires Invariant(net)
    ensures net.writeOffset == RESERVE_OFFSET + |net.Scheduled()| <= VARINT62_LIMIT
    ensures net.input == net.Scheduled() + net.unscheduled
  {
    hide Fed, Arranged, Sound, AllOnPaths, Lefts, Named;
  }

  lemma NewPathIsSound(known: bool)
    ensures Sound(NewPath(known)) && NewPath(known).Left() == []
  {
    hide Intact;
    NewPathIsIntact(known);
  }

  lemma NothingLeft(lefts: seq<seq<Frame>>)
    requires forall p :: 0 <= p < |lefts| ==> lefts[p] == []
    ensures Arranged(lefts, [], Stream(0, map[]))
  {
  }

  lemma NothingYet(capacity: nat)
    ensures Fed(Sink(capacity, Stream(0, map[]), [], true, false, false, false), [])
  {
    assert Starts(Stream(0, map[])) == {};
  }

  lemma WriteKeepsSound(path: Path, frames: seq<Frame>)
    requires Sound(path) && AllWritable(frames)
    requires path.written == [] && !path.known && frames != [] ==> IsMeta(frames[0])
    ensures Sound(path.Write(frames)) && path.Write(frames).Left() == path.Left() + frames
  {
    hide Intact, EncodeFrames;
    WriteKeepsIntact(path, frames);
  }

  /** The same paths, on which more may have been written. */
  predicate Grown(before: seq<Path>, after: seq<Path>) {
    && |before| == |after|
    && forall p :: 0 <= p < |before| ==> before[p].written <= after[p].written && before[p].known == after[p].known
  }

  lemma NamedStays(before: seq<Path>, after: seq<Path>, ready: seq<nat>)
    requires Named(before, ready) && Grown(before, after)
    ensures Named(after, ready)
  {
    assert forall p :: p in ready ==> p < |before|;
  }

  lemma SendKeeps(net: Net, p: nat, n: nat)
    requires Invariant(net) && Enabled(net, Step.Send(p, n))
    ensures Invariant(Next(net, Step.Send(p, n))) && Lefts(Next(net, Step.Send(p, n)).paths) == Lefts(net.paths)
  {
    hide Intact, Fed, Lefts, Arranged, AllOnPaths, Named;
    SendKeepsIntact(net.paths[p], n);
    NamedStays(net.paths, Next(net, Step.Send(p, n)).paths, net.ready);
    LeftsWith(net.paths, p, net.paths[p].Send(n));
  }

  lemma InputKeeps(net: Net, data: seq<byte>)
    requires Invariant(net)
    ensures Invariant(Next(net, Input(data))) && Next(net, Input(data)).Scheduled() == net.Scheduled()
  {
    hide Sound, Fed, Lefts, Arranged, AllOnPaths, Named;
    var r := Next(net, Input(data));
    assert r.Scheduled() == net.Scheduled();
    assert net.Scheduled() + net.unscheduled + data == net.Scheduled() + (net.unscheduled + data);
  }

  lemma ReadyKeeps(net: Net, list: seq<nat>)
    requires Invariant(net) && Enabled(net, Ready(list))
    ensures Invariant(Next(net, Ready(list))) && Next(net, Ready(list)).Scheduled() == net.Scheduled()
  {
    hide Sound, Fed, Lefts, Arranged, AllOnPaths, Named;
    var r := Next(net, Ready(list));
    assert r.Scheduled() == net.Scheduled() && r.paths == net.paths;
  }

  lemma {:induction false} WithRoomIs(paths: seq<Path>, ready: seq<nat>)
    requires NoDuplicates(ready)
    ensures NoDuplicates(WithRoom(paths, ready))
    ensures forall p :: p in WithRoom(paths, ready) <==>
      p in ready && p < |paths| && |paths[p].writeBuffer| <= WRITE_BUFFER_THRESHOLD
  {
    if ready != [] {
      TailIsDistinct(ready);
      WithRoomIs(paths, ready[1..]);
      JoinIsDistinct(if ready[0] in WithRoom(paths, [ready[0]]) then [ready[0]] else [], WithRoom(paths, ready[1..]));
    }
  }

  lemma MessageKeeps(net: Net, p: nat, data: seq<byte>)
    requires Invariant(net) && Enabled(net, Message(p, data))
    ensures
      var r := Next(net, Message(p, data));
      && Invariant(r) && r.Scheduled() == net.Scheduled()
      && forall o: nat :: Awaited(Lefts(r.paths), o) <==> Awaited(Lefts(net.paths), o)
  {
    hide Sound, Fed, Lefts, Arranged, AllOnPaths, Awaited, Named;
    NamedStays(net.paths, Next(net, Message(p, data)).paths, net.ready);
    WriteKeepsSound(net.paths[p], [Frame(0, data)]);
    LeftsWith(net.paths, p, net.paths[p].Write([Frame(0, data)]));
    MessageOnPath(Lefts(net.paths), p, Frame(0, data), net.Scheduled());
    if !net.refused {
      MessageArranges(Lefts(net.paths), p, Frame(0, data), net.Scheduled(), net.stream);
    }
  }

  // ---------- scheduling ----------

  lemma {:induction false} DistributeKeepsSound(paths: seq<Path>, available: seq<nat>, plan: seq<seq<Frame>>)
    requires |available| == |plan| && DistinctIn(available, |paths|) && AllSound(paths)
    requires forall p :: p in available ==> paths[p].written != [] || paths[p].known
    requires forall frames :: frames in plan ==> AllWritable(frames)
    ensures AllSound(Distribute(paths, available, plan)) && Grown(paths, Distribute(paths, available, plan))
    decreases |plan|
  {
    hide Sound, EncodeFrames;
    if plan != [] {
      var p := available[0];
      assert plan[0] in plan;
      WriteKeepsSound(paths[p], plan[0]);
      var next := paths[p := paths[p].Write(plan[0])];
      DistributeKeepsSound(next, available[1..], plan[1..]);
      assert Grown(paths, next);
    }
  }

  /** The frames of the plan are the next pieces of the text, wherever they go. */
  lemma {:induction false} DistributeArranges(paths: seq<Path>, available: seq<nat>, data: seq<byte>, shares: seq<nat>,
        text: seq<byte>, s: Stream)
    requires |available| == |shares| && DistinctIn(available, |paths|) && Sum(shares) == |data|
    requires RESERVE_OFFSET + |text| + |data| <= VARINT62_LIMIT
    requires AllSound(paths) && AllOnPaths(Lefts(paths), text) && Matches(s, text)
    requires forall p :: p in available ==> paths[p].written != [] || paths[p].known
    requires forall frames :: frames in Plan(RESERVE_OFFSET + |text|, data, shares) ==> AllWritable(frames)
    ensures
      var r := Lefts(Distribute(paths, available, Plan(RESERVE_OFFSET + |text|, data, shares)));
      && AllOnPaths(r, text + data)
      && (forall o: nat :: o < |text| ==> (Awaited(r, o) <==> Awaited(Lefts(paths), o)))
      && (Arranged(Lefts(paths), text, s) ==> Arranged(r, text + data, s))
    decreases |shares|
  {
    hide Sound, EncodeFrames, Lefts, AllOnPaths, Arranged, Awaited, Segments, Carry, Matches;
    if shares == [] {
      assert text + data == text;
    } else {
      var p, n := available[0], shares[0];
      var plan := Plan(RESERVE_OFFSET + |text|, data, shares);
      var next := paths[p := paths[p].Write(plan[0])];
      var first, later := data[..n], data[n..];
      assert plan[0] in plan;
      WriteKeepsSound(paths[p], plan[0]);
      LeftsWith(paths, p, paths[p].Write(plan[0]));
      SegmentsConserve(RESERVE_OFFSET + |text|, first);
      WriteOnPath(Lefts(paths), p, plan[0], text, first);
      if Arranged(Lefts(paths), text, s) {
        WriteArranges(Lefts(paths), p, plan[0], text, first, s);
      }
      MatchesMore(s, text, first);
      DistributeArranges(next, available[1..], later, shares[1..], text + first, s);
      assert text + first + later == text + data;
    }
  }

  lemma MatchesMore(s: Stream, text: seq<byte>, more: seq<byte>)
    requires Matches(s, text)
    ensures Matches(s, text + more)
  {
  }

  lemma FedMore(k: Sink, text: seq<byte>, more: seq<byte>)
    requires Fed(k, text)
    ensures Fed(k, text + more) && Matches(k.stream, text)
  {
    assert (text + more)[..k.stream.read] == text[..k.stream.read];
  }

  lemma ScheduleKeeps(net: Net, targets: seq<nat>)
    requires Invariant(net) && Enabled(net, Schedule(targets))
    ensures
      var r := Next(net, Schedule(targets));
      && Invariant(r) && net.Scheduled() <= r.Scheduled()
      && forall o: nat :: o < |net.Scheduled()| ==> (Awaited(Lefts(r.paths), o) <==> Awaited(Lefts(net.paths), o))
  {
    hide Sound, Fed, Lefts, Arranged, AllOnPaths, Awaited, Distribute, Matches;
    var text, more, plan := net.Scheduled(), net.unscheduled, SchedulePlan(net, targets);
    var available := WithRoom(net.paths, net.ready);
    WithRoomIs(net.paths, net.ready);
    var r := Next(net, Schedule(targets));
    assert r.Scheduled() == text + more == net.input;
    SharesAddUp(|more|, targets);
    FedMore(Sink(net.capacity, net.stream, net.output, true, net.refused, net.halted, net.crashed), text, more);
    DistributeKeepsSound(net.paths, available, plan);
    DistributeArranges(net.paths, available, more, Shares(|more|, targets), text, net.stream);
    NamedStays(net.paths, r.paths, net.ready);
  }

  // ---------- receiving ----------

  /** Of which frames the first must be META unless the session is known. */
  predicate InTime(k: Sink, frames: seq<Frame>) {
    k.attached || (frames != [] ==> IsMeta(frames[0]))
  }

  lemma {:induction false} DispatchAllArranges(k: Sink, frames: seq<Frame>, lefts: seq<seq<Frame>>, p: nat,
        later: seq<Frame>, text: seq<byte>)
    requires p < |lefts| && lefts[p] == frames + later && Arranged(lefts, text, k.stream) && AllOnPaths(lefts, text)
    requires Fed(k, text) && InTime(k, frames) && !DispatchAll(k, frames).refused
    ensures Arranged(lefts[p := later], text, DispatchAll(k, frames).stream)
    decreases |frames|
  {
    hide Dispatch, DispatchAll, Fed, Arranged, PieceOf, AllOnPaths;
    if frames == [] {
      NoFrames(k);
      assert frames + later == later && lefts[p := later] == lefts;
    } else {
      var r := lefts[p := lefts[p][1..]];
      FirstOf(k, frames, lefts, p, later, text);
      FirstArranges(k, lefts, p, text);
      DispatchAllArranges(Dispatch(k, frames[0]), frames[1..], r, p, later, text);
      assert r[p := later] == lefts[p := later];
    }
  }

  lemma NoFrames(k: Sink)
    ensures DispatchAll(k, []) == k
  {
  }

  /** The first frame, and then the others. */
  lemma FirstOf(k: Sink, frames: seq<Frame>, lefts: seq<seq<Frame>>, p: nat, later: seq<Frame>, text: seq<byte>)
    requires p < |lefts| && frames != [] && lefts[p] == frames + later && AllOnPaths(lefts, text)
    requires Fed(k, text) && InTime(k, frames)
    ensures
      var next := Dispatch(k, frames[0]);
      && lefts[p] != [] && lefts[p][0] == frames[0] && lefts[p][1..] == frames[1..] + later
      && DispatchAll(k, frames) == DispatchAll(next, frames[1..]) && (k.halted || InTime(next, frames[1..]))
      && Fed(next, text) && AllOnPaths(lefts[p := lefts[p][1..]], text) && (IsData(frames[0]) ==> k.attached)
      && (DispatchAll(next, frames[1..]).refused || (!next.refused && !k.refused && !k.halted))
      && next.capacity == k.capacity && next.stream.read >= k.stream.read
  {
    hide Dispatch, Fed, PieceOf, DispatchAll;
    assert frames == [frames[0]] + frames[1..];
    DispatchInTwo(k, [frames[0]], frames[1..]);
    DispatchFirst(k, frames[0]);
    assert AllPieces(lefts[p], text);
    assert frames[0] in lefts[p] && forall f :: f in frames[1..] ==> f in lefts[p];
    DispatchFeeds(k, frames[0], text);
    DispatchFlags(k, frames[0]);
    ReadGrows(k, frames[0]);
    HaltedIsRefused(k, text);
    DispatchAllFeeds(Dispatch(k, frames[0]), frames[1..], text);
  }

  lemma DispatchFirst(k: Sink, f: Frame)
    ensures DispatchAll(k, [f]) == Dispatch(k, f)
  {
    NoFrames(k);
    assert [f][..0] == [];
  }

  lemma ReadGrows(k: Sink, f: Frame)
    ensures Dispatch(k, f).stream.read >= k.stream.read
  {
    hide Answer, Readable;
  }

  lemma HaltedIsRefused(k: Sink, text: seq<byte>)
    requires Fed(k, text)
    ensures k.halted ==> k.refused
  {
  }

  lemma FirstArranges(k: Sink, lefts: seq<seq<Frame>>, p: nat, text: seq<byte>)
    requires p < |lefts| && lefts[p] != [] && Arranged(lefts, text, k.stream) && AllOnPaths(lefts, text)
    requires Fed(k, text) && !k.halted && (IsData(lefts[p][0]) ==> k.attached) && !Dispatch(k, lefts[p][0]).refused
    ensures Arranged(lefts[p := lefts[p][1..]], text, Dispatch(k, lefts[p][0]).stream)
  {
    hide Dispatch, Arranged, PieceOf, Agrees, Gained, Within, IntervalCount;
    assert AllPieces(lefts[p], text);
    DispatchGains(k, lefts[p][0], text);
    AdvanceArranges(lefts, p, text, k.stream, Dispatch(k, lefts[p][0]).stream);
  }

  /** What the paths still hold: the frames delivered are gone, and META came first if it was needed. */
  lemma DeliveredInTime(path: Path, n: nat)
    requires Sound(path) && n <= |path.inFlight|
    ensures
      var frames, r := Deliver(path.Arrived(n)).frames, path.Receive(n);
      && path.Left() == frames + r.Left()
      && (path.attached || (frames != [] ==> IsMeta(frames[0])))
      && Sound(r.(attached := path.attached || frames != []))
      && r.(attached := path.attached || frames != []).Left() == r.Left()
  {
    hide Intact, Deliver;
    ReceiveKeepsIntact(path, n);
    var r, frames := path.Receive(n), Deliver(path.Arrived(n)).frames;
    IntactBounds(path);
    IntactBounds(r);
    AttachingKeepsIntact(r, path.attached || frames != []);
    assert path.taken == 0 && frames != [] ==> path.Left()[0] == path.written[0];
  }

  lemma ReceiveKeeps(net: Net, p: nat, n: nat)
    requires Invariant(net) && Enabled(net, Step.Receive(p, n))
    ensures Invariant(Next(net, Step.Receive(p, n)))
  {
    hide Sound, Fed, Lefts, Arranged, DispatchAll, Deliver, PieceOf, Named;
    NamedStays(net.paths, Next(net, Step.Receive(p, n)).paths, net.ready);
    var path, text := net.paths[p], net.Scheduled();
    var k, frames := net.View(p), Deliver(path.Arrived(n)).frames;
    var r := DispatchAll(k, frames);
    DeliveredInTime(path, n);
    LeftsWith(net.paths, p, path.Receive(n).(attached := r.attached));
    AnyAttached(net, p, text);
    assert AllPieces(Lefts(net.paths)[p], text);
    assert forall f :: f in frames ==> f in path.Left();
    DispatchAllFeeds(k, frames, text);
    SessionIsKnown(k, frames);
    if !r.refused {
      DispatchAllArranges(k, frames, Lefts(net.paths), p, path.Receive(n).Left(), text);
    }
    AnyAttachedBack(r, text);
  }

  /** Whether a path knows its session does not matter to the others. */
  lemma AnyAttached(net: Net, p: nat, text: seq<byte>)
    requires p < |net.paths|
    requires Fed(Sink(net.capacity, net.stream, net.output, true, net.refused, net.halted, net.crashed), text)
    ensures Fed(net.View(p), text)
  {
  }

  lemma AnyAttachedBack(k: Sink, text: seq<byte>)
    requires Fed(k, text)
    ensures Fed(Sink(k.capacity, k.stream, k.output, true, k.refused, k.halted, k.crashed), text)
  {
  }

  lemma ViewAfter(net: Net, p: nat, path: Path, k: Sink)
    requires p < |net.paths| && k.capacity == net.capacity
    ensures net.With(k, p, path).View(p) == k
  {
  }

  lemma StepKeeps(net: Net, step: Step)
    requires Invariant(net) && Enabled(net, step)
    ensures Invariant(Next(net, step)) && Next(net, step).capacity == net.capacity
  {
    hide Invariant, Enabled, Next;
    CapacityStays(net, step);
    match step
    case Message(p, data) => MessageKeeps(net, p, data);
    case Ready(list) => ReadyKeeps(net, list);
    case Input(data) => InputKeeps(net, data);
    case Schedule(targets) => ScheduleKeeps(net, targets);
    case Send(p, n) => SendKeeps(net, p, n);
    case Receive(p, n) => ReceiveKeeps(net, p, n);
  }

  lemma CapacityStays(net: Net, step: Step)
    requires Enabled(net, step)
    ensures Next(net, step).capacity == net.capacity
  {
  }

  lemma {:induction false} RunKeeps(start: Net, steps: seq<Step>)
    requires Invariant(start) && IsRun(start, steps)
    ensures Invariant(After(start, steps)) && After(start, steps).capacity == start.capacity
    decreases |steps|
  {
    hide Invariant, Enabled, Next;
    if steps != [] {
      StepKeeps(start, steps[0]);
      RunKeeps(Next(start, steps[0]), steps[1..]);
    }
  }

  lemma {:induction false} RunInTwo(start: Net, steps: seq<Step>, more: seq<Step>)
    requires IsRun(start, steps) && IsRun(After(start, steps), more)
    ensures IsRun(start, steps + more) && After(start, steps + more) == After(After(start, steps), more)
    decreases |steps|
  {
    hide Enabled, Next;
    if steps == [] {
      assert steps + more == more;
    } else {
      RunInTwo(Next(start, steps[0]), steps[1..], more);
      assert (steps + more)[1..] == steps[1..] + more && (steps + more)[0] == steps[0];
    }
  }

  lemma OneStep(net: Net, step: Step)
    requires Enabled(net, step)
    ensures IsRun(net, [step]) && After(net, [step]) == Next(net, step)
  {
    hide Enabled, Next;
    assert [step][1..] == [];
  }

  lemma NoStep(net: Net)
    ensures IsRun(net, []) && After(net, []) == net
  {
  }

  lemma TwoSteps(net: Net, a: Step, b: Step)
    requires Enabled(net, a) && Enabled(Next(net, a), b)
    ensures IsRun(net, [a, b]) && After(net, [a, b]) == Next(Next(net, a), b)
  {
    hide Enabled, Next;
    assert [a, b][1..] == [b];
    OneStep(Next(net, a), b);
  }

  // ---------- the promise of the proxy ----------

  /**
   At any point of any run, over any number of paths, with any interleaving and any cut of the bytes into writes and
   reads: what has been handed on is the start of what was scheduled, that is the start of what was read, and no data
   arrived at a path that did not know its session.
   */
  lemma OutputIsPrefix(known: seq<bool>, capacity: nat, steps: seq<Step>)
    requires IsRun(Start(known, capacity), steps)
    ensures
      var net := After(Start(known, capacity), steps);
      net.output <= net.Scheduled() <= net.input && !net.crashed
  {
    hide Invariant, IsRun, After;
    StartIsSound(known, capacity);
    RunKeeps(Start(known, capacity), steps);
    OutputIsScheduled(After(Start(known, capacity), steps));
  }

  lemma OutputIsScheduled(net: Net)
    requires Invariant(net)
    ensures net.output <= net.Scheduled() <= net.input && !net.crashed
  {
    hide AllSound, Arranged, Within, IntervalCount;
  }

  /** Nothing is in a write buffer or in the network. */
  predicate Quiet(net: Net) {
    forall p :: 0 <= p < |net.paths| ==> net.paths[p].writeBuffer == [] && net.paths[p].inFlight == []
  }

  lemma QuietHasAll(net: Net)
    requires Invariant(net) && Quiet(net) && !net.refused
    ensures net.output == net.Scheduled() && net.stream.pending == map[]
  {
    hide Intact, Fed, Arranged, AllOnPaths, Lefts, Named;
    forall p | 0 <= p < |net.paths|
      ensures net.paths[p].Left() == []
    {
      QuietPathIsEmpty(net.paths[p]);
    }
    NothingLeftHasAll(net);
  }

  lemma NothingLeftHasAll(net: Net)
    requires Invariant(net) && !net.refused && forall p :: 0 <= p < |net.paths| ==> net.paths[p].Left() == []
    ensures net.output == net.Scheduled() && net.stream.pending == map[]
  {
    hide Sound, Covers, PieceOf, Within, IntervalCount, Named;
    assert forall p :: 0 <= p < |net.paths| ==> Lefts(net.paths)[p] == [];
    AllRead(net.stream, net.output, net.Scheduled());
  }

  lemma AllRead(s: Stream, output: seq<byte>, text: seq<byte>)
    requires Agrees(s, output, text) && forall o: nat :: o < |text| ==> Has(s, o)
    ensures output == text && s.pending == map[]
  {
    assert s.read < |text| ==> Has(s, s.read);
    AtCursor(s);
  }

  /** Once all paths are quiet and no data was refused, everything that was scheduled has been handed on. */
  lemma EverythingArrives(known: seq<bool>, capacity: nat, steps: seq<Step>)
    requires IsRun(Start(known, capacity), steps)
    ensures
      var net := After(Start(known, capacity), steps);
      Quiet(net) && !net.refused ==> net.output == net.Scheduled() && net.stream.pending == map[]
  {
    hide Invariant, IsRun, After, Quiet;
    StartIsSound(known, capacity);
    RunKeeps(Start(known, capacity), steps);
    var net := After(Start(known, capacity), steps);
    if Quiet(net) && !net.refused {
      QuietHasAll(net);
    }
  }

  // ---------- nothing is refused while there is room ----------

  /**
   What is scheduled and not handed on fits the window, and there are not too many frames on their way. A window that
   starts in the text must not wrap around.
   */
  predicate Roomy(net: Net) {
    && |net.Scheduled()| <= |net.output| + net.capacity && net.capacity < U64_RANGE - VARINT62_LIMIT
    && Undelivered(Lefts(net.paths)) < MAX_INTERVALS
  }

  ghost predicate AlwaysRoomy(start: Net, steps: seq<Step>)
    requires IsRun(start, steps)
    decreases |steps|
  {
    Roomy(start) && (steps != [] ==> AlwaysRoomy(Next(start, steps[0]), steps[1..]))
  }

  lemma {:induction false} DispatchAllInRoom(k: Sink, frames: seq<Frame>, lefts: seq<seq<Frame>>, p: nat,
        later: seq<Frame>, text: seq<byte>)
    requires p < |lefts| && lefts[p] == frames + later && Arranged(lefts, text, k.stream) && AllOnPaths(lefts, text)
    requires Fed(k, text) && InTime(k, frames) && !k.refused && Sized(k.capacity, text)
    requires |text| <= k.stream.read + k.capacity && Undelivered(lefts) < MAX_INTERVALS
    ensures !DispatchAll(k, frames).refused
    decreases |frames|
  {
    hide Dispatch, DispatchAll, Fed, Arranged, PieceOf, AllOnPaths, Undelivered, AnswerTo;
    if frames == [] {
      NoFrames(k);
    } else {
      FirstOf(k, frames, lefts, p, later, text);
      HaltedIsRefused(k, text);
      DispatchFlags(k, frames[0]);
      if IsData(frames[0]) {
        RoomForFirst(k, lefts, p, text);
      }
      FirstArranges(k, lefts, p, text);
      LessUndelivered(lefts, p);
      DispatchAllInRoom(Dispatch(k, frames[0]), frames[1..], lefts[p := lefts[p][1..]], p, later, text);
    }
  }

  lemma ReceiveInRoom(net: Net, p: nat, n: nat)
    requires Invariant(net) && Enabled(net, Step.Receive(p, n)) && !net.refused && Roomy(net)
    ensures !Next(net, Step.Receive(p, n)).refused
  {
    hide Sound, Fed, Lefts, Arranged, DispatchAll, Deliver, PieceOf, Undelivered;
    var path, text := net.paths[p], net.Scheduled();
    var frames := Deliver(path.Arrived(n)).frames;
    DeliveredInTime(path, n);
    LeftsWith(net.paths, p, path);
    AnyAttached(net, p, text);
    OutputLength(net.View(p), text);
    DispatchAllInRoom(net.View(p), frames, Lefts(net.paths), p, path.Receive(n).Left(), text);
  }

  lemma OutputLength(k: Sink, text: seq<byte>)
    requires Fed(k, text)
    ensures |k.output| == k.stream.read <= |text| && k.output == text[..k.stream.read]
  {
  }

  lemma StepInRoom(net: Net, step: Step)
    requires Invariant(net) && Enabled(net, step) && !net.refused && Roomy(net)
    ensures !Next(net, step).refused
  {
    hide Invariant, Roomy, Lefts, Distribute, DispatchAll;
    if step.Receive? {
      ReceiveInRoom(net, step.path, step.n);
    }
  }

  lemma {:induction false} RunInRoom(start: Net, steps: seq<Step>)
    requires Invariant(start) && IsRun(start, steps) && !start.refused && AlwaysRoomy(start, steps)
    ensures !After(start, steps).refused
    decreases |steps|
  {
    hide Invariant, Enabled, Next, Roomy;
    if steps != [] {
      StepInRoom(start, steps[0]);
      StepKeeps(start, steps[0]);
      RunInRoom(Next(start, steps[0]), steps[1..]);
    }
  }

  /**
   As long as what is scheduled and not handed on fits the window and fewer than 10000 frames are on their way, no data
   is refused; so once all paths are quiet everything that was scheduled has been handed on.
   */
  lemma NothingIsRefused(known: seq<bool>, capacity: nat, steps: seq<Step>)
    requires IsRun(Start(known, capacity), steps) && AlwaysRoomy(Start(known, capacity), steps)
    ensures
      var net := After(Start(known, capacity), steps);
      !net.refused && (Quiet(net) ==> net.output == net.Scheduled() && net.stream.pending == map[])
  {
    hide Invariant, IsRun, After, Quiet, AlwaysRoomy;
    StartIsSound(known, capacity);
    RunInRoom(Start(known, capacity), steps);
    EverythingArrives(known, capacity, steps);
  }

  // ---------- what is lost stays lost ----------

  ghost predicate LostFrom(net: Net, o: nat) {
    o < |net.Scheduled()| && Lost(Lefts(net.paths), net.stream, o)
  }

  /** The receiver has nothing but what it was given. */
  lemma {:induction false} DispatchAllAdds(k: Sink, frames: seq<Frame>, text: seq<byte>, o: nat)
    requires Fed(k, text) && AllPieces(frames, text) && !SomeCovers(frames, o) && !Has(k.stream, o)
    ensures !Has(DispatchAll(k, frames).stream, o)
  {
    hide Dispatch, Fed, PieceOf, Has, Covers;
    if frames != [] {
      var n := |frames| - 1;
      var before := DispatchAll(k, frames[..n]);
      DispatchAllAdds(k, frames[..n], text, o);
      DispatchAllFeeds(k, frames[..n], text);
      assert frames[n] in frames;
      DispatchAdds(before, frames[n], text, o);
    }
  }

  lemma DispatchAdds(k: Sink, f: Frame, text: seq<byte>, o: nat)
    requires Fed(k, text) && PieceOf(f, text) && !Covers(f, o) && !Has(k.stream, o)
    ensures !Has(Dispatch(k, f).stream, o)
  {
    hide Receivers.Received, Agrees, AnswerTo, Has, Within, IntervalCount, PieceOf;
    if IsData(f) {
      ReceivedAgrees(k, f, text);
    }
  }

  lemma ReceiveAdds(net: Net, p: nat, n: nat, o: nat)
    requires Invariant(net) && Enabled(net, Step.Receive(p, n)) && !Has(net.stream, o)
    requires !SomeCovers(net.paths[p].Left(), o)
    ensures !Has(Next(net, Step.Receive(p, n)).stream, o)
    ensures !SomeCovers(Next(net, Step.Receive(p, n)).paths[p].Left(), o)
  {
    hide Sound, Fed, Lefts, Arranged, DispatchAll, Deliver, PieceOf, SomeCovers, Has;
    var path, text := net.paths[p], net.Scheduled();
    var frames, later := Deliver(path.Arrived(n)).frames, path.Receive(n).Left();
    DeliveredInTime(path, n);
    LeftsWith(net.paths, p, path);
    AnyAttached(net, p, text);
    assert AllPieces(Lefts(net.paths)[p], text);
    assert forall f :: f in frames ==> f in path.Left();
    CoversBoth(frames, later, o);
    DispatchAllAdds(net.View(p), frames, text, o);
    assert Next(net, Step.Receive(p, n)).paths[p].Left() == later;
  }

  lemma ReceiveStaysLost(net: Net, p: nat, n: nat, o: nat)
    requires Invariant(net) && Enabled(net, Step.Receive(p, n)) && LostFrom(net, o)
    ensures LostFrom(Next(net, Step.Receive(p, n)), o)
  {
    hide Invariant, Lefts, SomeCovers, DispatchAll, Deliver, Has;
    var r := Next(net, Step.Receive(p, n));
    LeftsWith(net.paths, p, r.paths[p]);
    assert !SomeCovers(Lefts(net.paths)[p], o);
    ReceiveAdds(net, p, n, o);
    assert r.Scheduled() == net.Scheduled();
    assert forall q :: 0 <= q < |net.paths| ==> !SomeCovers(Lefts(r.paths)[q], o);
  }

  lemma StepStaysLost(net: Net, step: Step, o: nat)
    requires Invariant(net) && Enabled(net, step) && LostFrom(net, o)
    ensures LostFrom(Next(net, step), o)
  {
    hide Invariant, Lefts, Distribute, DispatchAll, Has, Awaited;
    match step
    case Message(p, data) => MessageKeeps(net, p, data);
    case Ready(list) => ReadyKeeps(net, list);
    case Input(data) => InputKeeps(net, data);
    case Schedule(targets) => ScheduleKeeps(net, targets);
    case Send(p, n) =>
      SendKeeps(net, p, n);
      assert Next(net, step).Scheduled() == net.Scheduled();
    case Receive(p, n) => ReceiveStaysLost(net, p, n, o);
  }

  /** In every later state the offset is lost, and the output does not reach it. */
  lemma {:induction false} LostForGood(start: Net, steps: seq<Step>, o: nat)
    requires Invariant(start) && IsRun(start, steps) && LostFrom(start, o)
    ensures LostFrom(After(start, steps), o) && |After(start, steps).output| <= o < |After(start, steps).Scheduled()|
    decreases |steps|
  {
    hide Invariant, Enabled, Next, Lefts, Awaited;
    if steps == [] {
      LostIsNotRead(start, o);
    } else {
      StepStaysLost(start, steps[0], o);
      StepKeeps(start, steps[0]);
      LostForGood(Next(start, steps[0]), steps[1..], o);
    }
  }

  lemma LostIsNotRead(net: Net, o: nat)
    requires Invariant(net) && LostFrom(net, o)
    ensures |net.output| <= o
  {
    hide Sound, Fed, Lefts, Arranged, Awaited;
    OutputLength(Sink(net.capacity, net.stream, net.output, true, net.refused, net.halted, net.crashed),
      net.Scheduled());
  }
}
