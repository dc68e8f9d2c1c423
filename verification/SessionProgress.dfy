/** From which states of Sessions a session can start and hand on all that was read. */
module SessionProgress {
  import opened Words
  import opened Lists
  import opened ByteCodec
  import opened Framing
  import opened Striping
  import opened Receivers
  import opened Registries
  import opened Metas
  import opened SequencerBuffers
  import opened Paths
  import opened Sessions
  import opened SessionSteps
  import opened SessionRuns
  import Streams
  import M = Multipath
  import P = Progress
  import O = Overruns

  // ---------- short runs ----------

  lemma {:induction false} JoinRuns(start: World, steps: seq<Step>, more: seq<Step>)
    requires IsRun(start, steps) && IsRun(After(start, steps), more)
    ensures IsRun(start, steps + more) && After(start, steps + more) == After(After(start, steps), more)
    decreases |steps|
  {
    hide Enabled, Next;
    if steps == [] {
      assert steps + more == more;
    } else {
      JoinRuns(Next(start, steps[0]), steps[1..], more);
      assert (steps + more)[1..] == steps[1..] + more && (steps + more)[0] == steps[0];
    }
  }

  lemma OneStep(w: World, step: Step)
    requires Enabled(w, step)
    ensures IsRun(w, [step]) && After(w, [step]) == Next(w, step)
  {
    hide Enabled, Next;
    assert [step][1..] == [];
  }

  lemma NoStep(w: World)
    ensures IsRun(w, []) && After(w, []) == w
  {
  }

  // ---------- the word that the origin is reached ----------

  /** Steps of the way back only. */
  predicate OnlyReplies(steps: seq<Step>) {
    forall s :: s in steps ==> s.Reply? || s.Hear?
  }

  /**
   If the endpoint of a path has reached its origin, the sender can hear of it on that path: then the origin is
   connected for the session, and the path is ready.
   */
  lemma OriginIsHeard(w: World, i: nat, p: nat) returns (steps: seq<Step>)
    requires Good(w) && IsAttached(w, i, p) && LaneAt(w, i, p).server.value < |w.endpoints|
    requires w.endpoints[LaneAt(w, i, p).server.value].connected
    ensures IsRun(w, steps) && OnlyReplies(steps)
    ensures
      var r := After(w, steps);
      && Good(r) && |r.senders| == |w.senders| && IsAttached(r, i, p) && r.capacity == w.capacity
      && r.senders[i].originConnected && p in r.senders[i].readyList
      && Steady(Project(w, i), Project(r, i))
  {
    hide Good, IsRun, After, Next, Steady, Project;
    var reply := Reply(i, p, |LaneAt(w, i, p).back.writeBuffer|);
    var a := Next(w, reply);
    ReplySent(w, i, p);
    var hear := Hear(i, p, |LaneAt(a, i, p).back.inFlight|);
    HearReceived(a, i, p);
    OneStep(w, reply);
    OneStep(a, hear);
    JoinRuns(w, [reply], [hear]);
    steps := [reply] + [hear];
    SteadyTwice(Project(w, i), Project(a, i), Project(Next(a, hear), i));
    ReadyOnceHeard(Next(a, hear), i, p);
  }

  /** What is sent and received on a way back is that of one session, and nothing else changes. */
  lemma ReplySent(w: World, i: nat, p: nat)
    requires Good(w) && IsAttached(w, i, p) && LaneAt(w, i, p).server.value < |w.endpoints|
    requires w.endpoints[LaneAt(w, i, p).server.value].connected
    ensures Enabled(w, Reply(i, p, |LaneAt(w, i, p).back.writeBuffer|))
    ensures
      var r := Next(w, Reply(i, p, |LaneAt(w, i, p).back.writeBuffer|));
      && Good(r) && |r.senders| == |w.senders| && IsAttached(r, i, p) && r.capacity == w.capacity
      && LaneAt(r, i, p).back.written != [] && LaneAt(r, i, p).back.writeBuffer == []
      && Steady(Project(w, i), Project(r, i))
  {
    hide Base, Project, M.Invariant, Speaks, Intact;
    var reply := Reply(i, p, |LaneAt(w, i, p).back.writeBuffer|);
    StepKeeps(w, reply);
    ReplyKeeps(w, i, p, |LaneAt(w, i, p).back.writeBuffer|);
    SteadyItself(Project(w, i));
    ToldAlready(w, i, p);
  }

  lemma ToldAlready(w: World, i: nat, p: nat)
    requires Base(w) && IsAttached(w, i, p) && LaneAt(w, i, p).server.value < |w.endpoints|
    requires w.endpoints[LaneAt(w, i, p).server.value].connected
    ensures LaneAt(w, i, p).back.written != []
  {
    hide Known, Listed, Numbered, Speaks, Answers;
    assert LaneOk(w, i, p);
  }

  lemma HearReceived(w: World, i: nat, p: nat)
    requires Good(w) && IsAttached(w, i, p)
    requires LaneAt(w, i, p).back.written != [] && LaneAt(w, i, p).back.writeBuffer == []
    ensures Enabled(w, Hear(i, p, |LaneAt(w, i, p).back.inFlight|))
    ensures
      var r := Next(w, Hear(i, p, |LaneAt(w, i, p).back.inFlight|));
      && Good(r) && |r.senders| == |w.senders| && IsAttached(r, i, p) && r.capacity == w.capacity
      && LaneAt(r, i, p).back.written != [] && LaneAt(r, i, p).back.writeBuffer == []
      && LaneAt(r, i, p).back.inFlight == [] && Steady(Project(w, i), Project(r, i))
  {
    hide Base, Project, M.Invariant, Speaks, Intact, HearSender, Deliver, Added, M.Named;
    var n := |LaneAt(w, i, p).back.inFlight|;
    var hear := Hear(i, p, n);
    StepKeeps(w, hear);
    HearKeeps(w, i, p, n);
    StepKeepsBase(w, hear);
    HearKeepsLane(w.senders[i], p, Deliver(LaneAt(w, i, p).back.Arrived(n)).frames);
    MoreReadyIsSteady(Project(w, i), Added(w.senders[i], Next(w, hear).senders[i]));
  }

  lemma {:induction false} HearKeepsLane(s: Sender, p: nat, frames: seq<Frame>)
    requires p < |s.lanes|
    ensures HearAll(s, p, frames).lanes[p] == s.lanes[p].(heard := HearAll(s, p, frames).lanes[p].heard)
  {
    hide UpIn, Without<nat>;
    if frames != [] {
      HearKeepsLane(s, p, frames[..|frames| - 1]);
    }
  }

  /** Once everything on the way back has arrived the word was heard, so all paths that are up are ready. */
  lemma ReadyOnceHeard(w: World, i: nat, p: nat)
    requires Good(w) && IsAttached(w, i, p) && LaneAt(w, i, p).back.written != []
    requires LaneAt(w, i, p).back.writeBuffer == [] && LaneAt(w, i, p).back.inFlight == []
    ensures w.senders[i].originConnected && p in w.senders[i].readyList
  {
    hide Known, Numbered, Listed, Intact, M.Invariant;
    assert LaneOk(w, i, p);
    IntactBounds(LaneAt(w, i, p).back);
    QuietPathIsEmpty(LaneAt(w, i, p).back);
    AttachedIsUp(w, i, p);
    UpIsReady(w, i, p);
  }

  lemma AttachedIsUp(w: World, i: nat, p: nat)
    requires Good(w) && IsAttached(w, i, p)
    ensures LaneAt(w, i, p).up
  {
    hide Known, Numbered, Listed, Intact, Answers;
    assert LaneOk(w, i, p) && M.Invariant(Project(w, i));
    PathsAre(w, i, p);
    assert M.Sound(Project(w, i).paths[p]);
    IntactBounds(LaneAt(w, i, p).path);
  }

  lemma UpIsReady(w: World, i: nat, p: nat)
    requires Base(w) && IsLane(w, i, p) && LaneAt(w, i, p).up && w.senders[i].originConnected
    ensures p in w.senders[i].readyList
  {
    hide LaneOk, Known, Numbered;
    assert Listed(w.senders[i]);
  }

  // ---------- one session by itself ----------

  /** The receiving end and what was read are the same; META may have been written, and more paths may be ready. */
  predicate Steady(net: M.Net, r: M.Net) {
    && r.input == net.input && r.unscheduled == net.unscheduled && r.writeOffset == net.writeOffset
    && r.capacity == net.capacity && r.stream == net.stream && r.output == net.output
    && r.refused == net.refused && r.halted == net.halted
    && M.Grown(net.paths, r.paths) && net.ready <= r.ready
  }

  lemma SteadyItself(net: M.Net)
    ensures Steady(net, net)
  {
  }

  lemma SteadyTwice(a: M.Net, b: M.Net, c: M.Net)
    requires Steady(a, b) && Steady(b, c)
    ensures Steady(a, c)
  {
  }

  lemma MoreReadyIsSteady(net: M.Net, list: seq<nat>)
    requires M.Enabled(net, M.Ready(list))
    ensures Steady(net, M.Next(net, M.Ready(list)))
  {
    hide M.Named;
  }

  // ---------- all paths come up ----------

  lemma UpOne(w: World, i: nat, p: nat)
    requires Good(w) && Enabled(w, Up(i, p))
    ensures
      var r := Next(w, Up(i, p));
      && Good(r) && |r.senders| == |w.senders| && r.capacity == w.capacity
      && Steady(Project(w, i), Project(r, i)) && IsLane(r, i, p) && Project(r, i).paths[p].written != []
  {
    hide Base, Project, M.Invariant, Speaks, Intact, UpSender, Added, EncodeFrames, Meta.Encode;
    var net, meta := Project(w, i), w.senders[i].meta;
    var message, r := M.Message(p, meta.ToFrame().data), Next(w, Up(i, p));
    StepKeeps(w, Up(i, p));
    StepKeepsBase(w, Up(i, p));
    UpKeeps(w, i, p);
    MessageIsSteady(net, p, meta.ToFrame().data);
    MoreReadyIsSteady(M.Next(net, message), Added(w.senders[i], r.senders[i]));
    SteadyTwice(net, M.Next(net, message), Project(r, i));
  }

  lemma MessageIsSteady(net: M.Net, p: nat, data: seq<byte>)
    requires M.Enabled(net, M.Message(p, data))
    ensures
      var r := M.Next(net, M.Message(p, data));
      Steady(net, r) && r.paths[p].written != []
  {
    hide EncodeFrames;
  }

  lemma {:induction false} UpToLane(w: World, i: nat, n: nat) returns (steps: seq<Step>)
    requires Good(w) && i < |w.senders| && n <= |w.senders[i].lanes|
    ensures IsRun(w, steps)
    ensures
      var r := After(w, steps);
      && Good(r) && |r.senders| == |w.senders| && r.capacity == w.capacity && Steady(Project(w, i), Project(r, i))
      && forall p :: 0 <= p < n ==> Project(r, i).paths[p].written != []
    decreases n
  {
    hide Good, IsRun, After, Next, Project;
    if n == 0 {
      steps := [];
      NoStep(w);
      SteadyItself(Project(w, i));
    } else {
      steps := UpToLane(w, i, n - 1);
      var a := After(w, steps);
      if LaneAt(a, i, n - 1).up {
        UpIsWritten(a, i, n - 1);
      } else {
        UpOne(a, i, n - 1);
        OneStep(a, Up(i, n - 1));
        JoinRuns(w, steps, [Up(i, n - 1)]);
        SteadyTwice(Project(w, i), Project(a, i), Project(Next(a, Up(i, n - 1)), i));
        steps := steps + [Up(i, n - 1)];
      }
    }
  }

  lemma UpIsWritten(w: World, i: nat, p: nat)
    requires Good(w) && IsLane(w, i, p)
    ensures LaneAt(w, i, p).up <==> Project(w, i).paths[p].written != []
  {
    hide Known, Numbered, Listed, M.Invariant, Answers;
    assert LaneOk(w, i, p);
    PathsAre(w, i, p);
  }

  // ---------- sends and receives ----------

  /** What one session can send and receive by itself it can among all others. */
  lemma {:induction false} Lift(w: World, i: nat, more: seq<M.Step>) returns (steps: seq<Step>)
    requires Good(w) && i < |w.senders| && P.OnlyDelivers(more) && M.IsRun(Project(w, i), more)
    ensures IsRun(w, steps)
    ensures
      var r := After(w, steps);
      && Good(r) && |r.senders| == |w.senders| && r.capacity == w.capacity
      && Project(r, i) == M.After(Project(w, i), more)
    decreases |more|
  {
    hide Good, IsRun, After, Next, Project, M.Enabled, M.Next, Enabled;
    steps := [];
    NoStep(w);
    if more != [] {
      var step := Lifted(i, more[0]);
      assert more[0] in more && forall s :: s in more[1..] ==> s in more;
      LiftOne(w, i, more[0]);
      var later := Lift(Next(w, step), i, more[1..]);
      OneStep(w, step);
      JoinRuns(w, [step], later);
      steps := [step] + later;
    }
  }

  function Lifted(i: nat, step: M.Step): Step
    requires step.Send? || step.Receive?
  {
    if step.Send? then Step.Send(i, step.path, step.n) else Step.Receive(i, step.path, step.n)
  }

  lemma LiftOne(w: World, i: nat, step: M.Step)
    requires Good(w) && i < |w.senders| && (step.Send? || step.Receive?) && M.Enabled(Project(w, i), step)
    ensures Enabled(w, Lifted(i, step))
    ensures
      var r := Next(w, Lifted(i, step));
      && Good(r) && |r.senders| == |w.senders| && r.capacity == w.capacity
      && Project(r, i) == M.Next(Project(w, i), step)
  {
    hide Base, M.Next, Next, M.Invariant, SinkFor;
    PathsAre(w, i, step.path);
    StepKeeps(w, Lifted(i, step));
    StepKeepsBase(w, Lifted(i, step));
    if step.Send? {
      SendKeeps(w, i, step.path, step.n);
    } else {
      ReceiveKeeps(w, i, step.path, step.n);
    }
  }

  /** Sends and receives do not concern what was read or scheduled, nor what was written on the paths. */
  predicate SameSender(net: M.Net, r: M.Net) {
    && r.input == net.input && r.unscheduled == net.unscheduled && r.writeOffset == net.writeOffset
    && r.capacity == net.capacity && r.ready == net.ready && M.Grown(net.paths, r.paths)
    && forall p :: 0 <= p < |net.paths| ==> net.paths[p].attached ==> r.paths[p].attached
  }

  lemma {:induction false} AttachedStays(k: Sink, frames: seq<Frame>)
    requires k.attached
    ensures DispatchAll(k, frames).attached
  {
    hide AnswerTo, Receivers.Received;
    if frames != [] {
      AttachedStays(k, frames[..|frames| - 1]);
      var before, f := DispatchAll(k, frames[..|frames| - 1]), frames[|frames| - 1];
      if IsData(f) {
        ReceivedFlags(before, f);
      }
    }
  }

  lemma DeliverKeepsSender(net: M.Net, step: M.Step)
    requires (step.Send? || step.Receive?) && M.Enabled(net, step)
    ensures SameSender(net, M.Next(net, step))
  {
    hide DispatchAll, Deliver;
    match step
    case Send(p, n) =>
    case Receive(p, n) =>
      if net.paths[p].attached {
        AttachedStays(net.View(p), Deliver(net.paths[p].Arrived(n)).frames);
      }
      M.CapacityStays(net, step);
  }

  lemma {:induction false} DeliversKeepSender(net: M.Net, steps: seq<M.Step>)
    requires P.OnlyDelivers(steps) && M.IsRun(net, steps)
    ensures SameSender(net, M.After(net, steps))
    decreases |steps|
  {
    hide M.Enabled, M.Next;
    if steps != [] {
      assert steps[0] in steps && forall s :: s in steps[1..] ==> s in steps;
      DeliverKeepsSender(net, steps[0]);
      DeliversKeepSender(M.Next(net, steps[0]), steps[1..]);
    }
  }

  // ---------- META arrives on one path ----------

  lemma MetaArrives(net: M.Net, p: nat) returns (steps: seq<M.Step>)
    requires M.Invariant(net) && !net.refused && p < |net.paths| && net.paths[p].written != []
    ensures M.IsRun(net, steps) && P.OnlyDelivers(steps)
    ensures
      var r := M.After(net, steps);
      Steady(net, r) && p < |r.paths| && r.paths[p].attached
  {
    hide M.Invariant, M.IsRun, M.After, Dispatch;
    steps := [];
    M.NoStep(net);
    if net.paths[p].attached {
      SteadyItself(net);
    } else {
      MetaIsNext(net, p);
      steps := P.ReceiveOne(net, p);
      DeliversKeepSender(net, steps);
      DispatchMeta(net.View(p), net.paths[p].Left()[0]);
      var r := M.After(net, steps);
      assert r.View(p) == net.View(p).(attached := true);
    }
  }

  lemma MetaIsNext(net: M.Net, p: nat)
    requires M.Invariant(net) && !net.refused && p < |net.paths| && net.paths[p].written != [] && !net.paths[p].attached
    ensures net.paths[p].Left() != [] && IsMeta(net.paths[p].Left()[0]) && !net.halted
  {
    hide M.Lefts, Intact, IsMeta;
    assert M.Sound(net.paths[p]);
    IntactBounds(net.paths[p]);
  }

  lemma DispatchMeta(k: Sink, f: Frame)
    requires IsMeta(f) && !k.halted
    ensures Dispatch(k, f) == k.(attached := true)
  {
  }

  // ---------- all of it is put on the wire and scheduled ----------

  lemma {:induction false} SendToPath(net: M.Net, n: nat) returns (steps: seq<M.Step>)
    requires M.Invariant(net) && n <= |net.paths|
    ensures M.IsRun(net, steps) && P.OnlyDelivers(steps)
    ensures
      var r := M.After(net, steps);
      && M.Invariant(r) && Steady(net, r) && SameSender(net, r)
      && forall p :: 0 <= p < n ==> r.paths[p].writeBuffer == []
    decreases n
  {
    hide M.Invariant, M.IsRun, M.After;
    steps := [];
    M.NoStep(net);
    if n > 0 {
      steps := SendToPath(net, n - 1);
      var a := M.After(net, steps);
      var more := O.SendAll(a, n - 1);
      M.RunInTwo(net, steps, more);
      steps := steps + more;
      DeliversKeepSender(net, steps);
    }
  }

  function Zeros(n: nat): seq<nat> {
    seq(n, _ => 0)
  }

  /** All that was read is scheduled on the ready paths. */
  lemma ScheduleAll(w: World, i: nat) returns (targets: seq<nat>)
    requires Good(w) && i < |w.senders| && !Project(w, i).refused
    requires RESERVE_OFFSET + |w.senders[i].input| <= VARINT62_LIMIT
    requires 0 in w.senders[i].readyList && |w.senders[i].lanes| > 0 && Project(w, i).paths[0].writeBuffer == []
    ensures Enabled(w, Schedule(i, targets))
    ensures
      var net, r := Project(w, i), Next(w, Schedule(i, targets));
      && Good(r) && |r.senders| == |w.senders| && r.capacity == w.capacity && !Project(r, i).refused
      && Project(r, i).Scheduled() == net.input && Project(r, i).input == net.input
      && Project(r, i).stream == net.stream && Project(r, i).ready == net.ready && |Project(r, i).paths| == |net.paths|
      && (net.paths[0].attached ==> Project(r, i).paths[0].attached)
  {
    hide Base, M.Invariant, SinkFor, M.Distribute, M.SchedulePlan, M.WithRoom;
    var net := Project(w, i);
    M.Extent(net);
    ListedOnce(w, i);
    M.WithRoomIs(net.paths, net.ready);
    assert 0 in M.WithRoom(net.paths, net.ready);
    targets := Zeros(|M.WithRoom(net.paths, net.ready)| - 1);
    PathsAreProjected(w, i);
    StepKeeps(w, Schedule(i, targets));
    StepKeepsBase(w, Schedule(i, targets));
    ScheduleKeeps(w, i, targets);
    DistributeKeepsAttached(net.paths, M.WithRoom(net.paths, net.ready), M.SchedulePlan(net, targets));
  }

  lemma ListedOnce(w: World, i: nat)
    requires Base(w) && i < |w.senders|
    ensures NoDuplicates(w.senders[i].readyList)
  {
    hide LaneOk, Known, Numbered;
    assert Listed(w.senders[i]);
  }

  lemma {:induction false} DistributeKeepsAttached(paths: seq<Path>, available: seq<nat>, plan: seq<seq<Frame>>)
    requires |available| == |plan| && M.InRange(available, |paths|)
    requires forall frames :: frames in plan ==> AllWritable(frames)
    ensures forall p :: 0 <= p < |paths| ==> M.Distribute(paths, available, plan)[p].attached == paths[p].attached
    decreases |plan|
  {
    hide EncodeFrames;
    if plan != [] {
      var p := available[0];
      DistributeKeepsAttached(paths[p := paths[p].Write(plan[0])], available[1..], plan[1..]);
    }
  }

  // ---------- a session starts ----------

  ghost predicate AllReady(w: World, i: nat)
    requires i < |w.senders|
  {
    forall p: nat :: p < |w.senders[i].lanes| ==> p in w.senders[i].readyList
  }

  /** The origin is reached: its endpoint knows, and no session is disturbed. */
  lemma OriginIsReached(w: World, i: nat, p: nat) returns (steps: seq<Step>)
    requires Good(w) && IsLane(w, i, p) && Project(w, i).paths[p].attached
    ensures IsRun(w, steps)
    ensures
      var r := After(w, steps);
      && Good(r) && |r.senders| == |w.senders| && r.capacity == w.capacity && Steady(Project(w, i), Project(r, i))
      && IsAttached(r, i, p) && LaneAt(r, i, p).server.value < |r.endpoints|
      && r.endpoints[LaneAt(r, i, p).server.value].connected
  {
    hide Base, IsRun, After, Project, M.Invariant, ToldAll;
    PathsAre(w, i, p);
    AttachedToEndpoint(w, i, p);
    SteadyItself(Project(w, i));
    var e := LaneAt(w, i, p).server.value;
    var r := Next(w, OriginReached(e));
    StepKeeps(w, OriginReached(e));
    StepKeepsBase(w, OriginReached(e));
    OriginKeeps(w, e);
    PathsAre(r, i, p);
    AttachedToEndpoint(r, i, p);
    SameServer(w, e, i, p);
    OneStep(w, OriginReached(e));
    steps := [OriginReached(e)];
  }

  lemma AttachedToEndpoint(w: World, i: nat, p: nat)
    requires Base(w) && IsLane(w, i, p) && LaneAt(w, i, p).path.attached
    ensures IsAttached(w, i, p) && LaneAt(w, i, p).server.value < |w.endpoints|
    ensures Project(w, i).output == w.endpoints[LaneAt(w, i, p).server.value].output
  {
    hide Known, Numbered, Listed, Speaks, Answers;
    assert LaneOk(w, i, p);
  }

  lemma SameServer(w: World, e: nat, i: nat, p: nat)
    requires IsLane(w, i, p) && Enabled(w, OriginReached(e)) && IsLane(Next(w, OriginReached(e)), i, p)
    ensures LaneAt(Next(w, OriginReached(e)), i, p).server == LaneAt(w, i, p).server
  {
    ToldKeeps(w.senders[i].lanes, i, w.endpoints[e].readyList);
  }

  /**
   Any session can start: all its paths come up, META arrives on one of them, the origin is reached, and the word of
   that comes back; then all its paths are ready.
   */
  lemma AllBecomeReady(w: World, i: nat) returns (steps: seq<Step>)
    requires Good(w) && i < |w.senders| && |w.senders[i].lanes| > 0 && !Project(w, i).refused
    ensures IsRun(w, steps)
    ensures
      var r := After(w, steps);
      && Good(r) && |r.senders| == |w.senders| && r.capacity == w.capacity && Steady(Project(w, i), Project(r, i))
      && AllReady(r, i) && Project(r, i).paths[0].attached
  {
    hide Good, IsRun, After, Project, Steady, M.Invariant;
    var net := Project(w, i);
    var first := UpToLane(w, i, |w.senders[i].lanes|);
    var a := After(w, first);
    SteadyParts(net, Project(a, i));
    GoodIsInvariant(a, i);
    var arrive := MetaArrives(Project(a, i), 0);
    var second := Lift(a, i, arrive);
    var b := After(a, second);
    SteadyParts(Project(a, i), Project(b, i));
    var third := OriginIsReached(b, i, 0);
    var c := After(b, third);
    var fourth := OriginIsHeard(c, i, 0);
    var d := After(c, fourth);
    SteadyTwice(net, Project(a, i), Project(b, i));
    SteadyTwice(net, Project(b, i), Project(c, i));
    SteadyTwice(net, Project(c, i), Project(d, i));
    SteadyTwice(Project(b, i), Project(c, i), Project(d, i));
    SteadyTwice(Project(a, i), Project(b, i), Project(d, i));
    SteadyParts(Project(a, i), Project(d, i));
    WrittenAreReady(d, i);
    AttachedPath(d, i, 0);
    JoinRuns(w, first, second);
    JoinRuns(w, first + second, third);
    JoinRuns(w, first + second + third, fourth);
    steps := first + second + third + fourth;
  }

  lemma SteadyParts(net: M.Net, r: M.Net)
    requires Steady(net, r)
    ensures |r.paths| == |net.paths| && r.refused == net.refused
    ensures forall p :: 0 <= p < |net.paths| && net.paths[p].written != [] ==> r.paths[p].written != []
  {
  }

  lemma GoodIsInvariant(w: World, i: nat)
    requires Good(w) && i < |w.senders|
    ensures M.Invariant(Project(w, i))
  {
    hide Base, M.Invariant;
  }

  lemma WrittenAreReady(w: World, i: nat)
    requires Good(w) && i < |w.senders| && w.senders[i].originConnected
    requires forall p :: 0 <= p < |w.senders[i].lanes| ==> Project(w, i).paths[p].written != []
    ensures AllReady(w, i)
  {
    hide Base, Project, M.Invariant;
    forall p: nat | p < |w.senders[i].lanes|
      ensures p in w.senders[i].readyList
    {
      UpIsWritten(w, i, p);
      UpIsReady(w, i, p);
    }
  }

  lemma AttachedPath(w: World, i: nat, p: nat)
    requires Good(w) && IsAttached(w, i, p)
    ensures Project(w, i).paths[p].attached
  {
    hide Known, Numbered, Listed, M.Invariant, Answers, Speaks;
    assert LaneOk(w, i, p);
    PathsAre(w, i, p);
  }

  // ---------- and hands on all that was read ----------

  /** With the paths ready, all that was read is scheduled and handed on. */
  lemma ReadyDeliver(w: World, i: nat) returns (steps: seq<Step>)
    requires Good(w) && CanFinish(w, i) && AllReady(w, i) && Project(w, i).paths[0].attached
    ensures IsRun(w, steps) && Finished(w, i, After(w, steps))
  {
    hide Good, IsRun, After, Project, M.Invariant, M.IsRun, M.After, Next, Enabled;
    GoodIsInvariant(w, i);
    ProjectIs(w, i);
    var send := SendToPath(Project(w, i), |Project(w, i).paths|);
    var first := Lift(w, i, send);
    var a := After(w, first);
    ProjectIs(a, i);
    var targets := ScheduleAll(a, i);
    OneStep(a, Schedule(i, targets));
    var b := Next(a, Schedule(i, targets));
    ProjectIs(b, i);
    GoodIsInvariant(b, i);
    var deliver := P.GoOnToTheEnd(Project(b, i));
    DeliversKeepSender(Project(b, i), deliver);
    var third := Lift(b, i, deliver);
    var c := After(b, third);
    ProjectIs(c, i);
    ServerHasIt(c, i);
    JoinRuns(w, first, [Schedule(i, targets)]);
    JoinRuns(w, first + [Schedule(i, targets)], third);
    steps := first + [Schedule(i, targets)] + third;
  }

  /** Nothing was refused, there is room at the cursor, the text has offsets, and its frames fit the window. */
  predicate CanFinish(w: World, i: nat) {
    && i < |w.senders| && |w.senders[i].lanes| > 0 && !Project(w, i).refused
    && (Project(w, i).stream.read > 0 || Streams.IntervalCount(Project(w, i).stream) < MAX_INTERVALS - 1)
    && RESERVE_OFFSET + |w.senders[i].input| <= VARINT62_LIMIT && P.Usable(w.capacity, w.senders[i].input)
  }

  /** The session is still there, all its paths are ready, and its endpoint has handed on exactly what was read. */
  ghost predicate Finished(w: World, i: nat, r: World)
    requires i < |w.senders|
  {
    && |r.senders| == |w.senders| && r.senders[i].input == w.senders[i].input
    && |r.senders[i].lanes| == |w.senders[i].lanes| > 0 && AllReady(r, i) && !Project(r, i).refused
    && var server := r.senders[i].lanes[0].server;
       server.Some? && server.value < |r.endpoints| && r.endpoints[server.value].output == r.senders[i].input
  }

  lemma ProjectIs(w: World, i: nat)
    requires i < |w.senders|
    ensures
      var net, s := Project(w, i), w.senders[i];
      && net.input == s.input && net.ready == s.readyList && |net.paths| == |s.lanes| && net.capacity == w.capacity
  {
  }

  lemma ServerHasIt(w: World, i: nat)
    requires Good(w) && i < |w.senders| && |w.senders[i].lanes| > 0 && Project(w, i).paths[0].attached
    ensures
      var server := w.senders[i].lanes[0].server;
      server.Some? && server.value < |w.endpoints| && w.endpoints[server.value].output == Project(w, i).output
  {
    hide Base, M.Invariant, SinkFor;
    PathsAre(w, i, 0);
    AttachedToEndpoint(w, i, 0);
  }

  /**
   From any state of any run, a session in which nothing was refused and for which there is room at the cursor can come
   to a state in which all its paths are ready and its endpoint has handed on exactly what was read.
   */
  lemma AnySessionCanFinish(uuids: seq<nat>, capacity: nat, steps: seq<Step>, i: nat) returns (more: seq<Step>)
    requires Distinct(uuids) && IsRun(Start(uuids, capacity), steps)
    requires CanFinish(After(Start(uuids, capacity), steps), i)
    ensures IsRun(Start(uuids, capacity), steps + more)
    ensures
      Finished(After(Start(uuids, capacity), steps), i, After(Start(uuids, capacity), steps + more))
  {
    hide IsRun, After, CanFinish, Finished, Good;
    StartIsGood(uuids, capacity);
    RunKeeps(Start(uuids, capacity), steps);
    more := CanFinishDoes(After(Start(uuids, capacity), steps), i);
    JoinRuns(Start(uuids, capacity), steps, more);
  }

  lemma CanFinishDoes(w: World, i: nat) returns (steps: seq<Step>)
    requires Good(w) && CanFinish(w, i)
    ensures IsRun(w, steps) && Finished(w, i, After(w, steps))
  {
    hide Good, IsRun, After, Project;
    var first := AllBecomeReady(w, i);
    var a := After(w, first);
    ProjectIs(w, i);
    ProjectIs(a, i);
    var second := ReadyDeliver(a, i);
    JoinRuns(w, first, second);
    steps := first + second;
  }

  /** A new session over any number of paths can start, and hand on any text whose frames fit the window. */
  lemma SessionCanStart(uuids: seq<nat>, capacity: nat, c: nat, n: nat, ip: nat, port: nat, text: seq<byte>)
      returns (steps: seq<Step>)
    requires Distinct(uuids) && c < |uuids| && n > 0 && Meta(uuids[c], 1, ip, port).Fits()
    requires RESERVE_OFFSET + |text| <= VARINT62_LIMIT
    requires Min(MAX_PAYLOAD, |text|) <= capacity < U64_RANGE - VARINT62_LIMIT
    ensures IsRun(Start(uuids, capacity), steps)
    ensures
      var w := After(Start(uuids, capacity), steps);
      && |w.senders| == 1 && |w.senders[0].lanes| == n && (forall p: nat :: p < n ==> p in w.senders[0].readyList)
      && w.senders[0].input == text
      && var server := w.senders[0].lanes[0].server;
         server.Some? && server.value < |w.endpoints| && w.endpoints[server.value].output == text
  {
    hide IsRun, After, Good, Project, M.Invariant;
    var start := Start(uuids, capacity);
    var connect, input := Connect(c, n, ip, port), Input(0, text);
    StartIsGood(uuids, capacity);
    StepKeeps(start, connect);
    var a := Next(start, connect);
    StepKeeps(a, input);
    var b := Next(a, input);
    OneStep(start, connect);
    OneStep(a, input);
    JoinRuns(start, [connect], [input]);
    NewCanFinish(start, c, n, ip, port, text);
    var more := CanFinishDoes(b, 0);
    JoinRuns(start, [connect] + [input], more);
    steps := [connect] + [input] + more;
  }

  lemma NewCanFinish(start: World, c: nat, n: nat, ip: nat, port: nat, text: seq<byte>)
    requires start == Start(start.uuids, start.capacity) && Enabled(start, Connect(c, n, ip, port))
    requires RESERVE_OFFSET + |text| <= VARINT62_LIMIT && P.Usable(start.capacity, text)
    ensures
      var r := Next(Next(start, Connect(c, n, ip, port)), Input(0, text));
      CanFinish(r, 0) && r.senders[0].input == text && |r.senders| == 1 && |r.senders[0].lanes| == n
  {
    P.NothingCounted(Streams.Stream(0, map[]));
  }
}
