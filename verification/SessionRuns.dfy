/** What holds after every run of Sessions. */
module SessionRuns {
  import opened Words
  import opened ByteCodec
  import opened Framing
  import opened Striping
  import opened Receivers
  import opened Registries
  import opened Metas
  import opened Paths
  import opened Sessions
  import opened SessionSteps
  import Streams
  import M = Multipath

  // ---------- each session by itself ----------

  function MoreReady(w: World, step: Step, j: nat): M.Step
    requires Enabled(w, step) && j < |w.senders| <= |Next(w, step).senders|
  {
    M.Ready(Added(w.senders[j], Next(w, step).senders[j]))
  }

  /** What a step is for one session. */
  function Seen(w: World, step: Step, j: nat): seq<M.Step>
    requires Enabled(w, step) && j < |w.senders|
  {
    match step
    case Connect(_, _, _, _) => []
    case Up(i, p) =>
      MetaIsWritable(w.senders[j].meta);
      if i == j then [M.Message(p, w.senders[j].meta.ToFrame().data), MoreReady(w, step, j)] else []
    case OriginReached(_) => []
    case Reply(_, _, _) => []
    case Hear(i, p, n) => if i == j then [MoreReady(w, step, j)] else []
    case Input(i, data) => if i == j then [M.Input(data)] else []
    case Schedule(i, targets) => if i == j then [M.Schedule(targets)] else []
    case Send(i, p, n) => if i == j then [M.Step.Send(p, n)] else []
    case Receive(i, p, n) => if i == j then [M.Step.Receive(p, n)] else []
  }

  /**
   Every step is for each session nothing, or a step that it can take: so META comes first on its paths, and only paths
   on which it was written take part in scheduling.
   */
  lemma StepIsSeen(w: World, step: Step, j: nat)
    requires Good(w) && Enabled(w, step) && j < |w.senders|
    ensures
      var r, seen := Next(w, step), Seen(w, step, j);
      && Base(r) && r.crashed == w.crashed && r.capacity == w.capacity && |r.senders| >= |w.senders|
      && M.IsRun(Project(w, j), seen) && M.After(Project(w, j), seen) == Project(r, j)
  {
    hide Good, Base, Project, M.Enabled, M.Next, HandleAll, Deliver;
    StepKeepsBase(w, step);
    M.NoStep(Project(w, j));
    StepOfOne(w, step, j);
    var seen := Seen(w, step, j);
    if |seen| == 1 {
      M.OneStep(Project(w, j), seen[0]);
    } else if |seen| == 2 {
      M.TwoSteps(Project(w, j), seen[0], seen[1]);
    }
  }

  lemma StepOfOne(w: World, step: Step, j: nat)
    requires Good(w) && Enabled(w, step) && j < |w.senders| && |w.senders| <= |Next(w, step).senders|
    ensures
      var net, r, seen := Project(w, j), Project(Next(w, step), j), Seen(w, step, j);
      && |seen| <= 2 && (seen == [] ==> r == net)
      && (seen != [] ==> M.Enabled(net, seen[0]) && (|seen| == 1 ==> M.Next(net, seen[0]) == r))
      && (|seen| == 2 ==>
            M.Enabled(M.Next(net, seen[0]), seen[1]) && M.Next(M.Next(net, seen[0]), seen[1]) == r)
  {
    hide Base, Project, M.Enabled, M.Next, HandleAll, Deliver, UpSender, HearAll, M.Invariant, M.Distribute, Added;
    match step
    case Connect(c, n, ip, port) => ConnectKeeps(w, c, n, ip, port);
    case Up(i, p) => UpKeeps(w, i, p);
    case OriginReached(e) => OriginKeeps(w, e);
    case Reply(i, p, n) => ReplyKeeps(w, i, p, n);
    case Hear(i, p, n) => HearKeeps(w, i, p, n);
    case Input(i, data) =>
      InputKeeps(w, i, data);
      InputIsEnabled(Project(w, i), data);
    case Schedule(i, targets) => ScheduleKeeps(w, i, targets);
    case Send(i, p, n) => SendKeeps(w, i, p, n);
    case Receive(i, p, n) => ReceiveKeeps(w, i, p, n);
  }

  lemma InputIsEnabled(net: M.Net, data: seq<byte>)
    ensures M.Enabled(net, M.Input(data))
  {
  }

  lemma StepKeepsBase(w: World, step: Step)
    requires Good(w) && Enabled(w, step)
    ensures
      var r := Next(w, step);
      && Base(r) && r.crashed == w.crashed && r.capacity == w.capacity && |r.senders| >= |w.senders|
      && (!step.Connect? ==> |r.senders| == |w.senders|)
  {
    hide Base, Project, M.Enabled, M.Next, Deliver, UpSender, HearAll, M.Invariant, M.Distribute, OthersStay;
    match step
    case Connect(c, n, ip, port) => ConnectKeeps(w, c, n, ip, port);
    case Up(i, p) => UpKeeps(w, i, p);
    case OriginReached(e) => OriginKeeps(w, e);
    case Reply(i, p, n) => ReplyKeeps(w, i, p, n);
    case Hear(i, p, n) => HearKeeps(w, i, p, n);
    case Input(i, data) => InputKeeps(w, i, data);
    case Schedule(i, targets) => ScheduleKeeps(w, i, targets);
    case Send(i, p, n) => SendKeeps(w, i, p, n);
    case Receive(i, p, n) => ReceiveKeeps(w, i, p, n);
  }

  lemma StepKeeps(w: World, step: Step)
    requires Good(w) && Enabled(w, step)
    ensures Good(Next(w, step))
  {
    hide Base, Project, M.Invariant, M.Enabled, M.Next, Next, Enabled;
    StepKeepsBase(w, step);
    var r := Next(w, step);
    forall j | 0 <= j < |r.senders|
      ensures M.Invariant(Project(r, j))
    {
      if j < |w.senders| {
        StepIsSeen(w, step, j);
        M.RunKeeps(Project(w, j), Seen(w, step, j));
      } else {
        NewIsStart(w, step, j);
        M.StartIsSound(seq(step.lanes, _ => false), w.capacity);
      }
    }
  }

  lemma NewIsStart(w: World, step: Step, j: nat)
    requires Good(w) && Enabled(w, step) && |w.senders| <= j < |Next(w, step).senders|
    ensures step.Connect? && Project(Next(w, step), j) == NewNet(step.lanes, w.capacity)
  {
    hide Base, Project, M.Invariant, M.Enabled, M.Next;
    StepKeepsBase(w, step);
    match step
    case Connect(c, n, ip, port) => ConnectKeeps(w, c, n, ip, port);
  }

  predicate Distinct(uuids: seq<nat>) {
    forall c, d :: 0 <= c < d < |uuids| ==> uuids[c] != uuids[d]
  }

  lemma StartIsGood(uuids: seq<nat>, capacity: nat)
    requires Distinct(uuids)
    ensures Good(Start(uuids, capacity))
  {
  }

  lemma {:induction false} RunKeeps(start: World, steps: seq<Step>)
    requires Good(start) && IsRun(start, steps)
    ensures Good(After(start, steps))
    decreases |steps|
  {
    hide Good, Enabled, Next;
    if steps != [] {
      StepKeeps(start, steps[0]);
      RunKeeps(Next(start, steps[0]), steps[1..]);
    }
  }

  /** Of any run, each session has seen a run of its own, from the beginning of that session on. */
  lemma {:induction false} SessionIsRun(w: World, steps: seq<Step>, j: nat) returns (start: M.Net, seen: seq<M.Step>)
    requires Good(w) && IsRun(w, steps) && j < |After(w, steps).senders|
    ensures if j < |w.senders| then start == Project(w, j)
            else exists n: nat :: start == NewNet(n, w.capacity)
    ensures M.IsRun(start, seen) && M.After(start, seen) == Project(After(w, steps), j)
    decreases |steps|
  {
    hide Good, Enabled, Next, Project, M.Enabled, M.Next, M.IsRun, M.After, Seen;
    if steps == [] {
      start, seen := Project(w, j), [];
      M.NoStep(start);
    } else {
      var r := Next(w, steps[0]);
      StepKeeps(w, steps[0]);
      StepSize(w, steps[0]);
      start, seen := SessionIsRun(r, steps[1..], j);
      if j < |w.senders| {
        StepIsSeen(w, steps[0], j);
        M.RunInTwo(Project(w, j), Seen(w, steps[0], j), seen);
        start, seen := Project(w, j), Seen(w, steps[0], j) + seen;
      } else if j < |r.senders| {
        NewIsStart(w, steps[0], j);
      }
    }
  }

  lemma StepSize(w: World, step: Step)
    requires Good(w) && Enabled(w, step)
    ensures |Next(w, step).senders| >= |w.senders| && Next(w, step).capacity == w.capacity
  {
    hide Good, Base, Next, Enabled;
    StepKeepsBase(w, step);
  }

  // ---------- what the proxy promises ----------

  /**
   In every run no data arrives on a path without a session, and no session is registered twice; and what each session
   hands on is the start of what was read, of the same session.
   */
  lemma EverySession(uuids: seq<nat>, capacity: nat, steps: seq<Step>)
    requires Distinct(uuids) && IsRun(Start(uuids, capacity), steps)
    ensures
      var w := After(Start(uuids, capacity), steps);
      && !w.crashed && !w.fatal
      && forall i :: 0 <= i < |w.senders| ==> Project(w, i).output <= w.senders[i].input
  {
    hide IsRun, After, Base, Project, M.Invariant;
    var w := After(Start(uuids, capacity), steps);
    StartIsGood(uuids, capacity);
    RunKeeps(Start(uuids, capacity), steps);
    NoCheckFails(w);
    forall i | 0 <= i < |w.senders|
      ensures Project(w, i).output <= w.senders[i].input
    {
      M.OutputIsScheduled(Project(w, i));
      InputIs(w, i);
    }
  }

  /** Each session by itself is a run of Multipath from its start, so all that holds of those runs holds of it. */
  lemma EverySessionIsRun(uuids: seq<nat>, capacity: nat, steps: seq<Step>, i: nat)
      returns (lanes: nat, seen: seq<M.Step>)
    requires Distinct(uuids) && IsRun(Start(uuids, capacity), steps)
    requires i < |After(Start(uuids, capacity), steps).senders|
    ensures M.IsRun(NewNet(lanes, capacity), seen)
    ensures M.After(NewNet(lanes, capacity), seen) == Project(After(Start(uuids, capacity), steps), i)
  {
    hide IsRun, After, Good, Project, M.IsRun, M.After;
    StartIsGood(uuids, capacity);
    var start;
    start, seen := SessionIsRun(Start(uuids, capacity), steps, i);
    var n: nat :| start == NewNet(n, capacity);
    lanes := n;
  }

  lemma NoCheckFails(w: World)
    requires Good(w)
    ensures !w.crashed && !w.fatal
  {
  }

  lemma InputIs(w: World, i: nat)
    requires i < |w.senders|
    ensures Project(w, i).input == w.senders[i].input
  {
  }

  /** META is the first frame on a path, and if the path is ready for data it is up and has it. */
  predicate MetaFirst(w: World, i: nat, p: nat)
    requires IsLane(w, i, p)
  {
    var s, written := w.senders[i], LaneAt(w, i, p).path.written;
    && (written != [] ==> written[0] == s.meta.ToFrame())
    && (p in s.readyList ==> s.lanes[p].up && written != [])
    && (p in s.waitList || p in s.readyList)
  }

  lemma MetaComesFirst(uuids: seq<nat>, capacity: nat, steps: seq<Step>)
    requires Distinct(uuids) && IsRun(Start(uuids, capacity), steps)
    ensures
      var w := After(Start(uuids, capacity), steps);
      forall i, p :: IsLane(w, i, p) ==> MetaFirst(w, i, p)
  {
    hide IsRun, After, Base, M.Invariant, MetaFirst;
    var w := After(Start(uuids, capacity), steps);
    StartIsGood(uuids, capacity);
    RunKeeps(Start(uuids, capacity), steps);
    forall i: nat, p: nat | IsLane(w, i, p)
      ensures MetaFirst(w, i, p)
    {
      MetaIsFirst(w, i, p);
    }
  }

  lemma MetaIsFirst(w: World, i: nat, p: nat)
    requires Good(w) && IsLane(w, i, p)
    ensures MetaFirst(w, i, p)
  {
    hide Numbered, Known, Meta.Encode, Intact, IsMeta;
    assert LaneOk(w, i, p) && Listed(w.senders[i]) && M.Invariant(Project(w, i));
    PathsAre(w, i, p);
    assert M.Sound(Project(w, i).paths[p]);
  }

  predicate IsAttached(w: World, i: nat, p: nat) {
    IsLane(w, i, p) && LaneAt(w, i, p).server.Some?
  }

  /**
   All paths of one session are attached to one endpoint, paths of different sessions never are, an endpoint lists only
   paths of the session it was made for, and what it hands on is the start of what was read in that session.
   */
  lemma OneEndpointPerSession(uuids: seq<nat>, capacity: nat, steps: seq<Step>)
    requires Distinct(uuids) && IsRun(Start(uuids, capacity), steps)
    ensures
      var w := After(Start(uuids, capacity), steps);
      && (forall i, p, j, q :: IsAttached(w, i, p) && IsAttached(w, j, q) ==>
            (LaneAt(w, i, p).server == LaneAt(w, j, q).server <==> i == j))
      && (forall e :: 0 <= e < |w.endpoints| ==>
            && w.endpoints[e].madeFor < |w.senders| && w.endpoints[e].key == w.senders[w.endpoints[e].madeFor].Key()
            && Lookup(w.sessions, w.endpoints[e].key) == Some(e)
            && w.endpoints[e].output <= w.senders[w.endpoints[e].madeFor].input
            && forall i, p :: (i, p) in w.endpoints[e].readyList ==> i == w.endpoints[e].madeFor && IsAttached(w, i, p))
  {
    hide IsRun, After, M.Invariant;
    var w := After(Start(uuids, capacity), steps);
    StartIsGood(uuids, capacity);
    RunKeeps(Start(uuids, capacity), steps);
    forall i: nat, p: nat, j: nat, q: nat | IsAttached(w, i, p) && IsAttached(w, j, q)
      ensures LaneAt(w, i, p).server == LaneAt(w, j, q).server <==> i == j
    {
      ServersDiffer(w, i, p, j, q);
    }
    forall e | 0 <= e < |w.endpoints|
      ensures EndpointOk(w, e) && w.endpoints[e].output <= w.senders[w.endpoints[e].madeFor].input
    {
      EndpointIsOwn(w, e);
    }
    forall e, i, p | 0 <= e < |w.endpoints| && (i, p) in w.endpoints[e].readyList
      ensures i == w.endpoints[e].madeFor && IsAttached(w, i, p)
    {
      ListIsOwn(w, e, i, p);
    }
  }

  lemma ServersDiffer(w: World, i: nat, p: nat, j: nat, q: nat)
    requires Base(w) && IsAttached(w, i, p) && IsAttached(w, j, q)
    ensures LaneAt(w, i, p).server == LaneAt(w, j, q).server <==> i == j
  {
    hide Listed, EndpointOk;
    assert LaneOk(w, i, p) && LaneOk(w, j, q);
    assert w.endpoints[LaneAt(w, i, p).server.value].key == w.senders[i].Key();
    assert w.endpoints[LaneAt(w, j, q).server.value].key == w.senders[j].Key();
    KeysDiffer(w, i);
  }

  /** What an endpoint writes back goes to the session it was made for. */
  lemma ListIsOwn(w: World, e: nat, i: nat, p: nat)
    requires Base(w) && e < |w.endpoints| && (i, p) in w.endpoints[e].readyList
    ensures i == w.endpoints[e].madeFor && IsAttached(w, i, p)
  {
    hide Listed, Speaks, Intact;
    assert EndpointOk(w, e) && LaneOk(w, i, p);
    KeysDiffer(w, i);
  }

  lemma EndpointIsOwn(w: World, e: nat)
    requires Good(w) && e < |w.endpoints|
    ensures EndpointOk(w, e) && w.endpoints[e].output <= w.senders[w.endpoints[e].madeFor].input
  {
    hide Listed, LaneOk, M.Invariant;
    assert EndpointOk(w, e);
    var net := Project(w, w.endpoints[e].madeFor);
    assert M.Invariant(net) && net.output == w.endpoints[e].output;
    M.OutputIsScheduled(net);
    InputIs(w, w.endpoints[e].madeFor);
  }
}
