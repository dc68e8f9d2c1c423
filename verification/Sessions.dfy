/** All sessions of all clients with one server. */
module Sessions {
  // Connects, META, the signal that the origin is reached, scheduling, and the sessions the server has registered:
  // tpproxy/mpproxy_client.cc:40-75, :114-143, :195-258 and
  // tpproxy/mpproxy_server.cc:23-33, :53-100, :132-146, :170-184, :203-236.

  import opened Words
  import opened Lists
  import opened Streams
  import opened ByteCodec
  import opened Framing
  import opened Striping
  import opened Receivers
  import opened Registries
  import opened Metas
  import opened Paths
  import M = Multipath

  /**
   One path with the connections at its two ends. The sender knows whether it is up and whether it has heard that the
   origin is reached; the receiver has the number of the client and the endpoint the path is attached to. The way back
   is a channel of its own, on which the word that the origin is reached goes out once.
   */
  datatype Lane = Lane(path: Path, up: bool, heard: bool, uuid: nat, server: Option<nat>, back: Path)

  /** The sending end of a session, and what was ever read there. */
  datatype Sender = Sender(meta: Sendable, input: seq<byte>, unscheduled: seq<byte>, writeOffset: nat, lanes: seq<Lane>,
    waitList: seq<nat>, readyList: seq<nat>, originConnected: bool)
  {
    function Key(): Key {
      meta.Key()
    }
  }

  /** The receiving end of a session, the paths in its list, and the session one of whose paths had it made. */
  datatype Endpoint = Endpoint(key: Key, stream: Stream, output: seq<byte>, refused: bool, halted: bool,
    readyList: set<(nat, nat)>, connected: bool, madeFor: nat)

  /** Of each client its number and the next number of a session; the server; and whether one of its checks failed. */
  datatype World = World(uuids: seq<nat>, sids: seq<nat>, senders: seq<Sender>, capacity: nat, sessions: Registry<nat>,
    endpoints: seq<Endpoint>, crashed: bool, fatal: bool)

  datatype Step =
    | Connect(client: nat, lanes: nat, ip: nat, port: nat)
    | Up(session: nat, lane: nat)
    | OriginReached(endpoint: nat)
    | Reply(session: nat, lane: nat, n: nat)
    | Hear(session: nat, lane: nat, n: nat)
    | Input(session: nat, data: seq<byte>)
    | Schedule(session: nat, targets: seq<nat>)
    | Send(session: nat, lane: nat, n: nat)
    | Receive(session: nat, lane: nat, n: nat)

  function Start(uuids: seq<nat>, capacity: nat): World {
    World(uuids, seq(|uuids|, _ => 1), [], capacity, map[], [], false, false)
  }

  predicate IsLane(w: World, i: nat, p: nat) {
    i < |w.senders| && p < |w.senders[i].lanes|
  }

  predicate SameLanes(w: World, r: World) {
    && w.capacity == r.capacity && |w.senders| == |r.senders|
    && forall i :: 0 <= i < |w.senders| ==> |w.senders[i].lanes| == |r.senders[i].lanes|
  }

  function LaneAt(w: World, i: nat, p: nat): Lane
    requires IsLane(w, i, p)
  {
    w.senders[i].lanes[p]
  }

  function WithLane(w: World, i: nat, p: nat, lane: Lane): World
    requires IsLane(w, i, p)
  {
    w.(senders := w.senders[i := w.senders[i].(lanes := w.senders[i].lanes[p := lane])])
  }

  function NewLane(): Lane {
    Lane(NewPath(false), false, false, 0, None, NewPath(true))
  }

  function NewSender(meta: Sendable, n: nat): Sender {
    Sender(meta, [], [], RESERVE_OFFSET, seq(n, _ => NewLane()), seq(n, p => p), [], false)
  }

  // ---------- the sender ----------

  /** If the path was waiting it becomes ready. */
  function MadeReady(s: Sender, p: nat): Sender {
    if p in s.waitList then s.(waitList := Without(s.waitList, p), readyList := s.readyList + [p]) else s
  }

  function UpIn(s: Sender, list: seq<nat>, up: bool): seq<nat> {
    if list == [] then []
    else
      (if list[0] < |s.lanes| && s.lanes[list[0]].up == up then [list[0]] else []) + UpIn(s, list[1..], up)
  }

  /** All waiting paths that are up become ready. */
  function ConnectedReady(s: Sender): Sender {
    s.(waitList := UpIn(s, s.waitList, false), readyList := s.readyList + UpIn(s, s.waitList, true))
  }

  /** A path comes up and META goes out on it; it becomes ready if the origin is reached already. */
  function UpSender(s: Sender, p: nat): Sender
    requires p < |s.lanes|
  {
    MetaIsWritable(s.meta);
    var lane := s.lanes[p];
    var r := s.(lanes := s.lanes[p := lane.(up := true, path := lane.path.Write([s.meta.ToFrame()]))]);
    if s.originConnected then MadeReady(r, p) else r
  }

  /** The first word on a path that the origin is reached. */
  function HearSender(s: Sender, p: nat): Sender
    requires p < |s.lanes|
  {
    var r := s.(lanes := s.lanes[p := s.lanes[p].(heard := true)]);
    ConnectedReady(MadeReady(r, p)).(originConnected := true)
  }

  /** One frame on the way back. */
  function HearFrame(s: Sender, p: nat, f: Frame): (r: Sender)
    requires p < |s.lanes|
    ensures |r.lanes| == |s.lanes|
  {
    if !IsData(f) && f.data != [] && f.data[0] == MESSAGE_ORIGIN_CONNECTED && !s.lanes[p].heard then HearSender(s, p)
    else s
  }

  function HearAll(s: Sender, p: nat, frames: seq<Frame>): (r: Sender)
    requires p < |s.lanes|
    ensures |r.lanes| == |s.lanes|
  {
    if frames == [] then s else HearFrame(HearAll(s, p, frames[..|frames| - 1]), p, frames[|frames| - 1])
  }

  function PathsOf(lanes: seq<Lane>): (paths: seq<Path>)
    ensures |paths| == |lanes|
  {
    seq(|lanes|, p requires 0 <= p < |lanes| => lanes[p].path)
  }

  function WithPaths(lanes: seq<Lane>, paths: seq<Path>): (r: seq<Lane>)
    requires |paths| == |lanes|
    ensures |r| == |lanes|
  {
    seq(|lanes|, p requires 0 <= p < |lanes| => lanes[p].(path := paths[p]))
  }

  // ---------- the receiver ----------

  /** Registering a session that is registered already is a fatal error. */
  function Register(w: World, key: Key, e: nat): World {
    if Lookup(w.sessions, key).Some? then w.(fatal := true) else w.(sessions := Registered<nat>(w.sessions, key, e))
  }

  function Word(): Frame {
    Frame(0, [MESSAGE_ORIGIN_CONNECTED])
  }

  /** The sender is told on this path that the origin is reached, unless it was before. */
  function Tell(lane: Lane): Lane {
    if lane.back.written == [] then lane.(back := lane.back.Write([Word()])) else lane
  }

  /** The path is attached to an endpoint and put in its list; if the origin is reached already the sender is told. */
  function AttachedTo(w: World, i: nat, p: nat, uuid: nat, e: nat): (r: World)
    requires IsLane(w, i, p) && e < |w.endpoints|
    ensures SameLanes(w, r)
  {
    var lane, endpoint := LaneAt(w, i, p), w.endpoints[e];
    var attached := lane.(path := lane.path.(attached := true), uuid := uuid, server := Some(e));
    WithLane(w, i, p, if endpoint.connected then Tell(attached) else attached)
    .(endpoints := w.endpoints[e := endpoint.(readyList := endpoint.readyList + {(i, p)})])
  }

  /** A META message: the endpoint of the session it names is looked up, and made and registered if there is none. */
  function Attach(w: World, i: nat, p: nat, key: Key): (r: World)
    requires IsLane(w, i, p)
    ensures SameLanes(w, r)
  {
    match Lookup(w.sessions, key)
    case Some(e) => if e < |w.endpoints| then AttachedTo(w, i, p, key.uuid, e) else w
    case None =>
      var e := |w.endpoints|;
      var made := Endpoint(key, Stream(0, map[]), [], false, false, {}, false, i);
      Register(AttachedTo(w.(endpoints := w.endpoints + [made]), i, p, key.uuid, e), key, e)
  }

  /** What a path sees of the endpoint it is attached to. */
  function SinkOf(w: World, e: nat): Sink
    requires e < |w.endpoints|
  {
    var endpoint := w.endpoints[e];
    Sink(w.capacity, endpoint.stream, endpoint.output, true, endpoint.refused, endpoint.halted, w.crashed)
  }

  /** One frame that a path delivers. Data on a path without a session fails a check. */
  function Handle(w: World, i: nat, p: nat, f: Frame): (r: World)
    requires IsLane(w, i, p)
    ensures SameLanes(w, r)
  {
    var lane := LaneAt(w, i, p);
    if IsData(f) then
      match lane.server
      case None => w.(crashed := true)
      case Some(e) =>
        if e < |w.endpoints| then
          var k := Dispatch(SinkOf(w, e), f);
          w.(endpoints := w.endpoints[e := w.endpoints[e].(stream := k.stream, output := k.output, refused := k.refused,
                                                           halted := k.halted)])
        else w
    else if IsMeta(f) && lane.uuid == 0 then Attach(w, i, p, MetaOf(f.data).Key())
    else w
  }

  function HandleAll(w: World, i: nat, p: nat, frames: seq<Frame>): (r: World)
    requires IsLane(w, i, p)
    ensures SameLanes(w, r)
  {
    if frames == [] then w
    else Handle(HandleAll(w, i, p, frames[..|frames| - 1]), i, p, frames[|frames| - 1])
  }

  // ---------- one session ----------

  /** What there is of the receiving end of a session. */
  function SinkFor(w: World, key: Key): Sink {
    match Lookup(w.sessions, key)
    case None => Sink(w.capacity, Stream(0, map[]), [], false, false, false, w.crashed)
    case Some(e) =>
      if e < |w.endpoints| then SinkOf(w, e)
      else Sink(w.capacity, Stream(0, map[]), [], false, false, false, w.crashed)
  }

  /** One session by itself. */
  function Project(w: World, i: nat): (net: M.Net)
    requires i < |w.senders|
    ensures |net.paths| == |w.senders[i].lanes|
  {
    var s, k := w.senders[i], SinkFor(w, w.senders[i].Key());
    M.Net(s.input, s.unscheduled, s.writeOffset, PathsOf(s.lanes), s.readyList, w.capacity, k.stream, k.output,
      k.refused, k.halted, w.crashed)
  }

  // ---------- the steps ----------

  predicate Enabled(w: World, step: Step) {
    match step
    case Connect(c, n, ip, port) => c < |w.uuids| == |w.sids| && n > 0 && Meta(w.uuids[c], w.sids[c], ip, port).Fits()
    case Up(i, p) => IsLane(w, i, p) && !LaneAt(w, i, p).up
    case OriginReached(e) => e < |w.endpoints|
    case Reply(i, p, n) => IsLane(w, i, p) && n <= |LaneAt(w, i, p).back.writeBuffer|
    case Hear(i, p, n) => IsLane(w, i, p) && n <= |LaneAt(w, i, p).back.inFlight|
    case Input(i, _) => i < |w.senders|
    case Schedule(i, targets) =>
      && i < |w.senders| && w.senders[i].writeOffset + |w.senders[i].unscheduled| <= VARINT62_LIMIT
      && |M.WithRoom(PathsOf(w.senders[i].lanes), w.senders[i].readyList)| == |targets| + 1
    case Send(i, p, n) => IsLane(w, i, p) && n <= |LaneAt(w, i, p).path.writeBuffer|
    case Receive(i, p, n) => IsLane(w, i, p) && n <= |LaneAt(w, i, p).path.inFlight| && !Project(w, i).halted
  }

  function ToldAll(w: World, e: nat): seq<Sender>
    requires e < |w.endpoints|
  {
    var list := w.endpoints[e].readyList;
    seq(|w.senders|, i requires 0 <= i < |w.senders| => w.senders[i].(lanes := ToldLanes(w.senders[i].lanes, i, list)))
  }

  function ToldLanes(lanes: seq<Lane>, i: nat, list: set<(nat, nat)>): (r: seq<Lane>)
    ensures |r| == |lanes|
  {
    seq(|lanes|, p requires 0 <= p < |lanes| => if (i, p) in list then Tell(lanes[p]) else lanes[p])
  }

  function Next(w: World, step: Step): World
    requires Enabled(w, step)
  {
    match step
    case Connect(c, n, ip, port) =>
      w.(senders := w.senders + [NewSender(Meta(w.uuids[c], w.sids[c], ip, port), n)],
         sids := w.sids[c := w.sids[c] + 1])
    case Up(i, p) => w.(senders := w.senders[i := UpSender(w.senders[i], p)])
    case OriginReached(e) =>
      w.(senders := ToldAll(w, e), endpoints := w.endpoints[e := w.endpoints[e].(connected := true)])
    case Reply(i, p, n) => WithLane(w, i, p, LaneAt(w, i, p).(back := LaneAt(w, i, p).back.Send(n)))
    case Hear(i, p, n) =>
      var back := LaneAt(w, i, p).back;
      var s := HearAll(w.senders[i], p, Deliver(back.Arrived(n)).frames);
      w.(senders := w.senders[i := s.(lanes := s.lanes[p := s.lanes[p].(back := back.Receive(n))])])
    case Input(i, data) =>
      var s := w.senders[i];
      w.(senders := w.senders[i := s.(input := s.input + data, unscheduled := s.unscheduled + data)])
    case Schedule(i, targets) =>
      var s, available := w.senders[i], M.WithRoom(PathsOf(w.senders[i].lanes), w.senders[i].readyList);
      var paths := M.Distribute(PathsOf(s.lanes), available, M.SchedulePlan(Project(w, i), targets));
      w.(senders := w.senders[i := s.(lanes := WithPaths(s.lanes, paths), unscheduled := [],
                                      writeOffset := s.writeOffset + |s.unscheduled|)])
    case Send(i, p, n) => WithLane(w, i, p, LaneAt(w, i, p).(path := LaneAt(w, i, p).path.Send(n)))
    case Receive(i, p, n) =>
      var path := LaneAt(w, i, p).path;
      var r := HandleAll(w, i, p, Deliver(path.Arrived(n)).frames);
      WithLane(r, i, p, LaneAt(r, i, p).(path := path.Receive(n).(attached := LaneAt(r, i, p).path.attached)))
  }

  /** A session by itself at its beginning. */
  function NewNet(lanes: nat, capacity: nat): M.Net {
    M.Start(seq(lanes, _ => false), capacity)
  }

  predicate IsRun(start: World, steps: seq<Step>)
    decreases |steps|
  {
    steps != [] ==> Enabled(start, steps[0]) && IsRun(Next(start, steps[0]), steps[1..])
  }

  function After(start: World, steps: seq<Step>): World
    requires IsRun(start, steps)
    decreases |steps|
  {
    if steps == [] then start else After(Next(start, steps[0]), steps[1..])
  }

  // ---------- what every step keeps ----------

  /** No two clients have the same number, and no two sessions the same key. */
  ghost predicate Numbered(w: World) {
    && |w.sids| == |w.uuids|
    && (forall c, d :: 0 <= c < d < |w.uuids| ==> w.uuids[c] != w.uuids[d])
    && (forall i, c :: 0 <= i < |w.senders| && 0 <= c < |w.uuids| && w.senders[i].meta.uuid == w.uuids[c] ==>
          w.senders[i].meta.sid < w.sids[c])
    && (forall i, j :: 0 <= i < j < |w.senders| ==> w.senders[i].Key() != w.senders[j].Key())
  }

  /** The endpoints are exactly those registered, each for the session it was made for. */
  ghost predicate Known(w: World) {
    && (forall k: Key :: Lookup(w.sessions, k).Some? ==>
          Lookup(w.sessions, k).value < |w.endpoints| && w.endpoints[Lookup(w.sessions, k).value].key == k)
    && (forall e :: 0 <= e < |w.endpoints| ==> EndpointOk(w, e))
  }

  ghost predicate EndpointOk(w: World, e: nat)
    requires e < |w.endpoints|
  {
    var endpoint := w.endpoints[e];
    && Lookup(w.sessions, endpoint.key) == Some(e)
    && endpoint.madeFor < |w.senders| && endpoint.key == w.senders[endpoint.madeFor].Key()
    && (forall i, p :: (i, p) in endpoint.readyList ==> IsLane(w, i, p) && LaneAt(w, i, p).server == Some(e))
  }

  /** A path that is attached is so to the endpoint of its own session; it is up exactly if META was written to it. */
  ghost predicate LaneOk(w: World, i: nat, p: nat)
    requires IsLane(w, i, p)
  {
    var lane := LaneAt(w, i, p);
    && !lane.path.known && (lane.path.attached <==> lane.server.Some?)
    && (lane.uuid != 0 || lane.back.written != [] ==> lane.server.Some?)
    && Answers(lane) && (lane.heard ==> w.senders[i].originConnected)
    && (lane.server.Some? ==>
          && Lookup(w.sessions, w.senders[i].Key()) == lane.server && lane.server.value < |w.endpoints|
          && (i, p) in w.endpoints[lane.server.value].readyList
          && (w.endpoints[lane.server.value].connected ==> lane.back.written != []))
    && Speaks(lane, w.senders[i].meta)
  }

  /** On the way back nothing is said but the word, once, and it was heard exactly if it has arrived. */
  ghost predicate Answers(lane: Lane) {
    && Intact(lane.back) && (lane.back.written == [] || lane.back.written == [Word()])
    && (lane.heard <==> lane.back.taken > 0)
  }

  /** Something was written exactly if the path is up, and no META but that of its session. */
  ghost predicate Speaks(lane: Lane, meta: Sendable) {
    && (lane.up <==> lane.path.written != [])
    && (forall f :: f in lane.path.written && IsMeta(f) ==> f == meta.ToFrame())
  }

  /** Each path waits or is ready, a ready one is up, and one that is up does not wait once the origin is reached. */
  ghost predicate Listed(s: Sender) {
    && M.DistinctIn(s.waitList, |s.lanes|) && M.DistinctIn(s.readyList, |s.lanes|)
    && (forall p: nat :: p < |s.lanes| ==> (p in s.waitList <==> p !in s.readyList))
    && (forall p :: p in s.readyList ==> s.lanes[p].up)
    && (s.originConnected ==> forall p :: p in s.waitList ==> !s.lanes[p].up)
  }

  ghost predicate Base(w: World) {
    && Numbered(w) && Known(w) && !w.fatal
    && (forall i, p :: IsLane(w, i, p) ==> LaneOk(w, i, p))
    && (forall i :: 0 <= i < |w.senders| ==> Listed(w.senders[i]))
  }

  /** Besides, each session by itself keeps its invariant, and no check has failed. */
  ghost predicate Good(w: World) {
    Base(w) && !w.crashed && forall i :: 0 <= i < |w.senders| ==> M.Invariant(Project(w, i))
  }
}
