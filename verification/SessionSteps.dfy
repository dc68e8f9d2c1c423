/**
 What every step of Sessions keeps. A step is, for each session, either nothing or a step that Multipath allows, and
 it leaves all other sessions as they are: one frame that a path delivers, the META message that attaches a path to its
 endpoint, all the frames of a read, input, sending, a path that comes up, the word that the origin is reached,
 scheduling, and a new session.
 The guards that Multipath puts on META and on scheduling are met although no step of Sessions asks for them.
 */
module SessionSteps {
  import opened Words
  import opened Lists
  import opened ByteCodec
  import opened Framing
  import opened Striping
  import opened Receivers
  import opened Registries
  import opened Metas
  import opened Paths
  import opened Sessions
  import Streams
  import M = Multipath

  // ---------- what follows from the invariant ----------

  function View(w: World, i: nat, p: nat): Sink
    requires IsLane(w, i, p)
  {
    Project(w, i).View(p)
  }

  lemma PathsAre(w: World, i: nat, p: nat)
    requires IsLane(w, i, p)
    ensures Project(w, i).paths[p] == LaneAt(w, i, p).path
    ensures Project(w, i).paths == PathsOf(w.senders[i].lanes)
  {
  }

  /** Any word that comes back comes on a path that is up, though nothing asks for that. */
  lemma HeardOnUp(w: World, i: nat, p: nat, n: nat)
    requires Enabled(w, Hear(i, p, n)) && Deliver(LaneAt(w, i, p).back.Arrived(n)).frames != [] && Good(w)
    ensures LaneAt(w, i, p).up
  {
    hide Known, Numbered, Listed, Deliver, Intact;
    assert LaneOk(w, i, p) && M.Invariant(Project(w, i));
    PathsAre(w, i, p);
    assert M.Sound(Project(w, i).paths[p]);
    IntactBounds(LaneAt(w, i, p).path);
    IntactBounds(LaneAt(w, i, p).back);
    ReceiveKeepsIntact(LaneAt(w, i, p).back, n);
  }

  /** A new session has a key of its own, so nothing is registered for it. */
  lemma NewKey(w: World, c: nat, n: nat, ip: nat, port: nat)
    requires Base(w) && Enabled(w, Connect(c, n, ip, port))
    ensures Numbered(Next(w, Connect(c, n, ip, port)))
    ensures Lookup(w.sessions, Meta(w.uuids[c], w.sids[c], ip, port).Key()).None?
  {
    hide LaneOk, Listed;
    var meta := Meta(w.uuids[c], w.sids[c], ip, port);
    forall i | 0 <= i < |w.senders|
      ensures w.senders[i].Key() != meta.Key()
    {
    }
    if Lookup(w.sessions, meta.Key()).Some? {
      assert EndpointOk(w, Lookup(w.sessions, meta.Key()).value);
    }
  }

  /** What is scheduled goes to ready paths only, and on those META was written, though nothing asks for that. */
  lemma ReadyIsNamed(w: World, i: nat, p: nat)
    requires Base(w) && IsLane(w, i, p) && p in w.senders[i].readyList
    ensures LaneAt(w, i, p).path.written != []
  {
    assert LaneOk(w, i, p) && Listed(w.senders[i]);
  }

  // ---------- one frame ----------

  /** Each session but one is as before. */
  ghost predicate OthersStay(w: World, r: World, i: nat) {
    |r.senders| >= |w.senders| && forall j :: 0 <= j < |w.senders| && j != i ==> Project(r, j) == Project(w, j)
  }

  lemma DataKeepsFlags(k: Sink, f: Frame)
    requires IsData(f) && k.attached
    ensures Dispatch(k, f).crashed == k.crashed && Dispatch(k, f).attached && Dispatch(k, f).capacity == k.capacity
  {
    hide AnswerTo, Receivers.Received;
    ReceivedFlags(k, f);
  }

  /** Only what was received by one endpoint has changed. */
  ghost predicate OneFed(w: World, r: World, e: nat) {
    && e < |w.endpoints| && |r.endpoints| == |w.endpoints|
    && r == w.(endpoints := r.endpoints)
    && (forall d :: 0 <= d < |w.endpoints| && d != e ==> r.endpoints[d] == w.endpoints[d])
    && r.endpoints[e] == w.endpoints[e].(stream := r.endpoints[e].stream, output := r.endpoints[e].output,
                                         refused := r.endpoints[e].refused, halted := r.endpoints[e].halted)
  }

  lemma OneFedKeepsBase(w: World, r: World, e: nat)
    requires Base(w) && OneFed(w, r, e)
    ensures Base(r)
  {
    hide Listed, Numbered, LaneOk, EndpointOk;
    NumberedSame(w, r);
    forall d | 0 <= d < |w.endpoints|
      ensures EndpointOk(r, d)
    {
      OneFedEndpoint(w, r, e, d);
    }
    forall j: nat, q: nat | IsLane(r, j, q)
      ensures LaneOk(r, j, q)
    {
      OneFedLane(w, r, e, j, q);
    }
  }

  lemma OneFedEndpoint(w: World, r: World, e: nat, d: nat)
    requires OneFed(w, r, e) && d < |w.endpoints| && EndpointOk(w, d)
    ensures EndpointOk(r, d)
  {
  }

  lemma OneFedLane(w: World, r: World, e: nat, j: nat, q: nat)
    requires OneFed(w, r, e) && IsLane(w, j, q) && LaneOk(w, j, q)
    ensures LaneOk(r, j, q)
  {
    hide Answers, Speaks;
  }

  lemma OneFedKeepsOthers(w: World, r: World, e: nat, i: nat)
    requires Base(w) && OneFed(w, r, e) && i < |w.senders| && w.senders[i].Key() == w.endpoints[e].key
    ensures OthersStay(w, r, i)
  {
    hide Listed, LaneOk, EndpointOk;
    forall j | 0 <= j < |w.senders| && j != i
      ensures Project(r, j) == Project(w, j)
    {
      KeysDiffer(w, i);
      assert Lookup(w.sessions, w.senders[j].Key()) != Some(e);
    }
  }

  /** The endpoint a path is attached to is the one of its session. */
  lemma ServerIs(w: World, i: nat, p: nat)
    requires Base(w) && IsLane(w, i, p) && LaneAt(w, i, p).server.Some?
    ensures
      var e := LaneAt(w, i, p).server.value;
      && e < |w.endpoints| && Lookup(w.sessions, w.senders[i].Key()) == Some(e)
      && w.endpoints[e].key == w.senders[i].Key() && LaneAt(w, i, p).path.attached
  {
    hide Listed, Numbered, EndpointOk, Answers, Speaks;
    assert LaneOk(w, i, p);
  }

  lemma DataIsFed(w: World, i: nat, p: nat, f: Frame, e: nat)
    requires IsLane(w, i, p) && IsData(f) && LaneAt(w, i, p).server == Some(e) && e < |w.endpoints|
    ensures OneFed(w, Handle(w, i, p, f), e) && SinkOf(Handle(w, i, p, f), e) == Dispatch(SinkOf(w, e), f)
  {
    hide Dispatch;
    DataKeepsFlags(SinkOf(w, e), f);
  }

  lemma HandleData(w: World, i: nat, p: nat, f: Frame)
    requires Base(w) && IsLane(w, i, p) && IsData(f) && LaneAt(w, i, p).server.Some?
    ensures
      var r := Handle(w, i, p, f);
      && Base(r) && r.crashed == w.crashed && OthersStay(w, r, i) && r.senders == w.senders
      && Project(r, i) == Project(w, i).With(Dispatch(View(w, i, p), f), p, LaneAt(w, i, p).path)
  {
    hide Base, Dispatch, OthersStay, Handle;
    var e := LaneAt(w, i, p).server.value;
    var r := Handle(w, i, p, f);
    ServerIs(w, i, p);
    PathsAre(w, i, p);
    DataIsFed(w, i, p, f, e);
    DataKeepsFlags(SinkOf(w, e), f);
    OneFedKeepsBase(w, r, e);
    OneFedKeepsOthers(w, r, e, i);
    var path := LaneAt(w, i, p).path;
    assert path.(attached := true) == path;
    assert Project(w, i).paths[p := path] == Project(w, i).paths;
  }

  lemma KeysDiffer(w: World, i: nat)
    requires Numbered(w) && i < |w.senders|
    ensures forall j :: 0 <= j < |w.senders| && j != i ==> w.senders[j].Key() != w.senders[i].Key()
  {
  }

  // ---------- META ----------

  lemma TellKeeps(lane: Lane)
    requires Answers(lane)
    ensures Answers(Tell(lane)) && Tell(lane).back.written != [] && Tell(lane) == lane.(back := Tell(lane).back)
  {
    hide Intact, EncodeFrames;
    if lane.back.written == [] {
      WriteKeepsIntact(lane.back, [Word()]);
    }
  }

  /** What a path is once it is attached. */
  lemma AttachedLane(w: World, i: nat, p: nat, e: nat)
    requires Base(w) && IsLane(w, i, p) && e < |w.endpoints|
    ensures
      var r := AttachedTo(w, i, p, w.senders[i].meta.uuid, e);
      var a, b := LaneAt(w, i, p), LaneAt(r, i, p);
      && b == a.(path := a.path.(attached := true), uuid := w.senders[i].meta.uuid, server := Some(e), back := b.back)
      && Answers(b) && (w.endpoints[e].connected ==> b.back.written != [])
      && r == WithLane(w, i, p, b).(endpoints := r.endpoints)
  {
    hide Known, Listed, Numbered, Tell, Intact, Speaks, Word;
    var a := LaneAt(w, i, p);
    assert LaneOk(w, i, p);
    TellKeeps(a.(path := a.path.(attached := true), uuid := w.senders[i].meta.uuid, server := Some(e)));
  }

  lemma AttachedSinks(w: World, i: nat, p: nat, e: nat, key: Key)
    requires IsLane(w, i, p) && e < |w.endpoints|
    ensures SinkFor(AttachedTo(w, i, p, w.senders[i].meta.uuid, e), key) == SinkFor(w, key)
  {
    hide Tell;
  }

  lemma AttachedKeepsLanes(w: World, i: nat, p: nat, e: nat)
    requires Base(w) && IsLane(w, i, p) && Lookup(w.sessions, w.senders[i].Key()) == Some(e) && e < |w.endpoints|
    ensures
      var r := AttachedTo(w, i, p, w.senders[i].meta.uuid, e);
      forall j, q :: IsLane(r, j, q) ==> LaneOk(r, j, q)
  {
    hide Listed, Numbered, Known, Tell, Intact;
    var r := AttachedTo(w, i, p, w.senders[i].meta.uuid, e);
    AttachedLane(w, i, p, e);
    forall j: nat, q: nat | IsLane(r, j, q)
      ensures LaneOk(r, j, q)
    {
      assert LaneOk(w, j, q);
    }
  }

  lemma AttachedKeepsEndpoints(w: World, i: nat, p: nat, e: nat)
    requires Base(w) && IsLane(w, i, p) && Lookup(w.sessions, w.senders[i].Key()) == Some(e) && e < |w.endpoints|
    ensures Known(AttachedTo(w, i, p, w.senders[i].meta.uuid, e))
  {
    hide Listed, Numbered, Tell, Intact;
    var r := AttachedTo(w, i, p, w.senders[i].meta.uuid, e);
    AttachedLane(w, i, p, e);
    assert LaneOk(w, i, p);
    forall d | 0 <= d < |r.endpoints|
      ensures EndpointOk(r, d)
    {
      assert EndpointOk(w, d);
    }
  }

  /** Attaching a path to the endpoint of its session concerns no other session. */
  lemma AttachedKeeps(w: World, i: nat, p: nat, e: nat)
    requires Base(w) && IsLane(w, i, p) && Lookup(w.sessions, w.senders[i].Key()) == Some(e) && e < |w.endpoints|
    ensures
      var r := AttachedTo(w, i, p, w.senders[i].meta.uuid, e);
      && Base(r) && r.crashed == w.crashed && OthersStay(w, r, i)
      && Project(r, i) == Project(w, i).With(View(w, i, p).(attached := true), p, LaneAt(w, i, p).path)
      && LaneAt(r, i, p).path == LaneAt(w, i, p).path.(attached := true)
  {
    hide LaneOk, Known, Listed, Intact, AttachedTo, SinkFor;
    var r := AttachedTo(w, i, p, w.senders[i].meta.uuid, e);
    AttachedLane(w, i, p, e);
    AttachedKeepsLanes(w, i, p, e);
    AttachedKeepsEndpoints(w, i, p, e);
    forall j | 0 <= j < |w.senders|
      ensures SinkFor(r, w.senders[j].Key()) == SinkFor(w, w.senders[j].Key())
    {
      AttachedSinks(w, i, p, e, w.senders[j].Key());
    }
    ListedSame(w.senders[i], r.senders[i]);
    WithLanePaths(w.senders[i].lanes, p, r.senders[i].lanes[p]);
    PathsAre(w, i, p);
  }

  lemma ListedSame(s: Sender, r: Sender)
    requires Listed(s) && |r.lanes| == |s.lanes| && r.waitList == s.waitList && r.readyList == s.readyList
    requires r.originConnected == s.originConnected && forall p :: 0 <= p < |s.lanes| ==> r.lanes[p].up == s.lanes[p].up
    ensures Listed(r)
  {
  }

  lemma WithLanePaths(lanes: seq<Lane>, p: nat, lane: Lane)
    requires p < |lanes|
    ensures PathsOf(lanes[p := lane]) == PathsOf(lanes)[p := lane.path]
  {
  }

  /** A new endpoint, registered for a session that had none, with no path in its list yet. */
  function WithNew(w: World, i: nat): World
    requires i < |w.senders|
  {
    var key := w.senders[i].Key();
    var made := Endpoint(key, Streams.Stream(0, map[]), [], false, false, {}, false, i);
    w.(endpoints := w.endpoints + [made], sessions := Registered<nat>(w.sessions, key, |w.endpoints|))
  }

  lemma NewKeepsKnown(w: World, i: nat)
    requires Base(w) && i < |w.senders| && Lookup(w.sessions, w.senders[i].Key()).None?
    ensures Known(WithNew(w, i)) && Lookup(WithNew(w, i).sessions, w.senders[i].Key()) == Some(|w.endpoints|)
    ensures forall j, q :: IsLane(w, j, q) ==> LaneOk(WithNew(w, i), j, q)
  {
    hide Listed, Numbered, Registered;
    var r := WithNew(w, i);
    RegisterAddsOne<nat>(w.sessions, w.senders[i].Key(), |w.endpoints|);
    forall d | 0 <= d < |r.endpoints|
      ensures EndpointOk(r, d)
    {
      assert d < |w.endpoints| ==> EndpointOk(w, d);
    }
    forall j: nat, q: nat | IsLane(w, j, q)
      ensures LaneOk(r, j, q)
    {
      assert LaneOk(w, j, q);
    }
  }

  lemma NewKeeps(w: World, i: nat)
    requires Base(w) && i < |w.senders| && Lookup(w.sessions, w.senders[i].Key()).None?
    ensures
      var r := WithNew(w, i);
      && Base(r) && Lookup(r.sessions, r.senders[i].Key()) == Some(|w.endpoints|)
      && OthersStay(w, r, i) && Project(r, i) == Project(w, i)
  {
    hide Listed, LaneOk, EndpointOk, Registered;
    NewKeepsKnown(w, i);
    RegisterAddsOne<nat>(w.sessions, w.senders[i].Key(), |w.endpoints|);
    KeysDiffer(w, i);
    var r := WithNew(w, i);
    forall j | 0 <= j < |w.senders| && j != i
      ensures Project(r, j) == Project(w, j)
    {
      assert Lookup(r.sessions, w.senders[j].Key()) == Lookup(w.sessions, w.senders[j].Key());
    }
  }

  /** The META message of a session attaches the path to the one endpoint of that session. */
  lemma AttachKeeps(w: World, i: nat, p: nat)
    requires Base(w) && IsLane(w, i, p)
    ensures
      var r := Attach(w, i, p, w.senders[i].Key());
      && Base(r) && r.crashed == w.crashed && OthersStay(w, r, i)
      && Project(r, i) == Project(w, i).With(View(w, i, p).(attached := true), p, LaneAt(w, i, p).path)
      && LaneAt(r, i, p).path == LaneAt(w, i, p).path.(attached := true)
  {
    hide LaneOk, EndpointOk, Listed, Numbered, Registered, OthersStay;
    match Lookup(w.sessions, w.senders[i].Key())
    case Some(e) => AttachedKeeps(w, i, p, e);
    case None =>
      NewKeeps(w, i);
      AttachedKeeps(WithNew(w, i), i, p, |w.endpoints|);
      OthersStayTwice(w, WithNew(w, i), Attach(w, i, p, w.senders[i].Key()), i);
  }

  lemma OthersStayTwice(w: World, m: World, r: World, i: nat)
    requires OthersStay(w, m, i) && OthersStay(m, r, i)
    ensures OthersStay(w, r, i)
  {
    hide Project;
  }

  lemma HandleMessage(w: World, i: nat, p: nat, f: Frame)
    requires Base(w) && IsLane(w, i, p) && !IsData(f) && (IsMeta(f) ==> f == w.senders[i].meta.ToFrame())
    requires View(w, i, p).halted ==> View(w, i, p).attached
    ensures
      var r := Handle(w, i, p, f);
      && Base(r) && r.crashed == w.crashed && OthersStay(w, r, i)
      && Project(r, i) == Project(w, i).With(Dispatch(View(w, i, p), f), p, LaneAt(w, i, p).path)
      && LaneAt(r, i, p).path == LaneAt(w, i, p).path.(attached := Dispatch(View(w, i, p), f).attached)
  {
    hide Known, Listed, Numbered, OthersStay, Attach, Project, Meta.Encode, MetaOf;
    assert LaneOk(w, i, p);
    MetaRoundTrip(w.senders[i].meta);
    PathsAre(w, i, p);
    if IsMeta(f) && LaneAt(w, i, p).uuid == 0 {
      AttachKeeps(w, i, p);
    } else {
      NothingStays(w, i);
      WithItself(Project(w, i), p);
    }
  }

  lemma WithItself(net: M.Net, p: nat)
    requires p < |net.paths|
    ensures net.With(net.View(p), p, net.paths[p]) == net
  {
  }

  lemma NothingStays(w: World, i: nat)
    ensures OthersStay(w, w, i)
  {
  }

  // ---------- all frames of a read ----------

  /** The paths of a session are still there, and what is said on them still names it. */
  ghost predicate SameMetas(w: World, r: World) {
    |w.senders| == |r.senders| && forall i :: 0 <= i < |w.senders| ==> r.senders[i].meta == w.senders[i].meta
  }

  /** After a frame the path, its session and the other sessions are what Multipath says. */
  ghost predicate Follows(w: World, i: nat, p: nat, k: Sink, r: World)
    requires IsLane(w, i, p)
  {
    && SameLanes(w, r) && SameMetas(w, r) && Base(r) && r.crashed == w.crashed && OthersStay(w, r, i)
    && Project(r, i) == Project(w, i).With(k, p, LaneAt(w, i, p).path)
    && LaneAt(r, i, p).path == LaneAt(w, i, p).path.(attached := k.attached)
  }

  lemma HandleKeeps(w: World, i: nat, p: nat, f: Frame)
    requires Base(w) && IsLane(w, i, p) && (IsMeta(f) ==> f == w.senders[i].meta.ToFrame())
    requires View(w, i, p).halted || IsData(f) ==> View(w, i, p).attached
    ensures Follows(w, i, p, Dispatch(View(w, i, p), f), Handle(w, i, p, f))
  {
    hide Known, Listed, Numbered, OthersStay, Dispatch, Meta.Encode;
    assert LaneOk(w, i, p);
    PathsAre(w, i, p);
    HandleMetas(w, i, p, f);
    if IsData(f) {
      HandleData(w, i, p, f);
      DataKeepsFlags(View(w, i, p), f);
    } else {
      HandleMessage(w, i, p, f);
    }
  }

  lemma HandleMetas(w: World, i: nat, p: nat, f: Frame)
    requires IsLane(w, i, p)
    ensures SameMetas(w, Handle(w, i, p, f))
  {
    hide Dispatch, MetaOf;
  }

  lemma FollowsTwice(w: World, i: nat, p: nat, k: Sink, m: World, l: Sink, r: World)
    requires IsLane(w, i, p) && Follows(w, i, p, k, m) && Follows(m, i, p, l, r)
    ensures Follows(w, i, p, l, r)
  {
    hide Base, Project;
    assert forall j :: 0 <= j < |w.senders| && j != i ==> Project(r, j) == Project(m, j);
    WithTwice(Project(w, i), k, l, p, LaneAt(w, i, p).path);
  }

  lemma WithTwice(net: M.Net, k: Sink, l: Sink, p: nat, path: Path)
    requires p < |net.paths|
    ensures net.With(k, p, path).With(l, p, path.(attached := k.attached)) == net.With(l, p, path)
  {
  }

  lemma FollowsNothing(w: World, i: nat, p: nat)
    requires IsLane(w, i, p) && Base(w)
    ensures Follows(w, i, p, View(w, i, p), w)
  {
    hide Base, Project;
    PathsAre(w, i, p);
    WithItself(Project(w, i), p);
  }

  lemma FollowsView(w: World, i: nat, p: nat, k: Sink, r: World)
    requires IsLane(w, i, p) && Follows(w, i, p, k, r) && k.capacity == w.capacity
    ensures View(r, i, p) == k
  {
    hide Base;
    M.ViewAfter(Project(w, i), p, LaneAt(w, i, p).path, k);
  }

  lemma {:induction false} HandleAllKeeps(w: World, i: nat, p: nat, frames: seq<Frame>)
    requires Base(w) && IsLane(w, i, p) && !View(w, i, p).halted && !View(w, i, p).crashed
    requires M.InTime(View(w, i, p), frames)
    requires forall f :: f in frames && IsMeta(f) ==> f == w.senders[i].meta.ToFrame()
    ensures Follows(w, i, p, DispatchAll(View(w, i, p), frames), HandleAll(w, i, p, frames))
  {
    hide Follows, Base, Handle, Dispatch, View, Meta.Encode;
    var k := View(w, i, p);
    if frames == [] {
      FollowsNothing(w, i, p);
    } else {
      var n := |frames| - 1;
      var before := frames[..n];
      var m, mid := HandleAll(w, i, p, before), DispatchAll(k, before);
      HandleAllKeeps(w, i, p, before);
      SessionIsKnown(k, before);
      DispatchKeepsCapacity(k, before);
      CapacityIs(w, i, p);
      FollowsView(w, i, p, mid, m);
      FollowsBase(w, i, p, mid, m);
      HandleKeeps(m, i, p, frames[n]);
      FollowsTwice(w, i, p, mid, m, Dispatch(mid, frames[n]), Handle(m, i, p, frames[n]));
    }
  }

  lemma CapacityIs(w: World, i: nat, p: nat)
    requires IsLane(w, i, p)
    ensures View(w, i, p).capacity == w.capacity
  {
  }

  lemma FollowsBase(w: World, i: nat, p: nat, k: Sink, r: World)
    requires IsLane(w, i, p) && Follows(w, i, p, k, r)
    ensures Base(r) && SameMetas(w, r)
  {
    hide Base;
  }

  // ---------- the steps of a sender ----------

  /** What the receiver knows of a path is the same. */
  ghost predicate SameAtServer(a: Lane, b: Lane) {
    && a.uuid == b.uuid && a.server == b.server && a.path.attached == b.path.attached && a.path.known == b.path.known
    && a.back.written == b.back.written && (Answers(a) ==> Answers(b))
  }

  /** A sending end has changed, and nothing else. */
  lemma SenderKeeps(w: World, i: nat, s: Sender)
    requires Base(w) && i < |w.senders| && s.meta == w.senders[i].meta && |s.lanes| == |w.senders[i].lanes| && Listed(s)
    requires forall p :: 0 <= p < |s.lanes| ==> SameAtServer(w.senders[i].lanes[p], s.lanes[p])
    requires forall p :: 0 <= p < |s.lanes| ==> Speaks(s.lanes[p], s.meta) && (s.lanes[p].heard ==> s.originConnected)
    ensures
      var r := w.(senders := w.senders[i := s]);
      && Base(r) && OthersStay(w, r, i)
      && Project(r, i) == Project(w, i).(input := s.input, unscheduled := s.unscheduled, writeOffset := s.writeOffset,
                                         paths := PathsOf(s.lanes), ready := s.readyList)
  {
    hide Listed, Speaks, Answers;
    var r := w.(senders := w.senders[i := s]);
    forall j: nat, p: nat | IsLane(r, j, p)
      ensures LaneOk(r, j, p)
    {
      assert LaneOk(w, j, p);
    }
    forall e | 0 <= e < |w.endpoints|
      ensures EndpointOk(r, e)
    {
      assert EndpointOk(w, e);
    }
  }

  lemma LaneSpeaks(w: World, i: nat)
    requires Base(w) && i < |w.senders|
    ensures forall p :: 0 <= p < |w.senders[i].lanes| ==> Speaks(w.senders[i].lanes[p], w.senders[i].meta)
    ensures forall p :: 0 <= p < |w.senders[i].lanes| ==>
      Answers(w.senders[i].lanes[p]) && (w.senders[i].lanes[p].heard ==> w.senders[i].originConnected)
  {
    hide Speaks, Listed, Answers;
    forall p | 0 <= p < |w.senders[i].lanes|
      ensures Speaks(w.senders[i].lanes[p], w.senders[i].meta) && Answers(w.senders[i].lanes[p])
      ensures w.senders[i].lanes[p].heard ==> w.senders[i].originConnected
    {
      assert LaneOk(w, i, p);
    }
  }

  lemma InputKeeps(w: World, i: nat, data: seq<byte>)
    requires Base(w) && i < |w.senders|
    ensures
      var r := Next(w, Input(i, data));
      && Base(r) && OthersStay(w, r, i) && r.crashed == w.crashed
      && Project(r, i) == M.Next(Project(w, i), M.Input(data))
  {
    hide Speaks, Base, OthersStay;
    var s := w.senders[i];
    LaneSpeaks(w, i);
    ListedIn(w, i);
    ListedSame(s, s.(input := s.input + data, unscheduled := s.unscheduled + data));
    SenderKeeps(w, i, s.(input := s.input + data, unscheduled := s.unscheduled + data));
  }

  lemma ListedIn(w: World, i: nat)
    requires Base(w) && i < |w.senders|
    ensures Listed(w.senders[i])
  {
  }

  /** Bytes of a path have moved on, and nothing else has changed. */
  lemma PathMoves(w: World, i: nat, p: nat, path: Path)
    requires Base(w) && IsLane(w, i, p) && path.written == LaneAt(w, i, p).path.written
    requires path.attached == LaneAt(w, i, p).path.attached && path.known == LaneAt(w, i, p).path.known
    ensures
      var r := WithLane(w, i, p, LaneAt(w, i, p).(path := path));
      && Base(r) && OthersStay(w, r, i) && SameMetas(w, r)
      && Project(r, i) == Project(w, i).(paths := Project(w, i).paths[p := path])
  {
    hide Base, OthersStay, Speaks, Answers, Listed;
    var s, lane := w.senders[i], LaneAt(w, i, p).(path := path);
    LaneSpeaks(w, i);
    ListedIn(w, i);
    PathsAre(w, i, p);
    WithLanePaths(s.lanes, p, lane);
    ListedSame(s, s.(lanes := s.lanes[p := lane]));
    SpeaksSame(LaneAt(w, i, p), lane, s.meta);
    AnswersSame(LaneAt(w, i, p), lane);
    SenderKeeps(w, i, s.(lanes := s.lanes[p := lane]));
  }

  lemma SpeaksSame(a: Lane, b: Lane, meta: Sendable)
    requires Speaks(a, meta) && b.up == a.up && b.path.written == a.path.written
    ensures Speaks(b, meta)
  {
  }

  lemma AnswersSame(a: Lane, b: Lane)
    requires b.back == a.back && b.heard == a.heard
    ensures Answers(a) <==> Answers(b)
  {
  }

  lemma SendKeeps(w: World, i: nat, p: nat, n: nat)
    requires Base(w) && Enabled(w, Step.Send(i, p, n))
    ensures
      var r := Next(w, Step.Send(i, p, n));
      && Base(r) && OthersStay(w, r, i) && r.crashed == w.crashed
      && M.Enabled(Project(w, i), M.Step.Send(p, n)) && Project(r, i) == M.Next(Project(w, i), M.Step.Send(p, n))
  {
    hide Base, OthersStay;
    PathsAre(w, i, p);
    PathMoves(w, i, p, LaneAt(w, i, p).path.Send(n));
  }

  // ---------- up, and ready ----------

  lemma ReadyIsListed(s: Sender, p: nat)
    requires p < |s.lanes| && s.lanes[p].up && Listed(s.(originConnected := false))
    requires s.originConnected ==> forall q :: q in s.waitList && q != p ==> !s.lanes[q].up
    ensures Listed(MadeReady(s, p))
  {
    hide Without<nat>;
    if p in s.waitList {
      WithoutIs(s.waitList, p);
      JoinIsDistinct(s.readyList, [p]);
    }
  }

  /** The paths that have become ready. */
  function Added(s: Sender, r: Sender): seq<nat> {
    if |s.readyList| <= |r.readyList| then r.readyList[|s.readyList|..] else []
  }

  /** They can become so, because META was written on them. */
  lemma AddedIsEnabled(net: M.Net, s: Sender, r: Sender)
    requires s.readyList <= r.readyList && net.ready == s.readyList && net.paths == PathsOf(r.lanes) && Listed(r)
    requires forall p :: 0 <= p < |r.lanes| ==> Speaks(r.lanes[p], r.meta)
    ensures M.Enabled(net, M.Ready(Added(s, r)))
    ensures M.Next(net, M.Ready(Added(s, r))) == net.(ready := r.readyList)
  {
    assert s.readyList + Added(s, r) == r.readyList;
    ListedReady(r);
    assert forall p :: p in r.readyList ==> p < |r.lanes| && Speaks(r.lanes[p], r.meta);
  }

  lemma UpIsListed(s: Sender, p: nat)
    requires Listed(s) && p < |s.lanes| && !s.lanes[p].up
    ensures
      var r := UpSender(s, p);
      && Listed(r) && r == s.(lanes := r.lanes, waitList := r.waitList, readyList := r.readyList)
      && AllWritable([s.meta.ToFrame()]) && s.readyList <= r.readyList
      && r.lanes == s.lanes[p := s.lanes[p].(up := true, path := s.lanes[p].path.Write([s.meta.ToFrame()]))]
  {
    hide Meta.Encode, EncodeFrames;
    MetaIsWritable(s.meta);
    var lane := s.lanes[p];
    var t := s.(lanes := s.lanes[p := lane.(up := true, path := lane.path.Write([s.meta.ToFrame()]))]);
    if s.originConnected {
      ReadyIsListed(t, p);
    }
  }

  lemma UpKeeps(w: World, i: nat, p: nat)
    requires Base(w) && Enabled(w, Up(i, p))
    ensures
      var r, net := Next(w, Up(i, p)), Project(w, i);
      var message, ready := M.Message(p, w.senders[i].meta.ToFrame().data), M.Ready(Added(w.senders[i], r.senders[i]));
      && Base(r) && OthersStay(w, r, i) && r.crashed == w.crashed
      && M.Enabled(net, message) && M.Enabled(M.Next(net, message), ready)
      && Project(r, i) == M.Next(M.Next(net, message), ready)
  {
    hide Base, OthersStay, Meta.Encode, UpSender, Listed, EncodeFrames, IsMeta, Intact, Added, M.Named;
    var s, lane := w.senders[i], LaneAt(w, i, p);
    var r := UpSender(s, p);
    MetaIsWritable(s.meta);
    LaneSpeaks(w, i);
    ListedIn(w, i);
    UpIsListed(s, p);
    PathsAre(w, i, p);
    WithLanePaths(s.lanes, p, r.lanes[p]);
    assert Speaks(lane, s.meta);
    SenderKeeps(w, i, r);
    AddedIsEnabled(M.Next(Project(w, i), M.Message(p, s.meta.ToFrame().data)), s, r);
  }

  lemma {:induction false} UpInIs(s: Sender, list: seq<nat>, up: bool)
    requires M.DistinctIn(list, |s.lanes|)
    ensures M.DistinctIn(UpIn(s, list, up), |s.lanes|)
    ensures forall q :: q in UpIn(s, list, up) <==> q in list && s.lanes[q].up == up
  {
    if list != [] {
      TailIsDistinct(list);
      UpInIs(s, list[1..], up);
      JoinIsDistinct([list[0]], UpIn(s, list[1..], up));
    }
  }

  lemma ConnectedIsListed(s: Sender)
    requires Listed(s.(originConnected := false))
    ensures Listed(ConnectedReady(s).(originConnected := true))
  {
    hide UpIn;
    UpInIs(s, s.waitList, true);
    UpInIs(s, s.waitList, false);
    JoinIsDistinct(s.readyList, UpIn(s, s.waitList, true));
  }

  /** The sending end after a word has come back or not: no path has ceased to be ready. */
  ghost predicate Heard(s: Sender, r: Sender) {
    && Listed(r) && |r.lanes| == |s.lanes| && s.readyList <= r.readyList
    && r == s.(lanes := r.lanes, waitList := r.waitList, readyList := r.readyList, originConnected := r.originConnected)
    && (s.originConnected ==> r.originConnected)
    && forall q :: 0 <= q < |s.lanes| ==>
         && r.lanes[q] == s.lanes[q].(heard := r.lanes[q].heard)
         && (r.lanes[q].heard ==> s.lanes[q].heard || r.originConnected)
  }

  lemma HearIsListed(s: Sender, p: nat)
    requires Listed(s) && p < |s.lanes| && s.lanes[p].up
    ensures Heard(s, HearSender(s, p)) && HearSender(s, p).lanes == s.lanes[p := s.lanes[p].(heard := true)]
  {
    hide UpIn, Without<nat>;
    var t := s.(lanes := s.lanes[p := s.lanes[p].(heard := true)]);
    ListedSame(s.(originConnected := false), t.(originConnected := false));
    ReadyIsListed(t.(originConnected := false), p);
    ConnectedIsListed(MadeReady(t, p));
  }

  /** A read on the way back delivers the word or nothing. */
  lemma WordOrNothing(lane: Lane, n: nat)
    requires n <= |lane.back.inFlight| && Answers(lane)
    ensures
      var frames, r := Deliver(lane.back.Arrived(n)).frames, lane.back.Receive(n);
      && Intact(r) && r.written == lane.back.written && r.taken == lane.back.taken + |frames|
      && (frames == [] || (frames == [Word()] && !lane.heard))
  {
    hide Intact, Deliver, Word;
    ReceiveKeepsIntact(lane.back, n);
    IntactBounds(lane.back);
    IntactBounds(lane.back.Receive(n));
  }

  lemma HearWord(s: Sender, p: nat)
    requires p < |s.lanes|
    ensures HearAll(s, p, []) == s && HearAll(s, p, [Word()]) == if s.lanes[p].heard then s else HearSender(s, p)
  {
    hide HearSender;
    assert [Word()][..0] == [];
  }

  lemma HearKeeps(w: World, i: nat, p: nat, n: nat)
    requires Good(w) && Enabled(w, Hear(i, p, n))
    ensures
      var r := Next(w, Hear(i, p, n));
      var ready := M.Ready(Added(w.senders[i], r.senders[i]));
      && Base(r) && OthersStay(w, r, i) && r.crashed == w.crashed
      && M.Enabled(Project(w, i), ready) && Project(r, i) == M.Next(Project(w, i), ready)
  {
    hide Base, OthersStay, HearAll, HearSender, Listed, M.Invariant, Answers, Deliver, Added, M.Enabled, M.Next, Speaks;
    var s, lane := w.senders[i], LaneAt(w, i, p);
    var frames, t := Deliver(lane.back.Arrived(n)).frames, Next(w, Hear(i, p, n)).senders[i];
    LaneSpeaks(w, i);
    ListedIn(w, i);
    NothingHeard(s);
    HearWord(s, p);
    WordOrNothing(lane, n);
    if frames != [] {
      HeardOnUp(w, i, p, n);
      HearIsListed(s, p);
    }
    HeardAnswers(lane, n);
    HeardBack(s, HearAll(s, p, frames), p, lane.back.Receive(n));
    PathsAreProjected(w, i);
    SenderKeeps(w, i, t);
    AddedIsEnabled(Project(w, i), s, t);
  }

  lemma HeardAnswers(lane: Lane, n: nat)
    requires n <= |lane.back.inFlight| && Answers(lane)
    ensures
      var frames, back := Deliver(lane.back.Arrived(n)).frames, lane.back.Receive(n);
      Answers(lane.(heard := lane.heard || frames != [], back := back))
  {
    hide Intact, Deliver, Word;
    WordOrNothing(lane, n);
  }

  lemma HeardBack(s: Sender, r: Sender, p: nat, back: Path)
    requires Heard(s, r) && p < |s.lanes| && forall q :: 0 <= q < |s.lanes| ==> Speaks(s.lanes[q], s.meta)
    requires forall q :: 0 <= q < |s.lanes| ==>
      (s.lanes[q].heard ==> s.originConnected) && (q != p ==> r.lanes[q].heard == s.lanes[q].heard)
    requires back.written == s.lanes[p].back.written && Answers(r.lanes[p].(back := back))
    ensures
      var t := r.(lanes := r.lanes[p := r.lanes[p].(back := back)]);
      && Listed(t) && PathsOf(t.lanes) == PathsOf(s.lanes)
      && forall q :: 0 <= q < |s.lanes| ==>
           && Speaks(t.lanes[q], s.meta) && SameAtServer(s.lanes[q], t.lanes[q])
           && (t.lanes[q].heard ==> t.originConnected)
  {
    hide Answers, Listed, Speaks;
    var t := r.(lanes := r.lanes[p := r.lanes[p].(back := back)]);
    ListedSame(r, t);
    forall q | 0 <= q < |s.lanes|
      ensures Speaks(t.lanes[q], s.meta)
    {
      SpeaksSame(s.lanes[q], t.lanes[q], s.meta);
    }
  }

  /** The word is on its way back. */
  lemma ReplyKeeps(w: World, i: nat, p: nat, n: nat)
    requires Base(w) && Enabled(w, Reply(i, p, n))
    ensures
      var r := Next(w, Reply(i, p, n));
      Base(r) && OthersStay(w, r, i) && r.crashed == w.crashed && Project(r, i) == Project(w, i)
  {
    hide Base, OthersStay, Listed, Answers, Speaks;
    var s, lane := w.senders[i], LaneAt(w, i, p);
    LaneSpeaks(w, i);
    ListedIn(w, i);
    NothingHeard(s);
    SentAnswers(lane, n);
    HeardBack(s, s, p, lane.back.Send(n));
    PathsAreProjected(w, i);
    SenderKeeps(w, i, Next(w, Reply(i, p, n)).senders[i]);
  }

  lemma SentAnswers(lane: Lane, n: nat)
    requires n <= |lane.back.writeBuffer| && Answers(lane)
    ensures Answers(lane.(back := lane.back.Send(n)))
  {
    hide Intact, Word;
    SendKeepsIntact(lane.back, n);
  }

  lemma NothingHeard(s: Sender)
    requires Listed(s)
    ensures Heard(s, s)
  {
    hide Listed;
  }

  // ---------- scheduling ----------

  ghost predicate OnlyData(frames: seq<Frame>) {
    forall f :: f in frames ==> IsData(f)
  }

  /** Scheduling writes frames of data to the available paths, and changes nothing else about the paths. */
  ghost predicate DataAdded(a: Path, b: Path, available: bool) {
    && b.attached == a.attached && b.known == a.known && (!available ==> b == a) && a.written <= b.written
    && (forall f :: f in b.written ==> f in a.written || IsData(f))
  }

  lemma {:induction false} DistributeAddsData(paths: seq<Path>, available: seq<nat>, plan: seq<seq<Frame>>)
    requires |available| == |plan| && M.InRange(available, |paths|)
    requires forall frames :: frames in plan ==> AllWritable(frames) && OnlyData(frames)
    ensures forall p :: 0 <= p < |paths| ==>
      DataAdded(paths[p], M.Distribute(paths, available, plan)[p], p in available)
    decreases |plan|
  {
    hide OnlyData, EncodeFrames;
    if plan == [] {
      forall p | 0 <= p < |paths|
        ensures DataAdded(paths[p], paths[p], p in available)
      {
      }
    } else {
      var p := available[0];
      assert plan[0] in plan;
      var next := paths[p := paths[p].Write(plan[0])];
      var r := M.Distribute(paths, available, plan);
      DistributeAddsData(next, available[1..], plan[1..]);
      assert available == [available[0]] + available[1..];
      forall q | 0 <= q < |paths|
        ensures DataAdded(paths[q], r[q], q in available)
      {
        assert DataAdded(next[q], r[q], q in available[1..]);
        if q == p {
          WriteAddsData(paths[p], plan[0], r[p]);
        }
      }
    }
  }

  lemma WriteAddsData(path: Path, frames: seq<Frame>, r: Path)
    requires AllWritable(frames) && OnlyData(frames) && DataAdded(path.Write(frames), r, true)
    ensures DataAdded(path, r, true)
  {
    hide EncodeFrames, IsData;
    var w := path.Write(frames);
    assert w.written == path.written + frames;
    assert path.written <= w.written;
  }

  lemma PlanIsData(net: M.Net, targets: seq<nat>)
    requires RESERVE_OFFSET <= net.writeOffset && net.writeOffset + |net.unscheduled| <= VARINT62_LIMIT
    ensures forall frames :: frames in M.SchedulePlan(net, targets) ==> OnlyData(frames)
  {
    hide Carry;
    var plan, shares := M.SchedulePlan(net, targets), Shares(|net.unscheduled|, targets);
    SharesAddUp(|net.unscheduled|, targets);
    PlanConserves(net.writeOffset, net.unscheduled, shares);
    CarryIsData(Flatten(plan), net.writeOffset, net.unscheduled);
    forall frames, f | frames in plan && f in frames
      ensures IsData(f)
    {
      InPlan(plan, frames, f);
    }
  }

  lemma CarryIsData(frames: seq<Frame>, offset: nat, data: seq<byte>)
    requires Carry(frames, offset, data) && RESERVE_OFFSET <= offset
    ensures OnlyData(frames)
  {
    hide Payload, Contiguous;
  }

  lemma {:induction false} InPlan(plan: seq<seq<Frame>>, frames: seq<Frame>, f: Frame)
    requires frames in plan && f in frames
    ensures f in Flatten(plan)
  {
    if plan[0] != frames {
      InPlan(plan[1..], frames, f);
    }
  }

  lemma DataIsSpoken(lane: Lane, path: Path, meta: Sendable, available: bool)
    requires Speaks(lane, meta) && DataAdded(lane.path, path, available) && (available ==> lane.path.written != [])
    ensures Speaks(lane.(path := path), meta)
  {
    hide Meta.Encode;
  }

  function Available(s: Sender): seq<nat> {
    M.WithRoom(PathsOf(s.lanes), s.readyList)
  }

  /** The sending end after scheduling. */
  lemma ScheduledSpeaks(w: World, i: nat, targets: seq<nat>)
    requires Good(w) && Enabled(w, Schedule(i, targets))
    ensures
      var s, r := w.senders[i], Next(w, Schedule(i, targets)).senders[i];
      && (forall p :: 0 <= p < |s.lanes| ==> SameAtServer(s.lanes[p], r.lanes[p]))
      && (forall p :: 0 <= p < |s.lanes| ==> Speaks(r.lanes[p], s.meta))
      && (forall p :: 0 <= p < |s.lanes| ==> r.lanes[p].up == s.lanes[p].up && r.lanes[p].heard == s.lanes[p].heard)
      && PathsOf(r.lanes)
           == M.Distribute(PathsOf(s.lanes), Available(s), M.SchedulePlan(Project(w, i), targets))
  {
    hide Speaks, Base, M.Distribute, M.SchedulePlan, M.WithRoom, DataAdded, Project, Intact;
    var s, r := w.senders[i], Next(w, Schedule(i, targets)).senders[i];
    PathsAreProjected(w, i);
    OffsetIsReal(w, i);
    var available, plan := Available(s), M.SchedulePlan(Project(w, i), targets);
    PlanIsData(Project(w, i), targets);
    DistributeAddsData(PathsOf(s.lanes), available, plan);
    LaneSpeaks(w, i);
    ListedIn(w, i);
    ListedReady(s);
    M.WithRoomIs(PathsOf(s.lanes), s.readyList);
    forall p | 0 <= p < |s.lanes|
      ensures Speaks(r.lanes[p], s.meta) && SameAtServer(s.lanes[p], r.lanes[p])
    {
      PathsAre(w, i, p);
      if p in available {
        ReadyIsNamed(w, i, p);
      }
      var path := M.Distribute(PathsOf(s.lanes), available, plan)[p];
      DataIsSpoken(s.lanes[p], path, s.meta, p in available);
      DataAtServer(s.lanes[p], path, p in available);
    }
  }

  lemma PathsAreProjected(w: World, i: nat)
    requires i < |w.senders|
    ensures Project(w, i).paths == PathsOf(w.senders[i].lanes)
  {
  }

  lemma DataAtServer(lane: Lane, path: Path, available: bool)
    requires DataAdded(lane.path, path, available)
    ensures SameAtServer(lane, lane.(path := path))
  {
    hide Answers;
    AnswersSame(lane, lane.(path := path));
  }

  lemma ListedReady(s: Sender)
    requires Listed(s)
    ensures M.DistinctIn(s.readyList, |s.lanes|)
  {
  }

  lemma OffsetIsReal(w: World, i: nat)
    requires Good(w) && i < |w.senders|
    ensures RESERVE_OFFSET <= w.senders[i].writeOffset
    ensures Project(w, i).writeOffset == w.senders[i].writeOffset
      && Project(w, i).unscheduled == w.senders[i].unscheduled
  {
    hide Base;
    assert M.Invariant(Project(w, i));
    M.Extent(Project(w, i));
  }

  lemma ScheduleKeeps(w: World, i: nat, targets: seq<nat>)
    requires Good(w) && Enabled(w, Schedule(i, targets))
    ensures
      var r := Next(w, Schedule(i, targets));
      && Base(r) && OthersStay(w, r, i) && r.crashed == w.crashed
      && M.Enabled(Project(w, i), M.Schedule(targets)) && Project(r, i) == M.Next(Project(w, i), M.Schedule(targets))
  {
    hide Base, OthersStay, Speaks, M.Distribute, M.SchedulePlan, M.WithRoom, Listed, M.Invariant, Answers;
    var s, r := w.senders[i], Next(w, Schedule(i, targets)).senders[i];
    LaneSpeaks(w, i);
    ScheduledSpeaks(w, i, targets);
    ListedIn(w, i);
    ListedSame(s, r);
    OffsetIsReal(w, i);
    PathsAreProjected(w, i);
    SenderKeeps(w, i, r);
  }

  // ---------- receiving ----------

  lemma ReceiveKeeps(w: World, i: nat, p: nat, n: nat)
    requires Good(w) && Enabled(w, Step.Receive(i, p, n))
    ensures
      var r := Next(w, Step.Receive(i, p, n));
      && Base(r) && OthersStay(w, r, i) && r.crashed == w.crashed
      && M.Enabled(Project(w, i), M.Step.Receive(p, n)) && Project(r, i) == M.Next(Project(w, i), M.Step.Receive(p, n))
      && SameMetas(w, r) && SameLanes(w, r)
  {
    hide Base, OthersStay, HandleAll, DispatchAll, Deliver, Speaks, M.Invariant, Follows;
    var path := LaneAt(w, i, p).path;
    var frames := Deliver(path.Arrived(n)).frames;
    var m, k := HandleAll(w, i, p, frames), DispatchAll(View(w, i, p), frames);
    PathsAre(w, i, p);
    ReceivedInTime(w, i, p, n);
    HandleAllKeeps(w, i, p, frames);
    FollowsParts(w, i, p, k, m);
    TakenKeeps(m, i, p, LaneAt(m, i, p).path, path, n);
    OthersStayTwice(w, m, Next(w, Step.Receive(i, p, n)), i);
    NetAdvances(Project(w, i), p, k, path, path.Receive(n));
  }

  lemma FollowsParts(w: World, i: nat, p: nat, k: Sink, r: World)
    requires IsLane(w, i, p) && Follows(w, i, p, k, r)
    ensures SameLanes(w, r) && SameMetas(w, r) && Base(r) && r.crashed == w.crashed && OthersStay(w, r, i)
    ensures Project(r, i) == Project(w, i).With(k, p, LaneAt(w, i, p).path)
    ensures LaneAt(r, i, p).path == LaneAt(w, i, p).path.(attached := k.attached)
  {
  }

  lemma NetAdvances(net: M.Net, p: nat, k: Sink, path: Path, r: Path)
    requires p < |net.paths|
    ensures net.With(k, p, r) ==
      net.With(k, p, path).(paths := net.With(k, p, path).paths[p := r.(attached := k.attached)])
  {
  }

  /** The frames are handled, and the path has moved on. */
  lemma TakenKeeps(w: World, i: nat, p: nat, now: Path, path: Path, n: nat)
    requires Base(w) && IsLane(w, i, p) && n <= |path.inFlight| && now == LaneAt(w, i, p).path
    requires now == path.(attached := now.attached)
    ensures
      var lane := LaneAt(w, i, p).(path := path.Receive(n).(attached := now.attached));
      var r := WithLane(w, i, p, lane);
      && Base(r) && OthersStay(w, r, i) && SameMetas(w, r)
      && Project(r, i) == Project(w, i).(paths := Project(w, i).paths[p := lane.path])
  {
    hide Base, OthersStay, Deliver;
    PathMoves(w, i, p, path.Receive(n).(attached := now.attached));
  }

  /** What a read delivers starts with META if the session is not known yet, and names no other session. */
  lemma ReceivedInTime(w: World, i: nat, p: nat, n: nat)
    requires Good(w) && Enabled(w, Step.Receive(i, p, n))
    ensures
      var frames := Deliver(LaneAt(w, i, p).path.Arrived(n)).frames;
      && M.InTime(View(w, i, p), frames) && !View(w, i, p).crashed && !View(w, i, p).halted
      && forall f :: f in frames && IsMeta(f) ==> f == w.senders[i].meta.ToFrame()
  {
    hide Deliver, Meta.Encode, Known, Numbered, Listed, IsMeta, Intact;
    var path := LaneAt(w, i, p).path;
    assert LaneOk(w, i, p) && M.Invariant(Project(w, i));
    PathsAre(w, i, p);
    assert M.Sound(Project(w, i).paths[p]);
    M.DeliveredInTime(path, n);
    LeftIsWritten(path);
  }

  lemma LeftIsWritten(path: Path)
    ensures forall f :: f in path.Left() ==> f in path.written
  {
  }

  // ---------- the signal that the origin is reached ----------

  lemma OriginKeeps(w: World, e: nat)
    requires Base(w) && Enabled(w, OriginReached(e))
    ensures
      var r := Next(w, OriginReached(e));
      && Base(r) && r.crashed == w.crashed && |r.senders| == |w.senders|
      && forall j :: 0 <= j < |w.senders| ==> Project(r, j) == Project(w, j)
  {
    hide Numbered, Listed, LaneOk, ToldLanes, EndpointOk;
    var r := Next(w, OriginReached(e));
    forall j: nat, q: nat | IsLane(r, j, q)
      ensures LaneOk(r, j, q)
    {
      OriginLane(w, e, j, q);
    }
    forall d | 0 <= d < |r.endpoints|
      ensures EndpointOk(r, d)
    {
      OriginEndpoint(w, e, d);
    }
    forall j | 0 <= j < |w.senders|
      ensures Listed(r.senders[j]) && Project(r, j) == Project(w, j)
    {
      ToldKeeps(w.senders[j].lanes, j, w.endpoints[e].readyList);
      ListedSame(w.senders[j], r.senders[j]);
    }
    NumberedSame(w, r);
  }

  lemma OriginEndpoint(w: World, e: nat, d: nat)
    requires Base(w) && e < |w.endpoints| && d < |w.endpoints|
    ensures EndpointOk(Next(w, OriginReached(e)), d)
  {
    hide Numbered, Listed, LaneOk, ToldLanes;
    assert EndpointOk(w, d);
    forall j | 0 <= j < |w.senders|
      ensures forall p :: 0 <= p < |w.senders[j].lanes| ==>
        ToldLanes(w.senders[j].lanes, j, w.endpoints[e].readyList)[p].server == w.senders[j].lanes[p].server
    {
      ToldKeeps(w.senders[j].lanes, j, w.endpoints[e].readyList);
    }
  }

  lemma ToldKeeps(lanes: seq<Lane>, i: nat, list: set<(nat, nat)>)
    ensures PathsOf(ToldLanes(lanes, i, list)) == PathsOf(lanes)
    ensures forall p :: 0 <= p < |lanes| ==>
      ToldLanes(lanes, i, list)[p].up == lanes[p].up && ToldLanes(lanes, i, list)[p].server == lanes[p].server
  {
    hide EncodeFrames;
  }

  /** A path that is told is in the list of the endpoint, so it is attached. */
  lemma OriginLane(w: World, e: nat, j: nat, q: nat)
    requires Base(w) && e < |w.endpoints| && IsLane(w, j, q)
    ensures LaneOk(Next(w, OriginReached(e)), j, q)
  {
    hide Numbered, Listed, Speaks, Tell, Intact;
    var lane, list := LaneAt(w, j, q), w.endpoints[e].readyList;
    assert LaneOk(w, j, q) && EndpointOk(w, e);
    TellKeeps(lane);
    SpeaksSame(lane, if (j, q) in list then Tell(lane) else lane, w.senders[j].meta);
  }

  lemma NumberedSame(w: World, r: World)
    requires Numbered(w) && r.uuids == w.uuids && r.sids == w.sids && SameMetas(w, r)
    ensures Numbered(r)
  {
  }

  // ---------- a new session ----------

  lemma ConnectKeeps(w: World, c: nat, n: nat, ip: nat, port: nat)
    requires Base(w) && Enabled(w, Connect(c, n, ip, port))
    ensures
      var r := Next(w, Connect(c, n, ip, port));
      && Base(r) && r.crashed == w.crashed && |r.senders| == |w.senders| + 1
      && (forall j :: 0 <= j < |w.senders| ==> Project(r, j) == Project(w, j))
      && Project(r, |w.senders|) == NewNet(n, w.capacity).(crashed := w.crashed)
  {
    hide Numbered, Listed, LaneOk, EndpointOk;
    var r := Next(w, Connect(c, n, ip, port));
    NewKey(w, c, n, ip, port);
    forall j: nat, q: nat | IsLane(r, j, q)
      ensures LaneOk(r, j, q)
    {
      ConnectLane(w, c, n, ip, port, j, q);
    }
    forall e | 0 <= e < |r.endpoints|
      ensures EndpointOk(r, e)
    {
      ConnectEndpoint(w, c, n, ip, port, e);
    }
    NewIsListed(Meta(w.uuids[c], w.sids[c], ip, port), n);
    assert PathsOf(r.senders[|w.senders|].lanes) == NewNet(n, w.capacity).paths;
  }

  lemma ConnectLane(w: World, c: nat, n: nat, ip: nat, port: nat, j: nat, q: nat)
    requires Base(w) && Enabled(w, Connect(c, n, ip, port)) && IsLane(Next(w, Connect(c, n, ip, port)), j, q)
    ensures LaneOk(Next(w, Connect(c, n, ip, port)), j, q)
  {
    hide Numbered, Listed, Known, Intact;
    NewPathIsIntact(true);
    assert j < |w.senders| ==> LaneOk(w, j, q);
  }

  lemma ConnectEndpoint(w: World, c: nat, n: nat, ip: nat, port: nat, e: nat)
    requires Base(w) && Enabled(w, Connect(c, n, ip, port)) && e < |w.endpoints|
    ensures EndpointOk(Next(w, Connect(c, n, ip, port)), e)
  {
    hide Numbered, Listed, LaneOk;
    assert EndpointOk(w, e);
  }

  lemma NewIsListed(meta: Sendable, n: nat)
    ensures Listed(NewSender(meta, n))
  {
    var s := NewSender(meta, n);
    forall p: nat | p < n
      ensures p in s.waitList
    {
      assert s.waitList[p] == p;
    }
  }
}
