/**
 How paths become ready for data: the sender names the session on each path before anything else, the receiver attaches
 every path of a session to the same endpoint; tpproxy/mpproxy_client.cc:40-75, :114-143, :195-254 and
 tpproxy/mpproxy_server.cc:61-100, :132-159, :207-254. What follows for whole runs is in Sessions.
 */
module Handshakes {
  import opened Words
  import opened Lists
  import opened ByteCodec
  import opened Framing
  import opened Receivers
  import opened Registries
  import opened Metas
  import opened Striping
  import opened Sockets
  import opened IntervalBudgets
  import opened Mpproxy
  import opened Streams
  import opened Sequencers

  // ---------- lists of paths ----------

  /** The loop of RemoveFromWaitList and RemoveFromReadyList. */
  method Erase(list: seq<TcpConnection>, c: TcpConnection) returns (r: seq<TcpConnection>, removed: bool)
    ensures removed == (c in list) && r == Without(list, c)
  {
    for i := 0 to |list|
      invariant c !in list[..i]
    {
      if list[i] == c {
        WithoutAt(list, c, i);
        return list[..i] + list[i + 1..], true;
      }
    }
    WithoutMissing(list, c);
    return list, false;
  }

  // ---------- the sender ----------

  datatype Signal = ConnectFail | Connected | Close | DstConnected | DstConnectFail

  /** If the path is up, META is the first frame on it, and otherwise nothing has been written to it. */
  ghost predicate Named(c: TcpConnection, meta: Meta)
    requires meta.Fits()
    reads c, c.socket, c.socket.budget
  {
    && c.Valid() && c.socket.fd > 0
    && (if c.connected then c.written != [] && c.written[0] == meta.ToFrame() else c.written == [])
  }

  /** A path of the sender. */
  class TcpConnectionRight {
    const connection: TcpConnection
    const meta: Meta
    var originConnected: bool

    ghost predicate Valid()
      reads connection, connection.socket, connection.socket.budget
    {
      meta.Fits() && Named(connection, meta)
    }

    /** The path belongs to its session from the start. */
    constructor (connection: TcpConnection, server: TpServer, meta: Meta)
      requires connection.Valid() && meta.Fits() && connection.socket.fd > 0
      requires !connection.connected && connection.written == []
      modifies connection`server
      ensures Valid() && this.connection == connection && this.meta == meta && connection.server == server
      ensures !originConnected
    {
      this.connection, this.meta, originConnected := connection, meta, false;
      connection.server := server;
    }

    method WriteMetaData()
      requires connection.Valid() && meta.Fits() && connection.socket.fd > 0
      requires connection.connected && connection.written == []
      modifies connection`written, connection.socket, connection.socket.budget
      ensures Valid() && connection.written == [meta.ToFrame()] && connection.socket.Flushed()
    {
      hide TcpConnection.Valid, Meta.Encode;
      MetaRoundTrip(meta);
      var payload := MetaPayload(meta);
      connection.WriteMessage(MESSAGE_META, payload);
    }

    /** The socket becomes writable for the first time: the path is up, and META goes out. */
    method OnConnected()
      requires Valid() && !connection.connected
      modifies connection`connected, connection`written, connection.socket, connection.socket.budget
      ensures Valid() && connection.connected && connection.written == [meta.ToFrame()] && connection.socket.Flushed()
    {
      connection.connected := true;
      WriteMetaData();
    }
  }

  /** Paths that share nothing, and on which META comes first. */
  ghost predicate AllNamed(paths: set<TcpConnection>, meta: Meta)
    requires meta.Fits()
    reads paths, set c | c in paths :: c.socket, set c | c in paths :: c.socket.budget
  {
    && (forall c, d :: c in paths && d in paths && c != d ==> c.Repr() !! d.Repr())
    && forall c :: c in paths ==> Named(c, meta)
  }

  /** Each path waits, is ready, or has failed or been closed: exactly one of these, once. A ready path is up. */
  ghost predicate Listed(paths: set<TcpConnection>, waiting: seq<TcpConnection>, ready: seq<TcpConnection>,
                         gone: set<TcpConnection>)
    reads paths`connected
  {
    && NoDuplicates(waiting) && NoDuplicates(ready)
    && (forall c :: c in waiting ==> c in paths && c !in ready && c !in gone)
    && (forall c :: c in ready ==> c in paths && c.connected && c !in gone)
    && gone <= paths && (forall c :: c in paths ==> c in waiting || c in ready || c in gone)
  }

  lemma ListedWithout(paths: set<TcpConnection>, waiting: seq<TcpConnection>, ready: seq<TcpConnection>,
        gone: set<TcpConnection>, c: TcpConnection)
    requires Listed(paths, waiting, ready, gone) && c in paths
    ensures c !in waiting ==> Without(waiting, c) == waiting
    ensures Listed(paths, Without(waiting, c), Without(ready, c), gone + {c})
    ensures c in waiting ==> Listed(paths, Without(waiting, c), ready, gone + {c})
    ensures c in waiting && c.connected ==> Listed(paths, Without(waiting, c), ready + [c], gone)
    ensures forall d :: d in Without(waiting, c) <==> d in waiting && d != c
    ensures forall d :: d in Without(ready, c) <==> d in ready && d != c
  {
    WithoutIs(waiting, c);
    WithoutIs(ready, c);
    if c !in waiting {
      WithoutMissing(waiting, c);
    }
    var w, r := Without(waiting, c), Without(ready, c);
    assert forall x :: x in w ==> x in waiting;
    assert forall x :: x in r ==> x in ready;
  }

  twostate predicate Untouched(c: TcpConnection)
    reads c, c.socket, c.socket.budget
  {
    unchanged(c) && unchanged(c.socket) && (c.socket.budget != null ==> unchanged(c.socket.budget))
  }

  /**
   The sending end of a session. It is also what schedules: base has the ready list, the bytes to send and the offset.
   Its paths wait until they are up and the origin is reached, and are ready from then on.
   */
  class TpServerLeft {
    const base: TpServer
    const meta: Meta
    const paths: set<TcpConnection>
    var waitList: seq<TcpConnection>
    var originConnected: bool
    /** The paths that failed or were closed. */
    ghost var gone: set<TcpConnection>

    ghost predicate Consistent()
      reads this`waitList, this`gone, base`readyList
      reads paths, set c | c in paths :: c.socket, set c | c in paths :: c.socket.budget
    {
      meta.Fits() && AllNamed(paths, meta) && Listed(paths, waitList, base.readyList, gone)
    }

    /** Once the origin is reached, no path that is up is kept waiting. */
    ghost predicate Valid()
      reads this, base`readyList, paths, set c | c in paths :: c.socket, set c | c in paths :: c.socket.budget
    {
      Consistent() && (originConnected ==> forall c :: c in waitList ==> !c.connected)
    }

    /** Each path is waiting at first. */
    constructor (base: TpServer, meta: Meta, waiting: seq<TcpConnection>)
      requires meta.Fits() && base.readyList == [] && NoDuplicates(waiting)
      requires AllNamed((set c | c in waiting), meta)
      ensures Valid() && this.base == base && this.meta == meta && waitList == waiting && !originConnected
      ensures paths == (set c | c in waiting) && gone == {}
    {
      this.base, this.meta := base, meta;
      paths, gone := set c | c in waiting, {};
      waitList, originConnected := waiting, false;
    }

    /** Signals of a path about itself, in the order of the source. A failing path must be waiting. */
    method Notify(from: TcpConnection, signal: Signal)
      requires Consistent() && from in paths
      requires originConnected ==> forall c :: c in waitList && c != from ==> !c.connected
      requires signal == DstConnected || signal == Connected ==> from.connected
      requires signal == ConnectFail || signal == DstConnectFail ==> from in waitList && !from.connected
      modifies this`waitList, this`gone, this`originConnected, base`readyList
      ensures Valid() && originConnected == (old(originConnected) || signal == DstConnected)
      ensures InOrder(waitList, old(waitList))
      ensures signal == DstConnected ==>
        && (forall c :: c in base.readyList <==> c in old(base.readyList) || (c in old(waitList) && c.connected))
        && (forall c :: c in waitList <==> c in old(waitList) && !c.connected)
      ensures signal == Connected ==>
        && (forall c :: c in base.readyList <==>
              c in old(base.readyList) || (originConnected && c == from && c in old(waitList)))
        && (forall c :: c in waitList <==> c in old(waitList) && !(originConnected && c == from))
      ensures signal == DstConnected || signal == Connected ==>
        && gone == old(gone) && old(base.readyList) <= base.readyList
        && InOrder(base.readyList[|old(base.readyList)|..], [from] + old(waitList))
      ensures signal != DstConnected && signal != Connected ==>
        && (forall c :: c in base.readyList <==> c in old(base.readyList) && (signal == Close ==> c != from))
        && (forall c :: c in waitList <==> c in old(waitList) && c != from)
        && gone == old(gone) + {from}
    {
      hide Consistent, InOrder;
      WholeIsInOrder(waitList);
      NoneIsInOrder([from] + waitList);
      OneIsInOrder(from, [from] + waitList);
      assert base.readyList[|base.readyList|..] == [];
      if signal == DstConnected {
        MakeAllReady(from);
        originConnected := true;
      }
      if signal == Connected && originConnected {
        MakeReady(from);
        assert base.readyList[|old(base.readyList)|..] == if from in old(waitList) then [from] else [];
      }
      if signal == ConnectFail || signal == DstConnectFail {
        Forget(from, false);
      }
      if signal == Close {
        Forget(from, true);
      }
    }

    /** The origin is reached: the path that says so becomes ready, and then all others that are up. */
    method MakeAllReady(from: TcpConnection)
      requires Consistent() && from in paths && from.connected
      modifies this`waitList, base`readyList
      ensures Consistent() && InOrder(waitList, old(waitList)) && old(base.readyList) <= base.readyList
      ensures forall c :: c in base.readyList <==> c in old(base.readyList) || (c in old(waitList) && c.connected)
      ensures forall c :: c in waitList <==> c in old(waitList) && !c.connected
      ensures InOrder(base.readyList[|old(base.readyList)|..], [from] + old(waitList))
    {
      hide Consistent, InOrder;
      MakeReady(from);
      ghost var rest, ready := waitList, base.readyList;
      MoveConnected();
      InOrderTwice(waitList, rest, old(waitList));
      ghost var more := base.readyList[|ready|..];
      InOrderTwice(more, rest, old(waitList));
      FirstIsInOrder(from, more, old(waitList));
      assert base.readyList[|old(base.readyList)|..] == ready[|old(base.readyList)|..] + more;
      assert [] + more == more;
    }

    /** If the path was waiting it becomes ready. */
    method MakeReady(from: TcpConnection)
      requires Consistent() && from in paths && from.connected
      modifies this`waitList, base`readyList
      ensures Consistent() && waitList == Without(old(waitList), from) && InOrder(waitList, old(waitList))
      ensures forall c :: c in waitList <==> c in old(waitList) && c != from
      ensures base.readyList == old(base.readyList) + if from in old(waitList) then [from] else []
    {
      hide AllNamed, Listed, InOrder;
      WithoutIsInOrder(waitList, from);
      ListedWithout(paths, waitList, base.readyList, gone, from);
      var removed;
      waitList, removed := Erase(waitList, from);
      if removed {
        base.readyList := base.readyList + [from];
      }
    }

    /** The path has failed, or has been closed. */
    method Forget(from: TcpConnection, ready: bool)
      requires Consistent() && from in paths && (!ready ==> from in waitList)
      modifies this`waitList, this`gone, base`readyList
      ensures Consistent() && gone == old(gone) + {from} && InOrder(waitList, old(waitList))
      ensures forall c :: c in waitList <==> c in old(waitList) && c != from
      ensures forall c :: c in base.readyList <==> c in old(base.readyList) && (ready ==> c != from)
    {
      hide AllNamed, Listed, InOrder;
      WithoutIsInOrder(waitList, from);
      ListedWithout(paths, waitList, base.readyList, gone, from);
      var removed;
      waitList, removed := Erase(waitList, from);
      if ready {
        base.readyList, removed := Erase(base.readyList, from);
      }
      gone := gone + {from};
    }

    /** Moves every waiting path that is up to the ready ones. */
    method MoveConnected()
      requires Consistent()
      modifies this`waitList, base`readyList
      ensures Consistent() && (forall c :: c in waitList <==> c in old(waitList) && !c.connected)
      ensures InOrder(waitList, old(waitList)) && old(base.readyList) <= base.readyList
      ensures
        var more := base.readyList[|old(base.readyList)|..];
        InOrder(more, old(waitList)) && forall k :: 0 <= k < |more| ==> more[k] in old(waitList)
      ensures forall c :: c in base.readyList <==> c in old(base.readyList) || (c in old(waitList) && c.connected)
    {
      hide Consistent, AllNamed, Listed, InOrder, NoDuplicates<TcpConnection>;
      WholeIsInOrder(waitList);
      ghost var more := [];
      assert more + waitList[0..] == waitList;
      var i := 0;
      while i < |waitList|
        invariant 0 <= i <= |waitList| && Consistent()
        invariant InOrder(waitList, old(waitList)) && base.readyList == old(base.readyList) + more
        invariant InOrder(more + waitList[i..], old(waitList))
        invariant forall k :: 0 <= k < |more| ==> more[k] in old(waitList)
        invariant forall c :: c in waitList[..i] ==> !c.connected
        invariant forall c :: c in waitList ==> c in old(waitList)
        invariant forall c :: c in old(waitList) ==> c in waitList || c.connected
        invariant forall c :: c in base.readyList <==>
          c in old(base.readyList) || (c in old(waitList) && c !in waitList)
        decreases |waitList| - i
      {
        if waitList[i].connected {
          CutIsInOrder(waitList, old(waitList), i);
          TakenIsInOrder(more, waitList, i);
          more := more + [waitList[i]];
          MoveOne(i);
        } else {
          LeftOutIsInOrder(more, waitList, i, old(waitList));
          i := i + 1;
        }
      }
      assert more + waitList[i..] == more == base.readyList[|old(base.readyList)|..];
    }

    method MoveOne(i: nat)
      requires Consistent() && i < |waitList| && waitList[i].connected
      modifies this`waitList, base`readyList
      ensures Consistent() && waitList == old(waitList[..i] + waitList[i + 1..])
      ensures base.readyList == old(base.readyList) + [old(waitList[i])] && old(waitList[i]) !in waitList
    {
      hide AllNamed;
      var right := waitList[i];
      assert forall c :: c in waitList[..i] + waitList[i + 1..] ==> c in waitList && c != right;
      waitList := waitList[..i] + waitList[i + 1..];
      base.readyList := base.readyList + [right];
    }

    /** A path comes up: META goes out on it, and then it becomes ready if the origin is reached already. */
    method OnWritable(from: TcpConnectionRight)
      requires Valid() && from.Valid() && from.connection in paths && from.meta == meta && !from.connection.connected
      modifies this`waitList, this`gone, this`originConnected, base`readyList
      modifies from.connection`connected, from.connection`written, from.connection.socket, from.connection.socket.budget
      ensures Valid() && from.connection.connected && originConnected == old(originConnected)
      ensures gone == old(gone) && InOrder(waitList, old(waitList)) && old(base.readyList) <= base.readyList
      ensures forall c :: c in waitList <==> c in old(waitList) && !(originConnected && c == from.connection)
      ensures forall c :: c in base.readyList <==>
        c in old(base.readyList) || (originConnected && c == from.connection && c in old(waitList))
    {
      hide InOrder;
      from.OnConnected();
      StillNamed(from.connection);
      Notify(from.connection, Connected);
    }

    /** What happens to one path does not disturb the others. */
    twostate lemma StillNamed(from: TcpConnection)
      requires old(Consistent()) && from in paths && old(allocated(from)) && Named(from, meta)
      requires waitList == old(waitList) && base.readyList == old(base.readyList) && gone == old(gone)
      requires originConnected == old(originConnected)
      requires old(from.connected) ==> from.connected
      requires forall c :: c in paths && c != from ==> Untouched(c)
      ensures Consistent()
    {
    }

    /** The first word that the origin is reached comes over a path that is up. */
    method OnMessage(from: TcpConnectionRight, data: seq<byte>)
      requires Valid() && from.connection in paths && from.connection.connected
      modifies this`waitList, this`gone, this`originConnected, base`readyList, from`originConnected
      ensures gone == old(gone) && InOrder(waitList, old(waitList)) && old(base.readyList) <= base.readyList
      ensures Valid() && originConnected == (old(originConnected) || from.originConnected != old(from.originConnected))
      ensures from.originConnected == (old(from.originConnected) || (data != [] && data[0] == MESSAGE_ORIGIN_CONNECTED))
      ensures forall c :: c in base.readyList <==>
        || c in old(base.readyList)
        || (from.originConnected != old(from.originConnected) && c in old(waitList) && c.connected)
      ensures forall c :: c in waitList <==>
        c in old(waitList) && !(from.originConnected != old(from.originConnected) && c.connected)
    {
      hide Consistent, InOrder;
      WholeIsInOrder(waitList);
      var reader := new DataReader(data);
      var success, kind := reader.ReadUInt8();
      if success && kind == MESSAGE_ORIGIN_CONNECTED && !from.originConnected {
        HearFirst(from);
      }
    }

    method HearFirst(from: TcpConnectionRight)
      requires Valid() && from.connection in paths && from.connection.connected
      modifies this`waitList, this`gone, this`originConnected, base`readyList, from`originConnected
      ensures Valid() && originConnected && from.originConnected && gone == old(gone)
      ensures InOrder(waitList, old(waitList)) && old(base.readyList) <= base.readyList
      ensures forall c :: c in waitList <==> c in old(waitList) && !c.connected
      ensures forall c :: c in base.readyList <==> c in old(base.readyList) || (c in old(waitList) && c.connected)
    {
      hide Consistent, InOrder;
      from.originConnected := true;
      Notify(from.connection, DstConnected);
    }

    /** Bytes are scheduled on ready paths only, so behind the META message that names their session. */
    method Schedule() returns (available: seq<TcpConnection>, targets: seq<nat>, ghost plan: seq<seq<Frame>>)
      requires Valid() && base.writeOffset + |base.fdReadBuffer| <= VARINT62_LIMIT
      modifies base`fdReadBuffer, base`writeOffset
      modifies base.readyList`written, SocketsOf(base.readyList), BudgetsOf(base.readyList)
      ensures Valid() && available == old(Available(base.readyList)) && OnceEach(available, base.readyList)
      ensures InOrder(available, base.readyList) && base.readyList == old(base.readyList)
      ensures forall c :: c in available <==> c in base.readyList && old(|c.socket.fdWriteBuffer|) <= 15000
      ensures (exists c :: c in base.readyList && old(|c.socket.fdWriteBuffer|) <= 15000) ==> base.fdReadBuffer == []
      ensures forall c :: c in available ==> c.written != [] && c.written[0] == meta.ToFrame() && IsMeta(c.written[0])
      ensures available == [] ==>
        base.fdReadBuffer == old(base.fdReadBuffer) && base.writeOffset == old(base.writeOffset)
      ensures available != [] ==>
        && base.fdReadBuffer == [] && base.writeOffset == old(base.writeOffset) + |old(base.fdReadBuffer)|
        && |targets| + 1 == |available| && Sum(Rates(available)) > 0
        && targets == Targets(|old(base.fdReadBuffer)|, Rates(available), Sum(Rates(available)))
        && plan == SharedOut(old(base.writeOffset), old(base.fdReadBuffer), targets)
        && WrittenOn(available) == Added(old(WrittenOn(Available(base.readyList))), plan)
    {
      hide AllNamed, Listed, Named, Meta.Encode, Separate, AllValid, Available, SharedOut, OnceEach, Rates, Sum,
        Striping.Targets, InOrder;
      ReadyAreValid();
      OthersApart();
      AvailableAreReady(base.readyList);
      available, targets, plan := base.Schedule();
      ScheduledStaysNamed();
      ReadyAreNamed(available);
    }

    lemma OthersApart()
      requires Consistent()
      ensures forall c :: c in paths && c !in base.readyList ==>
        && c.socket !in SocketsOf(base.readyList)
        && (c.socket.budget == null || c.socket.budget !in BudgetsOf(base.readyList))
    {
      forall c, d | c in paths && d in base.readyList && c != d
        ensures c.socket != d.socket && (c.socket.budget != null ==> c.socket.budget != d.socket.budget)
      {
        assert c.Repr() !! d.Repr();
        assert c.socket in c.Repr() && d.socket in d.Repr();
        assert Named(c, meta) && Named(d, meta);
        assert c.socket.budget in c.Repr() && d.socket.budget in d.Repr();
      }
    }

    /** Frames behind META leave it where it is, and other paths are not touched. */
    twostate lemma ScheduledStaysNamed()
      requires old(Consistent()) && AllValid(base.readyList) && base.readyList == old(base.readyList)
      requires forall c :: c in paths ==> c.connected == old(c.connected)
      requires forall c :: c in base.readyList ==> old(c.written) <= c.written
      requires forall c :: c in paths && c !in base.readyList ==> Untouched(c)
      ensures AllNamed(paths, meta)
    {
    }

    lemma ReadyAreNamed(some: seq<TcpConnection>)
      requires Consistent() && OnceEach(some, base.readyList)
      ensures forall c :: c in some ==> c.written != [] && c.written[0] == meta.ToFrame() && IsMeta(c.written[0])
    {
      hide Meta.Encode;
      MetaRoundTrip(meta);
    }

    lemma ReadyAreValid()
      requires Consistent()
      ensures Separate(base.readyList) && AllValid(base.readyList)
    {
    }
  }

  // ---------- the receiver ----------

  const STREAM_RECEIVE_WINDOW_LIMIT := 64 * 1024 * 1024

  /** Nothing has been received yet, and the window is 64 MiB. */
  ghost predicate IsNew(base: TpServer)
    reads base, base.socket, base.sequencer, base.sequencer.stream, base.sequencer.buffered,
          base.sequencer.buffered.storage, base.sequencer.buffered.bytesReceived
  {
    base.Receiving() && base.View(true, false) == Sink(67108864, Stream(0, map[]), [], true, false, false, false)
  }

  /** The receiving end of a session; base has the paths that are attached to it, as its ready list. */
  class TpServerRight {
    const key: Key
    const base: TpServer

    constructor (key: Key, fd: int)
      ensures this.key == key && fresh(base) && fresh(base.Receiver()) && base.readyList == [] && IsNew(base)
    {
      this.key := key;
      base := new TpServer(fd, STREAM_RECEIVE_WINDOW_LIMIT);
    }

    /** A path moves to the end of the list, or is added there. */
    method Register(from: TcpConnection)
      modifies base`readyList
      ensures base.readyList == Without(old(base.readyList), from) + [from]
      ensures old(IsNew(base)) ==> IsNew(base)
    {
      hide QuicStreamSequencer.Valid, SocketBase.Valid;
      var list, removed := Erase(base.readyList, from);
      base.readyList := list + [from];
    }
  }

  ghost function BasesOf(sessions: Registry<TpServerRight>): set<TpServer> {
    set e | e in Entries(sessions) :: e.base
  }

  /** Every endpoint is registered for the session it was made for, and no two are the same. */
  ghost predicate Keyed(sessions: Registry<TpServerRight>) {
    && Tidy(sessions)
    && (forall k: Key :: Lookup(sessions, k).Some? ==> Lookup(sessions, k).value.key == k)
    && (forall d, e :: d in Entries(sessions) && e in Entries(sessions) && d != e ==> d.base != e.base)
  }

  lemma RegisterKeepsKeyed(sessions: Registry<TpServerRight>, key: Key, server: TpServerRight)
    requires Keyed(sessions) && Lookup(sessions, key).None? && server.key == key && server.base !in BasesOf(sessions)
    ensures Keyed(Registered(sessions, key, server))
    ensures BasesOf(Registered(sessions, key, server)) == BasesOf(sessions) + {server.base}
    ensures Grown(sessions, Registered(sessions, key, server), key)
  {
    hide Entries, Registered;
    RegisterAddsOne(sessions, key, server);
    RegisterAddsEntry(sessions, key, server);
    RegisterThenUnregister(sessions, key, server);
  }

  lemma UnregisterKeepsKeyed(sessions: Registry<TpServerRight>, key: Key)
    requires Keyed(sessions) && Lookup(sessions, key).Some?
    ensures Keyed(Unregistered(sessions, key))
  {
    hide Entries, Unregistered;
    UnregisterRemovesOne(sessions, key);
    EntriesOfFewer(Unregistered(sessions, key), sessions);
  }

  lemma EntriesOfFewer(a: Registry<TpServerRight>, b: Registry<TpServerRight>)
    requires forall k: Key :: Lookup(a, k).Some? ==> Lookup(a, k) == Lookup(b, k)
    ensures Entries(a) <= Entries(b)
  {
    forall e | e in Entries(a)
      ensures e in Entries(b)
    {
      EntryHasKey(a, e);
      EntryHasKey(b, e);
    }
  }

  /** A session was registered already, or is the one session that was added. */
  ghost predicate Grown(a: Registry<TpServerRight>, b: Registry<TpServerRight>, key: Key) {
    && Lookup(b, key).Some?
    && b == if Lookup(a, key).Some? then a else Registered(a, key, Lookup(b, key).value)
  }

  lemma GrownKeeps(a: Registry<TpServerRight>, b: Registry<TpServerRight>, key: Key)
    requires Grown(a, b, key)
    ensures forall k: Key :: Lookup(a, k).Some? ==> Lookup(b, k) == Lookup(a, k)
    ensures BasesOf(a) <= BasesOf(b)
  {
    hide Entries, Registered;
    if Lookup(a, key).None? {
      RegisterAddsOne(a, key, Lookup(b, key).value);
      RegisterAddsEntry(a, key, Lookup(b, key).value);
    }
  }

  class TpServerBackend {
    var uuidSessions: Registry<TpServerRight>
    /** The paths that were accepted. */
    ghost var connections: set<TcpConnectionLeft>

    /** Every path is attached to the endpoint of the session it was named for, if it was, and known to it. */
    ghost predicate Valid()
      reads this, connections, set c | c in connections :: c.connection, BasesOf(uuidSessions)
    {
      && Keyed(uuidSessions) && (forall c :: c in connections ==> c.backend == this && c.Attached())
      && (forall c, d :: c in connections && d in connections && c != d ==> c.connection != d.connection)
    }

    constructor ()
      ensures Valid() && uuidSessions == map[] && connections == {}
    {
      uuidSessions, connections := map[], {};
    }

    /** A path is accepted; it belongs to no session yet. */
    method CreateEndpoint(connection: TcpConnection) returns (left: TcpConnectionLeft)
      requires Valid() && forall c :: c in connections ==> c.connection != connection
      modifies this`connections, connection`server
      ensures Valid() && fresh(left) && connections == old(connections) + {left} && uuidSessions == old(uuidSessions)
      ensures left.connection == connection && left.named == None && connection.server == null
    {
      hide Keyed, BasesOf, Registries.Lookup;
      left := new TcpConnectionLeft(this, connection);
      connections := connections + {left};
    }

    method Find(key: Key) returns (server: TpServerRight?)
      ensures server == null <==> Lookup(uuidSessions, key).None?
      ensures server != null ==> Lookup(uuidSessions, key) == Some(server)
    {
      server := null;
      if key.uuid in uuidSessions {
        var sessions := uuidSessions[key.uuid];
        if key.sid in sessions {
          server := sessions[key.sid];
        }
      }
    }

    /** A session that is registered already is a fatal error. */
    method RegsiterSink(server: TpServerRight, key: Key)
      requires Lookup(uuidSessions, key).None?
      modifies this`uuidSessions
      ensures uuidSessions == Registered(old(uuidSessions), key, server)
    {
      if key.uuid in uuidSessions {
        var session := uuidSessions[key.uuid];
        uuidSessions := uuidSessions[key.uuid := session[key.sid := server]];
      } else {
        var session: map<nat, TpServerRight> := map[];
        uuidSessions := uuidSessions[key.uuid := session[key.sid := server]];
      }
    }

    /** Paths are attached to the same endpoint exactly if they were named for the same session. */
    lemma OneEndpointPerSession(c: TcpConnectionLeft, d: TcpConnectionLeft)
      requires Valid() && c in connections && d in connections && c.named.Some? && d.named.Some?
      ensures c.connection.server == d.connection.server <==> c.named == d.named
      ensures c.connection in d.connection.server.readyList || c.named != d.named
    {
      hide Entries, BasesOf, Registries.Lookup;
      assert c.Attached() && d.Attached();
      var a, b := Lookup(uuidSessions, c.named.value).value, Lookup(uuidSessions, d.named.value).value;
      EntryHasKey(uuidSessions, a);
      EntryHasKey(uuidSessions, b);
      assert c.named != d.named ==> a.key != b.key;
    }

    /** So is unregistering one that is not registered. The others stay, and no empty inner map does. */
    method UnRegsiterSink(key: Key)
      requires Keyed(uuidSessions) && Lookup(uuidSessions, key).Some?
      modifies this`uuidSessions
      ensures Keyed(uuidSessions) && uuidSessions == Unregistered(old(uuidSessions), key)
      ensures forall k: Key :: Lookup(uuidSessions, k) == if k == key then None else Lookup(old(uuidSessions), k)
      ensures old(Valid()) && (forall c :: c in connections ==> c.named != Some(key)) ==> Valid()
    {
      hide Keyed, BasesOf, Registries.Lookup;
      label removing:
      IsRegistered(uuidSessions, key);
      UnregisterKeepsKeyed(uuidSessions, key);
      UnregisterRemoves(uuidSessions, key);
      var session := uuidSessions[key.uuid] - {key.sid};
      if session == map[] {
        uuidSessions := uuidSessions - {key.uuid};
      } else {
        uuidSessions := uuidSessions[key.uuid := session];
      }
      forall c | c in connections && old(c.Attached()) && c.backend == this && c.named != Some(key)
        ensures c.Attached()
      {
        c.AttachedStill@removing(key);
      }
    }
  }

  lemma IsRegistered(sessions: Registry<TpServerRight>, key: Key)
    requires Lookup(sessions, key).Some?
    ensures key.uuid in sessions && key.sid in sessions[key.uuid]
  {
  }

  lemma UnregisterRemoves(sessions: Registry<TpServerRight>, key: Key)
    requires Keyed(sessions) && Lookup(sessions, key).Some?
    ensures forall k: Key :: Lookup(Unregistered(sessions, key), k) == if k == key then None else Lookup(sessions, k)
  {
    UnregisterRemovesOne(sessions, key);
  }

  /** A path of the receiver; connection has the session it is attached to. */
  class TcpConnectionLeft {
    const backend: TpServerBackend
    const connection: TcpConnection
    var uuid: nat
    /** The session the path was named for. */
    ghost var named: Option<Key>

    constructor (backend: TpServerBackend, connection: TcpConnection)
      modifies connection`server
      ensures this.backend == backend && this.connection == connection && uuid == 0 && named == None && Attached()
    {
      this.backend, this.connection, uuid, named := backend, connection, 0, None;
      connection.server := null;
    }

    /** Attached to the endpoint that is registered for its session, and in the list of that endpoint. */
    ghost predicate Attached()
      reads this, connection`server, backend`uuidSessions, BasesOf(backend.uuidSessions)
    {
      && uuid == (if named.Some? then named.value.uuid else 0)
      && (named.None? ==> connection.server == null)
      && (named.Some? ==> AttachedTo(named.value))
    }

    ghost predicate AttachedTo(key: Key)
      reads connection`server, backend`uuidSessions, BasesOf(backend.uuidSessions)
    {
      && connection.server != null && connection.server in BasesOf(backend.uuidSessions)
      && Lookup(backend.uuidSessions, key).Some?
      && connection.server == Lookup(backend.uuidSessions, key).value.base
      && connection in connection.server.readyList
    }

    /**
     META attaches the path to the endpoint of the session it names, which is created if this is the first path to name
     it; registering the new endpoint cannot fail. All other paths stay attached. Until a path was given a number other
     than 0, a later META counts, and then the endpoint it was attached to before keeps it in its list.
     */
    method ParseMessage(data: seq<byte>)
      requires backend.Valid() && this in backend.connections
      modifies this`uuid, this`named, connection`server, backend`uuidSessions, BasesOf(backend.uuidSessions)`readyList
      ensures backend.Valid() && named == NextName(old(named), data)
      ensures named == old(named) ==> connection.server == old(connection.server)
      ensures backend.uuidSessions == old(backend.uuidSessions)
        || (named.Some? && Grown(old(backend.uuidSessions), backend.uuidSessions, named.value))
      ensures old(connection.server) != null ==> connection in old(connection.server).readyList
      ensures connection.server != null && connection.server != old(connection.server) ==>
        connection.server in old(BasesOf(backend.uuidSessions)) || IsNew(connection.server)
    {
      hide IsNew, Keyed, Registries.Lookup, Grown, BasesOf;
      var isMeta, meta := ReadMeta(data);
      if isMeta && uuid == 0 {
        uuid := meta.uuid;
        label attaching:
        Attach(meta.Key());
        forall c | c in backend.connections && c != this
          ensures c.Attached()
        {
          c.StaysAttached@attaching(meta.Key());
        }
        GrownKeeps(old(backend.uuidSessions), backend.uuidSessions, meta.Key());
      }
    }

    /** The endpoint of the session, which is created if need be, takes the path on; no list loses a path. */
    method Attach(key: Key)
      requires Keyed(backend.uuidSessions)
      modifies this`named, connection`server, backend`uuidSessions, BasesOf(backend.uuidSessions)`readyList
      ensures Keyed(backend.uuidSessions) && named == Some(key) && AttachedTo(key)
      ensures Grown(old(backend.uuidSessions), backend.uuidSessions, key)
      ensures ListsGrow(old(BasesOf(backend.uuidSessions)))
      ensures connection.server in old(BasesOf(backend.uuidSessions)) || IsNew(connection.server)
    {
      hide Keyed, IsNew;
      named := Some(key);
      var right := backend.Find(key);
      if right == null {
        AttachNew(key);
      } else {
        EntryHasKey(backend.uuidSessions, right);
        assert right.base in BasesOf(backend.uuidSessions);
        connection.server := right.base;
        MovedKeepsOthers(right.base.readyList, connection);
        right.Register(connection);
      }
    }

    /** The first path of a session: its endpoint is made and registered. */
    method AttachNew(key: Key)
      requires Keyed(backend.uuidSessions) && Lookup(backend.uuidSessions, key).None?
      modifies connection`server, backend`uuidSessions
      ensures Keyed(backend.uuidSessions) && AttachedTo(key) && IsNew(connection.server)
      ensures Grown(old(backend.uuidSessions), backend.uuidSessions, key)
    {
      hide Keyed, IsNew;
      var made := new TpServerRight(key, 0);
      connection.server := made.base;
      made.Register(connection);
      RegisterKeepsKeyed(backend.uuidSessions, key, made);
      backend.RegsiterSink(made, key);
    }

    twostate lemma AttachedStill(key: Key)
      requires old(Attached()) && named == old(named) && uuid == old(uuid)
        && connection.server == old(connection.server)
      requires connection.server != null ==> connection.server.readyList == old(connection.server.readyList)
      requires named != Some(key)
      requires forall k: Key :: k != key ==> Lookup(backend.uuidSessions, k) == Lookup(old(backend.uuidSessions), k)
      ensures Attached()
    {
      if named.Some? {
        EntryHasKey(backend.uuidSessions, Lookup(backend.uuidSessions, named.value).value);
      }
    }

    twostate lemma StaysAttached(key: Key)
      requires old(Attached()) && uuid == old(uuid) && named == old(named)
        && connection.server == old(connection.server)
      requires Grown(old(backend.uuidSessions), backend.uuidSessions, key)
      requires ListsGrow(old(BasesOf(backend.uuidSessions)))
      ensures Attached()
    {
      hide Grown, Registries.Lookup, BasesOf;
      GrownKeeps(old(backend.uuidSessions), backend.uuidSessions, key);
    }
  }

  twostate predicate ListsGrow(bases: set<TpServer>)
    reads bases
  {
    forall b, c :: b in bases && c in old(b.readyList) ==> c in b.readyList
  }
}
