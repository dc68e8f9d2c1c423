/** Connections and sessions of the proxy; tpproxy/mpproxy_types.cc:171-258, :279-340, :385-399, :534-602. */
module Mpproxy {
  import opened Words
  import opened Lists
  import opened Streams
  import opened ByteCodec
  import opened Framing
  import opened Striping
  import opened Metas
  import opened Receivers
  import opened IntervalBudgets
  import opened Sockets
  import opened SequencerBuffers
  import opened Sequencers

  const MESSAGE_BUFFER_SIZE := 1500

  predicate StartsWithMeta(frames: seq<Frame>) {
    frames != [] ==> IsMeta(frames[0])
  }

  /** Appending what a writer has written. */
  lemma FrameIsWritten(f: Frame)
    requires f.Writable()
    ensures AllWritable([f]) && EncodeFrames([f]) == EncodeVarInt62(f.offset) + EncodeVarInt62(|f.data|) + f.data
  {
    assert [f][1..] == [];
    assert EncodeFrames([f]) == EncodeFrame(f) + [];
  }

  method DataFrame(offset: nat, data: seq<byte>) returns (bytes: seq<byte>)
    requires |data| <= MAX_PAYLOAD && offset < VARINT62_LIMIT
    ensures bytes == EncodeFrame(Frame(offset, data))
  {
    hide EncodeVarInt62;
    var offsetBytes, sizeBytes := VarInt62Len(offset), VarInt62Len(|data|);
    var buffer := new byte[offsetBytes + sizeBytes + |data|];
    var writer := new DataWriter(buffer);
    var success := writer.WriteVarInt62(offset);
    success := writer.WriteVarInt62(|data|);
    success := writer.WriteBytes(data);
    assert success;
    assert buffer[..] == buffer[..writer.length];
    bytes := buffer[..];
    assert bytes == [] + EncodeVarInt62(offset) + EncodeVarInt62(|data|) + data;
  }

  method MessageFrame(kind: byte, data: seq<byte>) returns (bytes: seq<byte>)
    requires 2 + VarInt62Len(1 + |data|) + |data| <= MESSAGE_BUFFER_SIZE
    ensures bytes == EncodeFrame(Frame(0, [kind] + data))
  {
    hide EncodeVarInt62;
    var buffer := new byte[MESSAGE_BUFFER_SIZE];
    var writer := new DataWriter(buffer);
    var success := writer.WriteVarInt62(0);
    success := writer.WriteVarInt62(1 + |data|);
    success := writer.WriteUInt8(kind);
    if |data| > 0 {
      success := writer.WriteBytes(data);
    }
    assert success;
    bytes := buffer[..writer.length];
    assert bytes == [] + EncodeVarInt62(0) + EncodeVarInt62(1 + |data|) + ([kind] + data);
  }

  /** One path: a paced socket, and the frames that were written to it. */
  class TcpConnection {
    const socket: SocketBase
    var connected: bool
    var fdReadBuffer: seq<byte>
    /** What the filter of bandwidth samples has for best, in kbps. */
    var bestGoodput: nat
    /** The session, once it is known. */
    var server: TpServer?
    ghost var written: seq<Frame>

    ghost function Repr(): set<object> {
      {this, socket} + if socket.budget == null then {} else {socket.budget}
    }

    ghost predicate Valid()
      reads this`written, socket, socket.budget
    {
      && socket.budget != null && socket.Valid()
      && AllWritable(written) && socket.Everything() == EncodeFrames(written)
    }

    constructor (fd: int, kbps: nat)
      requires kbps >= MIN_TARGET_RATE
      ensures Valid() && fresh(socket) && fresh(socket.budget) && socket.fd == fd
      ensures written == [] && fdReadBuffer == [] && server == null && !connected && bestGoodput == 0
    {
      socket := new SocketBase.WithBudget(fd, kbps);
      connected, server, fdReadBuffer, bestGoodput, written := false, null, [], 0, [];
    }

    function GoodputWithMinimum(): (kbps: nat)
      reads this`bestGoodput
      ensures kbps >= MIN_GOODPUT
    {
      Max(MIN_GOODPUT, bestGoodput)
    }

    /** The filter has taken a sample: the budget is filled at 1.25 times the goodput from now on. */
    method OnGoodputAlarm(best: nat)
      requires Valid()
      modifies this`bestGoodput, socket`pace, socket.budget
      ensures Valid() && bestGoodput == best && socket.budget.targetRateKbps == Max(best, 500) * 5 / 4
    {
      hide EncodeFrames;
      bestGoodput := best;
      socket.OnGoodputAlarm(GoodputWithMinimum() * 5 / 4);
    }

    /** Appends bytes that encode a frame, and writes what can be written if the connection is up. */
    method Append(bytes: seq<byte>, ghost f: Frame)
      requires Valid() && f.Writable() && bytes == EncodeFrame(f)
      modifies this`written, socket, socket.budget
      ensures Valid() && written == old(written) + [f] && socket.fd == old(socket.fd)
      ensures if connected then socket.Flushed() else socket.Offered() == []
      ensures connected && socket.fd >= 0 ==> InTurn(old(socket.fdWriteBuffer) + bytes, socket.Offered())
    {
      hide EncodeFrames, SocketBase.Valid, SocketBase.CanSend, InTurn;
      FrameIsWritten(f);
      EncodeMore(written, [f]);
      ghost var before := socket.Everything();
      socket.fdWriteBuffer := socket.fdWriteBuffer + bytes;
      assert socket.Everything() == before + bytes;
      written := written + [f];
      if connected {
        socket.FlushBuffer();
      }
    }

    /** A frame of data: the checks of the source are on the descriptor, the size and the encoding of the offset. */
    method SendData(offset: nat, data: seq<byte>)
      requires Valid() && socket.fd > 0 && |data| <= MAX_PAYLOAD && offset < VARINT62_LIMIT
      modifies this`written, socket, socket.budget
      ensures Valid() && written == old(written) + [Frame(offset, data)] && socket.fd == old(socket.fd)
      ensures if connected then socket.Flushed() else socket.Offered() == []
    {
      hide EncodeFrame, EncodeFrames, Valid, SocketBase.CanSend, InTurn;
      var bytes := DataFrame(offset, data);
      Append(bytes, Frame(offset, data));
    }

    /** A message travels at offset 0, its type first. It must fit the buffer of one packet. */
    method WriteMessage(kind: byte, data: seq<byte>)
      requires Valid() && 2 + VarInt62Len(1 + |data|) + |data| <= MESSAGE_BUFFER_SIZE
      modifies this`written, socket, socket.budget
      ensures Valid() && written == old(written) + [Frame(0, [kind] + data)] && socket.fd == old(socket.fd)
      ensures if connected then socket.Flushed() else socket.Offered() == []
    {
      hide EncodeFrame, EncodeFrames, Valid, SocketBase.CanSend, InTurn;
      var bytes := MessageFrame(kind, data);
      Append(bytes, Frame(0, [kind] + data));
    }

    predicate IsBufferAboveThreshold()
      reads this, socket
    {
      |socket.fdWriteBuffer| > WRITE_BUFFER_THRESHOLD
    }

    /** A message that names the session attaches the path to it; other messages do not concern the data. */
    method ParseMessage(data: seq<byte>, named: TpServer)
      modifies this`server
      ensures server == if IsMeta(Frame(0, data)) then named else old(server)
    {
      var isMeta, meta := ReadMeta(data);
      if isMeta {
        server := named;
      }
    }

    /**
     The receiving end of a session as this path sees it. The path belongs to no other session, and the check for the
     session has not failed.
     */
    ghost predicate Shows(named: TpServer, k: Sink)
      reads this`server, named, named.socket, named.sequencer, named.sequencer.stream, named.sequencer.buffered,
            named.sequencer.buffered.storage, named.sequencer.buffered.bytesReceived
    {
      && this !in named.Receiver() && (server == null || server == named)
      && named.View(server != null, k.refused).(halted := k.halted) == k
      && !k.crashed && (!k.halted ==> named.Receiving())
    }

    /** One frame: data goes to the session, a message is looked at. */
    method DeliverFrame(named: TpServer, offset: nat, pv: seq<byte>, ghost k: Sink) returns (code: ErrorCode)
      requires Shows(named, k) && !k.halted && offset < VARINT62_LIMIT && (offset >= RESERVE_OFFSET ==> server != null)
      modifies this`server, named.Receiver()
      ensures fresh(named.Receiver() - old(named.Receiver()))
      ensures Shows(named, Dispatch(k, Frame(offset, pv)))
      ensures Dispatch(k, Frame(offset, pv)).halted <==> code == TooManyIntervals
    {
      hide TpServer.Receiving, Dispatch, AnswerTo;
      DispatchParts(k, Frame(offset, pv));
      code := NoError;
      if offset >= RESERVE_OFFSET {
        code := server.RecvData(offset, pv);
      } else if |pv| > 0 {
        ParseMessage(pv, named);
      }
    }

    /** The frame the bytes start with, if it is complete, and what follows it. */
    method DeliverNext(named: TpServer, data: seq<byte>, ghost k: Sink)
        returns (ret: bool, code: ErrorCode, rest: seq<byte>)
      requires Shows(named, k) && !k.halted
      requires HeaderOf(data).Header? && IsData(FirstFrame(data)) ==> k.attached
      modifies this`server, named.Receiver()
      ensures fresh(named.Receiver() - old(named.Receiver())) && (ret <==> HeaderOf(data).Header?)
      ensures if ret then Shows(named, Dispatch(k, FirstFrame(data))) else Shows(named, k)
      ensures ret ==> rest == data[HeaderOf(data).FrameSize()..]
      ensures ret ==> (Dispatch(k, FirstFrame(data)).halted <==> code == TooManyIntervals)
    {
      hide Shows, Dispatch, HeaderOf, FirstFrame, AnswerTo;
      NothingWrong(named, k);
      var offset, offsetBytes, len, lenBytes;
      code, rest := NoError, data;
      ret, offset, offsetBytes, len, lenBytes := IsDeliverable(data);
      if ret {
        FrameIs(data);
        var headerSize, frameSize := offsetBytes + lenBytes, offsetBytes + lenBytes + len;
        code := DeliverFrame(named, offset, data[headerSize..frameSize], k);
        rest := data[frameSize..];
      }
    }

    /** The loop over the complete frames: what it leaves, and whether there was any. */
    method DeliverFrames(named: TpServer, all: seq<byte>, ghost start: Sink) returns (data: seq<byte>, update: bool)
      requires Shows(named, start) && !start.halted && (server != null <==> start.attached)
      requires start.attached || StartsWithMeta(Framing.Deliver(all).frames)
      modifies this`server, named.Receiver()
      ensures fresh(named.Receiver() - old(named.Receiver()))
      ensures Shows(named, DispatchAll(start, Framing.Deliver(all).frames))
      ensures !DispatchAll(start, Framing.Deliver(all).frames).halted ==>
        data == Framing.Deliver(all).rest && (!update ==> data == all)
    {
      hide Shows, Dispatch, DispatchAll, Framing.Deliver, HeaderOf, FirstFrame, AnswerTo;
      ghost var k, done := start, [];
      NothingDispatched(start);
      NothingWrong(named, start);
      NothingArrived();
      data, update := all, false;
      while |data| > 0
        invariant Shows(named, k) && fresh(named.Receiver() - old(named.Receiver()))
        invariant k == DispatchAll(start, done) && !k.halted
        invariant Framing.Deliver(all) == Deliveries(done + Framing.Deliver(data).frames, Framing.Deliver(data).rest)
        invariant !update ==> data == all
        decreases |data|
      {
        SessionInTime(start, all, done, data);
        OneFrame(start, all, done, data);
        var ret, code, rest := DeliverNext(named, data, k);
        if !ret {
          break;
        }
        ghost var f := FirstFrame(data);
        k, done := Dispatch(k, f), done + [f];
        data, update := rest, true;
        if code == TooManyIntervals {
          HaltedStays(k, Framing.Deliver(data).frames);
          return;
        }
      }
      DeliverStep(data);
      assert done + [] == done;
    }

    lemma NothingWrong(named: TpServer, k: Sink)
      requires Shows(named, k)
      ensures !k.crashed && (server != null <==> k.attached)
    {
    }

    /**
     Hands every complete frame of the read buffer to the session and keeps the rest. The path must know its session or
     be told of it by its first frame; then the check for the session never fails. The session that a META message names
     is the one given. If the sequencer refuses a frame because of too many intervals, the run ends there.
     */
    method Deliver(named: TpServer)
      requires named.Receiving() && this !in named.Receiver() && (server == null || server == named)
      requires server != null || StartsWithMeta(Framing.Deliver(fdReadBuffer).frames)
      modifies this`fdReadBuffer, this`server, named.Receiver()
      ensures
        var d := Framing.Deliver(old(fdReadBuffer));
        var k := DispatchAll(old(named.View(server != null, false)), d.frames);
        Shows(named, k) && (!k.halted ==> fdReadBuffer == d.rest)
    {
      hide TpServer.Receiving, DispatchAll, Framing.Deliver;
      var rest, update := DeliverFrames(named, fdReadBuffer, named.View(server != null, false));
      assert fdReadBuffer == old(fdReadBuffer);
      if update {
        fdReadBuffer := rest;
      }
    }

    /** What has arrived since the last read goes behind the bytes kept, and complete frames are delivered. */
    method OnReadEvent(named: TpServer, bytes: seq<byte>)
      requires named.Receiving() && this !in named.Receiver() && (server == null || server == named)
      requires server != null || StartsWithMeta(Framing.Deliver(fdReadBuffer + bytes).frames)
      modifies this`fdReadBuffer, this`server, named.Receiver()
      ensures
        var d := Framing.Deliver(old(fdReadBuffer) + bytes);
        var k := DispatchAll(old(named.View(server != null, false)), d.frames);
        bytes != [] ==> Shows(named, k) && (!k.halted ==> fdReadBuffer == d.rest)
    {
      hide TpServer.Receiving, DispatchAll, Framing.Deliver;
      if |bytes| > 0 {
        fdReadBuffer := fdReadBuffer + bytes;
        Deliver(named);
      }
    }
  }

  lemma NothingDispatched(k: Sink)
    ensures DispatchAll(k, []) == k
  {
  }

  /** The first frame of the read buffer, and what delivering it and the rest comes to. */
  lemma OneFrame(start: Sink, all: seq<byte>, done: seq<Frame>, data: seq<byte>)
    requires Framing.Deliver(all) == Deliveries(done + Framing.Deliver(data).frames, Framing.Deliver(data).rest)
    ensures HeaderOf(data).Header? ==>
      var f, rest := FirstFrame(data), data[HeaderOf(data).FrameSize()..];
      && |rest| < |data| && DispatchAll(start, done + [f]) == Dispatch(DispatchAll(start, done), f)
      && Framing.Deliver(all) == Deliveries(done + [f] + Framing.Deliver(rest).frames, Framing.Deliver(rest).rest)
      && DispatchAll(start, Framing.Deliver(all).frames)
           == DispatchAll(DispatchAll(start, done + [f]), Framing.Deliver(rest).frames)
  {
    hide Dispatch, DispatchAll, Framing.Deliver, HeaderOf, FirstFrame;
    DeliverStep(data);
    if HeaderOf(data).Header? {
      var f, rest := FirstFrame(data), data[HeaderOf(data).FrameSize()..];
      Associates(done, [f], Framing.Deliver(rest).frames);
      DispatchOneMore(start, done, f);
      DispatchInTwo(start, done + [f], Framing.Deliver(rest).frames);
    }
  }

  lemma FrameIs(data: seq<byte>)
    requires HeaderOf(data).Header?
    ensures
      var h := HeaderOf(data);
      && FirstFrame(data) == Frame(h.offset, data[h.offsetBytes + h.lenBytes..h.FrameSize()])
      && h.offset < VARINT62_LIMIT && 0 < h.FrameSize() <= |data|
  {
    EncodingIsShortest(data);
  }

  /** When a data frame comes up, the path knows its session. */
  lemma SessionInTime(start: Sink, all: seq<byte>, done: seq<Frame>, data: seq<byte>)
    requires !start.halted && !start.crashed
    requires Framing.Deliver(all) == Deliveries(done + Framing.Deliver(data).frames, Framing.Deliver(data).rest)
    requires start.attached || StartsWithMeta(Framing.Deliver(all).frames)
    ensures HeaderOf(data).Header? && IsData(FirstFrame(data)) ==> DispatchAll(start, done).attached
  {
    hide Framing.Deliver, DispatchAll, HeaderOf, FirstFrame;
    DeliverStep(data);
    assert done != [] ==> Framing.Deliver(all).frames[0] == done[0];
    assert done == [] ==> Framing.Deliver(all).frames == Framing.Deliver(data).frames;
    SessionIsKnown(start, done);
  }

  /** What a frame does to each part of the state; on the stream and the output it does the same on a fresh state. */
  lemma DispatchParts(k: Sink, f: Frame)
    requires !k.halted && !k.crashed && (IsData(f) ==> k.attached)
    ensures
      var r := Dispatch(k, f);
      && !r.crashed && r.attached == (k.attached || IsMeta(f)) && r.capacity == k.capacity
      && (IsData(f) ==>
            var alone := Dispatch(Sink(k.capacity, k.stream, k.output, true, false, false, false), f);
            && r.stream == alone.stream && r.output == alone.output && r.halted == alone.halted
            && r.refused == (k.refused || alone.refused))
      && (!IsData(f) ==> r.stream == k.stream && r.output == k.output && !r.halted && r.refused == k.refused)
  {
  }

  /** No two connections share anything. */
  ghost predicate Separate(conns: seq<TcpConnection>) {
    && (forall i, j :: 0 <= i < j < |conns| ==> conns[i] != conns[j])
    && (forall c, d :: c in conns && d in conns && c != d ==> c.Repr() !! d.Repr())
  }

  ghost function SocketsOf(conns: seq<TcpConnection>): set<SocketBase> {
    set c | c in conns :: c.socket
  }

  ghost function BudgetsOf(conns: seq<TcpConnection>): set<IntervalBudget?> {
    set c | c in conns :: c.socket.budget
  }

  lemma InSockets(conns: seq<TcpConnection>, c: TcpConnection)
    requires c in conns
    ensures c.socket in SocketsOf(conns) && c.socket.budget in BudgetsOf(conns)
  {
  }

  ghost predicate AllValid(conns: seq<TcpConnection>)
    reads conns, set c | c in conns :: c.socket, set c | c in conns :: c.socket.budget
  {
    forall c :: c in conns ==> c.Valid() && c.socket.fd > 0
  }

  /** The connections with room in their write buffers, in order. */
  function Available(conns: seq<TcpConnection>): seq<TcpConnection>
    reads conns, set c | c in conns :: c.socket
  {
    if conns == [] then []
    else
      var n := |conns| - 1;
      Available(conns[..n]) + if conns[n].IsBufferAboveThreshold() then [] else [conns[n]]
  }

  /** These are exactly the ones with at most 15000 bytes waiting. */
  lemma {:induction false} AvailableIs(conns: seq<TcpConnection>)
    ensures forall c :: c in Available(conns) <==> c in conns && |c.socket.fdWriteBuffer| <= 15000
    ensures InOrder(Available(conns), conns)
    ensures forall k :: 0 <= k < |Available(conns)| ==> Available(conns)[k] in conns
  {
    if conns != [] {
      var n := |conns| - 1;
      AvailableIs(conns[..n]);
      InOrderOfMore(Available(conns[..n]), conns[..n], conns[n]);
      assert conns == conns[..n] + [conns[n]];
    }
  }

  /** The goodput of each connection, in order. */
  function Rates(conns: seq<TcpConnection>): (rates: seq<nat>)
    reads conns`bestGoodput
    ensures |rates| == |conns|
  {
    if conns == [] then []
    else
      var n := |conns| - 1;
      Rates(conns[..n]) + [conns[n].GoodputWithMinimum()]
  }

  lemma RatesOfMore(conns: seq<TcpConnection>, c: TcpConnection)
    ensures Rates(conns + [c]) == Rates(conns) + [c.GoodputWithMinimum()]
    ensures Sum(Rates(conns + [c])) == Sum(Rates(conns)) + c.GoodputWithMinimum()
  {
    assert (conns + [c])[..|conns|] == conns;
    SumMore(Rates(conns), c.GoodputWithMinimum());
  }

  lemma {:induction false} RatesAre(conns: seq<TcpConnection>, i: nat)
    requires i < |conns|
    ensures Rates(conns)[i] == conns[i].GoodputWithMinimum()
  {
    var n := |conns| - 1;
    if i < n {
      RatesAre(conns[..n], i);
    }
  }

  lemma FirstSegment(before: seq<Frame>, offset: nat, rest: seq<byte>)
    requires rest != []
    ensures
      var n := Min(|rest|, MAX_PAYLOAD);
      before + Segments(offset, rest) == before + [Frame(offset, rest[..n])] + Segments(offset + n, rest[n..])
  {
  }

  lemma LastSegment(before: seq<Frame>, offset: nat)
    ensures before + Segments(offset, []) == before
  {
  }

  /** One end of a session: bytes of the application that are to be sent, and the sequencer of those received. */
  class TpServer {
    const socket: SocketBase
    const sequencer: QuicStreamSequencer
    var fdReadBuffer: seq<byte>
    var writeOffset: nat
    /** The connections ready for data. */
    var readyList: seq<TcpConnection>

    constructor (fd: int, capacity: nat)
      requires capacity < U64_RANGE
      ensures writeOffset == RESERVE_OFFSET && fdReadBuffer == [] && readyList == []
      ensures fresh(Receiver())
      ensures Receiving() && View(true, false) == Sink(capacity, Stream(0, map[]), [], true, false, false, false)
    {
      hide QuicStreamSequencer.Valid, SocketBase.Valid;
      var sink := new StreamSink();
      socket := new SocketBase.Unpaced(fd);
      sequencer := new QuicStreamSequencer(sink, capacity);
      fdReadBuffer, writeOffset, readyList := [], RESERVE_OFFSET, [];
    }

    /** The objects that receiving changes. */
    ghost function Receiver(): set<object>
      reads sequencer, sequencer.buffered
    {
      {socket} + sequencer.Repr()
    }

    /** Nothing ends the stream or stops reading it, and what it yields goes to the application's socket. */
    ghost predicate Receiving()
      reads this, socket, sequencer, sequencer.stream, sequencer.buffered, sequencer.buffered.storage,
            sequencer.buffered.bytesReceived
    {
      && socket !in sequencer.Repr() && this !in sequencer.Repr()
      && sequencer.Valid() && !sequencer.blocked && !sequencer.ignoreReadData
      && sequencer.closeOffset == NO_CLOSE_OFFSET
      && socket.budget == null && socket.Valid() && (socket.fd >= 0 ==> socket.Everything() == sequencer.stream.output)
    }

    ghost function View(attached: bool, refused: bool): Sink
      reads sequencer.stream, sequencer.buffered
    {
      var buffered := sequencer.buffered;
      Sink(buffered.capacity, buffered.State(), sequencer.stream.output, attached, refused, false, false)
    }

    /** The data of a frame goes to the sequencer; its size goes through 16 bits. */
    method RecvData(offset: nat, data: seq<byte>) returns (code: ErrorCode)
      requires Receiving() && offset < VARINT62_LIMIT
      modifies Receiver()
      ensures fresh(Receiver() - old(Receiver()))
      ensures offset < RESERVE_OFFSET ==> code == NoError && View(true, false) == old(View(true, false))
      ensures offset >= RESERVE_OFFSET ==>
        && code == AnswerTo(old(View(true, false)), Frame(offset, data))
        && View(true, code != NoError).(halted := code == TooManyIntervals)
           == Dispatch(old(View(true, false)), Frame(offset, data))
      ensures code != TooManyIntervals ==> Receiving()
    {
      hide QuicStreamSequencer.Valid, SocketBase.Valid, Cast16, Accept, Front, Readable, Drained, Answer;
      code := NoError;
      if offset >= RESERVE_OFFSET {
        var before := |sequencer.stream.output|;
        code := sequencer.OnStreamFrame(false, offset - RESERVE_OFFSET, Cast16(data));
        if code == NoError {
          // what the callback of the sequencer was given
          var text := sequencer.stream.output[before..];
          assert old(sequencer.stream.output) + text == sequencer.stream.output;
          var n := socket.WriteDataToFd(text);
        }
      }
    }

    method OnDataFromFd(data: seq<byte>)
      modifies this`fdReadBuffer
      ensures fdReadBuffer == old(fdReadBuffer) + data
    {
      fdReadBuffer := fdReadBuffer + data;
    }

    /** One share on one connection, in pieces that fit a frame. */
    method SendDataWithLimit(connection: TcpConnection, data: seq<byte>)
      requires connection.Valid() && connection.socket.fd > 0 && writeOffset + |data| <= VARINT62_LIMIT
      modifies this`writeOffset, connection`written, connection.socket, connection.socket.budget
      ensures connection.Valid() && connection.socket.fd == old(connection.socket.fd)
      ensures connection.written == old(connection.written) + Segments(old(writeOffset), data)
      ensures writeOffset == old(writeOffset) + |data|
    {
      hide TcpConnection.Valid, Segments;
      var rest := data;
      while |rest| > 0
        invariant connection.Valid() && connection.socket.fd == old(connection.socket.fd)
        invariant writeOffset + |rest| == old(writeOffset) + |data|
        invariant connection.written + Segments(writeOffset, rest)
                    == old(connection.written) + Segments(old(writeOffset), data)
        decreases |rest|
      {
        var sent := Min(|rest|, MAX_PAYLOAD);
        ghost var before := connection.written;
        connection.SendData(writeOffset, rest[..sent]);
        FirstSegment(before, writeOffset, rest);
        rest := rest[sent..];
        writeOffset := writeOffset + sent;
      }
      LastSegment(connection.written, writeOffset);
    }

    /** The same for one of many connections; the others are not touched. */
    method SendShare(ghost conns: seq<TcpConnection>, connection: TcpConnection, data: seq<byte>)
      requires Separate(conns) && AllValid(conns) && connection in conns && writeOffset + |data| <= VARINT62_LIMIT
      modifies this`writeOffset, connection`written, connection.socket, connection.socket.budget
      ensures AllValid(conns) && writeOffset == old(writeOffset) + |data|
      ensures connection.written == old(connection.written) + Segments(old(writeOffset), data)
      ensures forall c :: c in conns && c != connection ==> c.written == old(c.written)
    {
      hide TcpConnection.Valid, Segments;
      SendDataWithLimit(connection, data);
      forall c | c in conns && c != connection
        ensures c.Valid() && c.socket.fd == old(c.socket.fd)
      {
        assert c.Repr() !! connection.Repr();
      }
    }

    /** The ready connections with room. */
    method WithRoom() returns (connections: seq<TcpConnection>, total: nat)
      ensures total == Sum(Rates(connections)) && (connections != [] ==> total > 0)
      ensures connections == Available(readyList) && InOrder(connections, readyList)
      ensures forall c :: c in connections <==> c in readyList && |c.socket.fdWriteBuffer| <= 15000
    {
      AvailableIs(readyList);
      connections, total := [], 0;
      for i := 0 to |readyList|
        invariant connections == Available(readyList[..i])
        invariant total == Sum(Rates(connections)) && (connections != [] ==> total > 0)
      {
        assert readyList[..i + 1][..i] == readyList[..i];
        if !readyList[i].IsBufferAboveThreshold() {
          RatesOfMore(connections, readyList[i]);
          total := total + readyList[i].GoodputWithMinimum();
          connections := connections + [readyList[i]];
        }
      }
      assert readyList[..|readyList|] == readyList;
    }

    /**
     Shares the buffer out over the connections with room. A target is the part of what remains that the goodput of the
     connection is of the goodput of all.
     */
    method ShareOut(ghost conns: seq<TcpConnection>, available: seq<TcpConnection>, total: nat)
        returns (targets: seq<nat>, ghost plan: seq<seq<Frame>>)
      requires Separate(conns) && AllValid(conns)
      requires available != [] && OnceEach(available, conns) && writeOffset + |fdReadBuffer| <= VARINT62_LIMIT
      requires total > 0
      modifies this`fdReadBuffer, this`writeOffset, conns`written, SocketsOf(conns), BudgetsOf(conns)
      ensures AllValid(conns) && fdReadBuffer == [] && writeOffset == old(writeOffset) + |old(fdReadBuffer)|
      ensures targets == Targets(|old(fdReadBuffer)|, Rates(available), total)
      ensures |targets| + 1 == |available| && plan == SharedOut(old(writeOffset), old(fdReadBuffer), targets)
      ensures forall i :: 0 <= i < |available| ==> available[i].written == old(available[i].written) + plan[i]
      ensures forall c :: c in conns && c !in available ==> c.written == old(c.written)
    {
      hide AllValid, Separate, ByRate, SharedOut, Segments, SocketsOf, BudgetsOf, Rates, Striping.Targets;
      ghost var offset, all, was := writeOffset, fdReadBuffer, map c | c in conns :: c.written;
      var data, i := fdReadBuffer, 0;
      targets, plan := [], [];
      ghost var rates := Rates(available);
      NothingByRate(offset, all, rates, total);
      while i < |available| - 1
        invariant 0 <= i < |available| && |plan| == |targets| == i && AllValid(conns) && rates == Rates(available)
        invariant ByRate(offset, all, rates, total, targets, plan, writeOffset, data)
        invariant writeOffset + |data| <= VARINT62_LIMIT
        invariant forall c :: c in conns && c !in available[..i] ==> c.written == was[c]
        invariant forall k :: 0 <= k < i ==> available[k].written == was[available[k]] + plan[k]
      {
        // once nothing remains, the other connections get nothing
        var target := |data| * available[i].GoodputWithMinimum() / total;
        var sent := Min(Max(target, MIN_PAYLOAD_SIZE), |data|);
        RatesAre(available, i);
        MoreByRate(offset, all, rates, total, targets, plan, writeOffset, data, target);
        ghost var share := Segments(writeOffset, data[..sent]);
        var connection := available[i];
        InSockets(conns, connection);
        SendShare(conns, connection, data[..sent]);
        data := data[sent..];
        targets, plan := targets + [target], plan + [share];
        i := i + 1;
      }
      AllByRate(offset, all, rates, total, targets, plan, writeOffset, data);
      plan := plan + [Segments(writeOffset, data)];
      InSockets(conns, available[i]);
      SendShare(conns, available[i], data);
      fdReadBuffer := [];
    }

    /** If no ready connection has room, nothing happens. */
    method Schedule() returns (available: seq<TcpConnection>, targets: seq<nat>, ghost plan: seq<seq<Frame>>)
      requires Separate(readyList) && AllValid(readyList)
      requires writeOffset + |fdReadBuffer| <= VARINT62_LIMIT
      modifies this`fdReadBuffer, this`writeOffset, readyList`written, SocketsOf(readyList), BudgetsOf(readyList)
      ensures AllValid(readyList) && available == old(Available(readyList)) && InOrder(available, readyList)
      ensures forall c :: c in available <==> c in readyList && old(|c.socket.fdWriteBuffer|) <= 15000
      ensures (exists c :: c in readyList && old(|c.socket.fdWriteBuffer|) <= 15000) ==> fdReadBuffer == []
      ensures forall c :: c in readyList ==> old(c.written) <= c.written
      ensures available == [] ==> fdReadBuffer == old(fdReadBuffer) && writeOffset == old(writeOffset)
      ensures available != [] ==> fdReadBuffer == [] && writeOffset == old(writeOffset) + |old(fdReadBuffer)|
      ensures available != [] ==>
        |targets| + 1 == |available| && plan == SharedOut(old(writeOffset), old(fdReadBuffer), targets)
      ensures available != [] ==>
        Sum(Rates(available)) > 0 && targets == Targets(|old(fdReadBuffer)|, Rates(available), Sum(Rates(available)))
      ensures available != [] ==> WrittenOn(available) == Added(old(WrittenOn(Available(readyList))), plan)
      ensures forall k :: 0 <= k < |readyList| && readyList[k] !in available ==>
        WrittenOn(readyList)[k] == old(WrittenOn(readyList))[k]
    {
      hide AllValid, Separate, Available, SharedOut, Rates, Striping.Targets, Sum, InOrder;
      var total;
      available, total := WithRoom();
      targets, plan := [], [];
      if |available| == 0 {
        return;
      }
      AvailableAreReady(readyList);
      ghost var written := WrittenOn(available);
      targets, plan := ShareOut(readyList, available, total);
      assert WrittenOn(available) == Added(written, plan) by {
        assert forall i :: 0 <= i < |available| ==> WrittenOn(available)[i] == written[i] + plan[i];
      }
    }
  }

  ghost function WrittenOn(conns: seq<TcpConnection>): (r: seq<seq<Frame>>)
    reads conns
    ensures |r| == |conns|
  {
    seq(|conns|, i requires 0 <= i < |conns| reads conns => conns[i].written)
  }

  function Added(written: seq<seq<Frame>>, more: seq<seq<Frame>>): seq<seq<Frame>> {
    seq(|written|, i requires 0 <= i < |written| => if i < |more| then written[i] + more[i] else written[i])
  }

  /** A selection of connections, each once. */
  predicate OnceEach(some: seq<TcpConnection>, conns: seq<TcpConnection>) {
    && (forall c :: c in some ==> c in conns)
    && (forall i, j :: 0 <= i < j < |some| ==> some[i] != some[j])
  }

  /** What has been handed out for the targets so far: the plan of the shares given, and the bytes that remain. */
  predicate Handed(offset: nat, all: seq<byte>, targets: seq<nat>, plan: seq<seq<Frame>>, next: nat, rest: seq<byte>) {
    var given := Shares(|all|, targets)[..|targets|];
    && Sum(given) <= |all| && plan == Plan(offset, all, given)
    && next == offset + Sum(given) && rest == all[Sum(given)..]
  }

  /** The targets so far are those of the rates, and what they come to has been handed out. */
  predicate ByRate(offset: nat, all: seq<byte>, rates: seq<nat>, total: nat, targets: seq<nat>, plan: seq<seq<Frame>>,
      next: nat, rest: seq<byte>)
    requires total > 0
  {
    && Handed(offset, all, targets, plan, next, rest)
    && |targets| < |rates| && targets == Targets(|all|, rates[..|targets| + 1], total)
  }

  lemma NothingByRate(offset: nat, all: seq<byte>, rates: seq<nat>, total: nat)
    requires rates != [] && total > 0
    ensures ByRate(offset, all, rates, total, [], [], offset, all)
  {
    hide Handed;
    NothingHanded(offset, all);
  }

  lemma MoreByRate(offset: nat, all: seq<byte>, rates: seq<nat>, total: nat, targets: seq<nat>, plan: seq<seq<Frame>>,
      next: nat, rest: seq<byte>, target: nat)
    requires total > 0 && ByRate(offset, all, rates, total, targets, plan, next, rest) && |targets| + 1 < |rates|
    requires target == |rest| * rates[|targets|] / total
    ensures
      var n := Min(Max(target, MIN_PAYLOAD_SIZE), |rest|);
      ByRate(offset, all, rates, total, targets + [target], plan + [Segments(next, rest[..n])], next + n, rest[n..])
  {
    hide Handed, Striping.Targets, Segments;
    HandedMore(offset, all, targets, plan, next, rest, target);
    TargetIsNext(offset, all, targets, plan, next, rest, rates, total);
  }

  lemma AllByRate(offset: nat, all: seq<byte>, rates: seq<nat>, total: nat, targets: seq<nat>, plan: seq<seq<Frame>>,
      next: nat, rest: seq<byte>)
    requires total > 0 && ByRate(offset, all, rates, total, targets, plan, next, rest) && |targets| + 1 == |rates|
    ensures next + |rest| == offset + |all| && plan + [Segments(next, rest)] == SharedOut(offset, all, targets)
    ensures targets == Targets(|all|, rates, total)
  {
    hide Handed, Striping.Targets, Segments, SharedOut;
    HandedAll(offset, all, targets, plan, next, rest);
    assert rates[..|rates|] == rates;
  }

  /** The next target by the goodputs. */
  lemma TargetIsNext(offset: nat, all: seq<byte>, targets: seq<nat>, plan: seq<seq<Frame>>, next: nat, rest: seq<byte>,
        rates: seq<nat>, total: nat)
    requires Handed(offset, all, targets, plan, next, rest) && total > 0 && |targets| + 1 < |rates|
    requires targets == Targets(|all|, rates[..|targets| + 1], total)
    ensures
      var i := |targets|;
      Targets(|all|, rates[..i + 2], total) == targets + [|rest| * rates[i] / total]
  {
    hide Plan, Segments, Striping.Targets, Part, Shares, Sum;
    var i := |targets|;
    assert rates[..i + 1] + [rates[i + 1]] == rates[..i + 2];
    TargetsMore(|all|, rates[..i + 1], rates[i + 1], total);
    PartIs(|rest|, rates[i], total);
  }

  lemma NothingHanded(offset: nat, all: seq<byte>)
    ensures Handed(offset, all, [], [], offset, all)
  {
  }

  lemma HandedMore(offset: nat, all: seq<byte>, targets: seq<nat>, plan: seq<seq<Frame>>, next: nat, rest: seq<byte>,
        target: nat)
    requires Handed(offset, all, targets, plan, next, rest)
    ensures
      var n := Min(Max(target, MIN_PAYLOAD_SIZE), |rest|);
      Handed(offset, all, targets + [target], plan + [Segments(next, rest[..n])], next + n, rest[n..])
  {
    hide Plan, Sum, Shares, Segments;
    var given, n := Shares(|all|, targets)[..|targets|], Min(Max(target, MIN_PAYLOAD_SIZE), |rest|);
    SharesMore(|all|, targets, target);
    PlanMore(offset, all, given, n);
    SumMore(given, n);
    assert all[Sum(given)..][n..] == all[Sum(given) + n..];
  }

  lemma HandedAll(offset: nat, all: seq<byte>, targets: seq<nat>, plan: seq<seq<Frame>>, next: nat, rest: seq<byte>)
    requires Handed(offset, all, targets, plan, next, rest)
    ensures next + |rest| == offset + |all| && plan + [Segments(next, rest)] == SharedOut(offset, all, targets)
  {
    hide Plan, Sum, Shares, Segments;
    var given := Shares(|all|, targets)[..|targets|];
    SharesMore(|all|, targets, 0);
    PlanMore(offset, all, given, |rest|);
    assert rest[..|rest|] == rest;
  }

  /** The connections with room are some of the ready ones, each once. */
  lemma {:induction false} AvailableAreReady(conns: seq<TcpConnection>)
    requires Separate(conns)
    ensures OnceEach(Available(conns), conns)
  {
    if conns != [] {
      var n := |conns| - 1;
      AvailableAreReady(conns[..n]);
      assert conns[n] !in conns[..n];
    }
  }
}
