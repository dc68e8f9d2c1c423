/** Delivery and close of one received stream, after sequencer/quic_stream_sequencer.cc. */
module Sequencers {
  import opened Words
  import opened Streams
  import opened SequencerBuffers

  /** The final offset of a stream whose end is not known yet. */
  const NO_CLOSE_OFFSET := U64_MAX

  /**
   The application side: it takes everything readable whenever it is told that there is something, and it counts how
   often it is told.
   */
  class StreamSink {
    var output: seq<byte>
    var available: nat
    var finRead: bool
    var errors: seq<ErrorCode>

    constructor ()
      ensures output == [] && available == 0 && !finRead && errors == []
    {
      output, available, finRead, errors := [], 0, false, [];
    }

    method OnFinRead()
      modifies this
      ensures finRead && output == old(output) && available == old(available) && errors == old(errors)
    {
      finRead := true;
    }

    method OnUnrecoverableError(code: ErrorCode)
      modifies this
      ensures errors == old(errors) + [code] && output == old(output) && finRead == old(finRead)
      ensures available == old(available)
    {
      errors := errors + [code];
    }
  }

  lemma AfterOneMore(events: seq<Event>, e: Event)
    ensures After(events + [e]) == Step(After(events), e)
    ensures !e.Discards() && NothingDiscarded(events) ==> NothingDiscarded(events + [e])
    ensures !e.Read? ==> Delivered(events + [e]) == Delivered(events)
    ensures e.Read? ==>
      Delivered(events + [e]) == Delivered(events) + Front(After(events), Min(e.n, Readable(After(events))))
  {
    var all := events + [e];
    assert all[..|all| - 1] == events && all[|all| - 1] == e;
  }

  /** Taking everything readable out of a stream. */
  function Drained(s: Stream): Stream {
    Consume(s, Readable(s))
  }

  /** What that yields. */
  function DrainedText(s: Stream): seq<byte> {
    Front(s, Readable(s))
  }

  lemma DrainedIsDry(s: Stream)
    ensures Readable(Drained(s)) == 0
    ensures Readable(s) == 0 && (forall o :: o in s.pending ==> s.read <= o) ==> Drained(s) == s && Front(s, 0) == []
  {
    ConsumeTwice(s, Readable(s), 0);
  }

  /**
   The state of a sequencer. Section 4.5 of RFC 9000: nothing is consumed or received beyond the final size. Unless
   the data is being discarded, stream and output are those of the run so far, and unless the sequencer is blocked
   nothing readable is left behind.
   */
  ghost predicate Consistent(s: Stream, output: seq<byte>, events: seq<Event>, highest: nat, close: nat,
        blocked: bool, ignore: bool) {
    && s.read <= highest <= close <= NO_CLOSE_OFFSET
    && (forall o :: o in s.pending ==> s.read <= o < highest)
    && (!ignore ==> s == After(events) && output == Delivered(events) && NothingDiscarded(events))
    && (!ignore && !blocked ==> Readable(s) == 0)
  }

  lemma StartsConsistent()
    ensures Consistent(Stream(0, map[]), [], [], 0, NO_CLOSE_OFFSET, false, false)
  {
  }

  lemma ConsistentFrame(s: Stream, output: seq<byte>, events: seq<Event>, highest: nat, close: nat, blocked: bool,
      ignore: bool, offset: nat, data: seq<byte>)
    requires Consistent(s, output, events, highest, close, blocked, ignore) && offset + |data| <= close
    ensures Consistent(s, output, events, Max(highest, offset + |data|), close, blocked, ignore)
    ensures Consistent(Accept(s, offset, data), output, events + [Arrival(offset, data)], Max(highest, offset + |data|),
      close, true, ignore)
  {
    hide Readable, After, Delivered, NothingDiscarded;
    AfterOneMore(events, Arrival(offset, data));
  }

  lemma ConsistentDrained(s: Stream, output: seq<byte>, events: seq<Event>, highest: nat, close: nat, blocked: bool,
        ignore: bool)
    requires Consistent(s, output, events, highest, close, blocked, ignore)
    ensures
      var n := Readable(s);
      Consistent(Drained(s), output + Front(s, n), events + [Event.Read(n)], highest, close, false, ignore)
    ensures Readable(s) == 0 ==> Drained(s) == s && Front(s, 0) == []
    ensures Readable(s) == 0 ==> Consistent(s, output, events, highest, close, false, ignore)
  {
    hide After, Delivered, NothingDiscarded;
    DrainedIsDry(s);
    AfterOneMore(events, Event.Read(Readable(s)));
    assert Readable(s) > 0 ==> s.read + Readable(s) - 1 in s.pending;
  }

  lemma ConsistentDiscarding(s: Stream, output: seq<byte>, events: seq<Event>, highest: nat, close: nat, blocked: bool,
      ignore: bool, read: nat, blocked': bool)
    requires Consistent(s, output, events, highest, close, blocked, ignore)
    requires read == s.read || read - 1 in s.pending
    ensures Consistent(Stream(read, map[]), output, events, highest, close, blocked', true)
  {
  }

  lemma ConsistentClosed(s: Stream, output: seq<byte>, events: seq<Event>, highest: nat, close: nat, blocked: bool,
        ignore: bool)
    requires Consistent(s, output, events, highest, close, blocked, ignore) && s.read >= close
    ensures s == Stream(close, map[]) && highest == close
  {
    assert s.pending == map[];
  }

  /**
   Section 4.5 of RFC 9000: once everything up to the final size was consumed, and nothing was discarded, the output has
   one byte for every offset below it, and that is the first byte received there.
   */
  lemma ClosedIsComplete(s: Stream, output: seq<byte>, events: seq<Event>, highest: nat, close: nat, blocked: bool)
    requires Consistent(s, output, events, highest, close, blocked, false) && s.read >= close
    ensures |output| == close == s.read && s.pending == map[]
    ensures forall o: nat :: o < close ==> Received(events, o) && output[o] == FirstByte(events, o)
  {
    hide Readable, Received, FirstByte;
    ConsistentClosed(s, output, events, highest, close, blocked, false);
    RunsKeepFirstBytes(events);
    WithoutDiscards(events);
  }

  lemma ConsistentClose(s: Stream, output: seq<byte>, events: seq<Event>, highest: nat, close: nat, blocked: bool,
        ignore: bool,
      offset: nat)
    requires Consistent(s, output, events, highest, close, blocked, ignore) && highest <= offset <= NO_CLOSE_OFFSET
    ensures Consistent(s, output, events, highest, offset, blocked, ignore)
  {
  }

  class QuicStreamSequencer {
    const stream: StreamSink
    const buffered: SequencerBuffer
    var highestOffset: nat
    var closeOffset: nat
    var blocked: bool
    var numFramesReceived: nat
    var numDuplicateFramesReceived: nat
    var ignoreReadData: bool
    var levelTriggered: bool
    /** The frames buffered and the reads made so far, as long as the data is not being discarded. */
    ghost var events: seq<Event>

    constructor (sink: StreamSink, capacity: nat)
      requires capacity < U64_RANGE && sink.output == []
      ensures Valid() && fresh(buffered.Repr()) && stream == sink && events == [] && !ignoreReadData && !blocked
      ensures closeOffset == NO_CLOSE_OFFSET && highestOffset == 0 && buffered.capacity == capacity
      ensures buffered.State() == Stream(0, map[]) && sink.output == []
    {
      stream := sink;
      buffered := new SequencerBuffer(capacity);
      highestOffset, closeOffset := 0, NO_CLOSE_OFFSET;
      blocked, ignoreReadData, levelTriggered := false, false, false;
      numFramesReceived, numDuplicateFramesReceived := 0, 0;
      events := [];
      new;
      StartsConsistent();
    }

    ghost function Repr(): set<object>
      reads this, buffered
    {
      {this, stream} + buffered.Repr()
    }

    ghost predicate Apart()
      reads this, buffered
    {
      this !in buffered.Repr() && stream !in buffered.Repr()
    }

    ghost predicate Valid()
      reads this, stream, buffered, buffered.storage, buffered.bytesReceived
    {
      Apart() && buffered.Valid()
      && Consistent(buffered.State(), stream.output, events, highestOffset, closeOffset, blocked, ignoreReadData)
    }

    predicate IsClosed()
      reads this, buffered
    {
      buffered.totalBytesRead >= closeOffset
    }

    /** The settings and counters that most operations leave alone. */
    twostate predicate SameFlags()
      reads this
    {
      && blocked == old(blocked) && ignoreReadData == old(ignoreReadData) && levelTriggered == old(levelTriggered)
      && highestOffset == old(highestOffset) && closeOffset == old(closeOffset)
      && numFramesReceived == old(numFramesReceived) && numDuplicateFramesReceived == old(numDuplicateFramesReceived)
    }

    /** The end of the stream was passed up or not: by OnFinRead while data is discarded, else with the data. */
    twostate predicate EndTold(told: bool)
      reads this`ignoreReadData, stream
    {
      && stream.available == old(stream.available) + (if told && !ignoreReadData then 1 else 0)
      && stream.finRead == (old(stream.finRead) || (told && ignoreReadData))
    }

    /** More bytes have become readable, so that the stream is told. */
    function Triggers(previous: nat, readable: nat): bool
      reads this`levelTriggered
    {
      if levelTriggered then readable > previous else previous == 0 && readable > 0
    }

    /** Copies readable bytes out, as many as the buffers hold. */
    method Readv(dest: seq<array<byte>>) returns (bytesRead: nat)
      requires buffered.Valid() && Apart() && SeparateBuffers(dest)
      requires forall j :: 0 <= j < |dest| ==> dest[j] !in buffered.storage
      modifies buffered.Repr(), this`events, set d | d in dest
      ensures buffered.Valid() && buffered.storage == old(buffered.storage)
      ensures bytesRead == Min(LengthsBefore(dest, |dest|), Readable(old(buffered.State())))
      ensures buffered.State() == Consume(old(buffered.State()), bytesRead)
      ensures Contents(dest) == Scattered(Front(old(buffered.State()), bytesRead), dest, |dest|, old(Contents(dest)))
      ensures events == old(events) + [Event.Read(bytesRead)]
    {
      hide Scattered, LengthsBefore, Readable, Front, Consume, Contents, SeparateBuffers, SequencerBuffer.Valid;
      buffered.BlocksInStorage();
      var code;
      code, bytesRead := buffered.Readv(dest);
      events := events + [Event.Read(bytesRead)];
    }

    /** Drops bytes that were read in place; asking for more than is readable is refused. */
    method MarkConsumed(bytesConsumed: nat) returns (ok: bool)
      requires buffered.Valid() && Apart()
      modifies buffered.Repr(), this`events
      ensures buffered.Valid() && buffered.storage == old(buffered.storage)
      ensures ok <==> bytesConsumed <= Readable(old(buffered.State()))
      ensures buffered.State() == if ok then Consume(old(buffered.State()), bytesConsumed) else old(buffered.State())
      ensures events == old(events) + if ok then [Event.Read(bytesConsumed)] else []
    {
      hide Readable, Consume, SequencerBuffer.Valid;
      buffered.BlocksInStorage();
      ok := buffered.MarkConsumed(bytesConsumed);
      if ok {
        events := events + [Event.Read(bytesConsumed)];
      }
    }

    /** Read: all readable bytes are taken out. */
    method Read() returns (text: seq<byte>)
      requires buffered.Valid() && Apart()
      modifies buffered.Repr(), this`events
      ensures buffered.Valid() && buffered.storage == old(buffered.storage)
      ensures text == Front(old(buffered.State()), Readable(old(buffered.State())))
      ensures buffered.State() == Drained(old(buffered.State())) && events == old(events) + [Event.Read(|text|)]
    {
      hide Scattered, LengthsBefore, Readable, Front, Consume, SequencerBuffer.Valid;
      var dest := new byte[buffered.ReadableBytes()];
      ghost var source, was := Front(buffered.State(), dest.Length), Contents([dest]);
      OneBufferGetsAll(source, dest, was);
      var count := Readv([dest]);
      assert Contents([dest])[0] == dest[..];
      text := dest[..];
    }

    /** The stream takes all readable bytes and passes them on. */
    method OnDataAvailable()
      requires buffered.Valid() && Apart()
      modifies buffered.Repr(), this`events, stream
      ensures buffered.Valid() && buffered.storage == old(buffered.storage)
      ensures
        var s := old(buffered.State());
        && buffered.State() == Drained(s) && stream.output == old(stream.output) + Front(s, Readable(s))
        && events == old(events) + [Event.Read(Readable(s))]
      ensures stream.finRead == old(stream.finRead) && stream.errors == old(stream.errors)
      ensures stream.available == old(stream.available) + 1
    {
      stream.available := stream.available + 1;
      var text := Read();
      stream.output := stream.output + text;
    }

    /** Passes the end of the stream up once everything has been consumed; clearing the buffer then loses no byte. */
    method MaybeCloseStream()
      requires Valid()
      modifies Repr()
      ensures Valid() && buffered.storage == old(buffered.storage) && SameFlags()
      ensures buffered.State() == old(buffered.State()) && stream.output == old(stream.output)
      ensures stream.errors == old(stream.errors)
      ensures EndTold(!blocked && IsClosed())
      ensures events == old(events) + if !ignoreReadData && !blocked && IsClosed() then [Event.Read(0)] else []
    {
      hide Consistent, SequencerBuffer.Valid, Readable, Front, Drained;
      if blocked || !IsClosed() {
        return;
      }
      ghost var s := buffered.State();
      ConsistentClosed(s, stream.output, events, highestOffset, closeOffset, blocked, ignoreReadData);
      NothingToDrain(s);
      if ignoreReadData {
        stream.OnFinRead();
      } else {
        ConsistentDrained(s, stream.output, events, highestOffset, closeOffset, blocked, ignoreReadData);
        OnDataAvailable();
      }
      buffered.ValidMeans();
      buffered.Clear();
    }

    /** A final offset is accepted if it is the first, or the same again, and covers everything received. */
    method CloseStreamAtOffset(offset: nat) returns (ok: bool)
      requires Valid() && offset <= NO_CLOSE_OFFSET
      modifies Repr()
      ensures Valid() && buffered.storage == old(buffered.storage)
      ensures blocked == old(blocked) && ignoreReadData == old(ignoreReadData) && highestOffset == old(highestOffset)
      ensures numFramesReceived == old(numFramesReceived)
      ensures ok <==> (old(closeOffset) == NO_CLOSE_OFFSET || old(closeOffset) == offset) && offset >= highestOffset
      ensures closeOffset == if ok then offset else old(closeOffset)
      ensures buffered.State() == old(buffered.State()) && stream.output == old(stream.output)
      ensures stream.errors == old(stream.errors) + if ok then [] else [InvalidState]
      ensures EndTold(ok && !blocked && IsClosed())
      ensures levelTriggered == old(levelTriggered) && numDuplicateFramesReceived == old(numDuplicateFramesReceived)
    {
      hide Consistent, SequencerBuffer.Valid;
      if closeOffset != NO_CLOSE_OFFSET && offset != closeOffset {
        stream.OnUnrecoverableError(InvalidState);
        return false;
      }
      if offset < highestOffset {
        stream.OnUnrecoverableError(InvalidState);
        return false;
      }
      ConsistentClose(buffered.State(), stream.output, events, highestOffset, closeOffset, blocked, ignoreReadData,
        offset);
      closeOffset := offset;
      MaybeCloseStream();
      ok := true;
    }

    /** Discards what is buffered, gaps included; only once reading has stopped. */
    method FlushBufferedFrames()
      requires Valid() && ignoreReadData
      modifies Repr()
      ensures Valid() && buffered.storage == old(buffered.storage) && SameFlags() && buffered.pending == map[]
      ensures buffered.State() == Stream(End(old(buffered.State())), map[]) && EndTold(!blocked && IsClosed())
      ensures stream.output == old(stream.output) && stream.errors == old(stream.errors)
    {
      hide Consistent, SequencerBuffer.Valid;
      ghost var s := buffered.State();
      buffered.BlocksInStorage();
      var flushed := buffered.FlushBufferedFrames();
      ConsistentDiscarding(s, stream.output, events, highestOffset, closeOffset, blocked, true, buffered.totalBytesRead,
        blocked);
      MaybeCloseStream();
    }

    /** The edge- or level-triggered notification after previous readable bytes have become more. */
    method Announce(previous: nat)
      requires buffered.Valid() && Apart() && !blocked && previous <= Readable(buffered.State())
      requires Consistent(buffered.State(), stream.output, events, highestOffset, closeOffset, true, ignoreReadData)
      requires !ignoreReadData ==> previous == 0
      modifies Repr()
      ensures Valid() && buffered.storage == old(buffered.storage) && SameFlags() && stream.errors == old(stream.errors)
      ensures !ignoreReadData ==>
        var s := old(buffered.State());
        buffered.State() == Drained(s) && stream.output == old(stream.output) + Front(s, Readable(s))
      ensures !ignoreReadData ==>
        && stream.available == old(stream.available) + (if Readable(old(buffered.State())) > 0 then 1 else 0)
        && stream.finRead == old(stream.finRead)
      ensures ignoreReadData ==>
        var triggered := Triggers(previous, Readable(old(buffered.State())));
        && buffered.State() == (if triggered then Stream(End(old(buffered.State())), map[]) else old(buffered.State()))
        && EndTold(triggered && IsClosed()) && stream.output == old(stream.output)
    {
      hide Consistent, SequencerBuffer.Valid, Readable, Front, Drained;
      ConsistentDrained(buffered.State(), stream.output, events, highestOffset, closeOffset, true, ignoreReadData);
      IgnoringIsConsistent();
      var readable := buffered.ReadableBytes();
      if if levelTriggered then readable > previous else previous == 0 && readable > 0 {
        if ignoreReadData {
          FlushBufferedFrames();
        } else {
          OnDataAvailable();
        }
      }
    }

    lemma IgnoringIsConsistent()
      requires Consistent(buffered.State(), stream.output, events, highestOffset, closeOffset, true, ignoreReadData)
      ensures ignoreReadData ==>
        Consistent(buffered.State(), stream.output, events, highestOffset, closeOffset, blocked, ignoreReadData)
    {
    }

    /** How often an accepted frame tells the stream that something has become readable. */
    function FrameTells(code: ErrorCode, s: Stream, offset: nat, data: seq<byte>): nat
      reads this`blocked
    {
      if code == NoError && !blocked && Readable(Accept(s, offset, data)) > 0 then 1 else 0
    }

    /** While data is discarded, an accepted frame that makes more readable is thrown away with all that waits. */
    twostate predicate Discarded(code: ErrorCode, s: Stream, offset: nat, data: seq<byte>)
      reads this, stream, buffered
    {
      var t := Accept(s, offset, data);
      var triggered := code == NoError && !blocked && NewOffsets(s, offset, data) != {}
        && Triggers(Readable(s), Readable(t));
      && stream.output == old(stream.output) && EndTold(triggered && IsClosed())
      && (code == NoError ==> buffered.State() == if triggered then Stream(End(t), map[]) else t)
    }

    /** Buffers the data of a frame and tells the stream when something has become readable. */
    method OnFrameData(offset: nat, data: seq<byte>) returns (code: ErrorCode)
      requires Valid() && offset + |data| <= closeOffset
      modifies Repr()
      ensures fresh(buffered.storage - old(buffered.storage))
      ensures code != TooManyIntervals ==> Valid()
      ensures highestOffset == Max(old(highestOffset), offset + |data|)
      ensures blocked == old(blocked) && ignoreReadData == old(ignoreReadData) && closeOffset == old(closeOffset)
      ensures numFramesReceived == old(numFramesReceived)
      ensures code == NoError && !ignoreReadData ==>
        var s := Accept(old(buffered.State()), offset, data);
        && buffered.State() == (if blocked then s else Drained(s))
        && stream.output == old(stream.output) + (if blocked then [] else DrainedText(s))
      ensures code != NoError ==> stream.output == old(stream.output) && buffered.State() == old(buffered.State())
      ensures stream.errors == old(stream.errors) + if code == NoError then [] else [code]
      ensures code == Answer(old(buffered.State()), buffered.capacity, offset, data)
      ensures !ignoreReadData ==>
        && stream.available == old(stream.available) + FrameTells(code, old(buffered.State()), offset, data)
        && stream.finRead == old(stream.finRead)
      ensures ignoreReadData ==> Discarded(code, old(buffered.State()), offset, data)
      ensures levelTriggered == old(levelTriggered) && numDuplicateFramesReceived == old(numDuplicateFramesReceived)
        + if code == NoError && NewOffsets(old(buffered.State()), offset, data) == {} then 1 else 0
    {
      hide Consistent, SequencerBuffer.Valid, Readable, Front, Drained, Accept, NewOffsets, Answer;
      ghost var s, before := buffered.State(), events;
      ConsistentFacts();
      ConsistentFrame(s, stream.output, events, highestOffset, closeOffset, blocked, ignoreReadData, offset, data);
      highestOffset := Max(highestOffset, offset + |data|);
      var previous := buffered.ReadableBytes();
      var written;
      code, written := buffered.OnStreamData(offset, data);
      if code != NoError {
        stream.OnUnrecoverableError(code);
        return;
      }
      MoreReadable(s, offset, data);
      NoneNew(s, offset, data);
      DrainedIsDry(s);
      if written == 0 {
        numDuplicateFramesReceived := numDuplicateFramesReceived + 1;
        return;
      }
      events := events + [Arrival(offset, data)];
      if blocked {
        return;
      }
      Announce(previous);
    }

    /** A FIN frame settles the final offset, and everything up to it has been read already. */
    function EndIsKnown(fin: bool, code: ErrorCode, s: Stream, offset: nat, data: seq<byte>): bool
      reads this`blocked
    {
      fin && code != InvalidState && !blocked && s.read >= offset + |data|
    }

    /**
     A frame arrives. A FIN frame first settles the final offset; nothing more is done for it if that fails or if it
     carries no data.
     */
    method OnStreamFrame(fin: bool, offset: nat, data: seq<byte>) returns (code: ErrorCode)
      requires Valid() && offset + |data| <= closeOffset
      modifies Repr()
      ensures fresh(buffered.storage - old(buffered.storage))
      ensures code != TooManyIntervals ==> Valid()
      ensures blocked == old(blocked) && ignoreReadData == old(ignoreReadData)
      ensures numFramesReceived == old(numFramesReceived) + 1
      ensures old(closeOffset) != NO_CLOSE_OFFSET ==> closeOffset == old(closeOffset)
      ensures !fin ==> closeOffset == old(closeOffset)
      ensures fin && code == NoError ==> closeOffset == offset + |data|
      ensures code == NoError && !ignoreReadData ==>
        var s := Accept(old(buffered.State()), offset, data);
        && buffered.State() == (if blocked then s else Drained(s))
        && stream.output == old(stream.output) + (if blocked then [] else DrainedText(s))
      ensures code != NoError ==> stream.output == old(stream.output) && buffered.State() == old(buffered.State())
      ensures stream.errors == old(stream.errors) + if code == NoError then [] else [code]
      ensures code != InvalidState ==>
        code == if fin && data == [] then NoError else Answer(old(buffered.State()), buffered.capacity, offset, data)
      ensures code == InvalidState <==>
        fin && ((old(closeOffset) != NO_CLOSE_OFFSET && old(closeOffset) != offset + |data|)
          || offset + |data| < old(highestOffset))
      ensures !ignoreReadData ==>
        && stream.finRead == old(stream.finRead)
        && stream.available == old(stream.available) + FrameTells(code, old(buffered.State()), offset, data)
             + if EndIsKnown(fin, code, old(buffered.State()), offset, data) then 1 else 0
      ensures ignoreReadData && EndIsKnown(fin, code, old(buffered.State()), offset, data) ==> stream.finRead
      ensures ignoreReadData ==> stream.available == old(stream.available)
    {
      hide Consistent, SequencerBuffer.Valid, Readable, Front, Drained, Accept, NewOffsets, Answer;
      numFramesReceived := numFramesReceived + 1;
      ConsistentFacts();
      ghost var s := buffered.State();
      if fin {
        var accepted := CloseStreamAtOffset(offset + |data|);
        if !accepted {
          return InvalidState;
        }
        if |data| == 0 {
          EmptyFrame(s, offset);
          DrainedIsDry(s);
          return NoError;
        }
      }
      code := OnFrameData(offset, data);
    }

    method SetBlockedUntilFlush()
      requires Valid()
      modifies this`blocked
      ensures Valid() && blocked && buffered.State() == old(buffered.State())
    {
      blocked := true;
    }

    method SetUnblocked()
      requires Valid()
      modifies Repr()
      ensures Valid() && !blocked && Readable(buffered.State()) == 0 && closeOffset == old(closeOffset)
      ensures stream.finRead == old(stream.finRead)
      ensures stream.available == old(stream.available)
        + if old(IsClosed()) || Readable(old(buffered.State())) > 0 then 1 else 0
      ensures
        var s := old(buffered.State());
        buffered.State() == Drained(s) && stream.output == old(stream.output) + Front(s, Readable(s))
    {
      hide Consistent, SequencerBuffer.Valid, Readable, Front, Drained;
      ghost var s := buffered.State();
      ConsistentDrained(s, stream.output, events, highestOffset, closeOffset, blocked, ignoreReadData);
      DrainedIsDry(s);
      blocked := false;
      var readable := buffered.ReadableBytes();
      if IsClosed() || readable > 0 {
        OnDataAvailable();
      }
    }

    method StopReading()
      requires Valid()
      modifies Repr()
      ensures Valid() && ignoreReadData && closeOffset == old(closeOffset) && stream.output == old(stream.output)
      ensures buffered.State() ==
        if old(ignoreReadData) then old(buffered.State()) else Stream(End(old(buffered.State())), map[])
      ensures stream.available == old(stream.available)
      ensures stream.finRead == (old(stream.finRead) || (!old(ignoreReadData) && !blocked && IsClosed()))
    {
      hide Consistent, SequencerBuffer.Valid;
      if ignoreReadData {
        return;
      }
      StartDiscarding();
      ignoreReadData := true;
      FlushBufferedFrames();
    }

    lemma StartDiscarding()
      requires Valid()
      ensures Consistent(buffered.State(), stream.output, events, highestOffset, closeOffset, blocked, true)
    {
    }

    /**
     Close safety. Once the sequencer is closed and was never told to stop reading, the output is complete: it has one
     byte for every offset below the final one, and that is the first byte received there.
     */
    lemma ClosedMeansDelivered()
      requires Valid() && IsClosed() && !ignoreReadData
      ensures |stream.output| == closeOffset == buffered.totalBytesRead && buffered.pending == map[]
      ensures forall o: nat :: o < closeOffset ==> Received(events, o) && stream.output[o] == FirstByte(events, o)
    {
      ClosedIsComplete(buffered.State(), stream.output, events, highestOffset, closeOffset, blocked);
    }

    lemma ConsistentFacts()
      requires Valid()
      ensures highestOffset <= closeOffset <= NO_CLOSE_OFFSET && buffered.totalBytesRead < U64_RANGE
        && buffered.capacity < U64_RANGE
      ensures forall o :: o in buffered.pending ==> buffered.totalBytesRead <= o
      ensures !ignoreReadData && !blocked ==> Readable(buffered.State()) == 0
    {
    }
  }

  /** Buffering a frame never takes readable bytes away. */
  lemma MoreReadable(s: Stream, offset: nat, data: seq<byte>)
    ensures Readable(s) <= Readable(Accept(s, offset, data))
  {
    var t := Accept(s, offset, data);
    assert Readable(t) < Readable(s) ==> s.read + Readable(t) in s.pending;
  }

  lemma EmptyFrame(s: Stream, offset: nat)
    ensures Accept(s, offset, []) == s
  {
    assert NewOffsets(s, offset, []) == {};
  }

  /** A frame without a new offset changes nothing. */
  lemma NoneNew(s: Stream, offset: nat, data: seq<byte>)
    ensures |NewOffsets(s, offset, data)| == 0 ==> Accept(s, offset, data) == s
  {
    if |NewOffsets(s, offset, data)| == 0 {
      assert NewOffsets(s, offset, data) == {};
    }
  }

  lemma NothingToDrain(s: Stream)
    ensures s.pending == map[] ==> Readable(s) == 0 && Drained(s) == s && Front(s, 0) == []
  {
    DrainedIsDry(s);
  }
}
