/** What the receiving end does with the frames of its paths; tpproxy/mpproxy_types.cc:306-329, :385-399. */
module Receivers {
  import opened Words
  import opened Streams
  import opened SequencerBuffers
  import opened Sequencers
  import opened Framing

  const MESSAGE_META: byte := 1
  const MESSAGE_ORIGIN_CONNECTED: byte := 2

  predicate IsMeta(f: Frame) {
    f.offset < RESERVE_OFFSET && f.data != [] && f.data[0] == MESSAGE_META
  }

  predicate IsData(f: Frame) {
    f.offset >= RESERVE_OFFSET
  }

  /**
   The receiving end of a session as one path sees it: the capacity and the stream of its sequencer, the bytes handed
   on, whether the path knows its session, whether the sequencer ever refused data, whether it did so because of too
   many intervals, which ends the run, and whether the check for the session failed.
   */
  datatype Sink = Sink(capacity: nat, stream: Stream, output: seq<byte>, attached: bool, refused: bool, halted: bool,
    crashed: bool)

  /** The length of the data goes through 16 bits. */
  function Cast16(data: seq<byte>): (r: seq<byte>)
    ensures |r| < 0x1_0000 && (|data| < 0x1_0000 ==> r == data)
  {
    data[..|data| % 0x1_0000]
  }

  /** RecvData, if the sequencer accepts the frame: its data is buffered and everything readable handed on. */
  function Received(k: Sink, f: Frame): Sink
    requires IsData(f)
  {
    var s := Accept(k.stream, f.offset - RESERVE_OFFSET, Cast16(f.data));
    k.(stream := Drained(s), output := k.output + Front(s, Readable(s)))
  }

  /** The sequencer's answer to a frame. */
  function AnswerTo(k: Sink, f: Frame): ErrorCode
    requires IsData(f)
  {
    Answer(k.stream, k.capacity, f.offset - RESERVE_OFFSET, Cast16(f.data))
  }

  /** One frame of a path. */
  function Dispatch(k: Sink, f: Frame): Sink {
    if k.halted then k
    else if IsData(f) then
      if !k.attached then k.(crashed := true)
      else if AnswerTo(k, f) == NoError then Received(k, f)
      else k.(refused := true, halted := AnswerTo(k, f) == TooManyIntervals)
    else if IsMeta(f) then k.(attached := true)
    else k
  }

  function DispatchAll(k: Sink, frames: seq<Frame>): Sink {
    if frames == [] then k
    else Dispatch(DispatchAll(k, frames[..|frames| - 1]), frames[|frames| - 1])
  }

  lemma DispatchOneMore(k: Sink, frames: seq<Frame>, f: Frame)
    ensures DispatchAll(k, frames + [f]) == Dispatch(DispatchAll(k, frames), f)
  {
    assert (frames + [f])[..|frames|] == frames;
  }

  /** After the run has ended nothing happens any more. */
  lemma {:induction false} HaltedStays(k: Sink, frames: seq<Frame>)
    requires k.halted
    ensures DispatchAll(k, frames) == k
  {
    if frames != [] {
      HaltedStays(k, frames[..|frames| - 1]);
    }
  }

  lemma {:induction false} DispatchInTwo(k: Sink, a: seq<Frame>, b: seq<Frame>)
    ensures DispatchAll(k, a + b) == DispatchAll(DispatchAll(k, a), b)
  {
    hide Dispatch;
    if b == [] {
      assert a + b == a;
    } else {
      var n := |b| - 1;
      DispatchInTwo(k, a, b[..n]);
      assert (a + b)[..|a + b| - 1] == a + b[..n];
    }
  }

  /** What is waiting to be read agrees with a text. */
  predicate Matches(s: Stream, text: seq<byte>) {
    s.read <= |text| && forall o :: o in s.pending ==> s.read <= o < |text| && s.pending[o] == text[o]
  }

  /** Besides, what was handed on is the start of the text, and nothing more can be handed on yet. */
  predicate Agrees(s: Stream, output: seq<byte>, text: seq<byte>) {
    Matches(s, text) && output == text[..s.read] && Readable(s) == 0
  }

  /** What is waiting lies within the window. */
  predicate Within(s: Stream, capacity: nat) {
    forall o :: o in s.pending ==> o < s.read + capacity
  }

  /**
   What holds between frames: the receiver agrees with the text and holds no more than its window, and until data was
   refused there are not too many intervals.
   */
  predicate Fed(k: Sink, text: seq<byte>) {
    && Agrees(k.stream, k.output, text) && Within(k.stream, k.capacity) && (k.halted ==> k.refused)
    && (!k.refused ==> IntervalCount(k.stream) < MAX_INTERVALS)
  }

  /** The frame carries a piece of the text, and not too much for one frame. */
  predicate PieceOf(f: Frame, text: seq<byte>) {
    IsData(f) ==>
      var o := f.offset - RESERVE_OFFSET;
      0 < |f.data| < 0x1_0000 && o + |f.data| <= |text| && f.data == text[o..o + |f.data|]
  }

  predicate Covers(f: Frame, o: nat) {
    IsData(f) && f.offset - RESERVE_OFFSET <= o < f.offset - RESERVE_OFFSET + |f.data|
  }

  /** One stream has what another has, and the offsets of a frame. */
  ghost predicate Gained(s: Stream, f: Frame, t: Stream) {
    forall o: nat :: Has(t, o) <==> Has(s, o) || Covers(f, o)
  }

  lemma AcceptMatches(s: Stream, f: Frame, text: seq<byte>)
    requires Matches(s, text) && PieceOf(f, text) && IsData(f)
    ensures
      var t := Accept(s, f.offset - RESERVE_OFFSET, Cast16(f.data));
      Matches(t, text) && t.read == s.read && Gained(s, f, t)
  {
    assert Cast16(f.data) == f.data;
  }

  /** An accepted frame lies within the window and leaves room for another interval. */
  lemma AcceptFits(k: Sink, f: Frame)
    requires IsData(f) && AnswerTo(k, f) == NoError && Within(k.stream, k.capacity)
    ensures
      var t := Accept(k.stream, f.offset - RESERVE_OFFSET, Cast16(f.data));
      Within(t, k.capacity) && (IntervalCount(k.stream) < MAX_INTERVALS ==> IntervalCount(t) < MAX_INTERVALS)
  {
    hide IntervalCount, Accept, NewOffsets, Within, OutOfRange, Cast16;
    AcceptWithin(k, f);
    NothingNew(k.stream, f.offset - RESERVE_OFFSET, Cast16(f.data));
  }

  lemma NothingNew(s: Stream, offset: nat, data: seq<byte>)
    ensures NewOffsets(s, offset, data) == {} ==> Accept(s, offset, data) == s
  {
  }

  lemma AcceptWithin(k: Sink, f: Frame)
    requires IsData(f) && AnswerTo(k, f) == NoError && Within(k.stream, k.capacity)
    ensures Within(Accept(k.stream, f.offset - RESERVE_OFFSET, Cast16(f.data)), k.capacity)
  {
    hide IntervalCount;
  }

  lemma ReadableIsPending(s: Stream)
    ensures forall o :: s.read <= o < s.read + Readable(s) ==> o in s.pending
  {
  }

  lemma DrainedMatches(s: Stream, output: seq<byte>, text: seq<byte>)
    requires Matches(s, text) && output == text[..s.read]
    ensures Agrees(Drained(s), output + Front(s, Readable(s)), text)
    ensures forall o: nat :: Has(s, o) <==> Has(Drained(s), o)
  {
    hide Readable;
    var n := Readable(s);
    DrainedIsDry(s);
    ReadableIsPending(s);
    assert n > 0 ==> s.read + n - 1 in s.pending;
    assert Front(s, n) == text[s.read..s.read + n];
    assert text[..s.read + n] == text[..s.read] + text[s.read..s.read + n];
  }

  lemma DrainedFits(s: Stream, text: seq<byte>, capacity: nat)
    requires Matches(s, text) && Matches(Drained(s), text) && forall o: nat :: Has(s, o) <==> Has(Drained(s), o)
    ensures Within(s, capacity) ==> Within(Drained(s), capacity)
    ensures IntervalCount(Drained(s)) == IntervalCount(s)
  {
    hide Readable, IntervalCount, Has;
    SameIntervals(s, Drained(s));
  }

  /** Receiving a piece of the text keeps the agreement, loses nothing and has all of the piece. */
  lemma ReceivedAgrees(k: Sink, f: Frame, text: seq<byte>)
    requires Agrees(k.stream, k.output, text) && PieceOf(f, text) && IsData(f)
    ensures
      var r, t := Received(k, f), Accept(k.stream, f.offset - RESERVE_OFFSET, Cast16(f.data));
      && Agrees(r.stream, r.output, text) && Gained(k.stream, f, r.stream)
      && IntervalCount(r.stream) == IntervalCount(t) && (Within(t, k.capacity) ==> Within(r.stream, k.capacity))
  {
    hide Accept, Readable, Front, Drained, Matches, Has, Covers, PieceOf, Cast16, Within, IntervalCount;
    AcceptMatches(k.stream, f, text);
    DrainedMatches(Accept(k.stream, f.offset - RESERVE_OFFSET, Cast16(f.data)), k.output, text);
    DrainedFits(Accept(k.stream, f.offset - RESERVE_OFFSET, Cast16(f.data)), text, k.capacity);
  }

  lemma DispatchFeeds(k: Sink, f: Frame, text: seq<byte>)
    requires Fed(k, text) && PieceOf(f, text)
    ensures Fed(Dispatch(k, f), text)
  {
    hide Received, Agrees, AnswerTo, Within, IntervalCount, Gained;
    if IsData(f) && k.attached && !k.halted && AnswerTo(k, f) == NoError {
      ReceivedFlags(k, f);
      ReceivedAgrees(k, f, text);
      AcceptFits(k, f);
    }
  }

  /** What one frame does to the state besides the stream. */
  lemma DispatchFlags(k: Sink, f: Frame)
    ensures
      var r := Dispatch(k, f);
      && r.capacity == k.capacity && (k.refused ==> r.refused) && (k.halted ==> r == k) && (k.crashed ==> r.crashed)
      && (r.halted ==> k.halted || r.refused)
      && (!k.halted && (IsData(f) ==> k.attached) ==>
            r.crashed == k.crashed && r.attached == (k.attached || IsMeta(f)))
      && (!k.halted && (IsData(f) ==> k.attached && AnswerTo(k, f) == NoError) ==> r.refused == k.refused && !r.halted)
  {
    hide AnswerTo;
    if IsData(f) {
      ReceivedFlags(k, f);
    }
  }

  lemma ReceivedFlags(k: Sink, f: Frame)
    requires IsData(f)
    ensures Received(k, f) == k.(stream := Received(k, f).stream, output := Received(k, f).output)
  {
  }

  /** What the receiver has after a frame that it did not refuse. */
  lemma DispatchGains(k: Sink, f: Frame, text: seq<byte>)
    requires Agrees(k.stream, k.output, text) && PieceOf(f, text) && !k.halted && (IsData(f) ==> k.attached)
    requires !Dispatch(k, f).refused
    ensures Gained(k.stream, f, Dispatch(k, f).stream)
  {
    hide Received, Agrees, AnswerTo, Gained, Has;
    if IsData(f) {
      ReceivedAgrees(k, f, text);
    } else {
      NothingGained(k.stream, f);
    }
  }

  lemma NothingGained(s: Stream, f: Frame)
    requires !IsData(f)
    ensures Gained(s, f, s)
  {
  }

  /** The same for all frames that a read completes. */
  lemma {:induction false} DispatchAllFeeds(k: Sink, frames: seq<Frame>, text: seq<byte>)
    requires Fed(k, text) && forall f :: f in frames ==> PieceOf(f, text)
    ensures
      var r := DispatchAll(k, frames);
      Fed(r, text) && r.capacity == k.capacity && (k.refused ==> r.refused) && (k.halted ==> r == k)
  {
    hide Dispatch, Fed, PieceOf;
    if frames != [] {
      var n := |frames| - 1;
      DispatchAllFeeds(k, frames[..n], text);
      DispatchFeeds(DispatchAll(k, frames[..n]), frames[n], text);
      DispatchFlags(DispatchAll(k, frames[..n]), frames[n]);
    }
  }

  lemma {:induction false} DispatchKeepsCapacity(k: Sink, frames: seq<Frame>)
    ensures DispatchAll(k, frames).capacity == k.capacity
  {
    hide Dispatch;
    if frames != [] {
      DispatchKeepsCapacity(k, frames[..|frames| - 1]);
      DispatchFlags(DispatchAll(k, frames[..|frames| - 1]), frames[|frames| - 1]);
    }
  }

  /** If the session is known or the first frame names it, the check for the session never fails. */
  lemma {:induction false} SessionIsKnown(k: Sink, frames: seq<Frame>)
    requires !k.crashed && !k.halted
    requires k.attached || (frames != [] ==> IsMeta(frames[0]))
    ensures !DispatchAll(k, frames).crashed
    ensures DispatchAll(k, frames).attached <==> k.attached || frames != []
  {
    hide Dispatch, AnswerTo;
    if frames != [] {
      var n := |frames| - 1;
      var before := DispatchAll(k, frames[..n]);
      SessionIsKnown(k, frames[..n]);
      DispatchFlags(before, frames[n]);
    }
  }
}
