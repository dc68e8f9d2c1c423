/**
 Where the bytes of a text are that is striped over several paths: each has been received, or is in exactly one frame
 that has not been delivered.

 What follows from that for the number of intervals, for the frame at the cursor and for what the sequencer answers;
 tpproxy/mpproxy_types.cc:541-602 and sequencer/quic_stream_sequencer_buffer.cc:111-183.
 */
module Arrangements {
  import opened Words
  import opened Streams
  import opened SequencerBuffers
  import opened ByteCodec
  import opened Framing
  import opened Striping
  import opened Receivers

  predicate SomeCovers(frames: seq<Frame>, o: nat) {
    exists f :: f in frames && Covers(f, o)
  }

  predicate AllPieces(frames: seq<Frame>, text: seq<byte>) {
    forall f :: f in frames ==> PieceOf(f, text)
  }

  /** Frames of data come in the order of their offsets. */
  predicate Ascending(frames: seq<Frame>) {
    forall i, j :: 0 <= i < j < |frames| && IsData(frames[i]) && IsData(frames[j]) ==>
      frames[i].offset + |frames[i].data| <= frames[j].offset
  }

  /** No offset is in frames of both lists. */
  ghost predicate Apart(a: seq<Frame>, b: seq<Frame>) {
    forall o: nat :: !(SomeCovers(a, o) && SomeCovers(b, o))
  }

  /** Nothing that is in these frames has been received. */
  ghost predicate New(frames: seq<Frame>, s: Stream) {
    forall o: nat :: SomeCovers(frames, o) ==> !Has(s, o)
  }

  predicate Awaited(lefts: seq<seq<Frame>>, o: nat) {
    exists p :: 0 <= p < |lefts| && SomeCovers(lefts[p], o)
  }

  /** The frames left on the paths and the stream received so far make up the text, without overlap. */
  ghost predicate Arranged(lefts: seq<seq<Frame>>, text: seq<byte>, s: Stream) {
    && (forall p :: 0 <= p < |lefts| ==> Ascending(lefts[p]) && New(lefts[p], s))
    && (forall p, q :: 0 <= p < |lefts| && 0 <= q < |lefts| && p != q ==> Apart(lefts[p], lefts[q]))
    && (forall o: nat :: o < |text| ==> Has(s, o) || Awaited(lefts, o))
  }

  ghost predicate AllOnPaths(lefts: seq<seq<Frame>>, text: seq<byte>) {
    forall p :: 0 <= p < |lefts| ==> AllPieces(lefts[p], text)
  }

  // ---------- writing ----------

  lemma CoversBoth(a: seq<Frame>, b: seq<Frame>, o: nat)
    ensures SomeCovers(a + b, o) <==> SomeCovers(a, o) || SomeCovers(b, o)
  {
    hide Covers;
    if SomeCovers(a, o) {
      var f :| f in a && Covers(f, o);
      assert f in a + b;
    }
    if SomeCovers(b, o) {
      var f :| f in b && Covers(f, o);
      assert f in a + b;
    }
  }

  /** Frames that carry the next bytes of a text are pieces of the longer text and cover exactly what is new. */
  lemma {:induction false} CarriedPieces(frames: seq<Frame>, text: seq<byte>, more: seq<byte>)
    requires Carry(frames, RESERVE_OFFSET + |text|, more)
    ensures AllPieces(frames, text + more)
    ensures forall o: nat :: SomeCovers(frames, o) <==> |text| <= o < |text| + |more|
    decreases |frames|
  {
    hide PieceOf, Payload, Contiguous, Carry, Covers;
    if frames == [] {
      CarryNothing(RESERVE_OFFSET + |text|, more);
    } else {
      var f, n := frames[0], |frames[0].data|;
      CarryRest(frames, RESERVE_OFFSET + |text|, more);
      CarriedPieces(frames[1..], text + f.data, more[n..]);
      assert text + f.data + more[n..] == text + more;
      FirstPiece(f, text, more);
      assert frames == [f] + frames[1..];
      forall o: nat
        ensures SomeCovers(frames, o) <==> |text| <= o < |text| + |more|
      {
        CoversBoth([f], frames[1..], o);
        CoversOne(f, o);
      }
    }
  }

  lemma CoversOne(f: Frame, o: nat)
    ensures SomeCovers([f], o) <==> Covers(f, o)
  {
    hide Covers;
    assert f in [f];
  }

  lemma CarryNothing(offset: nat, data: seq<byte>)
    requires Carry([], offset, data)
    ensures data == []
  {
  }

  lemma FirstPiece(f: Frame, text: seq<byte>, more: seq<byte>)
    requires f.offset == RESERVE_OFFSET + |text| && Fits(f) && f.data <= more
    ensures PieceOf(f, text + more) && forall o: nat :: Covers(f, o) <==> |text| <= o < |text| + |f.data|
  {
    assert (text + more)[|text|..|text| + |f.data|] == f.data;
  }

  lemma CarryRest(frames: seq<Frame>, offset: nat, data: seq<byte>)
    requires Carry(frames, offset, data) && frames != []
    ensures
      var n := |frames[0].data|;
      && Fits(frames[0]) && frames[0].offset == offset && frames[0].data <= data
      && Carry(frames[1..], offset + n, data[n..])
  {
    hide Payload;
    PayloadRest(frames);
    var n := |frames[0].data|;
    forall f | f in frames[1..]
      ensures Fits(f) && offset + n <= f.offset && f.offset + |f.data| <= offset + |data|
    {
      assert f in frames;
      LaterFrames(frames[1..], offset + n, f);
    }
  }

  lemma PayloadRest(frames: seq<Frame>)
    requires frames != []
    ensures Payload(frames) == frames[0].data + Payload(frames[1..])
    ensures Payload(frames)[|frames[0].data|..] == Payload(frames[1..])
  {
  }

  lemma {:induction false} LaterFrames(frames: seq<Frame>, offset: nat, f: Frame)
    requires Contiguous(offset, frames) && f in frames
    ensures offset <= f.offset
    decreases |frames|
  {
    if f != frames[0] {
      LaterFrames(frames[1..], offset + |frames[0].data|, f);
    }
  }

  lemma {:induction false} ContiguousAscends(frames: seq<Frame>, offset: nat)
    requires Contiguous(offset, frames)
    ensures Ascending(frames)
    decreases |frames|
  {
    if frames != [] {
      var later := frames[1..];
      ContiguousAscends(later, offset + |frames[0].data|);
      forall i, j | 0 <= i < j < |frames| && IsData(frames[i]) && IsData(frames[j])
        ensures frames[i].offset + |frames[i].data| <= frames[j].offset
      {
        assert frames[j] == later[j - 1] && (i > 0 ==> frames[i] == later[i - 1]);
        LaterFrames(later, offset + |frames[0].data|, frames[j]);
      }
    }
  }

  /** Old frames lie below the end of the text they are pieces of. */
  lemma PiecesLieBelow(frames: seq<Frame>, text: seq<byte>, o: nat)
    requires AllPieces(frames, text) && SomeCovers(frames, o)
    ensures o < |text|
  {
    var f :| f in frames && Covers(f, o);
  }

  lemma AscendingTogether(a: seq<Frame>, b: seq<Frame>, end: nat)
    requires Ascending(a) && Ascending(b)
    requires forall f :: f in a && IsData(f) ==> f.offset + |f.data| <= end
    requires forall f :: f in b && IsData(f) ==> end <= f.offset
    ensures Ascending(a + b)
  {
    var all := a + b;
    forall i, j | 0 <= i < j < |all| && IsData(all[i]) && IsData(all[j])
      ensures all[i].offset + |all[i].data| <= all[j].offset
    {
      assert i < |a| <= j ==> all[i] in a && all[j] in b;
    }
  }

  /** The next bytes of the text are written to one path. */
  lemma WriteOnPath(lefts: seq<seq<Frame>>, p: nat, frames: seq<Frame>, text: seq<byte>, more: seq<byte>)
    requires AllOnPaths(lefts, text) && p < |lefts| && Carry(frames, RESERVE_OFFSET + |text|, more)
    ensures
      var r := lefts[p := lefts[p] + frames];
      && AllOnPaths(r, text + more)
      && (forall o: nat :: SomeCovers(r[p], o) <==> SomeCovers(lefts[p], o) || |text| <= o < |text| + |more|)
      && (forall o: nat :: o < |text| ==> (Awaited(r, o) <==> Awaited(lefts, o)))
  {
    hide PieceOf, Carry, SomeCovers;
    var r := lefts[p := lefts[p] + frames];
    CarriedPieces(frames, text, more);
    forall q | 0 <= q < |lefts|
      ensures AllPieces(lefts[q], text + more)
    {
      PiecesOfMore(lefts[q], text, more);
    }
    forall o: nat
      ensures SomeCovers(r[p], o) <==> SomeCovers(lefts[p], o) || |text| <= o < |text| + |more|
    {
      CoversBoth(lefts[p], frames, o);
    }
    forall o: nat | o < |text|
      ensures Awaited(r, o) <==> Awaited(lefts, o)
    {
      AwaitedSame(lefts, r, o);
    }
  }

  lemma AwaitedSame(a: seq<seq<Frame>>, b: seq<seq<Frame>>, o: nat)
    requires |a| == |b| && forall q :: 0 <= q < |a| ==> (SomeCovers(a[q], o) <==> SomeCovers(b[q], o))
    ensures Awaited(a, o) <==> Awaited(b, o)
  {
    hide SomeCovers;
    if Awaited(a, o) {
      var q :| 0 <= q < |a| && SomeCovers(a[q], o);
      assert SomeCovers(b[q], o);
    }
    if Awaited(b, o) {
      var q :| 0 <= q < |b| && SomeCovers(b[q], o);
      assert SomeCovers(a[q], o);
    }
  }

  lemma WriteArranges(lefts: seq<seq<Frame>>, p: nat, frames: seq<Frame>, text: seq<byte>, more: seq<byte>, s: Stream)
    requires Arranged(lefts, text, s) && AllOnPaths(lefts, text) && p < |lefts| && Matches(s, text)
    requires Carry(frames, RESERVE_OFFSET + |text|, more)
    ensures Arranged(lefts[p := lefts[p] + frames], text + more, s)
  {
    hide PieceOf, Payload, Contiguous, Carry, Covers, Ascending, SomeCovers, Has, Matches, Awaited;
    var r := lefts[p := lefts[p] + frames];
    WriteOnPath(lefts, p, frames, text, more);
    CarryAscends(lefts[p], frames, text, more);
    forall q, o: nat | 0 <= q < |lefts| && SomeCovers(lefts[q], o)
      ensures o < |text|
    {
      PiecesLieBelow(lefts[q], text, o);
    }
    HasBelow(s, text);
    AwaitedMore(lefts, r, p, text, more, s);
  }

  lemma AwaitedMore(lefts: seq<seq<Frame>>, r: seq<seq<Frame>>, p: nat, text: seq<byte>, more: seq<byte>, s: Stream)
    requires p < |lefts| == |r| && forall o: nat :: o < |text| ==> Has(s, o) || Awaited(lefts, o)
    requires forall q :: 0 <= q < |r| && q != p ==> r[q] == lefts[q]
    requires forall o: nat :: SomeCovers(r[p], o) <==> SomeCovers(lefts[p], o) || |text| <= o < |text| + |more|
    ensures forall o: nat :: o < |text + more| ==> Has(s, o) || Awaited(r, o)
  {
    hide Has, SomeCovers;
    forall o: nat | o < |text + more| && !Has(s, o)
      ensures Awaited(r, o)
    {
      if o < |text| {
        var q :| 0 <= q < |lefts| && SomeCovers(lefts[q], o);
        assert SomeCovers(r[q], o);
      } else {
        assert SomeCovers(r[p], o);
      }
    }
  }

  lemma CarryAscends(left: seq<Frame>, frames: seq<Frame>, text: seq<byte>, more: seq<byte>)
    requires Ascending(left) && AllPieces(left, text) && Carry(frames, RESERVE_OFFSET + |text|, more)
    ensures Ascending(left + frames)
  {
    hide Ascending, Payload, Contiguous;
    ContiguousAscends(frames, RESERVE_OFFSET + |text|);
    AscendingTogether(left, frames, RESERVE_OFFSET + |text|);
  }

  lemma PiecesOfMore(frames: seq<Frame>, text: seq<byte>, more: seq<byte>)
    requires AllPieces(frames, text)
    ensures AllPieces(frames, text + more)
  {
    forall f | f in frames
      ensures PieceOf(f, text + more)
    {
      assert PieceOf(f, text);
    }
  }

  lemma HasBelow(s: Stream, text: seq<byte>)
    requires Matches(s, text)
    ensures forall o: nat :: Has(s, o) ==> o < |text|
  {
  }

  /** A message does not concern the text. */
  lemma MessageOnPath(lefts: seq<seq<Frame>>, p: nat, f: Frame, text: seq<byte>)
    requires AllOnPaths(lefts, text) && p < |lefts| && !IsData(f)
    ensures
      var r := lefts[p := lefts[p] + [f]];
      && AllOnPaths(r, text)
      && (forall o: nat :: SomeCovers(r[p], o) <==> SomeCovers(lefts[p], o))
      && (forall o: nat :: Awaited(r, o) <==> Awaited(lefts, o))
  {
    hide SomeCovers, Covers;
    var r := lefts[p := lefts[p] + [f]];
    forall o: nat
      ensures SomeCovers(r[p], o) <==> SomeCovers(lefts[p], o)
    {
      CoversBoth(lefts[p], [f], o);
      CoversOne(f, o);
      NotCovering(f, o);
    }
    forall o: nat
      ensures Awaited(r, o) <==> Awaited(lefts, o)
    {
      AwaitedSame(lefts, r, o);
    }
  }

  lemma MessageArranges(lefts: seq<seq<Frame>>, p: nat, f: Frame, text: seq<byte>, s: Stream)
    requires Arranged(lefts, text, s) && AllOnPaths(lefts, text) && p < |lefts| && !IsData(f)
    ensures Arranged(lefts[p := lefts[p] + [f]], text, s)
  {
    hide SomeCovers, Has, Covers, Ascending, Awaited;
    MessageOnPath(lefts, p, f, text);
    MessageAscends(lefts[p], f);
  }

  lemma NotCovering(f: Frame, o: nat)
    ensures !IsData(f) ==> !Covers(f, o)
  {
  }

  lemma MessageAscends(left: seq<Frame>, f: Frame)
    requires Ascending(left) && !IsData(f)
    ensures Ascending(left + [f])
  {
  }

  // ---------- delivering ----------

  /** The first frame of a path is received. */
  lemma AdvanceArranges(lefts: seq<seq<Frame>>, p: nat, text: seq<byte>, s: Stream, t: Stream)
    requires Arranged(lefts, text, s) && p < |lefts| && lefts[p] != [] && Gained(s, lefts[p][0], t)
    ensures Arranged(lefts[p := lefts[p][1..]], text, t)
  {
    hide Covers, Ascending, SomeCovers, Has;
    var f, rest := lefts[p][0], lefts[p][1..];
    var r := lefts[p := rest];
    assert lefts[p] == [f] + rest;
    RestAscends(lefts[p]);
    forall o: nat
      ensures SomeCovers(lefts[p], o) <==> Covers(f, o) || SomeCovers(rest, o)
      ensures Covers(f, o) ==> !SomeCovers(rest, o)
    {
      CoversBoth([f], rest, o);
      CoversOne(f, o);
      FirstAlone(lefts[p], o);
    }
    forall q | 0 <= q < |r|
      ensures New(r[q], t)
    {
      assert q != p ==> Apart(lefts[p], lefts[q]);
    }
    AwaitedLess(lefts, r, p, text, s, t);
  }

  lemma AwaitedLess(lefts: seq<seq<Frame>>, r: seq<seq<Frame>>, p: nat, text: seq<byte>, s: Stream, t: Stream)
    requires p < |lefts| && lefts[p] != [] && r == lefts[p := lefts[p][1..]] && Gained(s, lefts[p][0], t)
    requires forall o: nat :: o < |text| ==> Has(s, o) || Awaited(lefts, o)
    requires forall o: nat :: SomeCovers(lefts[p], o) <==> Covers(lefts[p][0], o) || SomeCovers(lefts[p][1..], o)
    ensures forall o: nat :: o < |text| ==> Has(t, o) || Awaited(r, o)
  {
    hide Has, SomeCovers, Covers;
    forall o: nat | o < |text| && !Has(t, o)
      ensures Awaited(r, o)
    {
      var q :| 0 <= q < |lefts| && SomeCovers(lefts[q], o);
      assert SomeCovers(r[q], o);
    }
  }

  lemma RestAscends(frames: seq<Frame>)
    requires Ascending(frames) && frames != []
    ensures Ascending(frames[1..])
  {
  }

  lemma FirstAlone(frames: seq<Frame>, o: nat)
    requires Ascending(frames) && frames != []
    ensures Covers(frames[0], o) ==> !SomeCovers(frames[1..], o)
  {
    forall f | f in frames[1..]
      ensures Covers(frames[0], o) ==> !Covers(f, o)
    {
      var i :| 0 <= i < |frames[1..]| && frames[1..][i] == f;
      assert frames[i + 1] == f;
    }
  }

  /** An offset that has not been received and is not on any path. */
  ghost predicate Lost(lefts: seq<seq<Frame>>, s: Stream, o: nat) {
    !Has(s, o) && !Awaited(lefts, o)
  }

  // ---------- how many intervals ----------

  function DataCount(frames: seq<Frame>): nat {
    if frames == [] then 0 else (if IsData(frames[0]) then 1 else 0) + DataCount(frames[1..])
  }

  /** How many frames of data have not been delivered. */
  function Undelivered(lefts: seq<seq<Frame>>): nat {
    if lefts == [] then 0 else DataCount(lefts[0]) + Undelivered(lefts[1..])
  }

  /** Where the frames of data end. */
  function Ends(frames: seq<Frame>): (ends: set<nat>)
    ensures |ends| <= DataCount(frames)
    ensures forall f :: f in frames && IsData(f) ==> f.offset - RESERVE_OFFSET + |f.data| in ends
  {
    if frames == [] then {}
    else
      Ends(frames[1..]) +
      if IsData(frames[0]) then {frames[0].offset - RESERVE_OFFSET + |frames[0].data|} else {}
  }

  function AllEnds(lefts: seq<seq<Frame>>): (ends: set<nat>)
    ensures |ends| <= Undelivered(lefts)
    ensures forall p :: 0 <= p < |lefts| ==> Ends(lefts[p]) <= ends
  {
    if lefts == [] then {} else Ends(lefts[0]) + AllEnds(lefts[1..])
  }

  /** Behind every gap a frame is missing that ends there, so there is one interval more than such frames at most. */
  lemma CountIsBounded(lefts: seq<seq<Frame>>, text: seq<byte>, s: Stream)
    requires Arranged(lefts, text, s) && Matches(s, text)
    ensures IntervalCount(s) <= Undelivered(lefts) + 1
  {
    hide Undelivered, AllEnds, Ends, Covers, SomeCovers, Ascending, Apart;
    forall o | o in Starts(s) - {0}
      ensures o in AllEnds(lefts)
    {
      StartIsEnd(lefts, text, s, o);
    }
    Smaller(Starts(s) - {0}, AllEnds(lefts));
    if 0 in Starts(s) {
      assert Starts(s) == Starts(s) - {0} + {0};
    } else {
      assert Starts(s) == Starts(s) - {0};
    }
  }

  lemma {:induction false} Smaller(a: set<nat>, b: set<nat>)
    requires a <= b
    ensures |a| <= |b|
  {
    if a != {} {
      var x :| x in a;
      Smaller(a - {x}, b - {x});
    }
  }

  lemma StartIsEnd(lefts: seq<seq<Frame>>, text: seq<byte>, s: Stream, o: nat)
    requires Arranged(lefts, text, s) && Matches(s, text) && o in Starts(s) && o > 0
    ensures o in AllEnds(lefts)
  {
    hide AllEnds, Ends, Apart, Ascending;
    StartsAre(s, o);
    HasBelow(s, text);
    assert Awaited(lefts, o - 1);
    var p :| 0 <= p < |lefts| && SomeCovers(lefts[p], o - 1);
    var f :| f in lefts[p] && Covers(f, o - 1);
    NewAreNotHad(lefts[p], f, s, o);
  }

  lemma NewAreNotHad(frames: seq<Frame>, f: Frame, s: Stream, o: nat)
    requires New(frames, s) && f in frames && Has(s, o)
    ensures !Covers(f, o)
  {
    assert Covers(f, o) ==> SomeCovers(frames, o);
  }

  lemma {:induction false} LessUndelivered(lefts: seq<seq<Frame>>, p: nat)
    requires p < |lefts| && lefts[p] != []
    ensures Undelivered(lefts[p := lefts[p][1..]]) == Undelivered(lefts) - if IsData(lefts[p][0]) then 1 else 0
    decreases |lefts|
  {
    var r := lefts[p := lefts[p][1..]];
    if p == 0 {
      assert r[1..] == lefts[1..];
    } else {
      assert r[1..] == lefts[1..][p - 1 := lefts[1..][p - 1][1..]];
      LessUndelivered(lefts[1..], p - 1);
    }
  }

  /** How many frames have not been delivered, messages included. */
  function FrameCount(lefts: seq<seq<Frame>>): nat {
    if lefts == [] then 0 else |lefts[0]| + FrameCount(lefts[1..])
  }

  lemma {:induction false} LessFrames(lefts: seq<seq<Frame>>, p: nat)
    requires p < |lefts| && lefts[p] != []
    ensures FrameCount(lefts[p := lefts[p][1..]]) == FrameCount(lefts) - 1
    decreases |lefts|
  {
    var r := lefts[p := lefts[p][1..]];
    if p == 0 {
      assert r[1..] == lefts[1..];
    } else {
      assert r[1..] == lefts[1..][p - 1 := lefts[1..][p - 1][1..]];
      LessFrames(lefts[1..], p - 1);
    }
  }

  // ---------- what the sequencer answers ----------

  /** Bounds under which the end of the window does not wrap. */
  predicate Sized(capacity: nat, text: seq<byte>) {
    |text| < VARINT62_LIMIT && capacity < U64_RANGE - VARINT62_LIMIT
  }

  /** A piece of the text that ends within the window is not out of range. */
  lemma PieceInRange(k: Sink, f: Frame, text: seq<byte>)
    requires PieceOf(f, text) && IsData(f) && Sized(k.capacity, text) && k.stream.read <= |text|
    ensures
      var o := f.offset - RESERVE_OFFSET;
      && Cast16(f.data) == f.data != []
      && (OutOfRange(k.stream.read, k.capacity, o, |f.data|) <==> o + |f.data| > k.stream.read + k.capacity)
  {
    hide OutOfRange;
    RangeIsExact(k.stream.read, k.capacity);
    assert Cast16(f.data) == f.data;
  }

  /** There is room for the first frame of every path if the rest of the text fits the window and few frames remain. */
  lemma RoomForFirst(k: Sink, lefts: seq<seq<Frame>>, p: nat, text: seq<byte>)
    requires Arranged(lefts, text, k.stream) && AllOnPaths(lefts, text) && p < |lefts| && lefts[p] != []
    requires Fed(k, text) && IsData(lefts[p][0]) && Sized(k.capacity, text)
    requires |text| <= k.stream.read + k.capacity && Undelivered(lefts) < MAX_INTERVALS
    ensures AnswerTo(k, lefts[p][0]) == NoError
  {
    hide OutOfRange, IntervalCount, NewOffsets, Accept, Undelivered, Cast16, Arranged, Matches, Readable;
    var f := lefts[p][0];
    var t := Accept(k.stream, f.offset - RESERVE_OFFSET, Cast16(f.data));
    assert AllPieces(lefts[p], text);
    assert f in lefts[p];
    AgreesMatches(k, text);
    PieceInRange(k, f, text);
    AcceptMatches(k.stream, f, text);
    AdvanceArranges(lefts, p, text, k.stream, t);
    LessUndelivered(lefts, p);
    CountIsBounded(lefts[p := lefts[p][1..]], text, t);
  }

  lemma AgreesMatches(k: Sink, text: seq<byte>)
    requires Fed(k, text)
    ensures Matches(k.stream, text) && k.stream.read <= |text|
  {
  }

  // ---------- how the number of intervals changes ----------

  /** What waits or was read ends right before the frame, or goes on right behind it. */
  predicate TouchesLeft(f: Frame, s: Stream) {
    f.offset > RESERVE_OFFSET && Has(s, f.offset - RESERVE_OFFSET - 1)
  }

  predicate TouchesRight(f: Frame, s: Stream)
    requires IsData(f)
  {
    Has(s, f.offset - RESERVE_OFFSET + |f.data|)
  }

  /** A new frame makes one interval more, less one for each side on which it touches something. */
  lemma GainedCount(s: Stream, f: Frame, t: Stream, text: seq<byte>)
    requires Matches(s, text) && Matches(t, text) && Gained(s, f, t) && IsData(f) && f.data != []
    requires forall o: nat :: Covers(f, o) ==> !Has(s, o)
    ensures IntervalCount(t) ==
      IntervalCount(s) + 1 - (if TouchesLeft(f, s) then 1 else 0) - (if TouchesRight(f, s) then 1 else 0)
  {
    hide Starts, Has, TouchesLeft, TouchesRight;
    var start, end := f.offset - RESERVE_OFFSET, f.offset - RESERVE_OFFSET + |f.data|;
    var first: set<nat> := if TouchesLeft(f, s) then {} else {start};
    var joined: set<nat> := if TouchesRight(f, s) then {end} else {};
    forall o: nat
      ensures o in Starts(t) <==> o in Starts(s) - joined + first
      ensures o in joined ==> o in Starts(s)
      ensures o in first ==> o !in Starts(s)
    {
      GainedStarts(s, f, t, text, o);
    }
    Exchanged(Starts(s), joined, first, Starts(t));
  }

  lemma Exchanged(a: set<nat>, less: set<nat>, more: set<nat>, b: set<nat>)
    requires less <= a && more !! a && forall o: nat :: o in b <==> o in a - less + more
    ensures |b| == |a| - |less| + |more|
  {
    assert b == a - less + more;
  }

  lemma GainedStarts(s: Stream, f: Frame, t: Stream, text: seq<byte>, o: nat)
    requires Matches(s, text) && Matches(t, text) && Gained(s, f, t) && IsData(f) && f.data != []
    requires forall o: nat :: Covers(f, o) ==> !Has(s, o)
    ensures
      var start, end := f.offset - RESERVE_OFFSET, f.offset - RESERVE_OFFSET + |f.data|;
      && (o in Starts(t) <==>
            (o in Starts(s) && !(o == end && TouchesRight(f, s))) || (o == start && !TouchesLeft(f, s)))
      && (o == end && TouchesRight(f, s) ==> o in Starts(s)) && (o == start ==> o !in Starts(s))
  {
    hide Starts, Has;
    StartsAre(s, o);
    StartsAre(t, o);
    var start, end := f.offset - RESERVE_OFFSET, f.offset - RESERVE_OFFSET + |f.data|;
    assert Covers(f, start) && Covers(f, end - 1);
    assert o > 0 ==> (Has(t, o - 1) <==> Has(s, o - 1) || Covers(f, o - 1));
    assert Has(t, o) <==> Has(s, o) || Covers(f, o);
  }

  // ---------- the frame at the cursor ----------

  /** If something is missing, the frame that starts at the cursor is the first frame of data on its path. */
  lemma CursorFrame(k: Sink, lefts: seq<seq<Frame>>, text: seq<byte>) returns (p: nat)
    requires Arranged(lefts, text, k.stream) && AllOnPaths(lefts, text) && Fed(k, text) && k.stream.read < |text|
    ensures p < |lefts| && lefts[p] != []
    ensures IsData(lefts[p][0]) ==> lefts[p][0].offset == RESERVE_OFFSET + k.stream.read
  {
    hide Readable, Matches, Apart, Within, IntervalCount;
    var s := k.stream;
    AtCursor(s);
    assert Awaited(lefts, s.read);
    var q :| 0 <= q < |lefts| && SomeCovers(lefts[q], s.read);
    p := q;
    var f :| f in lefts[p] && Covers(f, s.read);
    var i :| 0 <= i < |lefts[p]| && lefts[p][i] == f;
    var h := lefts[p][0];
    assert AllPieces(lefts[p], text);
    assert PieceOf(h, text);
    if IsData(h) {
      assert i > 0 ==> h.offset + |h.data| <= f.offset;
      assert Covers(h, h.offset - RESERVE_OFFSET);
      assert SomeCovers(lefts[p], h.offset - RESERVE_OFFSET);
      assert !Has(s, h.offset - RESERVE_OFFSET);
    }
  }

  lemma AtCursor(s: Stream)
    requires Readable(s) == 0
    ensures !Has(s, s.read)
  {
  }

  /**
   The answer to a frame that starts at the cursor and fits the window: it is refused exactly if nothing has been read
   yet, the frame does not touch anything received, and one more interval is too many.
   */
  lemma CursorAnswer(k: Sink, f: Frame, text: seq<byte>)
    requires Fed(k, text) && !k.refused && PieceOf(f, text) && f.offset == RESERVE_OFFSET + k.stream.read
    requires Sized(k.capacity, text) && |f.data| <= k.capacity
    requires forall o: nat :: Covers(f, o) ==> !Has(k.stream, o)
    ensures AnswerTo(k, f) == NoError || AnswerTo(k, f) == TooManyIntervals
    ensures AnswerTo(k, f) == TooManyIntervals <==>
      k.stream.read == 0 && |f.data| !in k.stream.pending && IntervalCount(k.stream) + 1 == MAX_INTERVALS
  {
    hide OutOfRange, IntervalCount, NewOffsets, Accept, Matches, Readable, Cast16;
    AgreesMatches(k, text);
    PieceInRange(k, f, text);
    AcceptMatches(k.stream, f, text);
    GainedCount(k.stream, f, Accept(k.stream, f.offset - RESERVE_OFFSET, Cast16(f.data)), text);
    TouchesAtCursor(k.stream, f, text);
    IsNew(k.stream, f.offset - RESERVE_OFFSET, f.data);
  }

  lemma TouchesAtCursor(s: Stream, f: Frame, text: seq<byte>)
    requires Matches(s, text) && IsData(f) && f.offset == RESERVE_OFFSET + s.read && f.data != []
    ensures TouchesLeft(f, s) <==> s.read > 0
    ensures TouchesRight(f, s) <==> s.read + |f.data| in s.pending
  {
  }

  /** The frame that starts the text ends where something waits already. */
  predicate FirstTouches(lefts: seq<seq<Frame>>, s: Stream) {
    exists p, i :: 0 <= p < |lefts| && 0 <= i < |lefts[p]| && TouchesFirst(lefts[p][i], s)
  }

  predicate TouchesFirst(f: Frame, s: Stream) {
    IsData(f) && f.offset == RESERVE_OFFSET && |f.data| in s.pending
  }

  /** Only one frame that has not been delivered starts the text. */
  lemma FirstIsUnique(lefts: seq<seq<Frame>>, p: nat, text: seq<byte>, s: Stream)
    requires Arranged(lefts, text, s) && AllOnPaths(lefts, text) && p < |lefts| && lefts[p] != []
    requires IsData(lefts[p][0]) && lefts[p][0].offset == RESERVE_OFFSET
    ensures FirstTouches(lefts, s) <==> |lefts[p][0].data| in s.pending
  {
    hide Awaited, New;
    var f := lefts[p][0];
    assert AllPieces(lefts[p], text) && PieceOf(f, text);
    assert Covers(f, 0) && SomeCovers(lefts[p], 0);
    if FirstTouches(lefts, s) {
      var q: nat, i: nat :| q < |lefts| && i < |lefts[q]| && TouchesFirst(lefts[q][i], s);
      var g := lefts[q][i];
      assert AllPieces(lefts[q], text) && PieceOf(g, text);
      assert Covers(g, 0) && SomeCovers(lefts[q], 0);
      assert q != p ==> Apart(lefts[p], lefts[q]);
      assert i > 0 ==> f.offset + |f.data| <= g.offset;
    }
    assert |f.data| in s.pending ==> TouchesFirst(lefts[p][0], s);
  }

  /** A message in front of it does not change that. */
  lemma FirstTouchesStill(lefts: seq<seq<Frame>>, p: nat, s: Stream)
    requires p < |lefts| && lefts[p] != [] && !IsData(lefts[p][0]) && FirstTouches(lefts, s)
    ensures FirstTouches(lefts[p := lefts[p][1..]], s)
  {
    var r := lefts[p := lefts[p][1..]];
    var q: nat, i: nat :| q < |lefts| && i < |lefts[q]| && TouchesFirst(lefts[q][i], s);
    if q == p {
      assert r[p][i - 1] == lefts[p][i];
    } else {
      assert TouchesFirst(r[q][i], s);
    }
  }

  lemma IsNew(s: Stream, o: nat, data: seq<byte>)
    requires data != [] && !Has(s, o)
    ensures NewOffsets(s, o, data) != {}
  {
    assert o in NewOffsets(s, o, data);
  }
}
