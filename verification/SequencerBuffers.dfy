/** The circular receive buffer, after sequencer/quic_stream_sequencer_buffer.cc. */
module SequencerBuffers {
  import opened Words
  import opened Intervals
  import opened IntervalSets
  import opened BlockGeometry
  import opened Streams

  const MAX_INTERVALS := 2 * 5000

  datatype ErrorCode = NoError | EmptyFrameNoFin | BeyondRange | TooManyIntervals | InvalidState

  // ---------- what the interval set says about a stream ----------

  /** The received offsets are those already read and those pending. */
  ghost predicate Indexes(iv: seq<Interval>, s: Stream) {
    Canonical(iv) && (forall o :: o in s.pending ==> s.read <= o)
    && forall o :: Covers(iv, o) <==> 0 <= o && (o < s.read || o in s.pending)
  }

  function FirstMissing(iv: seq<Interval>): int {
    if iv == [] || iv[0].min > 0 then 0 else iv[0].max
  }

  function NextExpected(iv: seq<Interval>): int {
    if iv == [] then 0 else iv[|iv| - 1].max
  }

  predicate NothingPending(iv: seq<Interval>, read: nat) {
    iv == [] || (|iv| == 1 && read > 0 && iv[0].max == read)
  }

  lemma CoversAt(iv: seq<Interval>, k: nat, o: int)
    requires k < |iv| && iv[k].Contains(o)
    ensures Covers(iv, o)
  {
  }

  lemma FirstIntervalHoldsRead(iv: seq<Interval>, s: Stream)
    requires Indexes(iv, s) && s.read > 0
    ensures iv != [] && iv[0].min == 0 && iv[0].max >= s.read
  {
    assert Covers(iv, 0);
    CoversAt(iv, 0, iv[0].min);
    assert !Covers(iv, iv[0].max);
  }

  /** FirstMissingByte is the cursor plus the readable bytes. */
  lemma FirstMissingIs(iv: seq<Interval>, s: Stream)
    requires Indexes(iv, s)
    ensures FirstMissing(iv) == s.read + Readable(s)
  {
    var n := FirstMissing(iv) - s.read;
    if s.read > 0 {
      FirstIntervalHoldsRead(iv, s);
    }
    if iv != [] {
      CoversAt(iv, 0, iv[0].min);
      assert !Covers(iv, iv[0].max);
    }
    assert iv == [] || iv[0].min > 0 ==> !Covers(iv, 0);
    forall o | s.read <= o < s.read + n
      ensures o in s.pending
    {
      CoversAt(iv, 0, o);
    }
    RunIs(s.pending, s.read, n);
  }

  /** Empty decides that nothing is pending; otherwise the last received offset is pending and is the greatest. */
  lemma LastPending(iv: seq<Interval>, s: Stream)
    requires Indexes(iv, s)
    ensures NothingPending(iv, s.read) <==> s.pending == map[]
    ensures !NothingPending(iv, s.read) ==> NextExpected(iv) - 1 in s.pending
    ensures forall o :: o in s.pending ==> o < NextExpected(iv)
    ensures NextExpected(iv) >= s.read
  {
    if s.read > 0 {
      FirstIntervalHoldsRead(iv, s);
    }
    forall o | o in s.pending
      ensures o < NextExpected(iv)
    {
      assert Covers(iv, o);
      var k :| 0 <= k < |iv| && iv[k].Contains(o);
      assert k < |iv| - 1 ==> iv[k].max < iv[|iv| - 1].min;
    }
    if iv != [] {
      var last := |iv| - 1;
      CoversAt(iv, last, iv[last].max - 1);
      if last > 0 {
        assert iv[0].max < iv[last].min;
      }
    }
    if NothingPending(iv, s.read) {
      assert forall o :: o in s.pending ==> NextExpected(iv) <= s.read <= o;
    }
  }

  // ---------- frames as maps ----------

  function OffsetRange(offset: nat, n: nat): (r: set<nat>)
    ensures forall o :: o in r <==> offset <= o < offset + n
    ensures |r| == n
    decreases n
  {
    if n == 0 then {} else {offset} + OffsetRange(offset + 1, n - 1)
  }

  function Placed(offset: nat, data: seq<byte>): map<nat, byte> {
    map o | o in OffsetRange(offset, |data|) :: data[o - offset]
  }

  /** p with the bytes of a frame put over it. */
  function With(p: map<nat, byte>, offset: nat, data: seq<byte>): map<nat, byte> {
    p + Placed(offset, data)
  }

  lemma WithNothing(p: map<nat, byte>, start: nat, data: seq<byte>)
    ensures With(p, start, data[..0]) == p
  {
  }

  lemma WithIs(p: map<nat, byte>, start: nat, data: seq<byte>)
    ensures
      var w := With(p, start, data);
      && (forall o: nat :: o in w <==> o in p || start <= o < start + |data|)
      && (forall o: nat :: start <= o < start + |data| ==> w[o] == data[o - start])
      && (forall o: nat :: o in p && !(start <= o < start + |data|) ==> w[o] == p[o])
  {
  }

  lemma PlacedGrows(p: map<nat, byte>, start: nat, data: seq<byte>, k: nat, n: nat)
    requires k + n <= |data|
    ensures With(With(p, start, data[..k]), start + k, data[k..][..n]) == With(p, start, data[..k + n])
  {
    hide With;
    var first, l := With(p, start, data[..k]), With(With(p, start, data[..k]), start + k, data[k..][..n]);
    var r := With(p, start, data[..k + n]);
    WithIs(p, start, data[..k]);
    WithIs(first, start + k, data[k..][..n]);
    WithIs(p, start, data[..k + n]);
    assert forall o: nat :: o in l <==> o in r;
    forall o: nat | o in l
      ensures l[o] == r[o]
    {
    }
  }

  /** How many of n offsets are in s. */
  ghost function CountIn(s: set<nat>, from: nat, n: nat): nat {
    if n == 0 then 0 else CountIn(s, from, n - 1) + if from + n - 1 in s then 1 else 0
  }

  lemma {:induction false} CountIsSize(s: set<nat>, from: nat, n: nat)
    requires forall o :: o in s ==> from <= o < from + n
    ensures CountIn(s, from, n) == |s|
  {
    if n == 0 {
      assert s == {};
    } else {
      var last := from + n - 1;
      CountIsSize(s - {last}, from, n - 1);
      CountOfFewer(s, last, from, n - 1);
      assert last !in s ==> s - {last} == s;
    }
  }

  lemma {:induction false} CountOfFewer(s: set<nat>, gone: nat, from: nat, n: nat)
    requires from + n <= gone
    ensures CountIn(s - {gone}, from, n) == CountIn(s, from, n)
  {
    if n > 0 {
      CountOfFewer(s, gone, from, n - 1);
    }
  }

  /** The blocks some offset of p maps to. */
  ghost function UsedBlocks(capacity: nat, p: map<nat, byte>): set<nat> {
    set o | o in p && capacity > 0 :: BlockIndex(capacity, o)
  }

  /** The cells of a chunk inside one block are consecutive, and no other offset of the window has any of them. */
  lemma ChunkCells(capacity: nat, read: nat, offset: nat, n: nat)
    requires capacity > 0 && read <= offset && offset + n <= read + capacity
    requires n <= BlockCapacity(capacity, BlockIndex(capacity, offset)) - InBlockOffset(capacity, offset)
    ensures forall o :: offset <= o < offset + n ==>
      BlockIndex(capacity, o) == BlockIndex(capacity, offset)
      && InBlockOffset(capacity, o) == InBlockOffset(capacity, offset) + (o - offset)
    ensures forall o :: read <= o < read + capacity && !(offset <= o < offset + n) ==>
      BlockIndex(capacity, o) != BlockIndex(capacity, offset)
      || InBlockOffset(capacity, o) < InBlockOffset(capacity, offset)
      || InBlockOffset(capacity, o) >= InBlockOffset(capacity, offset) + n
  {
    hide BlockIndex, InBlockOffset, BlockCapacity, BlockCount;
    forall o | offset <= o < offset + n
      ensures BlockIndex(capacity, o) == BlockIndex(capacity, offset)
      ensures InBlockOffset(capacity, o) == InBlockOffset(capacity, offset) + (o - offset)
    {
      Forward(capacity, offset, o - offset);
    }
    forall o | read <= o < read + capacity && !(offset <= o < offset + n)
      ensures BlockIndex(capacity, o) != BlockIndex(capacity, offset)
        || InBlockOffset(capacity, o) < InBlockOffset(capacity, offset)
        || InBlockOffset(capacity, o) >= InBlockOffset(capacity, offset) + n
    {
      var k := InBlockOffset(capacity, o) - InBlockOffset(capacity, offset);
      if 0 <= k < n {
        CellsAreDistinct(capacity, read, o, offset + k);
      }
    }
  }

  lemma IsUsed(capacity: nat, p: map<nat, byte>, o: nat)
    requires capacity > 0 && o in p
    ensures BlockIndex(capacity, o) in UsedBlocks(capacity, p)
  {
  }

  /** The second interval, if there is one, is pending, and so is every gap's far side. */
  lemma SecondInterval(iv: seq<Interval>, s: Stream, o: nat)
    requires Indexes(iv, s) && s.read > 0 && o in s.pending && Readable(s) == 0
    ensures |iv| > 1 && iv[1].min in s.pending && s.read <= iv[1].min <= o
  {
    FirstIntervalHoldsRead(iv, s);
    FirstMissingIs(iv, s);
    assert Covers(iv, o);
    var k :| 0 <= k < |iv| && iv[k].Contains(o);
    assert k >= 1;
    CoversAt(iv, 1, iv[1].min);
  }

  /** The tests of RetireBlockIfEmpty, taken in its order, decide exactly whether a pending byte lies in block b. */
  lemma RetireDecision(iv: seq<Interval>, s: Stream, capacity: nat, b: nat)
    requires Indexes(iv, s) && s.read > 0 && capacity > 0 && b == BlockIndex(capacity, s.read - 1)
    requires forall o :: o in s.pending ==> o < s.read + capacity
    requires Readable(s) == 0 || InBlockOffset(capacity, s.read) == 0
    ensures NothingPending(iv, s.read) ==> b !in UsedBlocks(capacity, s.pending)
    ensures !NothingPending(iv, s.read) ==>
      && NextExpected(iv) > 0
      && (BlockIndex(capacity, NextExpected(iv) - 1) == b ==> b in UsedBlocks(capacity, s.pending))
      && (BlockIndex(capacity, NextExpected(iv) - 1) != b ==>
        && (BlockIndex(capacity, s.read) != b ==> b !in UsedBlocks(capacity, s.pending))
        && (BlockIndex(capacity, s.read) == b ==> |iv| > 1 && iv[1].min >= 0)
        && (BlockIndex(capacity, s.read) == b ==>
          (BlockIndex(capacity, iv[1].min) == b <==> b in UsedBlocks(capacity, s.pending))))
  {
    hide BlockIndex, InBlockOffset, BlockCapacity, BlockCount, Indexes, Readable, NothingPending, NextExpected;
    LastPending(iv, s);
    PendingIsAhead(iv, s);
    if !NothingPending(iv, s.read) {
      var last := NextExpected(iv) - 1;
      IsUsed(capacity, s.pending, last);
      if BlockIndex(capacity, last) != b {
        if BlockIndex(capacity, s.read) == b && InBlockOffset(capacity, s.read) == 0 {
          SingleBlock(capacity, s.read, last);
          assert false;
        }
        forall o | o in s.pending && BlockIndex(capacity, o) == b
          ensures BlockIndex(capacity, s.read) == b && |iv| > 1 && iv[1].min >= 0
            && BlockIndex(capacity, iv[1].min) == b
        {
          OnlyTheRestIsLive(capacity, s.read, o, last);
          SecondInterval(iv, s, o);
        }
        if BlockIndex(capacity, s.read) == b {
          SecondInterval(iv, s, last);
          IsUsed(capacity, s.pending, iv[1].min);
        }
      }
    }
  }

  /** Reading does not change what has been received; it takes n bytes out of the count. */
  lemma ConsumedIndex(iv: seq<Interval>, s: Stream, n: nat)
    requires Indexes(iv, s) && n <= Readable(s)
    ensures Indexes(iv, Consume(s, n)) && |Consume(s, n).pending| == |s.pending| - n
    ensures Readable(Consume(s, n)) == Readable(s) - n
    ensures forall o :: s.read <= o < s.read + n ==> o in s.pending
  {
    hide Canonical, Covers, OffsetRange;
    ConsumeTwice(s, n, 0);
    ConsumedCount(s, n);
  }

  lemma PendingIsAhead(iv: seq<Interval>, s: Stream)
    requires Indexes(iv, s)
    ensures forall o :: o in s.pending ==> s.read <= o
  {
  }

  lemma ConsumedCount(s: Stream, n: nat)
    requires n <= Readable(s) && forall o :: o in s.pending ==> s.read <= o
    ensures |Consume(s, n).pending| == |s.pending| - n
  {
    var s' := Consume(s, n);
    var gone := OffsetRange(s.read, n);
    assert s.pending.Keys == s'.pending.Keys + gone && s'.pending.Keys !! gone;
    assert |s.pending| == |s.pending.Keys| && |s'.pending| == |s'.pending.Keys|;
  }

  /** Reading n bytes of the cursor's block: which blocks stay in use. */
  lemma ConsumedLayout(s: Stream, capacity: nat, available: nat, n: nat)
    requires capacity > 0 && 0 < n <= available && forall o :: o in s.pending ==> s.read <= o
    requires available ==
      Min(Readable(s), BlockCapacity(capacity, BlockIndex(capacity, s.read)) - InBlockOffset(capacity, s.read))
    ensures
      var s' := Consume(s, n);
      var b := BlockIndex(capacity, s.read);
      && b == BlockIndex(capacity, s'.read - 1)
      && (n == available < Readable(s) ==> InBlockOffset(capacity, s'.read) == 0)
      && (forall c :: c in UsedBlocks(capacity, s.pending) && c != b ==> c in UsedBlocks(capacity, s'.pending))
      && (n < available ==> b in UsedBlocks(capacity, s'.pending))
  {
    hide BlockIndex, InBlockOffset, BlockCapacity, BlockCount;
    var b, s' := BlockIndex(capacity, s.read), Consume(s, n);
    forall o | s.read <= o < s.read + n
      ensures BlockIndex(capacity, o) == b
    {
      Forward(capacity, s.read, o - s.read);
    }
    if n < available {
      Forward(capacity, s.read, n);
      assert s'.read in s'.pending;
    } else if n < Readable(s) {
      NextBlock(capacity, s.read);
    }
  }

  // ---------- accepting frames ----------

  /** The range test of OnStreamData, in the wrap-around arithmetic of uint64_t. */
  predicate OutOfRange(read: nat, capacity: nat, offset: nat, size: nat) {
    (offset + size) % U64_RANGE > (read + capacity) % U64_RANGE || (offset + size) % U64_RANGE < offset
  }

  /**
   The test is sound without any assumption on the sizes: what it lets through does not wrap, lies within the
   window, and can only hold new bytes when the end of the window does not wrap either.
   */
  lemma RangeIsSound(read: uint64, capacity: uint64, offset: uint64, size: uint64)
    ensures !OutOfRange(read, capacity, offset, size) ==> offset + size < U64_RANGE && offset + size <= read + capacity
    ensures !OutOfRange(read, capacity, offset, size) && offset + size > read ==> read + capacity < U64_RANGE
  {
  }

  /** The test refuses exactly the nonempty frames that reach beyond the window. */
  predicate RefusesExactly(read: uint64, capacity: uint64) {
    forall offset: uint64, size: uint64 :: 0 < size ==>
      (OutOfRange(read, capacity, offset, size) <==> offset + size > read + capacity)
  }

  /** It is exact if and only if the end of the window does not wrap; otherwise the byte at the cursor is refused. */
  lemma RangeIsExact(read: uint64, capacity: uint64)
    ensures RefusesExactly(read, capacity) <==> read + capacity < U64_RANGE
    ensures read + capacity >= U64_RANGE ==> OutOfRange(read, capacity, read, 1)
  {
    if read + capacity >= U64_RANGE {
      assert OutOfRange(read, capacity, read, 1) && read + 1 <= read + capacity;
    }
  }

  /** What OnStreamData answers to a frame: it depends on what has been read and received, and on nothing else. */
  function Answer(s: Stream, capacity: nat, offset: nat, data: seq<byte>): (code: ErrorCode)
    ensures code != InvalidState
  {
    if data == [] then EmptyFrameNoFin
    else if OutOfRange(s.read, capacity, offset, |data|) then BeyondRange
    else if NewOffsets(s, offset, data) != {} && IntervalCount(Accept(s, offset, data)) >= MAX_INTERVALS then
      TooManyIntervals
    else NoError
  }

  /** If the end of the window does not wrap: what is answered to which frame. */
  lemma AnswerMeans(s: Stream, capacity: nat, offset: nat, data: seq<byte>)
    requires s.read + capacity < U64_RANGE && offset + |data| < U64_RANGE
    ensures
      var code, end := Answer(s, capacity, offset, data), s.read + capacity;
      && (code == EmptyFrameNoFin <==> data == [])
      && (code == BeyondRange <==> data != [] && offset + |data| > end)
      && (code == TooManyIntervals <==>
            && data != [] && offset + |data| <= end && IntervalCount(Accept(s, offset, data)) >= 10000
            && exists o: nat :: offset <= o < offset + |data| && !Has(s, o))
      && (code == NoError || code == EmptyFrameNoFin || code == BeyondRange || code == TooManyIntervals)
  {
    hide IntervalCount, Accept;
    RangeIsExact(s.read, capacity);
    if o: nat :| offset <= o < offset + |data| && !Has(s, o) {
      assert o in NewOffsets(s, offset, data);
    }
    if o :| o in NewOffsets(s, offset, data) {
      assert offset <= o < offset + |data| && !Has(s, o);
    }
  }

  /** The interval set has one interval for each start. */
  lemma CountOfIntervals(iv: seq<Interval>, s: Stream)
    requires Indexes(iv, s)
    ensures |iv| == IntervalCount(s)
  {
    hide Canonical, Covers;
    MinsCount(iv);
    forall o: nat
      ensures o in Starts(s) <==> o in Mins(iv)
    {
      StartIsMin(iv, s, o);
    }
    forall o | o in Mins(iv)
      ensures o >= 0
    {
      MinIsCovered(iv, o);
    }
    assert Starts(s) == Mins(iv);
  }

  function Mins(iv: seq<Interval>): set<int> {
    set v | v in iv :: v.min
  }

  lemma {:induction false} MinsCount(iv: seq<Interval>)
    requires Canonical(iv)
    ensures |Mins(iv)| == |iv|
  {
    hide Canonical, Mins;
    if iv == [] {
      NoMins();
    }
    if iv != [] {
      var n := |iv| - 1;
      SliceIsCanonical(iv, 0, n);
      assert iv[0..n] == iv[..n];
      MinsCount(iv[..n]);
      LastMinIsNew(iv);
    }
  }

  lemma NoMins()
    ensures Mins([]) == {}
  {
  }

  lemma LastMinIsNew(iv: seq<Interval>)
    requires Canonical(iv) && iv != []
    ensures
      var n := |iv| - 1;
      Mins(iv) == Mins(iv[..n]) + {iv[n].min} && iv[n].min !in Mins(iv[..n])
  {
    var n := |iv| - 1;
    assert iv == iv[..n] + [iv[n]];
    assert forall v :: v in iv <==> v in iv[..n] || v == iv[n];
    assert forall i :: 0 <= i < n ==> iv[i].min < iv[i].max < iv[n].min;
  }

  lemma MinIsCovered(iv: seq<Interval>, o: int)
    requires Canonical(iv) && o in Mins(iv)
    ensures Covers(iv, o) && !Covers(iv, o - 1)
  {
    var k :| 0 <= k < |iv| && iv[k].min == o;
    assert iv[k].Contains(o);
    assert forall i :: 0 <= i < k ==> iv[i].max < iv[k].min;
  }

  lemma StartIsMin(iv: seq<Interval>, s: Stream, o: nat)
    requires Indexes(iv, s)
    ensures o in Starts(s) <==> o in Mins(iv)
  {
    if o in Mins(iv) {
      MinIsCovered(iv, o);
    }
    if o in Starts(s) {
      assert Covers(iv, o) && !Covers(iv, o - 1);
      var k :| 0 <= k < |iv| && iv[k].Contains(o);
      assert !iv[k].Contains(o - 1);
      assert iv[k].min == o && iv[k] in iv;
    }
  }

  /** The bytes of a frame at the offsets a set of intervals covers. */
  ghost function DataOn(iv: seq<Interval>, offset: nat, data: seq<byte>): map<nat, byte> {
    map o | o in OffsetRange(offset, |data|) && Covers(iv, o) :: data[o - offset]
  }

  lemma ReceivedSoFar(iv: seq<Interval>, s: Stream)
    requires Indexes(iv, s)
    ensures Canonical(iv)
    ensures forall o :: o >= NextExpected(iv) ==> !Covers(iv, o)
  {
    assert iv != [] ==> forall k :: 0 <= k < |iv| - 1 ==> iv[k].max < iv[|iv| - 1].min;
  }

  /** When no offset of the range has been received, all of the frame is new. */
  lemma AllNew(iv: seq<Interval>, s: Stream, offset: nat, data: seq<byte>)
    requires Indexes(iv, s) && data != []
    requires forall o :: offset <= o < offset + |data| ==> !Covers(iv, o)
    ensures s.read <= offset && NewOffsets(s, offset, data) == OffsetRange(offset, |data|) != {}
    ensures With(s.pending, offset, data) == Accept(s, offset, data).pending
    ensures |Accept(s, offset, data).pending| == |s.pending| + |data|
  {
    assert !Covers(iv, offset);
    assert offset in OffsetRange(offset, |data|);
    AcceptedCount(s, offset, data);
  }

  /** A canonical set of non-empty intervals inside a frame's range and inside the window. */
  ghost predicate IsMissing(missing: seq<Interval>, read: nat, capacity: nat, offset: nat, data: seq<byte>) {
    Canonical(missing) && forall k :: 0 <= k < |missing| ==>
      read <= missing[k].min && offset <= missing[k].min && missing[k].max <= offset + |data| <= read + capacity
  }

  ghost function Plus(p: map<nat, byte>, iv: seq<Interval>, offset: nat, data: seq<byte>): map<nat, byte> {
    p + DataOn(iv, offset, data)
  }

  lemma PlusStart(p: map<nat, byte>, iv: seq<Interval>, offset: nat, data: seq<byte>)
    ensures Plus(p, iv[..0], offset, data) == p && |DataOn(iv[..0], offset, data)| == 0
  {
    assert DataOn(iv[..0], offset, data) == map[];
  }

  lemma PlusEnd(p: map<nat, byte>, iv: seq<Interval>, offset: nat, data: seq<byte>)
    ensures iv[..|iv|] == iv && Plus(p, iv, offset, data) == p + DataOn(iv, offset, data)
  {
  }

  /** Copying one more missing interval adds exactly its offsets. */
  lemma PlusStep(p: map<nat, byte>, missing: seq<Interval>, k: nat, read: nat, capacity: nat, offset: nat,
        data: seq<byte>)
    requires IsMissing(missing, read, capacity, offset, data) && k < |missing|
    ensures read <= missing[k].min && offset <= missing[k].min < missing[k].max <= offset + |data| <= read + capacity
    ensures
      var part := data[missing[k].min - offset..missing[k].max - offset];
      && With(Plus(p, missing[..k], offset, data), missing[k].min, part) == Plus(p, missing[..k + 1], offset, data)
      && |DataOn(missing[..k + 1], offset, data)| == |DataOn(missing[..k], offset, data)| + |part|
  {
    hide Canonical, Covers, With, Plus, DataOn, IsMissing;
    MissingBounds(missing, k, read, capacity, offset, data);
    OneMoreInterval(missing, k);
    DataStep(missing[..k], missing[..k + 1], missing[k], offset, data);
    PlusOne(p, missing[..k], missing[..k + 1], missing[k], offset, data);
  }

  lemma PlusOne(p: map<nat, byte>, iv: seq<Interval>, iv': seq<Interval>, v: Interval, offset: nat, data: seq<byte>)
    requires offset <= v.min < v.max <= offset + |data|
    requires DataOn(iv', offset, data) == With(DataOn(iv, offset, data), v.min, data[v.min - offset..v.max - offset])
    ensures With(Plus(p, iv, offset, data), v.min, data[v.min - offset..v.max - offset]) == Plus(p, iv', offset, data)
  {
    hide Covers, With, DataOn;
    WithTwice(p, DataOn(iv, offset, data), v.min, data[v.min - offset..v.max - offset]);
  }

  lemma MissingBounds(missing: seq<Interval>, k: nat, read: nat, capacity: nat, offset: nat, data: seq<byte>)
    requires IsMissing(missing, read, capacity, offset, data) && k < |missing|
    ensures Canonical(missing)
    ensures read <= missing[k].min && offset <= missing[k].min < missing[k].max <= offset + |data| <= read + capacity
  {
  }

  lemma WithTwice(p: map<nat, byte>, q: map<nat, byte>, offset: nat, data: seq<byte>)
    ensures With(p + q, offset, data) == p + With(q, offset, data)
  {
    hide Placed;
  }

  lemma DataStep(iv: seq<Interval>, iv': seq<Interval>, v: Interval, offset: nat, data: seq<byte>)
    requires offset <= v.min < v.max <= offset + |data|
    requires forall o :: Covers(iv', o) <==> Covers(iv, o) || v.Contains(o)
    requires forall o :: v.Contains(o) ==> !Covers(iv, o)
    ensures DataOn(iv', offset, data) == With(DataOn(iv, offset, data), v.min, data[v.min - offset..v.max - offset])
    ensures |DataOn(iv', offset, data)| == |DataOn(iv, offset, data)| + (v.max - v.min)
  {
    hide Covers, OffsetRange;
    var before, after := DataOn(iv, offset, data), DataOn(iv', offset, data);
    var here := OffsetRange(v.min, v.max - v.min);
    forall o: nat
      ensures o in after <==> o in before || o in here
      ensures !(o in before && o in here)
    {
      assert Covers(iv', o) <==> Covers(iv, o) || v.Contains(o);
    }
    DisjointKeys(before, after, here);
    DataWith(before, after, v, offset, data);
  }

  lemma DataWith(before: map<nat, byte>, after: map<nat, byte>, v: Interval, offset: nat, data: seq<byte>)
    requires offset <= v.min < v.max <= offset + |data|
    requires forall o: nat :: o in after <==> o in before || v.min <= o < v.max
    requires forall o: nat :: o in before ==> offset <= o < offset + |data| && before[o] == data[o - offset]
    requires forall o: nat :: o in after ==> offset <= o < offset + |data| && after[o] == data[o - offset]
    ensures after == With(before, v.min, data[v.min - offset..v.max - offset])
  {
    var part := data[v.min - offset..v.max - offset];
    var r := With(before, v.min, part);
    forall o: nat
      ensures o in after <==> o in r
      ensures o in after && o in r ==> after[o] == r[o]
    {
      assert v.min <= o < v.max ==> part[o - v.min] == data[o - offset];
    }
  }

  lemma DisjointKeys(before: map<nat, byte>, after: map<nat, byte>, here: set<nat>)
    requires forall o: nat :: o in after <==> o in before || o in here
    requires forall o: nat :: !(o in before && o in here)
    ensures |after| == |before| + |here|
  {
    assert after.Keys == before.Keys + here && before.Keys !! here;
    assert |after| == |after.Keys| && |before| == |before.Keys|;
  }

  lemma OneMoreInterval(missing: seq<Interval>, k: nat)
    requires Canonical(missing) && k < |missing|
    ensures forall o :: Covers(missing[..k + 1], o) <==> Covers(missing[..k], o) || missing[k].Contains(o)
    ensures forall o :: missing[k].Contains(o) ==> !Covers(missing[..k], o)
  {
    forall o
      ensures Covers(missing[..k + 1], o) <==> Covers(missing[..k], o) || missing[k].Contains(o)
      ensures missing[k].Contains(o) ==> !Covers(missing[..k], o)
    {
      assert missing[..k + 1] == missing[..k] + [missing[k]];
      CoversConcat(missing[..k], [missing[k]], o);
      CoversOne(missing[k], o);
    }
  }

  /** What the difference leaves of a frame's range is exactly its new offsets. */
  lemma MissingIsNew(iv: seq<Interval>, missing: seq<Interval>, s: Stream, offset: nat, data: seq<byte>)
    requires Indexes(iv, s) && Canonical(missing)
    requires forall o :: Covers(missing, o) <==> offset <= o < offset + |data| && !Covers(iv, o)
    ensures DataOn(missing, offset, data).Keys == NewOffsets(s, offset, data)
    ensures s.pending + DataOn(missing, offset, data) == Accept(s, offset, data).pending
    ensures missing == [] ==> NewOffsets(s, offset, data) == {} && Accept(s, offset, data) == s
    ensures missing != [] ==> NewOffsets(s, offset, data) != {} && offset + |data| > s.read
    ensures forall k :: 0 <= k < |missing| ==>
      s.read <= missing[k].min && offset <= missing[k].min && missing[k].max <= offset + |data|
  {
    hide Canonical, Covers, OffsetRange;
    MissingInside(iv, missing, s, offset, data);
    assert DataOn(missing, offset, data).Keys == NewOffsets(s, offset, data);
    if missing == [] {
      NothingCovers();
      assert NewOffsets(s, offset, data) == {};
    }
  }

  lemma MissingFits(missing: seq<Interval>, read: nat, capacity: nat, offset: nat, data: seq<byte>)
    requires Canonical(missing) && offset + |data| <= read + capacity
    requires forall k :: 0 <= k < |missing| ==>
      read <= missing[k].min && offset <= missing[k].min && missing[k].max <= offset + |data|
    ensures IsMissing(missing, read, capacity, offset, data)
  {
  }

  lemma MissingInside(iv: seq<Interval>, missing: seq<Interval>, s: Stream, offset: nat, data: seq<byte>)
    requires Indexes(iv, s) && Canonical(missing)
    requires forall o :: Covers(missing, o) <==> offset <= o < offset + |data| && !Covers(iv, o)
    ensures forall k :: 0 <= k < |missing| ==>
      s.read <= missing[k].min && offset <= missing[k].min && missing[k].max <= offset + |data|
    ensures missing != [] ==> missing[0].min in NewOffsets(s, offset, data)
  {
    forall k | 0 <= k < |missing|
      ensures s.read <= missing[k].min && offset <= missing[k].min && missing[k].max <= offset + |data|
      ensures missing[k].min in NewOffsets(s, offset, data)
    {
      CoversAt(missing, k, missing[k].min);
      CoversAt(missing, k, missing[k].max - 1);
    }
  }

  lemma KeysCount(m: map<nat, byte>)
    ensures |m| == |m.Keys|
  {
  }

  lemma AcceptKeepsRead(s: Stream, offset: nat, data: seq<byte>)
    ensures Accept(s, offset, data) == Stream(s.read, Accept(s, offset, data).pending)
  {
  }

  lemma AcceptedCount(s: Stream, offset: nat, data: seq<byte>)
    ensures |Accept(s, offset, data).pending| == |s.pending| + |NewOffsets(s, offset, data)|
  {
    var t := Accept(s, offset, data).pending;
    assert t.Keys == s.pending.Keys + NewOffsets(s, offset, data);
    assert |t| == |t.Keys| && |s.pending| == |s.pending.Keys|;
  }

  /** The index after a frame is the index of the stream after the frame. */
  lemma AcceptedIndex(iv: seq<Interval>, iv': seq<Interval>, s: Stream, offset: nat, data: seq<byte>)
    requires Indexes(iv, s) && Canonical(iv')
    requires forall o :: Covers(iv', o) <==> Covers(iv, o) || offset <= o < offset + |data|
    ensures Indexes(iv', Accept(s, offset, data))
  {
  }

  /** A frame in range that brings something new is refused exactly if the enlarged interval set is too large. */
  lemma AnswerIs(iv: seq<Interval>, iv': seq<Interval>, s: Stream, capacity: nat, offset: nat, data: seq<byte>)
    requires Indexes(iv, s) && Canonical(iv') && data != [] && NewOffsets(s, offset, data) != {}
    requires forall o :: Covers(iv', o) <==> Covers(iv, o) || offset <= o < offset + |data|
    requires !OutOfRange(s.read, capacity, offset, |data|)
    ensures Answer(s, capacity, offset, data) == if |iv'| >= MAX_INTERVALS then TooManyIntervals else NoError
  {
    hide Indexes, Canonical, Covers, NewOffsets, Accept, OutOfRange;
    AcceptedIndex(iv, iv', s, offset, data);
    CountOfIntervals(iv', Accept(s, offset, data));
  }

  lemma NothingNewIsFine(s: Stream, capacity: nat, offset: nat, data: seq<byte>)
    requires data != [] && NewOffsets(s, offset, data) == {} && !OutOfRange(s.read, capacity, offset, |data|)
    ensures Answer(s, capacity, offset, data) == NoError
  {
  }

  lemma FrontNothing(s: Stream)
    ensures Front(s, 0) == []
  {
  }

  // ---------- scattered reads ----------

  /** Where buffer j starts in the concatenation of all buffers. */
  function LengthsBefore(dest: seq<array<byte>>, j: nat): nat
    requires j <= |dest|
  {
    if j == 0 then 0 else LengthsBefore(dest, j - 1) + dest[j - 1].Length
  }

  lemma {:induction false} LengthsGrow(dest: seq<array<byte>>, i: nat, j: nat)
    requires i <= j <= |dest|
    ensures LengthsBefore(dest, i) <= LengthsBefore(dest, j)
    ensures i < j ==> LengthsBefore(dest, i) + dest[i].Length <= LengthsBefore(dest, j)
  {
    if i < j {
      LengthsGrow(dest, i, j - 1);
    }
  }

  /** A buffer that starts at place at of the source and held was: its share of the source, then what it held. */
  function Filled(source: seq<byte>, at: nat, was: seq<byte>): seq<byte> {
    if at >= |source| then was
    else
      var n := Min(|was|, |source| - at);
      source[at..at + n] + was[n..]
  }

  lemma FilledStays(s: Stream, m: nat, n: nat, at: nat, was: seq<byte>)
    requires m + n <= Readable(s) && at + |was| <= m
    ensures Filled(Front(s, m), at, was) == Filled(Front(s, m + n), at, was)
  {
    assert at < m ==> Front(s, m)[at..at + |was|] == Front(s, m + n)[at..at + |was|];
    assert at == m ==> was == [];
  }

  lemma FilledLast(s: Stream, m: nat, n: nat, was: seq<byte>)
    requires m + n <= Readable(s) && n <= |was|
    requires n == |was| || m + n == Readable(s)
    ensures Readable(Consume(s, m)) >= n
    ensures Filled(Front(s, m + n), m, was) == Front(Consume(s, m), n) + was[n..]
  {
    hide Readable, Front, Consume;
    ConsumeTwice(s, m, n);
    if n > 0 {
      assert Front(s, m + n)[m..m + n] == Front(Consume(s, m), n);
    }
  }

  lemma FilledNone(s: Stream, m: nat, at: nat, was: seq<byte>)
    requires m <= Readable(s) && m <= at
    ensures Filled(Front(s, m), at, was) == was
  {
  }

  ghost predicate SeparateBuffers(dest: seq<array<byte>>) {
    forall i, j :: 0 <= i < j < |dest| ==> dest[i] != dest[j]
  }

  ghost function Contents(dest: seq<array<byte>>): (r: seq<seq<byte>>)
    reads set d | d in dest
    ensures |r| == |dest| && forall j :: 0 <= j < |dest| ==> r[j] == dest[j][..]
  {
    if dest == [] then [] else Contents(dest[..|dest| - 1]) + [dest[|dest| - 1][..]]
  }

  /** The buffers once the first i of them have been given their share of the source. */
  ghost function Scattered(source: seq<byte>, dest: seq<array<byte>>, i: nat, was: seq<seq<byte>>): (r: seq<seq<byte>>)
    requires i <= |dest| == |was|
  {
    seq(|was|, j requires 0 <= j < |was| => if j < i then Filled(source, LengthsBefore(dest, j), was[j]) else was[j])
  }

  /** One buffer of the right length receives exactly the source. */
  lemma OneBufferGetsAll(source: seq<byte>, dest: array<byte>, was: seq<seq<byte>>)
    requires |was| == 1 && |was[0]| == dest.Length == |source|
    ensures Scattered(source, [dest], 1, was) == [source] && LengthsBefore([dest], 1) == dest.Length
  {
    assert LengthsBefore([dest], 0) == 0;
    assert LengthsBefore([dest], 1) == LengthsBefore([dest], 0) + [dest][0].Length;
    assert Filled(source, 0, was[0]) == source;
  }

  lemma ScatterStart(s: Stream, dest: seq<array<byte>>, was: seq<seq<byte>>)
    requires |dest| == |was|
    ensures Scattered(Front(s, 0), dest, 0, was) == was && LengthsBefore(dest, 0) == 0
  {
  }

  lemma ScatterStep(s: Stream, dest: seq<array<byte>>, i: nat, was: seq<seq<byte>>, m: nat, n: nat)
    requires i < |dest| == |was| && (forall j :: 0 <= j < |dest| ==> |was[j]| == dest[j].Length)
    requires m < Readable(s) && m == LengthsBefore(dest, i) && n == Min(dest[i].Length, Readable(s) - m)
    requires Readable(Consume(s, m)) >= n
    ensures m + n == Min(LengthsBefore(dest, i + 1), Readable(s))
    ensures Scattered(Front(s, m), dest, i, was)[i := Front(Consume(s, m), n) + was[i][n..]]
         == Scattered(Front(s, m + n), dest, i + 1, was)
    ensures Scattered(Front(s, m), dest, i, was)[i] == was[i]
  {
    hide Readable, Front, Consume, Filled;
    forall j | 0 <= j < i
      ensures Filled(Front(s, m), LengthsBefore(dest, j), was[j]) ==
        Filled(Front(s, m + n), LengthsBefore(dest, j), was[j])
    {
      LengthsGrow(dest, j, i);
      FilledStays(s, m, n, LengthsBefore(dest, j), was[j]);
    }
    FilledLast(s, m, n, was[i]);
  }

  lemma ScatterEnd(s: Stream, dest: seq<array<byte>>, i: nat, was: seq<seq<byte>>, m: nat)
    requires i <= |dest| == |was| && m <= Readable(s) && m == Min(LengthsBefore(dest, i), Readable(s))
    requires i == |dest| || m == Readable(s)
    ensures Scattered(Front(s, m), dest, i, was) == Scattered(Front(s, m), dest, |dest|, was)
    ensures m == Min(LengthsBefore(dest, |dest|), Readable(s))
  {
    hide Readable, Front, Consume, Filled;
    forall j | i <= j < |dest|
      ensures Filled(Front(s, m), LengthsBefore(dest, j), was[j]) == was[j]
    {
      LengthsGrow(dest, i, j);
      FilledNone(s, m, LengthsBefore(dest, j), was[j]);
    }
    LengthsGrow(dest, i, |dest|);
  }

  lemma FrontOfFront(s: Stream, n: nat)
    requires n <= Readable(s)
    ensures Front(s, Readable(s))[0..n] == Front(s, n)
  {
  }

  // ---------- regions ----------

  /** An iovec that points into a block. */
  datatype Region = Region(base: array<byte>, start: nat, len: nat) {
    predicate Inside() {
      start + len <= base.Length
    }
  }

  /** How many bytes some regions have. */
  function RegionBytes(regions: seq<Region>): nat {
    if regions == [] then 0 else RegionBytes(regions[..|regions| - 1]) + regions[|regions| - 1].len
  }

  /** Read from an offset on, each region goes on to the end of its block, or to the last readable byte. */
  predicate GoesToTheEnd(capacity: nat, read: nat, readable: nat, regions: seq<Region>)
    requires capacity > 0
  {
    regions != [] ==>
      && GoesToTheEnd(capacity, read, readable, regions[..|regions| - 1])
      && (RegionBytes(regions) == readable || InBlockOffset(capacity, read + RegionBytes(regions)) == 0)
  }

  lemma OneMoreRegion(capacity: nat, read: nat, readable: nat, regions: seq<Region>, r: Region)
    requires capacity > 0 && GoesToTheEnd(capacity, read, readable, regions)
    requires
      var n := RegionBytes(regions) + r.len;
      n == readable || InBlockOffset(capacity, read + n) == 0
    ensures GoesToTheEnd(capacity, read, readable, regions + [r])
    ensures RegionBytes(regions + [r]) == RegionBytes(regions) + r.len
  {
    hide InBlockOffset;
    var all := regions + [r];
    assert all[..|all| - 1] == regions;
  }

  lemma NoRegionYet(capacity: nat, read: nat, readable: nat)
    requires capacity > 0
    ensures GoesToTheEnd(capacity, read, readable, []) && RegionBytes([]) == 0
  {
  }

  /** The bytes the regions point at, one after the other. */
  ghost function Text(regions: seq<Region>): seq<byte>
    requires forall r :: r in regions ==> r.Inside()
    reads set r | r in regions :: r.base
  {
    if regions == [] then []
    else
      var last := regions[|regions| - 1];
      assert last.Inside();
      Text(regions[..|regions| - 1]) + last.base[last.start..last.start + last.len]
  }

  lemma TextOfNone()
    ensures Text([]) == []
  {
  }

  lemma TextGrows(all: seq<byte>, regions: seq<Region>, base: array<byte>, start: nat, len: nat)
    requires forall r :: r in regions ==> r.Inside()
    requires start + len <= base.Length && |Text(regions)| + len <= |all|
    requires Text(regions) == all[..|Text(regions)|]
    requires base[start..start + len] == all[|Text(regions)|..|Text(regions)| + len]
    ensures
      var grown := regions + [Region(base, start, len)];
      (forall r :: r in grown ==> r.Inside()) && Text(grown) == all[..|Text(regions)| + len]
  {
    var grown := regions + [Region(base, start, len)];
    assert grown[..|grown| - 1] == regions;
  }

  /** From an offset to a later one less than a lap away: inside one block, or beyond the end of the block. */
  lemma RunToEnd(capacity: nat, from: nat, end: nat)
    requires capacity > 0 && from <= end < from + capacity
    ensures
      var b, c := BlockIndex(capacity, from), BlockIndex(capacity, end);
      var p, q := InBlockOffset(capacity, from), InBlockOffset(capacity, end);
      && (b == c && p <= q ==> end - from == q - p)
      && (b != c || p > q ==> end - from >= BlockCapacity(capacity, b) - p)
  {
    hide BlockIndex, InBlockOffset, BlockCapacity, BlockCount;
    var b := BlockIndex(capacity, from);
    CellExists(capacity, from);
    if b == BlockIndex(capacity, end) {
      SameBlockGap(capacity, from, end);
    } else if end - from < BlockCapacity(capacity, b) - InBlockOffset(capacity, from) {
      Forward(capacity, from, end - from);
    }
  }

  lemma RingSteps(start: nat, end: nat, n: nat)
    requires start < n && end < n
    ensures
      var steps := if end > start then end - start else end + n - start;
      1 <= steps <= n && RingAt(start, steps, n) == end && RingAt(start, 1, n) < n
  {
    if end <= start {
      ModIs(end + n, n, 1, end);
    } else {
      ModIs(end, n, 0, end);
    }
    if start + 1 == n {
      ModIs(n, n, 1, 0);
    } else {
      ModIs(start + 1, n, 0, start + 1);
    }
  }

  lemma StepAround(start: nat, k: nat, n: nat)
    requires n > 0
    ensures RingAt(RingAt(start, k, n), 1, n) == RingAt(start, k + 1, n) < n
  {
    var q, r := (start + k) / n, (start + k) % n;
    Euclid(start + k, n);
    StepIsModulo(r, n);
    if r + 1 == n {
      assert (q + 1) * n == q * n + n;
      ModIs(start + k + 1, n, q + 1, 0);
    } else {
      ModIs(start + k + 1, n, q, r + 1);
    }
  }

  // ---------- PeekRegion ----------

  datatype Region? = NoRegion | SomeRegion(base: array<byte>, start: nat, len: nat)

  /** The length PeekRegion reports, in the wrap-around arithmetic of size_t. */
  function PeekLength(capacity: nat, offset: nat, missing: nat): nat
    requires capacity > 0
  {
    CellExists(capacity, offset);
    CellExists(capacity, missing);
    if BlockIndex(capacity, offset) == BlockIndex(capacity, missing) then
      Sub64(InBlockOffset(capacity, missing), InBlockOffset(capacity, offset))
    else
      BlockCapacity(capacity, BlockIndex(capacity, offset)) - InBlockOffset(capacity, offset)
  }

  /** The first missing byte is in another block, or further on in the same one. */
  predicate PeekGuard(capacity: nat, offset: nat, missing: nat)
    requires capacity > 0
  {
    BlockIndex(capacity, offset) != BlockIndex(capacity, missing)
    || InBlockOffset(capacity, offset) < InBlockOffset(capacity, missing)
  }

  /** The length is that of the readable rest of the block exactly under that guard. */
  lemma PeekIsExact(capacity: nat, read: nat, offset: nat, missing: nat)
    requires 0 < capacity && read <= offset < missing <= read + capacity
    ensures
      var rest := BlockCapacity(capacity, BlockIndex(capacity, offset)) - InBlockOffset(capacity, offset);
      PeekLength(capacity, offset, missing) == Min(missing - offset, rest) <==> PeekGuard(capacity, offset, missing)
    ensures PeekGuard(capacity, offset, missing) ==> PeekLength(capacity, offset, missing) > 0
  {
    hide BlockIndex, InBlockOffset, BlockCapacity, BlockCount;
    CellExists(capacity, offset);
    CellExists(capacity, missing);
    if missing < offset + capacity {
      RunToEnd(capacity, offset, missing);
    } else {
      OneLapOn(capacity, offset);
    }
  }

  lemma OneLapOn(capacity: nat, offset: nat)
    requires capacity > 0
    ensures BlockIndex(capacity, offset + capacity) == BlockIndex(capacity, offset)
    ensures InBlockOffset(capacity, offset + capacity) == InBlockOffset(capacity, offset)
  {
    Euclid(offset, capacity);
    assert (offset / capacity + 1) * capacity == offset / capacity * capacity + capacity;
    ModIs(offset + capacity, capacity, offset / capacity + 1, offset % capacity);
  }

  const RECEIVE_WINDOW := 64 * 1024 * 1024

  /** What is reported for a full buffer that was read up to offset 100 and filled up again. */
  lemma PeekOnAFullWindow()
    ensures PeekLength(RECEIVE_WINDOW, 100, RECEIVE_WINDOW + 100) == 0
    ensures PeekLength(RECEIVE_WINDOW, 200, RECEIVE_WINDOW + 100) == U64_RANGE - 100
  {
    assert 100 % RECEIVE_WINDOW == (RECEIVE_WINDOW + 100) % RECEIVE_WINDOW == 100 && 200 % RECEIVE_WINDOW == 200;
  }

  /** Everything from the cursor up to an end is waiting, and nothing else. */
  ghost predicate FilledTo(s: Stream, end: nat) {
    s.read <= end && forall o: nat :: o in s.pending <==> s.read <= o < end
  }

  lemma FilledIsReadable(s: Stream, end: nat)
    requires FilledTo(s, end)
    ensures Readable(s) == end - s.read
    ensures IntervalCount(s) <= 1
    ensures forall n :: 0 <= n <= end - s.read ==> FilledTo(Consume(s, n), end) && Consume(s, n).read == s.read + n
  {
    RunIs(s.pending, s.read, end - s.read);
    forall o | o in Starts(s)
      ensures o == 0
    {
      StartsAre(s, o);
    }
    assert Starts(s) == {} || Starts(s) == {0};
  }

  lemma NothingFilled()
    ensures FilledTo(Stream(0, map[]), 0)
  {
  }

  /** Filling goes on behind what is waiting, as far as the window reaches. */
  lemma FillingIsFine(s: Stream, capacity: nat, end: nat, data: seq<byte>)
    requires FilledTo(s, end) && data != [] && end + |data| <= s.read + capacity < U64_RANGE
    ensures FilledTo(Accept(s, end, data), end + |data|) && Answer(s, capacity, end, data) == NoError
    ensures Accept(s, end, data).read == s.read
  {
    hide IntervalCount;
    FilledIsReadable(Accept(s, end, data), end + |data|);
  }

  class SequencerBuffer {
    const capacity: nat
    const maxBlocks: nat
    var totalBytesRead: nat
    var blocks: array?<array?<byte>>
    var numBytesBuffered: nat
    const bytesReceived: IntervalSet
    /** The bytes received and not read, by offset. */
    ghost var pending: map<nat, byte>
    /** The arrays that make up the blocks. */
    ghost var storage: set<object>

    ghost function Repr(): set<object>
      reads this
    {
      {this, bytesReceived} + storage
    }

    /** The block array has one slot per block, and the blocks are separate. */
    ghost predicate Store()
      reads this`blocks, this`storage, storage
    {
      && maxBlocks == BlockCount(capacity) && capacity < U64_RANGE && bytesReceived !in storage && this !in storage
      && (blocks != null ==>
        && blocks in storage && blocks.Length == maxBlocks
        && (forall b :: 0 <= b < maxBlocks && blocks[b] != null ==>
              blocks[b] in storage && blocks[b].Length == BLOCK_SIZE)
        && (forall b, c :: 0 <= b < c < maxBlocks && blocks[b] != null ==> blocks[b] != blocks[c]))
    }

    /** The byte v is in the cell of offset o. */
    ghost predicate Cell(o: nat, v: byte)
      requires Store() && capacity > 0
      reads this`blocks, this`storage, storage
    {
      CellExists(capacity, o);
      blocks != null && blocks[BlockIndex(capacity, o)] != null
      && blocks[BlockIndex(capacity, o)][InBlockOffset(capacity, o)] == v
    }

    /** Every byte of p is in its cell. */
    ghost predicate Stored(p: map<nat, byte>)
      reads this`blocks, this`storage, this`totalBytesRead, storage
    {
      Store() && forall o :: o in p ==> totalBytesRead <= o < totalBytesRead + capacity && Cell(o, p[o])
    }

    /** No block is kept, apart from the exempt one, unless some offset of p maps to it. */
    ghost predicate Tight(p: map<nat, byte>, exempt: int)
      requires Store()
      reads this`blocks, this`storage, storage
    {
      forall b :: blocks != null && 0 <= b < maxBlocks && b != exempt && blocks[b] != null ==>
        b in UsedBlocks(capacity, p)
    }

    ghost function State(): Stream
      reads this
    {
      Stream(totalBytesRead, pending)
    }

    ghost predicate Valid()
      reads this, storage, bytesReceived
    {
      Stored(pending) && Tight(pending, -1) && Indexes(bytesReceived.intervals, State())
      && numBytesBuffered == CountIn(pending.Keys, totalBytesRead, capacity)
      && totalBytesRead < U64_RANGE && (forall o :: o in pending ==> o + 1 < U64_RANGE)
    }

    constructor (maxCapacityBytes: nat)
      requires maxCapacityBytes < U64_RANGE
      ensures Valid() && State() == Stream(0, map[]) && capacity == maxCapacityBytes && fresh(Repr())
    {
      capacity := maxCapacityBytes;
      maxBlocks := BlockCount(maxCapacityBytes);
      totalBytesRead := 0;
      blocks := null;
      numBytesBuffered := 0;
      bytesReceived := new IntervalSet();
      pending, storage := map[], {};
      new;
      NothingCovers();
      PendingCount();
    }

    /** Allocates the block array and the block if they are missing. */
    method EnsureBlock(block: nat, ghost p: map<nat, byte>)
      requires Stored(p) && Tight(p, -1) && block < maxBlocks
      modifies this`blocks, this`storage, storage
      ensures Stored(p) && Tight(p, block) && blocks != null && blocks[block] != null
      ensures fresh(storage - old(storage))
    {
      hide BlockIndex, InBlockOffset, BlockCapacity, BlockCount, UsedBlocks;
      if blocks == null {
        blocks := new array?<byte>[maxBlocks](_ => null);
        storage := storage + {blocks};
      }
      if blocks[block] == null {
        var bufferBlock := new byte[BLOCK_SIZE];
        blocks[block] := bufferBlock;
        storage := storage + {bufferBlock};
      }
      forall o | o in p
        ensures Cell(o, p[o])
      {
        CellExists(capacity, o);
        assert old(Cell(o, p[o]));
      }
    }

    /** memcpy of a chunk that fits the rest of one block. */
    method WriteChunk(block: nat, place: nat, offset: nat, chunk: seq<byte>, ghost p: map<nat, byte>)
      requires Stored(p) && Tight(p, block) && block < maxBlocks && blocks != null && blocks[block] != null
      requires totalBytesRead <= offset && offset + |chunk| <= totalBytesRead + capacity && 0 < |chunk|
      requires block == BlockIndex(capacity, offset) && place == InBlockOffset(capacity, offset)
      requires |chunk| <= BlockCapacity(capacity, block) - place
      modifies blocks[block]
      ensures Stored(With(p, offset, chunk)) && Tight(With(p, offset, chunk), -1)
    {
      hide BlockIndex, InBlockOffset, BlockCapacity, BlockCount;
      CellExists(capacity, offset);
      var buffer := blocks[block];
      ChunkCells(capacity, totalBytesRead, offset, |chunk|);
      forall i | 0 <= i < |chunk| {
        buffer[place + i] := chunk[i];
      }
      ghost var q := With(p, offset, chunk);
      forall o | o in q
        ensures totalBytesRead <= o < totalBytesRead + capacity && Cell(o, q[o])
      {
        CellExists(capacity, o);
        assert o in p && !(offset <= o < offset + |chunk|) ==> old(Cell(o, p[o]));
        if offset <= o < offset + |chunk| {
          assert buffer[InBlockOffset(capacity, o)] == chunk[o - offset];
        }
      }
      assert offset in q && block in UsedBlocks(capacity, q);
      assert UsedBlocks(capacity, p) <= UsedBlocks(capacity, q);
    }

    /** Copies as much of data as fits the block of offset; the clamp at the end of the window never takes effect. */
    method CopyToOneBlock(offset: nat, data: seq<byte>, ghost p: map<nat, byte>) returns (ok: bool, n: nat)
      requires Stored(p) && Tight(p, -1) && totalBytesRead + capacity < U64_RANGE
      requires totalBytesRead <= offset && offset + |data| <= totalBytesRead + capacity && data != []
      modifies this`blocks, this`storage, storage
      ensures ok && 0 < n <= |data| && Store() && this !in storage && bytesReceived !in storage
      ensures Stored(With(p, offset, data[..n])) && Tight(With(p, offset, data[..n]), -1)
      ensures fresh(storage - old(storage))
    {
      hide BlockIndex, InBlockOffset, BlockCapacity, BlockCount, UsedBlocks, With, Cell;
      var block, place := BlockIndex(capacity, offset), InBlockOffset(capacity, offset);
      CellExists(capacity, offset);
      var avail := BlockCapacity(capacity, block) - place;
      if Add64(offset, avail) > Add64(totalBytesRead, capacity) {
        avail := Sub64(Add64(totalBytesRead, capacity), offset);
      }
      ok, n := false, 0;
      if block >= maxBlocks {
        return;
      }
      EnsureBlock(block, p);
      n := Min(avail, |data|);
      WriteChunk(block, place, offset, data[..n], p);
      ok := true;
    }

    /** Copies data into blocks, block by block, allocating the missing ones. */
    method CopyStreamData(start: nat, data: seq<byte>, ghost p: map<nat, byte>) returns (ok: bool, copied: nat)
      requires Stored(p) && Tight(p, -1) && totalBytesRead + capacity < U64_RANGE
      requires totalBytesRead <= start && start + |data| <= totalBytesRead + capacity
      modifies this`blocks, this`storage, storage
      ensures ok && copied == |data| && Store() && this !in storage && bytesReceived !in storage
      ensures Stored(With(p, start, data)) && Tight(With(p, start, data), -1)
      ensures fresh(storage - old(storage))
    {
      hide Store, Stored, Tight, With;
      copied := 0;
      StoredIsStore(p);
      WithNothing(p, start, data);
      while copied < |data|
        invariant 0 <= copied <= |data|
        invariant Store() && this !in storage && bytesReceived !in storage
        invariant Stored(With(p, start, data[..copied])) && Tight(With(p, start, data[..copied]), -1)
        invariant fresh(storage - old(storage))
        decreases |data| - copied
      {
        ghost var q := With(p, start, data[..copied]);
        var n;
        ok, n := CopyToOneBlock(start + copied, data[copied..], q);
        PlacedGrows(p, start, data, copied, n);
        if !ok {
          return;
        }
        copied := copied + n;
      }
      assert data[..copied] == data;
      ok := true;
    }

    lemma ValidMeans()
      requires Valid()
      ensures Store() && Stored(pending) && Tight(pending, -1) && this !in storage && bytesReceived !in storage
      ensures Indexes(bytesReceived.intervals, State()) && Canonical(bytesReceived.intervals)
      ensures numBytesBuffered == |pending.Keys| && totalBytesRead < U64_RANGE && capacity < U64_RANGE
      ensures forall o :: o in pending ==> o + 1 < U64_RANGE
    {
      hide BlockIndex, InBlockOffset, BlockCapacity, BlockCount, CountIn;
      PendingCount();
    }

    lemma PendingCount()
      requires Stored(pending)
      ensures CountIn(pending.Keys, totalBytesRead, capacity) == |pending.Keys|
    {
      hide Store, Cell, CountIn;
      CountIsSize(pending.Keys, totalBytesRead, capacity);
    }

    /** Between operations a block is held exactly if some received, unread offset lives in it. */
    lemma RetirementIsExact(b: nat)
      requires Valid() && b < maxBlocks
      ensures blocks != null && blocks[b] != null <==> b in UsedBlocks(capacity, pending)
    {
      hide BlockIndex, InBlockOffset, BlockCapacity, Indexes;
      if b in UsedBlocks(capacity, pending) {
        var o :| o in pending && BlockIndex(capacity, o) == b;
        assert Cell(o, pending[o]);
      }
    }

    /** The window, the count and the cells: every pending byte is in the cell of its offset. */
    lemma WindowIsKept()
      requires Valid()
      ensures totalBytesRead <= NextExpected(bytesReceived.intervals) <= totalBytesRead + capacity
      ensures numBytesBuffered == |pending.Keys|
      ensures forall o: nat :: o in pending <==> Covers(bytesReceived.intervals, o) && totalBytesRead <= o
      ensures forall o :: o in pending ==> capacity > 0 && Cell(o, pending[o])
    {
      hide BlockIndex, InBlockOffset, BlockCapacity, Cell;
      PendingCount();
      LastPending(bytesReceived.intervals, State());
      if NothingPending(bytesReceived.intervals, totalBytesRead) && totalBytesRead > 0 {
        FirstIntervalHoldsRead(bytesReceived.intervals, State());
      }
      assert totalBytesRead > 0 ==> Covers(bytesReceived.intervals, 0);
    }

    lemma AcceptedIsValid(s: Stream, offset: nat, data: seq<byte>)
      requires Store() && Stored(pending) && Tight(pending, -1) && Indexes(bytesReceived.intervals, State())
      requires State() == Accept(s, offset, data) && numBytesBuffered == |pending.Keys| && totalBytesRead < U64_RANGE
      requires offset + |data| < U64_RANGE && forall o :: o in s.pending ==> o + 1 < U64_RANGE
      ensures Valid()
    {
      hide CountIn, Store, Cell, Indexes;
      PendingCount();
    }

    lemma StoredIsStore(p: map<nat, byte>)
      requires Stored(p)
      ensures Store() && this !in storage && bytesReceived !in storage
    {
    }

    /** Frees a block; freeing one twice is refused. */
    method RetireBlock(index: nat) returns (ok: bool)
      requires blocks != null && index < blocks.Length
      modifies blocks
      ensures ok <==> old(blocks[index]) != null
      ensures forall b :: 0 <= b < blocks.Length ==> blocks[b] == if b == index then null else old(blocks[b])
    {
      if blocks[index] == null {
        return false;
      }
      blocks[index] := null;
      ok := true;
    }

    /** Freeing a block that no pending byte lies in loses nothing. */
    twostate lemma FreedBlockWasEmpty(block: nat)
      requires old(Stored(pending)) && old(Tight(pending, block)) && unchanged(this) && unchanged(storage - {blocks})
      requires blocks != null && block < maxBlocks
      requires forall b :: 0 <= b < blocks.Length ==> blocks[b] == if b == block then null else old(blocks[b])
      requires block !in UsedBlocks(capacity, pending)
      ensures Stored(pending) && Tight(pending, -1)
    {
      hide BlockIndex, InBlockOffset, BlockCapacity, BlockCount;
      forall o | o in pending
        ensures Cell(o, pending[o])
      {
        CellExists(capacity, o);
        assert old(Cell(o, pending[o]));
        assert BlockIndex(capacity, o) in UsedBlocks(capacity, pending);
      }
    }

    /**
     Called when the cursor has left the block or got stuck in it: frees the block exactly when no pending byte
     lies in it. It always succeeds.
     */
    method RetireBlockIfEmpty(block: nat) returns (ok: bool)
      requires Stored(pending) && Tight(pending, block) && Indexes(bytesReceived.intervals, State())
      requires blocks != null && block < maxBlocks && blocks[block] != null
      requires capacity > 0 && totalBytesRead > 0 && block == BlockIndex(capacity, totalBytesRead - 1)
      requires Readable(State()) == 0 || InBlockOffset(capacity, totalBytesRead) == 0
      modifies blocks
      ensures ok && Stored(pending) && Tight(pending, -1)
    {
      hide BlockIndex, InBlockOffset, BlockCapacity, BlockCount, UsedBlocks, Indexes, Readable, Cell;
      RetireDecision(bytesReceived.intervals, State(), capacity, block);
      if NothingPending(bytesReceived.intervals, totalBytesRead) {
        ok := RetireBlock(block);
        FreedBlockWasEmpty(block);
        return;
      }
      if BlockIndex(capacity, NextExpected(bytesReceived.intervals) - 1) == block {
        return true;
      }
      if BlockIndex(capacity, totalBytesRead) == block {
        if |bytesReceived.intervals| > 1 {
          if BlockIndex(capacity, bytesReceived.intervals[1].min) == block {
            return true;
          }
        } else {
          return false;
        }
      }
      ok := RetireBlock(block);
      FreedBlockWasEmpty(block);
    }

    function ReadableBytes(): (n: int)
      requires Valid()
      reads this, storage, bytesReceived
      ensures n == Readable(State())
    {
      FirstMissingIs(bytesReceived.intervals, State());
      FirstMissing(bytesReceived.intervals) - totalBytesRead
    }

    /** What Readv and MarkConsumed share: n bytes of the cursor's block are read; at its end it may be freed. */
    method ConsumeFromBlock(block: nat, available: nat, n: nat) returns (ok: bool)
      requires Valid() && capacity > 0 && block == BlockIndex(capacity, totalBytesRead)
      requires available ==
        Min(Readable(State()), BlockCapacity(capacity, block) - InBlockOffset(capacity, totalBytesRead))
      requires 0 < n <= available
      modifies this`totalBytesRead, this`numBytesBuffered, this`pending, blocks
      ensures ok && Valid() && State() == Consume(old(State()), n)
    {
      hide BlockIndex, InBlockOffset, BlockCapacity, BlockCount, UsedBlocks, Readable, Indexes, CountIn;
      ghost var s := State();
      PendingCount();
      PendingIsAhead(bytesReceived.intervals, s);
      ConsumedIndex(bytesReceived.intervals, s, n);
      ConsumedLayout(s, capacity, available, n);
      assert s.read in pending && s.read + n - 1 in pending;
      CellIsThere(s.read, pending[s.read]);
      totalBytesRead := totalBytesRead + n;
      numBytesBuffered := numBytesBuffered - n;
      pending := Consume(s, n).pending;
      forall o | o in pending
        ensures Cell(o, pending[o])
      {
        CellExists(capacity, o);
        assert old(Cell(o, pending[o]));
      }
      PendingCount();
      ok := true;
      if n == available {
        ok := RetireBlockIfEmpty(block);
      }
    }

    lemma CellIsThere(o: nat, v: byte)
      requires Store() && capacity > 0 && Cell(o, v)
      ensures blocks != null && BlockIndex(capacity, o) < maxBlocks && blocks[BlockIndex(capacity, o)] != null
    {
      CellExists(capacity, o);
    }

    /** Drops bytesConsumed bytes that were read in place. */
    method MarkConsumed(bytesConsumed: nat) returns (ok: bool)
      requires Valid()
      modifies this`totalBytesRead, this`numBytesBuffered, this`pending, blocks
      ensures Valid() && (ok <==> bytesConsumed <= Readable(old(State())))
      ensures State() == if ok then Consume(old(State()), bytesConsumed) else old(State())
    {
      hide BlockIndex, InBlockOffset, BlockCapacity, BlockCount, Valid, Readable, Consume;
      var readable := ReadableBytes();
      if bytesConsumed > readable {
        return false;
      }
      ghost var s := State();
      ConsumeNothing();
      var toConsume := bytesConsumed;
      while toConsume > 0
        invariant 0 <= toConsume <= bytesConsumed
        invariant Valid() && State() == Consume(s, bytesConsumed - toConsume)
        invariant Readable(State()) == Readable(s) - (bytesConsumed - toConsume)
        invariant blocks == old(blocks)
      {
        HasCapacity();
        var block, place := BlockIndex(capacity, totalBytesRead), InBlockOffset(capacity, totalBytesRead);
        CellExists(capacity, totalBytesRead);
        readable := ReadableBytes();
        var available := Min(readable, BlockCapacity(capacity, block) - place);
        var n := Min(toConsume, available);
        ConsumeTwice(s, bytesConsumed - toConsume, n);
        ConsumeTwice(s, bytesConsumed - toConsume + n, 0);
        var retired := ConsumeFromBlock(block, available, n);
        toConsume := toConsume - n;
      }
      ok := true;
    }

    lemma ConsumeNothing()
      requires Valid()
      ensures Consume(State(), 0) == State()
    {
    }

    lemma BlocksAreStored()
      requires Valid()
      ensures blocks != null ==> blocks in Repr()
    {
    }

    lemma HasCapacity()
      requires Valid()
      ensures Readable(State()) > 0 ==> capacity > 0
    {
      assert Readable(State()) > 0 ==> totalBytesRead in pending;
    }

    method Clear()
      requires Stored(pending) && totalBytesRead < U64_RANGE
      modifies this`numBytesBuffered, this`pending, blocks, bytesReceived
      ensures Valid() && State() == Stream(totalBytesRead, map[]) == Step(old(State()), Event.Clear)
      ensures blocks != null ==> forall b :: 0 <= b < maxBlocks ==> blocks[b] == null
    {
      if blocks != null {
        for i := 0 to maxBlocks
          invariant forall b :: 0 <= b < maxBlocks ==> blocks[b] == if b < i then null else old(blocks[b])
        {
          if blocks[i] != null {
            var freed := RetireBlock(i);
          }
        }
      }
      numBytesBuffered := 0;
      pending := map[];
      bytesReceived.intervals := [];
      NothingCovers();
      bytesReceived.Add(Interval(0, totalBytesRead));
      PendingCount();
    }

    /** Skips everything up to the last received offset, gaps included. */
    method FlushBufferedFrames() returns (flushed: int)
      requires Valid()
      modifies this`totalBytesRead, this`numBytesBuffered, this`pending, blocks, bytesReceived
      ensures Valid() && pending == map[] && totalBytesRead == old(totalBytesRead) + flushed && flushed >= 0
      ensures forall o :: o in old(pending) ==> o < totalBytesRead
      ensures if old(pending) == map[] then flushed == 0 else totalBytesRead - 1 in old(pending)
      ensures State() == Step(old(State()), Event.Flush)
    {
      LastPending(bytesReceived.intervals, State());
      EndIs(State(), NextExpected(bytesReceived.intervals));
      var previous := totalBytesRead;
      assert pending == map[] ==> NextExpected(bytesReceived.intervals) <= previous;
      totalBytesRead := NextExpected(bytesReceived.intervals);
      pending := map[];
      Clear();
      flushed := totalBytesRead - previous;
    }

    method ReleaseWholeBuffer()
      requires Valid()
      modifies this`blocks, this`numBytesBuffered, this`pending, blocks, bytesReceived
      ensures Valid() && State() == Stream(old(totalBytesRead), map[]) == Step(old(State()), Event.Clear)
        && blocks == null
    {
      Clear();
      blocks := null;
    }

    predicate Empty()
      reads this, bytesReceived
    {
      NothingPending(bytesReceived.intervals, totalBytesRead)
    }

    /** Buffers a frame. */
    method OnStreamData(startingOffset: uint64, data: seq<byte>) returns (code: ErrorCode, bytesBuffered: nat)
      requires Valid() && |data| < U64_RANGE
      modifies Repr()
      ensures fresh(storage - old(storage))
      ensures code == Answer(old(State()), capacity, startingOffset, data)
      ensures code == EmptyFrameNoFin || code == BeyondRange ==>
        Valid() && State() == old(State()) && bytesBuffered == 0
      ensures code == NoError ==> Valid() && State() == Accept(old(State()), startingOffset, data)
      ensures code == NoError ==> bytesBuffered == |NewOffsets(old(State()), startingOffset, data)|
      ensures code == TooManyIntervals ==> bytesBuffered == 0 && State() == old(State())
    {
      hide Store, Stored, Tight, Indexes, Canonical, Covers, With, NewOffsets, DataOn, Accept, Valid;
      ValidMeans();
      bytesBuffered := 0;
      var size := |data|;
      if size == 0 {
        return EmptyFrameNoFin, bytesBuffered;
      }
      if OutOfRange(totalBytesRead, capacity, startingOffset, size) {
        return BeyondRange, bytesBuffered;
      }
      ghost var s, iv := State(), bytesReceived.intervals;
      var range := Interval(startingOffset, startingOffset + size);
      ReceivedSoFar(iv, s);
      var disjoint := bytesReceived.intervals == [] || startingOffset >= NextExpected(bytesReceived.intervals);
      if !disjoint {
        disjoint := bytesReceived.IsDisjoint(range);
      }
      if disjoint {
        code, bytesBuffered := BufferAllNew(startingOffset, data);
      } else {
        code, bytesBuffered := BufferMissing(startingOffset, data);
      }
    }

    /** The typical case: nothing in the range has been received before. */
    method BufferAllNew(startingOffset: uint64, data: seq<byte>) returns (code: ErrorCode, bytesBuffered: nat)
      requires Valid() && data != [] && totalBytesRead < U64_RANGE && |data| < U64_RANGE
      requires !OutOfRange(totalBytesRead, capacity, startingOffset, |data|)
      requires forall o :: startingOffset <= o < startingOffset + |data| ==> !Covers(bytesReceived.intervals, o)
      modifies Repr()
      ensures fresh(storage - old(storage))
      ensures code == Answer(old(State()), capacity, startingOffset, data)
      ensures code == NoError ==> Valid() && State() == Accept(old(State()), startingOffset, data)
      ensures code == NoError ==> bytesBuffered == |NewOffsets(old(State()), startingOffset, data)|
      ensures code == NoError || code == TooManyIntervals
      ensures code == TooManyIntervals ==> bytesBuffered == 0 && State() == old(State())
    {
      hide Store, Stored, Tight, Indexes, Canonical, Covers, With, Accept, NewOffsets, Valid;
      ghost var s, iv := State(), bytesReceived.intervals;
      ValidMeans();
      AllNew(iv, s, startingOffset, data);
      RangeIsSound(totalBytesRead, capacity, startingOffset, |data|);
      bytesBuffered := 0;
      bytesReceived.AddOptimizedForAppend(Interval(startingOffset, startingOffset + |data|));
      AnswerIs(iv, bytesReceived.intervals, s, capacity, startingOffset, data);
      if |bytesReceived.intervals| >= MAX_INTERVALS {
        return TooManyIntervals, bytesBuffered;
      }
      var ok, copied := CopyStreamData(startingOffset, data, pending);
      if !ok {
        return InvalidState, bytesBuffered;
      }
      bytesBuffered := bytesBuffered + copied;
      CountBuffered(bytesBuffered, s, iv, startingOffset, data);
      code := NoError;
    }

    /** The end of both paths. */
    method CountBuffered(n: nat, ghost s: Stream, ghost iv: seq<Interval>, ghost offset: nat, ghost data: seq<byte>)
      requires Store() && State() == s && Indexes(iv, s) && Canonical(bytesReceived.intervals)
      requires forall o :: Covers(bytesReceived.intervals, o) <==> Covers(iv, o) || offset <= o < offset + |data|
      requires Stored(Accept(s, offset, data).pending) && Tight(Accept(s, offset, data).pending, -1)
      requires n == |NewOffsets(s, offset, data)| && numBytesBuffered == |pending.Keys|
      requires totalBytesRead < U64_RANGE && offset + |data| < U64_RANGE
      requires forall o :: o in pending ==> o + 1 < U64_RANGE
      modifies this`numBytesBuffered, this`pending
      ensures Valid() && State() == Accept(s, offset, data)
    {
      hide Store, Stored, Tight, Indexes, Canonical, Covers, Accept, NewOffsets, Valid;
      StoredIsStore(Accept(s, offset, data).pending);
      AcceptedCount(s, offset, data);
      AcceptedIndex(iv, bytesReceived.intervals, s, offset, data);
      AcceptKeepsRead(s, offset, data);
      numBytesBuffered := numBytesBuffered + n;
      pending := Accept(s, offset, data).pending;
      AcceptedIsValid(s, offset, data);
    }

    /** The part of a range that has not been received. */
    method NewlyReceived(range: Interval) returns (missing: seq<Interval>)
      requires Canonical(bytesReceived.intervals)
      ensures Canonical(missing)
      ensures forall o :: Covers(missing, o) <==> range.Contains(o) && !Covers(bytesReceived.intervals, o)
    {
      hide Canonical, Covers;
      NothingCovers();
      var newlyReceived := new IntervalSet();
      newlyReceived.Add(range);
      newlyReceived.Difference(bytesReceived);
      missing := newlyReceived.intervals;
    }

    /** The slow path: only what is missing from the range is copied, one interval after the other. */
    method BufferMissing(startingOffset: uint64, data: seq<byte>) returns (code: ErrorCode, bytesBuffered: nat)
      requires Valid() && data != [] && totalBytesRead < U64_RANGE && |data| < U64_RANGE
      requires !OutOfRange(totalBytesRead, capacity, startingOffset, |data|)
      modifies Repr()
      ensures fresh(storage - old(storage))
      ensures code == Answer(old(State()), capacity, startingOffset, data)
      ensures code == NoError || code == TooManyIntervals
      ensures code == NoError ==> Valid() && State() == Accept(old(State()), startingOffset, data)
      ensures code == NoError ==> bytesBuffered == |NewOffsets(old(State()), startingOffset, data)|
      ensures code == TooManyIntervals ==> bytesBuffered == 0 && State() == old(State())
    {
      hide Store, Stored, Tight, Indexes, Canonical, Covers, With, DataOn, Accept, NewOffsets, IsMissing, OutOfRange,
        Valid;
      bytesBuffered := 0;
      ghost var s, iv := State(), bytesReceived.intervals;
      ValidMeans();
      var missing := NewlyReceived(Interval(startingOffset, startingOffset + |data|));
      MissingIsNew(iv, missing, s, startingOffset, data);
      KeysCount(DataOn(missing, startingOffset, data));
      if missing == [] {
        NothingNewIsFine(s, capacity, startingOffset, data);
        return NoError, bytesBuffered;
      }
      RangeIsSound(totalBytesRead, capacity, startingOffset, |data|);
      MissingFits(missing, totalBytesRead, capacity, startingOffset, data);
      bytesReceived.Add(Interval(startingOffset, startingOffset + |data|));
      AnswerIs(iv, bytesReceived.intervals, s, capacity, startingOffset, data);
      if |bytesReceived.intervals| >= MAX_INTERVALS {
        return TooManyIntervals, bytesBuffered;
      }
      var ok;
      ok, bytesBuffered := CopyMissing(missing, startingOffset, data);
      if !ok {
        return InvalidState, bytesBuffered;
      }
      CountBuffered(bytesBuffered, s, iv, startingOffset, data);
      code := NoError;
    }

    /** The loop of the slow path. */
    method CopyMissing(missing: seq<Interval>, startingOffset: uint64, data: seq<byte>) returns (ok: bool,
          bytesBuffered: nat)
      requires Stored(pending) && Tight(pending, -1) && totalBytesRead + capacity < U64_RANGE
      requires IsMissing(missing, totalBytesRead, capacity, startingOffset, data)
      modifies this`blocks, this`storage, storage
      ensures ok && bytesBuffered == |DataOn(missing, startingOffset, data)|
      ensures Stored(pending + DataOn(missing, startingOffset, data))
      ensures Tight(pending + DataOn(missing, startingOffset, data), -1)
      ensures fresh(storage - old(storage)) && Store() && this !in storage && bytesReceived !in storage
    {
      hide Store, Stored, Tight, IsMissing, With, DataOn, Plus;
      bytesBuffered := 0;
      StoredIsStore(pending);
      PlusStart(pending, missing, startingOffset, data);
      for k := 0 to |missing|
        invariant Store() && this !in storage && bytesReceived !in storage
        invariant Stored(Plus(pending, missing[..k], startingOffset, data))
        invariant Tight(Plus(pending, missing[..k], startingOffset, data), -1)
        invariant bytesBuffered == |DataOn(missing[..k], startingOffset, data)|
        invariant fresh(storage - old(storage))
      {
        PlusStep(pending, missing, k, totalBytesRead, capacity, startingOffset, data);
        var from, to := missing[k].min - startingOffset, missing[k].max - startingOffset;
        var copied;
        ok, copied := CopyStreamData(missing[k].min, data[from..to], Plus(pending, missing[..k], startingOffset, data));
        if !ok {
          return;
        }
        bytesBuffered := bytesBuffered + copied;
      }
      PlusEnd(pending, missing, startingOffset, data);
      ok := true;
    }

    /** The readable bytes from the c-th on are in their cells, as far as the block of the c-th goes. */
    lemma ReadableCells(c: nat, n: nat)
      requires Valid() && 0 < n && c + n <= Readable(State())
      requires capacity > 0
      requires n <=
        BlockCapacity(capacity, BlockIndex(capacity, totalBytesRead + c)) - InBlockOffset(capacity, totalBytesRead + c)
      ensures
        var block, place := BlockIndex(capacity, totalBytesRead + c), InBlockOffset(capacity, totalBytesRead + c);
        && blocks != null && block < maxBlocks == blocks.Length && blocks[block] != null && blocks[block] in storage
        && place + n <= blocks[block].Length
        && blocks[block][place..place + n] == Front(State(), Readable(State()))[c..c + n]
    {
      hide BlockIndex, InBlockOffset, BlockCapacity, BlockCount, UsedBlocks, Indexes, Canonical;
      var from := totalBytesRead + c;
      var block, place := BlockIndex(capacity, from), InBlockOffset(capacity, from);
      CellExists(capacity, from);
      assert Cell(from, pending[from]);
      ghost var found, wanted := blocks[block][place..place + n], Front(State(), Readable(State()))[c..c + n];
      forall i | 0 <= i < n
        ensures found[i] == wanted[i]
      {
        Forward(capacity, from, i);
        assert Cell(from + i, pending[from + i]);
        assert found[i] == blocks[block][place + i] == pending[from + i];
        assert wanted[i] == Front(State(), Readable(State()))[c + i];
      }
    }

    /** Copies what the cursor's block still has, as far as the buffer has room behind its first n bytes. */
    method ReadFromBlock(dest: array<byte>, n: nat, ghost done: seq<byte>, ghost was: seq<byte>)
      returns (ok: bool, count: nat)
      requires Valid() && dest !in storage && n < dest.Length == |was| && 0 < Readable(State())
      requires |done| == n && dest[..] == done + was[n..]
      modifies this`totalBytesRead, this`numBytesBuffered, this`pending, blocks, dest
      ensures ok && Valid() && 0 < count <= Min(dest.Length - n, Readable(old(State())))
      ensures State() == Consume(old(State()), count)
      ensures dest[..] == done + Front(old(State()), count) + was[n + count..]
    {
      hide BlockIndex, InBlockOffset, BlockCapacity, BlockCount, Valid, Readable, Consume, Front;
      ok, count := false, 0;
      ValidMeans();
      HasCapacity();
      var block, place := BlockIndex(capacity, totalBytesRead), InBlockOffset(capacity, totalBytesRead);
      CellExists(capacity, totalBytesRead);
      var readable := ReadableBytes();
      var available := Min(readable, BlockCapacity(capacity, block) - place);
      count := Min(available, dest.Length - n);
      ReadableCells(0, count);
      FrontOfFront(State(), count);
      if blocks[block] == null {
        return;
      }
      var source := blocks[block];
      ghost var text := Front(State(), count);
      assert source[place..place + count] == text;
      CopyBehind(source, place, dest, n, count, done, text, was);
      ok := ConsumeFromBlock(block, available, count);
    }

    /** Fills one buffer as far as the readable bytes go. */
    method ReadInto(dest: array<byte>) returns (ok: bool, n: nat)
      requires Valid() && dest !in storage
      modifies this`totalBytesRead, this`numBytesBuffered, this`pending, blocks, dest
      ensures ok && Valid() && n == Min(dest.Length, Readable(old(State()))) && State() == Consume(old(State()), n)
      ensures dest[..] == Front(old(State()), n) + old(dest[..])[n..]
    {
      hide Valid, Readable, Consume, Front;
      ghost var s := State();
      ConsumeNothing();
      FrontNothing(s);
      ok, n := false, 0;
      var readable := ReadableBytes();
      while n < dest.Length && readable > 0
        invariant 0 <= n <= dest.Length && n <= Readable(s) && readable == Readable(s) - n
        invariant Valid() && State() == Consume(s, n) && blocks == old(blocks) && storage == old(storage)
        invariant dest[..] == Front(s, n) + old(dest[..])[n..]
      {
        ConsumeTwice(s, n, 0);
        var copied, count := ReadFromBlock(dest, n, Front(s, n), old(dest[..]));
        if !copied {
          return;
        }
        ConsumeTwice(s, n, count);
        ConsumeTwice(s, n + count, 0);
        n := n + count;
        readable := ReadableBytes();
      }
      ok := true;
    }

    /** Fills buffer i of several. */
    method ReadIntoNth(dest: seq<array<byte>>, i: nat) returns (ok: bool, n: nat)
      requires Valid() && i < |dest| && SeparateBuffers(dest)
      requires forall j :: 0 <= j < |dest| ==> dest[j] !in storage
      modifies this`totalBytesRead, this`numBytesBuffered, this`pending, blocks, dest[i]
      ensures ok && Valid() && n == Min(dest[i].Length, Readable(old(State()))) && State() == Consume(old(State()), n)
      ensures blocks == old(blocks) && storage == old(storage)
      ensures Contents(dest) == old(Contents(dest))[i := Front(old(State()), n) + old(dest[i][..])[n..]]
    {
      hide Valid, Readable, Consume, Front;
      BlocksInStorage();
      ok, n := ReadInto(dest[i]);
    }

    lemma BlocksInStorage()
      requires Valid()
      ensures blocks != null ==> blocks in storage
    {
    }

    /**
     Copies the readable bytes into the given buffers, in order, and drops them. Each buffer ends as its share of
     the stream followed by what it held beyond that.
     */
    method Readv(dest: seq<array<byte>>) returns (code: ErrorCode, bytesRead: nat)
      requires Valid() && SeparateBuffers(dest)
      requires forall j :: 0 <= j < |dest| ==> dest[j] !in storage
      modifies this`totalBytesRead, this`numBytesBuffered, this`pending, blocks, set d | d in dest
      ensures Valid() && code == NoError
      ensures bytesRead == Min(LengthsBefore(dest, |dest|), Readable(old(State())))
      ensures State() == Consume(old(State()), bytesRead)
      ensures Contents(dest) == Scattered(Front(old(State()), bytesRead), dest, |dest|, old(Contents(dest)))
    {
      hide Valid, Readable, Consume, Front, Scattered, LengthsBefore, Contents, SeparateBuffers;
      bytesRead := 0;
      ghost var s, was := State(), Contents(dest);
      ConsumeNothing();
      ScatterStart(s, dest, was);
      var i := 0;
      var readable := ReadableBytes();
      while i < |dest| && readable > 0
        invariant 0 <= i <= |dest| && blocks == old(blocks) && storage == old(storage)
        invariant 0 <= bytesRead <= Readable(s) && readable == Readable(s) - bytesRead
        invariant bytesRead == Min(LengthsBefore(dest, i), Readable(s))
        invariant Valid() && State() == Consume(s, bytesRead)
        invariant Contents(dest) == Scattered(Front(s, bytesRead), dest, i, was)
      {
        ConsumeTwice(s, bytesRead, 0);
        var ok, n := ReadIntoNth(dest, i);
        if !ok {
          return InvalidState, bytesRead;
        }
        ConsumeTwice(s, bytesRead, n);
        ConsumeTwice(s, bytesRead + n, 0);
        ScatterStep(s, dest, i, was, bytesRead, n);
        bytesRead := bytesRead + n;
        i := i + 1;
        readable := ReadableBytes();
      }
      ScatterEnd(s, dest, i, was, bytesRead);
      code := NoError;
    }

    /**
     The regions in which the next readable bytes lie, at most iovLen of them. Their texts are the readable bytes in
     order; only when iovLen regions are not enough is the rest left out.
     */
    method GetReadableRegions(iovLen: nat) returns (regions: seq<Region>)
      requires Valid() && iovLen > 0
      ensures |regions| <= iovLen
      ensures exists c: nat :: Shows(regions, c)
      ensures |regions| < iovLen || iovLen > maxBlocks ==> Shows(regions, Readable(State()))
      ensures Readable(State()) > 0 ==>
        capacity > 0 && regions != [] && GoesToTheEnd(capacity, totalBytesRead, Readable(State()), regions)
    {
      hide BlockIndex, InBlockOffset, BlockCapacity, BlockCount, RingAt, Valid, Readable, Shows, GoesToTheEnd,
        RegionBytes;
      ShowsNothing();
      var readable := ReadableBytes();
      if readable == 0 {
        return [];
      }
      HasCapacity();
      RegionsSetup();
      var start, place := BlockIndex(capacity, totalBytesRead), InBlockOffset(capacity, totalBytesRead);
      var endOffset := FirstMissing(bytesReceived.intervals) - 1;
      var endPlace := InBlockOffset(capacity, endOffset);
      var end := BlockIndex(capacity, endOffset);
      CellExists(capacity, totalBytesRead);
      CellExists(capacity, endOffset);
      RunToEnd(capacity, totalBytesRead, endOffset);
      regions := [];
      NoRegionYet(capacity, totalBytesRead, readable);
      if start == end && place <= endPlace {
        RegionAdds([], 0, readable);
        OneMoreRegion(capacity, totalBytesRead, readable, [], Region(blocks[start], place, readable));
        return [] + [Region(blocks[start], place, readable)];
      }
      var len := BlockCapacity(capacity, start) - place;
      RegionAdds(regions, 0, len);
      NextBlock(capacity, totalBytesRead);
      OneMoreRegion(capacity, totalBytesRead, readable, regions, Region(blocks[start], place, len));
      regions := MoreRegions(iovLen, regions + [Region(blocks[start], place, len)], start, end, endPlace);
    }

    /** The blocks behind the first one, around the ring, as far as there is room. */
    method MoreRegions(iovLen: nat, first: seq<Region>, start: nat, end: nat, endPlace: nat)
        returns (regions: seq<Region>)
      requires Valid() && iovLen > 0 && capacity > 0 && |first| == 1 && Shows(first, RegionBytes(first))
      requires 0 < RegionBytes(first) < Readable(State()) <= capacity && maxBlocks == BlockCount(capacity)
      requires GoesToTheEnd(capacity, totalBytesRead, Readable(State()), first)
      requires start < maxBlocks && end < maxBlocks
      requires
        var last, next := totalBytesRead + Readable(State()) - 1, totalBytesRead + RegionBytes(first);
        && end == BlockIndex(capacity, last) && endPlace == InBlockOffset(capacity, last)
        && RingAt(start, 1, maxBlocks) == BlockIndex(capacity, next) && InBlockOffset(capacity, next) == 0
      ensures |regions| <= iovLen && (exists c: nat :: Shows(regions, c))
      ensures |regions| < iovLen || iovLen > maxBlocks ==> Shows(regions, Readable(State()))
      ensures regions != [] && GoesToTheEnd(capacity, totalBytesRead, Readable(State()), regions)
    {
      hide BlockIndex, InBlockOffset, BlockCapacity, BlockCount, RingAt, Valid, Readable, Shows, GoesToTheEnd,
        RegionBytes;
      var readable, endOffset := ReadableBytes(), FirstMissing(bytesReceived.intervals) - 1;
      RegionsSetup();
      regions := first;
      ghost var c := RegionBytes(first);
      ghost var steps := if end > start then end - start else end + maxBlocks - start;
      RingSteps(start, end, maxBlocks);
      var block := RingAt(start, 1, maxBlocks);
      CellExists(capacity, totalBytesRead + c);
      CellExists(capacity, endOffset);
      while block != end && |regions| < iovLen
        invariant 1 <= |regions| <= iovLen && |regions| <= steps <= maxBlocks
        invariant block == RingAt(start, |regions|, maxBlocks) < maxBlocks
        invariant 0 < c < readable && Shows(regions, c) && RegionBytes(regions) == c
        invariant GoesToTheEnd(capacity, totalBytesRead, readable, regions)
        invariant block == BlockIndex(capacity, totalBytesRead + c) && InBlockOffset(capacity, totalBytesRead + c) == 0
        decreases iovLen - |regions|
      {
        RunToEnd(capacity, totalBytesRead + c, endOffset);
        CellExists(capacity, totalBytesRead + c);
        var len := BlockCapacity(capacity, block);
        RegionAdds(regions, c, len);
        NextBlock(capacity, totalBytesRead + c);
        StepAround(start, |regions|, maxBlocks);
        OneMoreRegion(capacity, totalBytesRead, readable, regions, Region(blocks[block], 0, len));
        regions := regions + [Region(blocks[block], 0, len)];
        c := c + len;
        block := RingAt(start, |regions|, maxBlocks);
      }
      if |regions| < iovLen {
        RunToEnd(capacity, totalBytesRead + c, endOffset);
        RegionAdds(regions, c, endPlace + 1);
        OneMoreRegion(capacity, totalBytesRead, readable, regions, Region(blocks[end], 0, endPlace + 1));
        regions := regions + [Region(blocks[end], 0, endPlace + 1)];
      }
    }

    /** The regions lie in the blocks and show the first c readable bytes. */
    ghost predicate Shows(regions: seq<Region>, c: nat)
      requires Valid()
      reads this, storage, bytesReceived, set r | r in regions :: r.base
    {
      c <= Readable(State()) && (forall r :: r in regions ==> r.Inside() && r.base in storage)
      && Text(regions) == Front(State(), Readable(State()))[..c]
    }

    lemma ShowsNothing()
      requires Valid()
      ensures Shows([], 0)
    {
      TextOfNone();
    }

    /** The cell of the c-th readable byte starts the next region. */
    lemma RegionAdds(regions: seq<Region>, c: nat, n: nat)
      requires Valid() && Shows(regions, c) && 0 < n && c + n <= Readable(State()) && capacity > 0
      requires n <=
        BlockCapacity(capacity, BlockIndex(capacity, totalBytesRead + c)) - InBlockOffset(capacity, totalBytesRead + c)
      ensures
        var block, place := BlockIndex(capacity, totalBytesRead + c), InBlockOffset(capacity, totalBytesRead + c);
        blocks != null && block < blocks.Length && blocks[block] != null
        && Shows(regions + [Region(blocks[block], place, n)], c + n)
    {
      hide BlockIndex, InBlockOffset, BlockCapacity, BlockCount, Valid, Readable, Text;
      ReadableCells(c, n);
      TextGrows(Front(State(), Readable(State())), regions, blocks[BlockIndex(capacity, totalBytesRead + c)],
        InBlockOffset(capacity, totalBytesRead + c), n);
    }

    lemma RegionsSetup()
      requires Valid() && Readable(State()) > 0
      ensures FirstMissing(bytesReceived.intervals) == totalBytesRead + Readable(State())
      ensures Readable(State()) <= capacity && maxBlocks == BlockCount(capacity)
    {
      FirstMissingIs(bytesReceived.intervals, State());
      assert totalBytesRead + Readable(State()) - 1 in pending;
    }

    /**
     A region at an offset that need not be the cursor. It is the readable rest of the offset's block, unless the first
     missing byte has come round to the same block at or before the offset: see PeekIsExact.
     */
    method PeekRegion(offset: nat) returns (ok: bool, region: Region?)
      requires Valid()
      ensures ok <==> totalBytesRead <= offset < totalBytesRead + Readable(State())
      ensures ok == region.SomeRegion?
      ensures ok ==> capacity > 0 && region.base in storage
      ensures ok ==> region.start == InBlockOffset(capacity, offset)
      ensures ok ==> region.len == PeekLength(capacity, offset, totalBytesRead + Readable(State()))
      ensures ok && PeekGuard(capacity, offset, totalBytesRead + Readable(State())) ==>
        ShowsAt(region, offset - totalBytesRead)
    {
      hide BlockIndex, InBlockOffset, BlockCapacity, BlockCount, Valid, Readable, PeekGuard, ShowsAt;
      ok, region := false, NoRegion;
      IndexFacts();
      if offset < totalBytesRead {
        return;
      }
      if offset >= FirstMissing(bytesReceived.intervals) {
        return;
      }
      HasCapacity();
      var missing := FirstMissing(bytesReceived.intervals);
      var block, place := BlockIndex(capacity, offset), InBlockOffset(capacity, offset);
      CellExists(capacity, offset);
      PeekShows(offset, missing);
      var len;
      if block == BlockIndex(capacity, missing) {
        CellExists(capacity, missing);
        len := Sub64(InBlockOffset(capacity, missing), place);
      } else {
        len := BlockCapacity(capacity, block) - place;
      }
      ok, region := true, SomeRegion(blocks[block], place, len);
    }

    /** The region holds the readable bytes from the c-th on. */
    ghost predicate ShowsAt(region: Region?, c: nat)
      requires Valid()
      reads this, storage, bytesReceived, if region.SomeRegion? then {region.base} else {}
    {
      region.SomeRegion? && c + region.len <= Readable(State()) && region.start + region.len <= region.base.Length
      && region.base[region.start..region.start + region.len] == Front(State(), Readable(State()))[c..c + region.len]
    }

    lemma IndexFacts()
      requires Valid()
      ensures FirstMissing(bytesReceived.intervals) == totalBytesRead + Readable(State()) <= totalBytesRead + capacity
    {
      FirstMissingIs(bytesReceived.intervals, State());
      assert Readable(State()) > 0 ==> totalBytesRead + Readable(State()) - 1 in pending;
    }

    lemma PeekShows(offset: nat, missing: nat)
      requires Valid() && totalBytesRead <= offset < missing == totalBytesRead + Readable(State()) && capacity > 0
      ensures
        var block, place := BlockIndex(capacity, offset), InBlockOffset(capacity, offset);
        blocks != null && block < blocks.Length && blocks[block] != null && blocks[block] in storage
        && (PeekGuard(capacity, offset, missing) ==>
          ShowsAt(SomeRegion(blocks[block], place, PeekLength(capacity, offset, missing)), offset - totalBytesRead))
    {
      hide BlockIndex, InBlockOffset, BlockCapacity, BlockCount, Valid, Readable, PeekGuard, PeekLength;
      IndexFacts();
      CellExists(capacity, offset);
      ReadableCells(offset - totalBytesRead, 1);
      PeekIsExact(capacity, totalBytesRead, offset, missing);
      if PeekGuard(capacity, offset, missing) {
        ReadableCells(offset - totalBytesRead, PeekLength(capacity, offset, missing));
      }
    }
  }

  /** Copying behind what was copied before. */
  method CopyBehind(source: array<byte>, from: nat, dest: array<byte>, to: nat, n: nat, ghost done: seq<byte>,
      ghost text: seq<byte>, ghost was: seq<byte>)
    requires from + n <= source.Length && to + n <= dest.Length == |was| && source != dest
    requires |done| == to && dest[..] == done + was[to..] && source[from..from + n] == text
    modifies dest
    ensures dest[..] == done + text + was[to + n..]
  {
    CopyBytes(source, from, dest, to, n);
  }

  /** memcpy between two buffers. */
  method CopyBytes(source: array<byte>, from: nat, dest: array<byte>, to: nat, n: nat)
    requires from + n <= source.Length && to + n <= dest.Length && source != dest
    modifies dest
    ensures dest[..] == old(dest[..])[..to] + source[from..from + n] + old(dest[..])[to + n..]
  {
    forall i | 0 <= i < n {
      dest[to + i] := source[from + i];
    }
  }

  /** A buffer of the size the sequencer uses, filled, read up to offset 100, and filled up again. */
  method FillUp() returns (buffer: SequencerBuffer)
    ensures buffer.Valid() && buffer.capacity == RECEIVE_WINDOW
    ensures buffer.State().read == 100 && FilledTo(buffer.State(), RECEIVE_WINDOW + 100)
  {
    hide Answer, Accept, Consume, Readable, SequencerBuffer.Valid, FilledTo;
    var first: seq<byte>, more: seq<byte> := seq(RECEIVE_WINDOW, _ => 0), seq(100, _ => 0);
    NothingFilled();
    FillingIsFine(Stream(0, map[]), RECEIVE_WINDOW, 0, first);
    buffer := new SequencerBuffer(RECEIVE_WINDOW);
    var code, buffered := buffer.OnStreamData(0, first);
    FilledIsReadable(buffer.State(), RECEIVE_WINDOW);
    buffer.BlocksAreStored();
    var ok := buffer.MarkConsumed(100);
    FillingIsFine(buffer.State(), RECEIVE_WINDOW, RECEIVE_WINDOW, more);
    code, buffered := buffer.OnStreamData(RECEIVE_WINDOW, more);
  }

  /** In it nothing is reported at the cursor, and almost 2^64 bytes a little further on. */
  method PeekFailsOnAFullBuffer() returns (buffer: SequencerBuffer, atCursor: Region?, behind: Region?)
    ensures buffer.Valid() && buffer.State().read == 100 && FilledTo(buffer.State(), RECEIVE_WINDOW + 100)
    ensures atCursor.SomeRegion? && atCursor.len == 0
    ensures behind.SomeRegion? && behind.len == U64_RANGE - 100
  {
    hide Readable, PeekLength, PeekGuard, InBlockOffset, SequencerBuffer.Valid, FilledTo;
    buffer := FillUp();
    FilledIsReadable(buffer.State(), RECEIVE_WINDOW + 100);
    PeekOnAFullWindow();
    var ok;
    ok, atCursor := buffer.PeekRegion(100);
    ok, behind := buffer.PeekRegion(200);
  }
}
