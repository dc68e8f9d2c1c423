/**
 Where a stream offset lives in the circular array of blocks; sequencer/quic_stream_sequencer_buffer.cc:20-23,
 :472-537.
 */
module BlockGeometry {

  const BLOCK_SIZE: nat := 8 * 1024

  /** The number of blocks for a capacity. */
  function BlockCount(capacity: nat): nat {
    (capacity + BLOCK_SIZE - 1) / BLOCK_SIZE
  }

  function BlockIndex(capacity: nat, offset: nat): nat
    requires capacity > 0
  {
    offset % capacity / BLOCK_SIZE
  }

  function InBlockOffset(capacity: nat, offset: nat): nat
    requires capacity > 0
  {
    offset % capacity % BLOCK_SIZE
  }

  /** The last block may be short. */
  function BlockCapacity(capacity: nat, index: nat): nat {
    if index + 1 == BlockCount(capacity) then
      var rest := capacity % BLOCK_SIZE;
      if rest == 0 then BLOCK_SIZE else rest
    else
      BLOCK_SIZE
  }

  /** Every offset has a cell: a block that exists and a place inside the capacity of that block. */
  lemma CellExists(capacity: nat, offset: nat)
    requires capacity > 0
    ensures BlockIndex(capacity, offset) < BlockCount(capacity)
    ensures InBlockOffset(capacity, offset) < BlockCapacity(capacity, BlockIndex(capacity, offset)) <= BLOCK_SIZE
    ensures
      var b := BlockIndex(capacity, offset);
      b * BLOCK_SIZE + BlockCapacity(capacity, b) <= capacity
  {
  }

  lemma MultipleIsFar(d: int, c: nat)
    ensures d >= 1 ==> d * c >= c
    ensures d <= -1 ==> d * c <= 0 - c
  {
    if d >= 1 {
      assert d * c == (d - 1) * c + c && (d - 1) * c >= 0;
    } else if d <= -1 {
      assert d * c == -((-d - 1) * c) - c && (-d - 1) * c >= 0;
    }
  }

  lemma Euclid(a: nat, c: nat)
    requires c > 0
    ensures a == a / c * c + a % c
  {
  }

  lemma ModIs(a: nat, c: nat, q: int, r: nat)
    requires 0 <= r < c && a == q * c + r
    ensures a % c == r
  {
    Euclid(a, c);
    var d := q - a / c;
    assert d * c == q * c - a / c * c;
    MultipleIsFar(d, c);
    assert d == 0;
  }

  /** Inside one lap: the place k further on in the same block. */
  lemma ForwardInLap(capacity: nat, r: nat, k: nat)
    requires r < capacity && k < BlockCapacity(capacity, r / BLOCK_SIZE) - r % BLOCK_SIZE
    ensures r + k < capacity && (r + k) / BLOCK_SIZE == r / BLOCK_SIZE && (r + k) % BLOCK_SIZE == r % BLOCK_SIZE + k
  {
  }

  /** Going forward inside a block stays in the block. */
  lemma Forward(capacity: nat, offset: nat, k: nat)
    requires capacity > 0
    requires k < BlockCapacity(capacity, BlockIndex(capacity, offset)) - InBlockOffset(capacity, offset)
    ensures BlockIndex(capacity, offset + k) == BlockIndex(capacity, offset)
    ensures InBlockOffset(capacity, offset + k) == InBlockOffset(capacity, offset) + k
  {
    ForwardInLap(capacity, offset % capacity, k);
    Euclid(offset, capacity);
    ModIs(offset + k, capacity, offset / capacity, offset % capacity + k);
  }

  /** Inside one lap: the end of the block is the start of the next one, or the end of the lap. */
  lemma NextInLap(capacity: nat, r: nat)
    requires r < capacity
    ensures
      var b := r / BLOCK_SIZE;
      var edge := r + BlockCapacity(capacity, b) - r % BLOCK_SIZE;
      r < edge <= capacity && (edge == capacity <==> b + 1 == BlockCount(capacity))
      && (edge < capacity ==> edge / BLOCK_SIZE == b + 1 && edge % BLOCK_SIZE == 0) && b < BlockCount(capacity)
  {
  }

  /** The block k steps after block b, around the end of an array of n blocks. */
  function RingAt(b: nat, k: nat, n: nat): nat {
    if n == 0 then 0 else (b + k) % n
  }

  lemma StepIsModulo(b: nat, n: nat)
    ensures b < n ==> (b + 1) % n == if b + 1 == n then 0 else b + 1
  {
  }

  /** Leaving a block enters the next one, around the end, at its start. */
  lemma NextBlock(capacity: nat, offset: nat)
    requires capacity > 0
    ensures
      var b := BlockIndex(capacity, offset);
      var next := offset + BlockCapacity(capacity, b) - InBlockOffset(capacity, offset);
      && next > offset && InBlockOffset(capacity, next) == 0
      && BlockIndex(capacity, next) == RingAt(b, 1, BlockCount(capacity))
  {
    hide BlockCapacity, BlockCount;
    StepIsModulo(BlockIndex(capacity, offset), BlockCount(capacity));
    var b, r := BlockIndex(capacity, offset), offset % capacity;
    NextInLap(capacity, r);
    Euclid(offset, capacity);
    var edge := r + BlockCapacity(capacity, b) - InBlockOffset(capacity, offset);
    var next := offset + BlockCapacity(capacity, b) - InBlockOffset(capacity, offset);
    assert next == offset / capacity * capacity + edge;
    if edge == capacity {
      assert (offset / capacity + 1) * capacity == offset / capacity * capacity + capacity;
      ModIs(next, capacity, offset / capacity + 1, 0);
    } else {
      ModIs(next, capacity, offset / capacity, edge);
    }
  }

  /** Two offsets less than a capacity apart that share a block: either one run apart or one lap apart. */
  lemma SameBlockGap(capacity: nat, x: nat, y: nat)
    requires capacity > 0 && x <= y < x + capacity
    requires BlockIndex(capacity, x) == BlockIndex(capacity, y)
    ensures InBlockOffset(capacity, x) <= InBlockOffset(capacity, y) ==>
              y - x == InBlockOffset(capacity, y) - InBlockOffset(capacity, x)
    ensures InBlockOffset(capacity, x) > InBlockOffset(capacity, y) ==>
              y - x == capacity + InBlockOffset(capacity, y) - InBlockOffset(capacity, x)
  {
    Euclid(x, capacity);
    Euclid(y, capacity);
    var d := y / capacity - x / capacity;
    assert d * capacity == y / capacity * capacity - x / capacity * capacity;
    MultipleIsFar(d, capacity);
    MultipleIsFar(d - 1, capacity);
    assert (d - 1) * capacity == d * capacity - capacity;
    assert d == 0 || d == 1;
    InLapGap(x % capacity, y % capacity);
  }

  lemma InLapGap(p: nat, q: nat)
    requires p / BLOCK_SIZE == q / BLOCK_SIZE
    ensures q - p == q % BLOCK_SIZE - p % BLOCK_SIZE
  {
  }

  /** No two offsets of one window share a cell: a write never clobbers another unread byte. */
  lemma CellsAreDistinct(capacity: nat, read: nat, x: nat, y: nat)
    requires capacity > 0 && read <= x < read + capacity && read <= y < read + capacity && x != y
    ensures BlockIndex(capacity, x) != BlockIndex(capacity, y)
      || InBlockOffset(capacity, x) != InBlockOffset(capacity, y)
  {
    if BlockIndex(capacity, x) == BlockIndex(capacity, y) {
      SameBlockGap(capacity, if x < y then x else y, if x < y then y else x);
    }
  }

  /**
   The read cursor has just left or got stuck in block b, and the last offset of the window in use is elsewhere.
   Then only the rest of that block can be in use, never its wrapped part.
   */
  lemma OnlyTheRestIsLive(capacity: nat, read: nat, o: nat, last: nat)
    requires capacity > 0 && 0 < read <= o <= last < read + capacity
    requires BlockIndex(capacity, read - 1) == BlockIndex(capacity, o) != BlockIndex(capacity, last)
    ensures forall y :: read <= y <= o ==> BlockIndex(capacity, y) == BlockIndex(capacity, o)
    ensures InBlockOffset(capacity, read) != 0
  {
    hide BlockIndex, InBlockOffset, BlockCapacity, BlockCount;
    var x := read - 1;
    CellExists(capacity, x);
    CellExists(capacity, o);
    SameBlockGap(capacity, x, o);
    if InBlockOffset(capacity, x) <= InBlockOffset(capacity, o) {
      forall y | read <= y <= o
        ensures BlockIndex(capacity, y) == BlockIndex(capacity, o)
      {
        Forward(capacity, x, y - x);
      }
      Forward(capacity, x, 1);
    } else {
      Forward(capacity, o, last - o);
      assert false;
    }
  }

  /** A cursor at the start of the very block it has just left: the ring is a single block. */
  lemma SingleBlock(capacity: nat, read: nat, o: nat)
    requires capacity > 0 && read > 0 && InBlockOffset(capacity, read) == 0
    requires BlockIndex(capacity, read) == BlockIndex(capacity, read - 1)
    ensures BlockIndex(capacity, o) == BlockIndex(capacity, read)
  {
    if capacity > 1 {
      SameBlockGap(capacity, read - 1, read);
      CellExists(capacity, read - 1);
    }
    assert capacity <= BLOCK_SIZE;
    CellExists(capacity, o);
    CellExists(capacity, read);
  }
}
