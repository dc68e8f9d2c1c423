/** What a receive buffer stands for: a cursor and a partial map from the offsets at or beyond it to bytes. */
module Streams {
  // Section 2.2 of RFC 9000 asks a receiver to deliver this map in order.

  import opened Words

  datatype Stream = Stream(read: nat, pending: map<nat, byte>)

  /** The offsets a frame would add: those not read yet and not received yet. */
  function NewOffsets(s: Stream, offset: nat, data: seq<byte>): set<nat> {
    set o | offset <= o < offset + |data| && s.read <= o && o !in s.pending
  }

  /** Buffering a frame: the first byte received at an offset stays. */
  function Accept(s: Stream, offset: nat, data: seq<byte>): Stream {
    Stream(s.read, s.pending + map o | o in NewOffsets(s, offset, data) :: data[o - offset])
  }

  /** How many consecutive offsets from at on are present. */
  function RunFrom(m: map<nat, byte>, at: nat): (n: nat)
    ensures forall o :: at <= o < at + n ==> o in m
    ensures at + n !in m
    decreases |m|
  {
    if at !in m then 0
    else
      var rest := m - {at};
      assert m.Keys == rest.Keys + {at};
      1 + RunFrom(rest, at + 1)
  }

  lemma RunIs(m: map<nat, byte>, at: nat, n: nat)
    requires forall o :: at <= o < at + n ==> o in m
    requires at + n !in m
    ensures RunFrom(m, at) == n
  {
    var k := RunFrom(m, at);
    assert k < n ==> at + k in m;
  }

  /** How many bytes can be read in order. */
  function Readable(s: Stream): nat {
    RunFrom(s.pending, s.read)
  }

  /** The next n bytes in order. */
  function Front(s: Stream, n: nat): (r: seq<byte>)
    requires n <= Readable(s)
    ensures |r| == n && forall i :: 0 <= i < n ==> r[i] == s.pending[s.read + i]
  {
    seq(n, i requires 0 <= i < n => s.pending[s.read + i])
  }

  /** Reading n bytes moves the cursor and forgets what lies before it. */
  function Consume(s: Stream, n: nat): Stream {
    Stream(s.read + n, map o | o in s.pending && s.read + n <= o :: s.pending[o])
  }

  /** Reading in two goes is reading at once. */
  lemma ConsumeTwice(s: Stream, m: nat, n: nat)
    requires m + n <= Readable(s)
    ensures Readable(Consume(s, m)) == Readable(s) - m
    ensures Consume(Consume(s, m), n) == Consume(s, m + n)
    ensures Front(s, m + n) == Front(s, m) + Front(Consume(s, m), n)
  {
    hide RunFrom;
    RunIs(Consume(s, m).pending, s.read + m, Readable(s) - m);
  }

  /** The end of what has been received: the cursor, or behind the last pending offset. */
  ghost function End(s: Stream): (e: nat)
    ensures s.read <= e && (forall o :: o in s.pending ==> o < e) && (e == s.read || e - 1 in s.pending)
    decreases |s.pending|
  {
    if s.pending == map[] then s.read
    else
      var o :| o in s.pending;
      var rest := s.pending - {o};
      assert s.pending.Keys == rest.Keys + {o};
      Max(o + 1, End(Stream(s.read, rest)))
  }

  lemma EndIs(s: Stream, e: nat)
    requires s.read <= e && (forall o :: o in s.pending ==> o < e) && (e == s.read || e - 1 in s.pending)
    ensures End(s) == e
  {
    hide End;
  }

  /** The offset has been read or is waiting to be read. */
  predicate Has(s: Stream, o: nat) {
    o < s.read || o in s.pending
  }

  /** Where the received offsets begin, and begin again behind a gap. */
  function Starts(s: Stream): set<nat> {
    (if s.read > 0 then {0} else {}) + set o | o in s.pending && (o == 0 || !Has(s, o - 1))
  }

  /** How many separate intervals the received offsets form. */
  function IntervalCount(s: Stream): nat {
    |Starts(s)|
  }

  /** Starts are about what has been received, wherever the cursor is. */
  lemma StartsAre(s: Stream, o: nat)
    requires forall x :: x in s.pending ==> s.read <= x
    ensures o in Starts(s) <==> Has(s, o) && (o == 0 || !Has(s, o - 1))
  {
  }

  lemma SameIntervals(s: Stream, t: Stream)
    requires forall x :: x in s.pending ==> s.read <= x
    requires forall x :: x in t.pending ==> t.read <= x
    requires forall o :: Has(s, o) <==> Has(t, o)
    ensures IntervalCount(s) == IntervalCount(t)
  {
    hide Has, Starts;
    forall o: nat
      ensures o in Starts(s) <==> o in Starts(t)
    {
      StartsAre(s, o);
      StartsAre(t, o);
    }
    assert Starts(s) == Starts(t);
  }

  // ---------- whole runs ----------

  /**
   What happens to a receive buffer: a frame is buffered, up to n bytes are read in order, what waits is discarded, or
   the cursor also skips what was discarded.
   */
  datatype Event = Arrival(offset: nat, data: seq<byte>) | Read(n: nat) | Clear | Flush {
    predicate Carries(o: nat) {
      Arrival? && offset <= o < offset + |data|
    }

    predicate Discards() {
      Clear? || Flush?
    }
  }

  ghost function Step(s: Stream, e: Event): Stream {
    match e
    case Arrival(offset, data) => Accept(s, offset, data)
    case Read(n) => Consume(s, Min(n, Readable(s)))
    case Clear => Stream(s.read, map[])
    case Flush => Stream(End(s), map[])
  }

  /** The stream after a run that starts with nothing read and nothing received. */
  ghost function After(events: seq<Event>): Stream {
    if events == [] then Stream(0, map[]) else Step(After(events[..|events| - 1]), events[|events| - 1])
  }

  /** The bytes the reads of a run have returned, one after the other. */
  ghost function Delivered(events: seq<Event>): seq<byte> {
    if events == [] then [] else Delivered(events[..|events| - 1]) + Returned(events)
  }

  /** The bytes the last event of a run has returned. */
  ghost function Returned(events: seq<Event>): seq<byte>
    requires events != []
  {
    var s, e := After(events[..|events| - 1]), events[|events| - 1];
    if e.Read? then Front(s, Min(e.n, Readable(s))) else []
  }

  /** What has happened since the last discard, where the cursor was then, and what has been read since. */
  function Recent(events: seq<Event>): (recent: seq<Event>) {
    if events == [] || events[|events| - 1].Discards() then []
    else Recent(events[..|events| - 1]) + [events[|events| - 1]]
  }

  ghost function Base(events: seq<Event>): nat {
    if events == [] then 0
    else if events[|events| - 1].Discards() then After(events).read
    else Base(events[..|events| - 1])
  }

  ghost function DeliveredSince(events: seq<Event>): seq<byte> {
    if events == [] || events[|events| - 1].Discards() then []
    else DeliveredSince(events[..|events| - 1]) + Returned(events)
  }

  predicate NothingDiscarded(events: seq<Event>) {
    forall e :: e in events ==> !e.Discards()
  }

  lemma {:induction false} WithoutDiscards(events: seq<Event>)
    requires NothingDiscarded(events)
    ensures Recent(events) == events && Base(events) == 0 && DeliveredSince(events) == Delivered(events)
  {
    hide After, Returned;
    if events != [] {
      assert events[|events| - 1] in events;
      WithoutDiscards(events[..|events| - 1]);
    }
  }

  predicate Received(events: seq<Event>, o: nat) {
    exists i :: 0 <= i < |events| && events[i].Carries(o)
  }

  /** The byte at an offset in the first frame of the run that carries the offset. */
  function FirstByte(events: seq<Event>, o: nat): byte
    requires Received(events, o)
  {
    if events[0].Carries(o) then events[0].data[o - events[0].offset]
    else
      ReceivedLater(events, o);
      FirstByte(events[1..], o)
  }

  lemma ReceivedLater(events: seq<Event>, o: nat)
    requires Received(events, o) && !events[0].Carries(o)
    ensures Received(events[1..], o)
  {
    var i :| 0 <= i < |events| && events[i].Carries(o);
    assert events[1..][i - 1].Carries(o);
  }

  /** Later events do not change the first byte at an offset. */
  lemma {:induction false} FirstByteStays(events: seq<Event>, e: Event, o: nat)
    ensures Received(events + [e], o) <==> Received(events, o) || e.Carries(o)
    ensures Received(events, o) ==> FirstByte(events + [e], o) == FirstByte(events, o)
    ensures !Received(events, o) && e.Carries(o) ==> FirstByte(events + [e], o) == e.data[o - e.offset]
  {
    var all := events + [e];
    if Received(events, o) {
      var i :| 0 <= i < |events| && events[i].Carries(o);
      assert all[i].Carries(o);
    }
    if e.Carries(o) {
      assert all[|events|].Carries(o);
    }
    if events == [] {
      assert all[0] == e;
    } else {
      assert all[1..] == events[1..] + [e];
      FirstByteStays(events[1..], e, o);
      assert Received(events[1..], o) ==> Received(events, o) by {
        if Received(events[1..], o) {
          var i :| 0 <= i < |events[1..]| && events[1..][i].Carries(o);
          assert events[i + 1].Carries(o);
        }
      }
      if Received(events, o) && !events[0].Carries(o) {
        ReceivedLater(events, o);
      }
    }
  }

  /**
   From a cursor at base on: an offset is pending exactly if it was received and has not been read, what it holds is the
   first byte received there, and the bytes delivered are the first bytes received at base, base + 1 and so on.
   */
  ghost predicate Explains(events: seq<Event>, base: nat, s: Stream, delivered: seq<byte>) {
    && base <= s.read && |delivered| == s.read - base
    && (forall o: nat :: base <= o < s.read ==> Received(events, o) && delivered[o - base] == FirstByte(events, o))
    && (forall o: nat :: o in s.pending <==> s.read <= o && Received(events, o))
    && (forall o: nat :: o in s.pending ==> s.pending[o] == FirstByte(events, o))
  }

  /** That is so after any run, of everything since the last discard. */
  lemma {:induction false} RunsKeepFirstBytes(events: seq<Event>)
    ensures Explains(Recent(events), Base(events), After(events), DeliveredSince(events))
  {
    if events != [] && !events[|events| - 1].Discards() {
      var before, e := events[..|events| - 1], events[|events| - 1];
      RunsKeepFirstBytes(before);
      forall o: nat
        ensures FirstByteKept(Recent(before), e, o)
      {
        FirstByteStays(Recent(before), e, o);
      }
      var s, text := After(before), DeliveredSince(before);
      if e.Arrival? {
        assert text + [] == text;
        FrameKeepsFirstBytes(Recent(before), Base(before), s, text, e);
      } else {
        ReadKeepsFirstBytes(Recent(before), Base(before), s, text, e, Min(e.n, Readable(s)));
      }
    }
  }

  ghost predicate FirstByteKept(events: seq<Event>, e: Event, o: nat) {
    && (Received(events + [e], o) <==> Received(events, o) || e.Carries(o))
    && (Received(events, o) ==> FirstByte(events + [e], o) == FirstByte(events, o))
    && (!Received(events, o) && e.Carries(o) ==> FirstByte(events + [e], o) == e.data[o - e.offset])
  }

  lemma FrameKeepsFirstBytes(events: seq<Event>, base: nat, s: Stream, delivered: seq<byte>, e: Event)
    requires Explains(events, base, s, delivered) && e.Arrival?
    requires forall o: nat :: FirstByteKept(events, e, o)
    ensures Explains(events + [e], base, Accept(s, e.offset, e.data), delivered)
  {
    hide Received, FirstByte;
    var t := Accept(s, e.offset, e.data);
    forall o: nat
      ensures base <= o < s.read ==> Received(events + [e], o) && delivered[o - base] == FirstByte(events + [e], o)
      ensures o in t.pending <==> s.read <= o && Received(events + [e], o)
      ensures o in t.pending ==> t.pending[o] == FirstByte(events + [e], o)
    {
      assert FirstByteKept(events, e, o);
    }
  }

  lemma ReadKeepsFirstBytes(events: seq<Event>, base: nat, s: Stream, delivered: seq<byte>, e: Event, n: nat)
    requires Explains(events, base, s, delivered) && e.Read? && n <= Readable(s)
    requires forall o: nat :: FirstByteKept(events, e, o)
    ensures Explains(events + [e], base, Consume(s, n), delivered + Front(s, n))
  {
    hide Received, FirstByte;
    var t, more := Consume(s, n), delivered + Front(s, n);
    forall o: nat
      ensures base <= o < t.read ==> Received(events + [e], o) && more[o - base] == FirstByte(events + [e], o)
      ensures o in t.pending <==> t.read <= o && Received(events + [e], o)
      ensures o in t.pending ==> t.pending[o] == FirstByte(events + [e], o)
    {
      assert FirstByteKept(events, e, o);
      assert s.read <= o < t.read ==> o in s.pending;
    }
  }
}
