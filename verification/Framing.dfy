/** Frames on one path: an offset, a length and that many bytes; tpproxy/mpproxy_types.cc:22-43, :171-187, :306-340. */
module Framing {
  import opened Words
  import opened ByteCodec

  /** Offset 0 is for messages; a byte at position o of the stream travels at offset o + 1. */
  const RESERVE_OFFSET := 1

  datatype Frame = Frame(offset: nat, data: seq<byte>) {
    /** What the two variable-length integers of a header can hold. */
    predicate Writable() {
      offset < VARINT62_LIMIT && |data| < VARINT62_LIMIT
    }
  }

  function EncodeFrame(f: Frame): seq<byte>
    requires f.Writable()
  {
    EncodeVarInt62(f.offset) + EncodeVarInt62(|f.data|) + f.data
  }

  /** What IsDeliverable reports; the lengths are those of the shortest encodings of the numbers read. */
  datatype Header = NotDeliverable | Header(offset: nat, offsetBytes: nat, len: nat, lenBytes: nat) {
    function FrameSize(): nat
      requires Header?
    {
      offsetBytes + lenBytes + len
    }
  }

  function HeaderOf(s: seq<byte>): (h: Header)
    ensures h.Header? ==> h.offsetBytes > 0 && h.lenBytes > 0 && h.FrameSize() <= |s|
  {
    var o := DecodeVarInt62(s);
    if o.Undecodable? then NotDeliverable
    else
      var n := DecodeVarInt62(s[o.used..]);
      if n.Undecodable? then NotDeliverable
      else
        EncodingIsShortest(s);
        EncodingIsShortest(s[o.used..]);
        var h := Header(o.value, VarInt62Len(o.value), n.value, VarInt62Len(n.value));
        if h.FrameSize() <= |s| then h else NotDeliverable
  }

  /** The frame a deliverable buffer starts with. */
  function FirstFrame(s: seq<byte>): (f: Frame)
    requires HeaderOf(s).Header?
    ensures |f.data| == HeaderOf(s).len && f.offset == HeaderOf(s).offset
  {
    var h := HeaderOf(s);
    Frame(h.offset, s[h.offsetBytes + h.lenBytes..h.FrameSize()])
  }

  method IsDeliverable(data: seq<byte>) returns (ret: bool, offset: nat, offsetBytes: nat, len: nat, lenBytes: nat)
    ensures ret <==> HeaderOf(data).Header?
    ensures ret ==> HeaderOf(data) == Header(offset, offsetBytes, len, lenBytes)
    ensures !ret ==> offset == offsetBytes == len == lenBytes == 0
  {
    ret, offset, offsetBytes, len, lenBytes := false, 0, 0, 0, 0;
    if |data| > 0 {
      var reader := new DataReader(data);
      var success;
      assert reader.Rest() == data;
      success, offset := reader.ReadVarInt62();
      if success {
        success, len := reader.ReadVarInt62();
      }
      if success {
        EncodingIsShortest(data);
        EncodingIsShortest(data[DecodeVarInt62(data).used..]);
        offsetBytes, lenBytes := VarInt62Len(offset), VarInt62Len(len);
        if |data| >= offsetBytes + lenBytes + len {
          ret := true;
        }
      }
    }
    if !ret {
      offset, offsetBytes, len, lenBytes := 0, 0, 0, 0;
    }
  }

  // ---------- minimal headers ----------

  /** Where the payload really starts: behind the two numbers as they were read. */
  function PayloadStart(s: seq<byte>): nat
    requires HeaderOf(s).Header?
  {
    DecodeVarInt62(s).used + DecodeVarInt62(s[DecodeVarInt62(s).used..]).used
  }

  /** The payload is found where it is exactly if both numbers of the header are written in the shortest way. */
  lemma HeaderIsRightIffShortest(s: seq<byte>)
    requires HeaderOf(s).Header?
    ensures
      var h := HeaderOf(s);
      && h.offset < VARINT62_LIMIT && h.len < VARINT62_LIMIT
      && (h.offsetBytes + h.lenBytes == PayloadStart(s) <==> EncodeVarInt62(h.offset) + EncodeVarInt62(h.len) <= s)
  {
    hide EncodeVarInt62;
    var h, o := HeaderOf(s), DecodeVarInt62(s);
    var rest := s[o.used..];
    EncodingIsShortest(s);
    EncodingIsShortest(rest);
    ShortestIsUnique(s);
    ShortestIsUnique(rest);
    var a, b := EncodeVarInt62(h.offset), EncodeVarInt62(h.len);
    if a + b <= s {
      assert s == a + b + s[|a + b|..];
      assert a <= s;
      assert rest == b + s[|a + b|..];
      assert b <= rest;
    }
    if h.offsetBytes + h.lenBytes == PayloadStart(s) {
      assert s == a + s[|a|..] && rest == b + rest[|b|..];
      assert s == a + b + rest[|b|..];
    }
  }

  /** A header whose offset 5 takes two bytes instead of one: the byte delivered is the length, not the payload. */
  lemma LongHeaderIsMisread()
    ensures
      var s: seq<byte> := [0x40, 5, 1, 0xaa];
      && HeaderOf(s) == Header(5, 1, 1, 1) && FirstFrame(s) == Frame(5, [1])
      && PayloadStart(s) == 3 && s[PayloadStart(s)..] == [0xaa]
  {
    var s: seq<byte> := [0x40, 5, 1, 0xaa];
    TwoRead(s, 0, 5);
    OneRead(s[2..]);
  }

  // ---------- stability and round trip of one frame ----------

  /** A frame that can be delivered stays the same when more bytes arrive. */
  lemma HeaderIsStable(s: seq<byte>, more: seq<byte>)
    requires HeaderOf(s).Header?
    ensures HeaderOf(s + more) == HeaderOf(s) && FirstFrame(s + more) == FirstFrame(s)
  {
    hide EncodeVarInt62;
    var o := DecodeVarInt62(s);
    MoreBytesChangeNothing(s, more);
    MoreBytesChangeNothing(s[o.used..], more);
    assert (s + more)[o.used..] == s[o.used..] + more;
  }

  /** A frame as it is written is read back, and ends exactly where it was written to end. */
  lemma FrameRoundTrip(f: Frame, rest: seq<byte>)
    requires f.Writable()
    ensures
      var s := EncodeFrame(f) + rest;
      HeaderOf(s).Header? && FirstFrame(s) == f && HeaderOf(s).FrameSize() == |EncodeFrame(f)|
  {
    hide EncodeVarInt62, DecodeVarInt62;
    var a, b := EncodeVarInt62(f.offset), EncodeVarInt62(|f.data|);
    var s := EncodeFrame(f) + rest;
    VarInt62RoundTrip(f.offset, b + f.data + rest);
    VarInt62RoundTrip(|f.data|, f.data + rest);
    assert s == a + (b + f.data + rest);
    assert s[|a|..] == b + (f.data + rest);
  }

  /** Part of a written frame cannot be delivered. */
  lemma PartIsNotDeliverable(f: Frame, n: nat)
    requires f.Writable() && n < |EncodeFrame(f)|
    ensures HeaderOf(EncodeFrame(f)[..n]).NotDeliverable?
  {
    hide HeaderOf, EncodeFrame;
    var e := EncodeFrame(f);
    FrameRoundTrip(f, []);
    assert e + [] == e && e[..n] + e[n..] == e;
    if HeaderOf(e[..n]).Header? {
      HeaderIsStable(e[..n], e[n..]);
    }
  }

  // ---------- streams of frames ----------

  /** The frames that can be taken out of a buffer and the bytes that stay in it. */
  datatype Deliveries = Deliveries(frames: seq<Frame>, rest: seq<byte>)

  function Deliver(s: seq<byte>): (d: Deliveries)
    ensures HeaderOf(d.rest).NotDeliverable?
    decreases |s|
  {
    if HeaderOf(s).NotDeliverable? then Deliveries([], s)
    else
      var later := Deliver(s[HeaderOf(s).FrameSize()..]);
      Deliveries([FirstFrame(s)] + later.frames, later.rest)
  }

  /** Delivering what has arrived so far and the rest later is delivering everything at once. */
  lemma {:induction false} DeliverInTwo(s: seq<byte>, more: seq<byte>)
    ensures
      var first := Deliver(s);
      var second := Deliver(first.rest + more);
      Deliver(s + more) == Deliveries(first.frames + second.frames, second.rest)
    decreases |s|
  {
    hide HeaderOf, FirstFrame, Deliver;
    DeliverStep(s);
    DeliverStep(s + more);
    if HeaderOf(s).Header? {
      var n := HeaderOf(s).FrameSize();
      HeaderIsStable(s, more);
      assert (s + more)[n..] == s[n..] + more;
      DeliverInTwo(s[n..], more);
      var first := Deliver(s[n..]);
      Associates([FirstFrame(s)], first.frames, Deliver(first.rest + more).frames);
    } else {
      assert [] + Deliver(s + more).frames == Deliver(s + more).frames;
    }
  }

  lemma DeliverStep(s: seq<byte>)
    ensures HeaderOf(s).NotDeliverable? ==> Deliver(s) == Deliveries([], s)
    ensures HeaderOf(s).Header? ==> 0 < HeaderOf(s).FrameSize() <= |s|
    ensures HeaderOf(s).Header? ==>
      var later := Deliver(s[HeaderOf(s).FrameSize()..]);
      Deliver(s) == Deliveries([FirstFrame(s)] + later.frames, later.rest)
  {
  }

  lemma Associates(a: seq<Frame>, b: seq<Frame>, c: seq<Frame>)
    ensures a + (b + c) == a + b + c
  {
  }

  function Concat(chunks: seq<seq<byte>>): seq<byte> {
    if chunks == [] then [] else Concat(chunks[..|chunks| - 1]) + chunks[|chunks| - 1]
  }

  /** Reading chunk by chunk, delivering after each. */
  function DeliverChunks(chunks: seq<seq<byte>>): Deliveries {
    if chunks == [] then Deliveries([], [])
    else
      var before := DeliverChunks(chunks[..|chunks| - 1]);
      var now := Deliver(before.rest + chunks[|chunks| - 1]);
      Deliveries(before.frames + now.frames, now.rest)
  }

  /** How the bytes of a path are cut into reads does not matter. */
  lemma {:induction false} ChunkingDoesNotMatter(chunks: seq<seq<byte>>)
    ensures DeliverChunks(chunks) == Deliver(Concat(chunks))
  {
    if chunks == [] {
      assert DecodeVarInt62([]).Undecodable?;
    } else {
      ChunkingDoesNotMatter(chunks[..|chunks| - 1]);
      DeliverInTwo(Concat(chunks[..|chunks| - 1]), chunks[|chunks| - 1]);
    }
  }

  predicate AllWritable(frames: seq<Frame>) {
    forall f :: f in frames ==> f.Writable()
  }

  function EncodeFrames(frames: seq<Frame>): seq<byte>
    requires AllWritable(frames)
  {
    if frames == [] then [] else EncodeFrame(frames[0]) + EncodeFrames(frames[1..])
  }

  lemma {:induction false} EncodeMore(frames: seq<Frame>, later: seq<Frame>)
    requires AllWritable(frames) && AllWritable(later)
    ensures AllWritable(frames + later)
    ensures EncodeFrames(frames + later) == EncodeFrames(frames) + EncodeFrames(later)
  {
    hide EncodeFrame;
    if frames == [] {
      assert frames + later == later;
    } else {
      EncodeMore(frames[1..], later);
      assert (frames + later)[1..] == frames[1..] + later;
    }
  }

  /** How many of the frames lie completely within the first n bytes of their encoding. */
  function Complete(frames: seq<Frame>, n: nat): (k: nat)
    requires AllWritable(frames)
    ensures k <= |frames|
  {
    if frames == [] || n < |EncodeFrame(frames[0])| then 0
    else 1 + Complete(frames[1..], n - |EncodeFrame(frames[0])|)
  }

  lemma DeliverFirst(f: Frame, rest: seq<byte>)
    requires f.Writable()
    ensures Deliver(EncodeFrame(f) + rest) == Deliveries([f] + Deliver(rest).frames, Deliver(rest).rest)
  {
    hide HeaderOf, FirstFrame, EncodeFrame;
    FrameRoundTrip(f, rest);
    assert (EncodeFrame(f) + rest)[|EncodeFrame(f)|..] == rest;
  }

  /**
   Of the first n bytes of a list of frames exactly the complete frames are delivered, in order, and exactly the bytes
   of the incomplete one are kept.
   */
  lemma {:induction false} PrefixDelivers(frames: seq<Frame>, n: nat)
    requires AllWritable(frames) && n <= |EncodeFrames(frames)|
    ensures
      var k := Complete(frames, n);
      var d := Deliver(EncodeFrames(frames)[..n]);
      && d.frames == frames[..k]
      && EncodeFrames(frames[..k]) + d.rest == EncodeFrames(frames)[..n]
      && (if k < |frames| then |d.rest| < |EncodeFrame(frames[k])| else d.rest == [])
    decreases |frames|
  {
    hide HeaderOf, FirstFrame, EncodeFrame;
    if frames == [] {
      NothingArrived();
    } else {
      var e := EncodeFrame(frames[0]);
      Cut(e, EncodeFrames(frames[1..]), n);
      if n < |e| {
        PartIsNotDeliverable(frames[0], n);
      } else {
        PrefixDelivers(frames[1..], n - |e|);
        DeliverFirst(frames[0], EncodeFrames(frames[1..])[..n - |e|]);
        OneMore(frames, Complete(frames[1..], n - |e|));
      }
    }
  }

  lemma Cut(e: seq<byte>, r: seq<byte>, n: nat)
    requires n <= |e + r|
    ensures (e + r)[..n] == if n < |e| then e[..n] else e + r[..n - |e|]
  {
  }

  lemma OneMore(frames: seq<Frame>, k: nat)
    requires k + 1 <= |frames|
    ensures frames[..k + 1] == [frames[0]] + frames[1..][..k] && frames[..k + 1][1..] == frames[1..][..k]
  {
  }

  /** What is kept, together with what has not arrived, encodes the frames that have not been delivered. */
  lemma RestIsUndelivered(frames: seq<Frame>, n: nat)
    requires AllWritable(frames) && n <= |EncodeFrames(frames)|
    ensures Deliver(EncodeFrames(frames)[..n]).rest + EncodeFrames(frames)[n..] ==
      EncodeFrames(frames[Complete(frames, n)..])
  {
    hide Deliver, EncodeFrames;
    var k, all := Complete(frames, n), EncodeFrames(frames);
    var done, rest := EncodeFrames(frames[..k]), Deliver(all[..n]).rest;
    PrefixDelivers(frames, n);
    EncodeMore(frames[..k], frames[k..]);
    assert frames == frames[..k] + frames[k..];
    CutTwice(done, rest, all, n, EncodeFrames(frames[k..]));
  }

  lemma CutTwice(done: seq<byte>, rest: seq<byte>, all: seq<byte>, n: nat, later: seq<byte>)
    requires n <= |all| && done + rest == all[..n] && all == done + later
    ensures rest + all[n..] == later
  {
    assert all == all[..n] + all[n..];
    assert later == all[|done|..];
  }

  lemma NothingArrived()
    ensures Deliver([]) == Deliveries([], [])
  {
  }

  lemma EncodedAll(frames: seq<Frame>)
    requires AllWritable(frames)
    ensures Complete(frames, |EncodeFrames(frames)|) == |frames|
  {
    if frames != [] {
      EncodedAll(frames[1..]);
    }
  }

  /** Everything that was written is delivered once everything has arrived, however it was cut up. */
  lemma FramesRoundTrip(frames: seq<Frame>, chunks: seq<seq<byte>>)
    requires AllWritable(frames) && Concat(chunks) == EncodeFrames(frames)
    ensures DeliverChunks(chunks) == Deliveries(frames, [])
  {
    var all := EncodeFrames(frames);
    ChunkingDoesNotMatter(chunks);
    PrefixDelivers(frames, |all|);
    EncodedAll(frames);
    assert all[..|all|] == all && frames[..|frames|] == frames;
  }
}
