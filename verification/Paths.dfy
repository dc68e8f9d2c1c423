/**
 A path of a session: a FIFO channel of bytes that carries frames; tpproxy/mpproxy_types.cc:45-78, :171-187, :279-340.
 */
module Paths {
  import opened Words
  import opened ByteCodec
  import opened Framing

  /**
   One path. Its bytes are in the sender's write buffer, in the network or in the receiver's read buffer. The frames
   ever written to it and the number of them that were delivered are history. Towards the server a path learns its
   session from META; towards the client it has known it from the start.
   */
  datatype Path = Path(written: seq<Frame>, taken: nat, writeBuffer: seq<byte>, inFlight: seq<byte>,
    readBuffer: seq<byte>, attached: bool, known: bool)
  {
    function Bytes(): seq<byte> {
      readBuffer + inFlight + writeBuffer
    }

    /** The frames that have not been delivered. */
    function Left(): seq<Frame> {
      if taken <= |written| then written[taken..] else []
    }

    /** Bytes leave the write buffer in order only. */
    function Write(frames: seq<Frame>): Path
      requires AllWritable(frames)
    {
      this.(written := written + frames, writeBuffer := writeBuffer + EncodeFrames(frames))
    }

    function Send(n: nat): Path
      requires n <= |writeBuffer|
    {
      this.(inFlight := inFlight + writeBuffer[..n], writeBuffer := writeBuffer[n..])
    }

    /** The read buffer once n more bytes have arrived. */
    function Arrived(n: nat): seq<byte>
      requires n <= |inFlight|
    {
      readBuffer + inFlight[..n]
    }

    function Receive(n: nat): Path
      requires n <= |inFlight|
    {
      var d := Deliver(Arrived(n));
      this.(inFlight := inFlight[n..], readBuffer := d.rest, taken := taken + |d.frames|)
    }
  }

  function NewPath(known: bool): Path {
    Path([], 0, [], [], [], known, known)
  }

  /** Between its ends a path holds exactly the frames written and not delivered, and no complete one waits. */
  predicate Intact(path: Path) {
    && AllWritable(path.written) && path.taken <= |path.written|
    && path.Bytes() == EncodeFrames(path.Left())
    && HeaderOf(path.readBuffer).NotDeliverable?
  }

  lemma NewPathIsIntact(known: bool)
    ensures Intact(NewPath(known)) && NewPath(known).Left() == []
  {
    NothingArrived();
  }

  lemma WriteKeepsIntact(path: Path, frames: seq<Frame>)
    requires Intact(path) && AllWritable(frames)
    ensures Intact(path.Write(frames)) && path.Write(frames).Left() == path.Left() + frames
  {
    hide EncodeFrames, HeaderOf;
    EncodeMore(path.Left(), frames);
    assert path.Write(frames).Left() == path.Left() + frames;
    assert path.Write(frames).Bytes() == path.Bytes() + EncodeFrames(frames);
  }

  lemma SendKeepsIntact(path: Path, n: nat)
    requires Intact(path) && n <= |path.writeBuffer|
    ensures Intact(path.Send(n)) && path.Send(n).Left() == path.Left()
  {
    hide EncodeFrames, HeaderOf;
    assert path.writeBuffer == path.writeBuffer[..n] + path.writeBuffer[n..];
    assert path.Send(n).Bytes() == path.Bytes();
  }

  /** A read delivers exactly the next frames that were written, in order. */
  lemma ReceiveKeepsIntact(path: Path, n: nat)
    requires Intact(path) && n <= |path.inFlight|
    ensures
      var r, frames := path.Receive(n), Deliver(path.Arrived(n)).frames;
      Intact(r) && r.written == path.written && path.Left() == frames + r.Left()
  {
    hide EncodeFrames, HeaderOf, Deliver, Complete;
    var left, s := path.Left(), path.Arrived(n);
    var m := |s|;
    ArrivedIsPrefix(path, n);
    PrefixDelivers(left, m);
    RestIsUndelivered(left, m);
    var k := Complete(left, m);
    assert left[k..] == path.written[path.taken + k..] && left == left[..k] + left[k..];
    DeliverStep(s);
  }

  lemma ArrivedIsPrefix(path: Path, n: nat)
    requires n <= |path.inFlight|
    ensures
      var s := path.Arrived(n);
      && |s| <= |path.Bytes()| && path.Bytes()[..|s|] == s
      && path.Bytes()[|s|..] == path.inFlight[n..] + path.writeBuffer
      && forall t, r :: path.(taken := t, inFlight := path.inFlight[n..], readBuffer := r).Bytes()
                       == r + (path.inFlight[n..] + path.writeBuffer)
  {
    assert path.inFlight == path.inFlight[..n] + path.inFlight[n..];
    assert path.Bytes() == path.Arrived(n) + (path.inFlight[n..] + path.writeBuffer);
  }

  lemma AttachingKeepsIntact(path: Path, attached: bool)
    requires Intact(path)
    ensures Intact(path.(attached := attached)) && path.(attached := attached).Left() == path.Left()
  {
    assert path.(attached := attached).Bytes() == path.Bytes();
  }

  lemma IntactBounds(path: Path)
    requires Intact(path)
    ensures path.taken <= |path.written| && AllWritable(path.written)
  {
  }

  /** A path with nothing in the write buffer and nothing in the network has delivered every frame written to it. */
  lemma QuietPathIsEmpty(path: Path)
    requires Intact(path) && path.writeBuffer == [] && path.inFlight == []
    ensures path.Left() == [] && path.readBuffer == []
  {
    hide EncodeFrame, HeaderOf;
    var left := path.Left();
    assert path.Bytes() == path.readBuffer;
    if left != [] {
      assert left[0] in path.written;
      FrameRoundTrip(left[0], EncodeFrames(left[1..]));
    }
  }

  /** Bytes enough for the next frame, and no more: what is still missing of it. */
  function Missing(path: Path): (n: nat)
    requires path.Left() != [] && path.Left()[0].Writable()
  {
    Max(0, |EncodeFrame(path.Left()[0])| - |path.readBuffer|)
  }

  /** Once everything written is in the network, a read of that size delivers the next frame alone. */
  lemma NextFrameAlone(path: Path)
    requires Intact(path) && path.Left() != [] && path.writeBuffer == []
    ensures path.Left()[0].Writable() && Missing(path) <= |path.inFlight|
    ensures Deliver(path.Arrived(Missing(path))).frames == [path.Left()[0]]
  {
    hide HeaderOf, EncodeFrame, Deliver;
    var left := path.Left();
    assert left[0] in path.written;
    var e, later := EncodeFrame(left[0]), EncodeFrames(left[1..]);
    assert path.Bytes() == path.readBuffer + path.inFlight == e + later;
    IncompleteIsShort(left[0], later, path.readBuffer, path.inFlight);
    var n := |e| - |path.readBuffer|;
    assert path.Arrived(n) == (e + later)[..|e|] == e + [];
    DeliverFirst(left[0], []);
    NothingArrived();
  }

  /** Without a complete frame in it the read buffer is shorter than the first frame. */
  lemma IncompleteIsShort(f: Frame, later: seq<byte>, readBuffer: seq<byte>, inFlight: seq<byte>)
    requires f.Writable() && readBuffer + inFlight == EncodeFrame(f) + later && HeaderOf(readBuffer).NotDeliverable?
    ensures |readBuffer| < |EncodeFrame(f)|
  {
    hide HeaderOf, EncodeFrame;
    var e := EncodeFrame(f);
    if |readBuffer| >= |e| {
      assert readBuffer == (readBuffer + inFlight)[..|readBuffer|];
      assert readBuffer == e + readBuffer[|e|..];
      FrameRoundTrip(f, readBuffer[|e|..]);
    }
  }
}
