/** How the bytes of one stream are cut into frames and spread over the paths; tpproxy/mpproxy_types.cc:541-602. */
module Striping {
  import opened Words
  import opened ByteCodec
  import opened Framing

  /** The longest payload of a frame, and the least share of a path. */
  const MAX_PAYLOAD := 0xffff
  const MIN_PAYLOAD_SIZE := 1500

  /** A path with more than this in its write buffer gets no share. */
  const WRITE_BUFFER_THRESHOLD := 15000

  /** One share, cut into pieces of at most 65535 bytes. */
  function Segments(offset: nat, data: seq<byte>): seq<Frame>
    decreases |data|
  {
    if data == [] then []
    else
      var n := Min(|data|, MAX_PAYLOAD);
      [Frame(offset, data[..n])] + Segments(offset + n, data[n..])
  }

  /** The shares of the first paths, given what their part of the bandwidth would be; the last path gets the rest. */
  function Shares(remain: nat, targets: seq<nat>): (shares: seq<nat>)
    ensures |shares| == |targets| + 1
    decreases |targets|
  {
    if targets == [] then [remain]
    else
      var n := Min(Max(targets[0], MIN_PAYLOAD_SIZE), remain);
      [n] + Shares(remain - n, targets[1..])
  }

  function Sum(shares: seq<nat>): nat {
    if shares == [] then 0 else shares[0] + Sum(shares[1..])
  }

  /** The frames each path gets for its share. */
  function Plan(offset: nat, data: seq<byte>, shares: seq<nat>): (plan: seq<seq<Frame>>)
    requires Sum(shares) <= |data|
    ensures |plan| == |shares|
    decreases |shares|
  {
    if shares == [] then []
    else [Segments(offset, data[..shares[0]])] + Plan(offset + shares[0], data[shares[0]..], shares[1..])
  }

  function Payload(frames: seq<Frame>): seq<byte> {
    if frames == [] then [] else frames[0].data + Payload(frames[1..])
  }

  /** Each frame starts where the one before ends. */
  predicate Contiguous(offset: nat, frames: seq<Frame>)
    decreases |frames|
  {
    frames != [] ==> frames[0].offset == offset && Contiguous(offset + |frames[0].data|, frames[1..])
  }

  function Flatten(plan: seq<seq<Frame>>): seq<Frame> {
    if plan == [] then [] else plan[0] + Flatten(plan[1..])
  }

  /** Neither empty nor too long for a length of 16 bits. */
  predicate Fits(f: Frame) {
    0 < |f.data| <= MAX_PAYLOAD
  }

  /** The frames are exactly these bytes from this offset on: in order, without gap or overlap, each fitting a frame. */
  predicate Carry(frames: seq<Frame>, offset: nat, data: seq<byte>) {
    && Payload(frames) == data && Contiguous(offset, frames)
    && (forall f :: f in frames ==> Fits(f) && offset <= f.offset && f.offset + |f.data| <= offset + |data|)
  }

  lemma {:induction false} Joined(offset: nat, a: seq<Frame>, b: seq<Frame>)
    ensures Payload(a + b) == Payload(a) + Payload(b)
    ensures Contiguous(offset, a + b) <==> Contiguous(offset, a) && Contiguous(offset + |Payload(a)|, b)
    decreases |a|
  {
    if a == [] {
      assert a + b == b;
    } else {
      assert (a + b)[1..] == a[1..] + b && (a + b)[0] == a[0];
      Joined(offset + |a[0].data|, a[1..], b);
    }
  }

  lemma CarryBoth(a: seq<Frame>, b: seq<Frame>, offset: nat, data: seq<byte>, n: nat)
    requires n <= |data| && Carry(a, offset, data[..n]) && Carry(b, offset + n, data[n..])
    ensures Carry(a + b, offset, data)
  {
    hide Payload, Contiguous;
    Joined(offset, a, b);
    assert data == data[..n] + data[n..];
  }

  lemma CarryOne(f: Frame)
    requires Fits(f)
    ensures Carry([f], f.offset, f.data)
  {
    assert [f][1..] == [];
  }

  lemma CarryNone(offset: nat)
    ensures Carry([], offset, [])
  {
  }

  /** The pieces of a share are its bytes in order, and each fits a frame. */
  lemma {:induction false} SegmentsConserve(offset: nat, data: seq<byte>)
    ensures Carry(Segments(offset, data), offset, data)
    decreases |data|
  {
    hide Carry;
    if data == [] {
      CarryNone(offset);
    } else {
      var n := Min(|data|, MAX_PAYLOAD);
      CarryOne(Frame(offset, data[..n]));
      SegmentsConserve(offset + n, data[n..]);
      CarryBoth([Frame(offset, data[..n])], Segments(offset + n, data[n..]), offset, data, n);
    }
  }

  /** All of the buffer is shared out, and only the last path can get less than the least share of what is left. */
  lemma {:induction false} SharesAddUp(remain: nat, targets: seq<nat>)
    ensures Sum(Shares(remain, targets)) == remain
    ensures forall i :: 0 <= i < |targets| ==>
      (Shares(remain, targets)[i] >= MIN_PAYLOAD_SIZE
       || forall j :: i < j <= |targets| ==> Shares(remain, targets)[j] == 0)
    decreases |targets|
  {
    if targets != [] {
      var n := Min(Max(targets[0], MIN_PAYLOAD_SIZE), remain);
      SharesAddUp(remain - n, targets[1..]);
      var s, rest := Shares(remain, targets), Shares(remain - n, targets[1..]);
      assert s[1..] == rest;
      assert forall j :: 0 < j < |s| ==> s[j] == rest[j - 1];
      if n < MIN_PAYLOAD_SIZE {
        NothingToShare(targets[1..]);
      }
    }
  }

  lemma {:induction false} NothingToShare(targets: seq<nat>)
    ensures forall j :: 0 <= j <= |targets| ==> Shares(0, targets)[j] == 0
  {
    if targets != [] {
      NothingToShare(targets[1..]);
      assert forall j :: 0 < j <= |targets| ==> Shares(0, targets)[j] == Shares(0, targets[1..])[j - 1];
    }
  }

  /** Over all paths the frames are the whole buffer, in order and without gap or overlap. */
  lemma {:induction false} PlanConserves(offset: nat, data: seq<byte>, shares: seq<nat>)
    requires Sum(shares) == |data|
    ensures Carry(Flatten(Plan(offset, data, shares)), offset, data)
    decreases |shares|
  {
    hide Carry, Segments;
    if shares == [] {
      CarryNone(offset);
    } else {
      var n := shares[0];
      var first, later := Segments(offset, data[..n]), Plan(offset + n, data[n..], shares[1..]);
      SegmentsConserve(offset, data[..n]);
      PlanConserves(offset + n, data[n..], shares[1..]);
      CarryBoth(first, Flatten(later), offset, data, n);
      assert ([first] + later)[1..] == later;
    }
  }

  /** The frames of the whole buffer, shared out over one more path than there are targets. */
  function SharedOut(offset: nat, data: seq<byte>, targets: seq<nat>): (plan: seq<seq<Frame>>)
    ensures |plan| == |targets| + 1
  {
    SharesAddUp(|data|, targets);
    Plan(offset, data, Shares(|data|, targets))
  }

  lemma {:induction false} PlanIsWritable(offset: nat, data: seq<byte>, shares: seq<nat>)
    requires Sum(shares) <= |data| && offset + |data| <= VARINT62_LIMIT
    ensures forall frames :: frames in Plan(offset, data, shares) ==> AllWritable(frames)
    decreases |shares|
  {
    hide Segments;
    if shares != [] {
      SegmentsAreWritable(offset, data[..shares[0]]);
      PlanIsWritable(offset + shares[0], data[shares[0]..], shares[1..]);
    }
  }

  lemma SegmentsAreWritable(offset: nat, data: seq<byte>)
    requires offset + |data| <= VARINT62_LIMIT
    ensures AllWritable(Segments(offset, data))
  {
    hide Segments;
    SegmentsConserve(offset, data);
  }

  lemma {:induction false} SumMore(shares: seq<nat>, n: nat)
    ensures Sum(shares + [n]) == Sum(shares) + n
  {
    if shares != [] {
      assert (shares + [n])[1..] == shares[1..] + [n];
      SumMore(shares[1..], n);
    }
  }

  /** The shares in the order in which they are given away. */
  lemma {:induction false} SharesMore(total: nat, targets: seq<nat>, target: nat)
    ensures
      var given := Shares(total, targets)[..|targets|];
      var n := Min(Max(target, MIN_PAYLOAD_SIZE), total - Sum(given));
      && Sum(given) <= total && Shares(total, targets) == given + [total - Sum(given)]
      && Shares(total, targets + [target])[..|targets| + 1] == given + [n]
    decreases |targets|
  {
    if targets == [] {
      assert (targets + [target])[1..] == [];
    } else {
      var n := Min(Max(targets[0], MIN_PAYLOAD_SIZE), total);
      assert (targets + [target])[1..] == targets[1..] + [target];
      SharesMore(total - n, targets[1..], target);
      var all, rest := Shares(total, targets), Shares(total - n, targets[1..]);
      assert all[..|targets|] == [n] + rest[..|targets| - 1];
      assert ([n] + rest[..|targets| - 1])[1..] == rest[..|targets| - 1];
      var more := Shares(total, targets + [target]);
      assert more == [n] + Shares(total - n, targets[1..] + [target]);
    }
  }

  /** A path gets its part of the bandwidth, and at least 1500 bytes, as long as there is so much; the last the rest. */
  lemma {:induction false} SharesFollow(remain: nat, targets: seq<nat>, i: nat)
    requires i <= |targets|
    ensures
      var shares := Shares(remain, targets);
      var left := remain - Sum(shares[..i]);
      && left >= 0 && (i == |targets| ==> shares[i] == left)
      && (i < |targets| && 1500 <= targets[i] <= left ==> shares[i] == targets[i])
      && (i < |targets| && targets[i] < 1500 <= left ==> shares[i] == 1500)
      && (i < |targets| && left < 1500 ==> shares[i] == left)
      && (i < |targets| && left < targets[i] ==> shares[i] == Min(left, Max(targets[i], 1500)))
    decreases |targets|
  {
    var shares := Shares(remain, targets);
    if i > 0 {
      var n := Min(Max(targets[0], MIN_PAYLOAD_SIZE), remain);
      SharesFollow(remain - n, targets[1..], i - 1);
      assert shares == [n] + Shares(remain - n, targets[1..]);
      assert shares[..i] == [n] + Shares(remain - n, targets[1..])[..i - 1];
      assert shares[..i][1..] == Shares(remain - n, targets[1..])[..i - 1];
    }
  }

  /** The part of what remains that a rate is of all rates. */
  function Part(remain: nat, rate: nat, total: nat): (part: nat)
    requires total > 0
    ensures rate <= total ==> part <= remain
  {
    PartIsLess(remain, rate, total);
    remain * rate / total
  }

  lemma PartIsLess(remain: nat, rate: nat, total: nat)
    requires total > 0
    ensures rate <= total ==> remain * rate / total <= remain
  {
    assert rate <= total ==> remain * rate <= remain * total;
  }

  /** What each path but the last one is to get by its rate. */
  function Targets(remain: nat, rates: seq<nat>, total: nat): (targets: seq<nat>)
    requires rates != [] && total > 0
    ensures |targets| == |rates| - 1
    decreases |rates|
  {
    if |rates| == 1 then []
    else
      var target := Part(remain, rates[0], total);
      [target] + Targets(remain - Min(Max(target, MIN_PAYLOAD_SIZE), remain), rates[1..], total)
  }

  /** What remains when the n-th path gets its share. */
  function Left(remain: nat, targets: seq<nat>, n: nat): (left: nat)
    requires n <= |targets|
    ensures left <= remain
  {
    SharesFollow(remain, targets, n);
    remain - Sum(Shares(remain, targets)[..n])
  }

  lemma LeftRest(remain: nat, target: nat, targets: seq<nat>, n: nat)
    requires n <= |targets|
    ensures Left(remain, [target] + targets, n + 1) ==
      Left(remain - Min(Max(target, MIN_PAYLOAD_SIZE), remain), targets, n)
  {
    var all, m := [target] + targets, Min(Max(target, MIN_PAYLOAD_SIZE), remain);
    assert all[1..] == targets && Shares(remain, all) == [m] + Shares(remain - m, targets);
    assert Shares(remain, all)[..n + 1] == [m] + Shares(remain - m, targets)[..n];
    assert Shares(remain, all)[..n + 1][1..] == Shares(remain - m, targets)[..n];
  }

  lemma LeftAll(remain: nat, targets: seq<nat>)
    ensures Left(remain, targets, 0) == remain
  {
    assert Shares(remain, targets)[..0] == [];
  }

  /** One path more. */
  lemma {:induction false} TargetsMore(remain: nat, rates: seq<nat>, rate: nat, total: nat)
    requires rates != [] && total > 0
    ensures
      var n, t := |rates| - 1, Targets(remain, rates, total);
      Targets(remain, rates + [rate], total) == t + [Part(Left(remain, t, n), rates[n], total)]
    decreases |rates|
  {
    hide Part, Left;
    var all := rates + [rate];
    if |rates| == 1 {
      assert all[1..] == [rate];
      LeftAll(remain, []);
    } else {
      var target := Part(remain, rates[0], total);
      var m := Min(Max(target, MIN_PAYLOAD_SIZE), remain);
      assert all[1..] == rates[1..] + [rate] && all[0] == rates[0];
      TargetsMore(remain - m, rates[1..], rate, total);
      LeftRest(remain, target, Targets(remain - m, rates[1..], total), |rates| - 2);
      assert rates[1..][|rates| - 2] == rates[|rates| - 1];
    }
  }

  lemma {:induction false} TargetAt(remain: nat, rates: seq<nat>, total: nat, i: nat)
    requires i < |rates| - 1 && total > 0
    ensures
      var targets := Targets(remain, rates, total);
      targets[i] == Part(Left(remain, targets, i), rates[i], total)
    decreases |rates|
  {
    hide Part, Left;
    var target := Part(remain, rates[0], total);
    LeftAll(remain, Targets(remain, rates, total));
    if i > 0 {
      var m := Min(Max(target, MIN_PAYLOAD_SIZE), remain);
      TargetAt(remain - m, rates[1..], total, i - 1);
      LeftRest(remain, target, Targets(remain - m, rates[1..], total), i - 1);
    }
  }

  /**
   The i-th path gets the part of what remains that its rate is of all rates, but at least 1500 bytes, as long as there
   is so much, and the last path gets the rest.
   */
  lemma SharesAreProportional(remain: nat, rates: seq<nat>, total: nat, i: nat)
    requires i < |rates| && total > 0 && forall k :: 0 <= k < |rates| ==> rates[k] <= total
    ensures
      var targets := Targets(remain, rates, total);
      var share, left := Shares(remain, targets)[i], Left(remain, targets, i);
      && (i < |rates| - 1 ==> share == Min(left, Max(left * rates[i] / total, 1500)))
      && (i == |rates| - 1 ==> share == left)
  {
    hide Shares, Targets, Part, Sum;
    var targets := Targets(remain, rates, total);
    SharesFollow(remain, targets, i);
    if i < |rates| - 1 {
      TargetAt(remain, rates, total, i);
      PartIs(Left(remain, targets, i), rates[i], total);
    }
  }

  lemma PartIs(remain: nat, rate: nat, total: nat)
    requires total > 0
    ensures Part(remain, rate, total) == remain * rate / total
  {
  }

  /** Every frame of a share but the last one is as long as a frame can be. */
  lemma {:induction false} SegmentsAreFull(offset: nat, data: seq<byte>, i: nat)
    requires i < |Segments(offset, data)|
    ensures
      var frames := Segments(offset, data);
      && (i < |frames| - 1 ==> |frames[i].data| == 65535) && |frames| == (|data| + 65534) / 65535
    decreases |data|
  {
    var n := Min(|data|, MAX_PAYLOAD);
    var later := Segments(offset + n, data[n..]);
    assert Segments(offset, data) == [Frame(offset, data[..n])] + later;
    if later != [] {
      SegmentsAreFull(offset + n, data[n..], if i > 0 then i - 1 else 0);
    } else {
      assert data[n..] == [];
    }
  }

  lemma {:induction false} PlanMore(offset: nat, data: seq<byte>, shares: seq<nat>, n: nat)
    requires Sum(shares) + n <= |data|
    ensures Sum(shares + [n]) <= |data|
    ensures Plan(offset, data, shares + [n]) ==
      Plan(offset, data, shares) + [Segments(offset + Sum(shares), data[Sum(shares)..][..n])]
    decreases |shares|
  {
    hide Segments;
    SumMore(shares, n);
    var all := shares + [n];
    if shares == [] {
      assert all[1..] == [] && data[0..] == data;
    } else {
      assert all[1..] == shares[1..] + [n];
      PlanMore(offset + shares[0], data[shares[0]..], shares[1..], n);
      assert data[shares[0]..][Sum(shares[1..])..] == data[Sum(shares)..];
    }
  }
}
