/**
 Variable-length integers and the reader and writer of frames, after base/byte_codec.cc.

 There are two kinds: those of section 16 of RFC 9000, which carry their length in the first byte, and base-128 digits,
 which carry a continuation bit.
 */
module ByteCodec {
  import opened Words

  /** A number and how many bytes it took. */
  datatype Decoded = Undecodable | Decoded(value: nat, used: nat)

  // ---------- big-endian numbers ----------

  /** The number a sequence of bytes stands for, most significant byte first. */
  function BigEndian(s: seq<byte>): nat {
    if s == [] then 0 else BigEndian(s[..|s| - 1]) * 0x100 + s[|s| - 1]
  }

  /** The n least significant bytes of a number, most significant first. */
  function Bytes(v: nat, n: nat): (s: seq<byte>)
    ensures |s| == n
  {
    if n == 0 then [] else Bytes(v / 0x100, n - 1) + [v % 0x100]
  }

  function Power256(n: nat): nat {
    if n == 0 then 1 else 0x100 * Power256(n - 1)
  }

  lemma {:induction false} BytesRoundTrip(v: nat, n: nat)
    requires v < Power256(n)
    ensures BigEndian(Bytes(v, n)) == v
  {
    if n > 0 {
      var s := Bytes(v, n);
      assert s[..|s| - 1] == Bytes(v / 0x100, n - 1);
      BytesRoundTrip(v / 0x100, n - 1);
    }
  }

  /** The other way round. */
  lemma {:induction false} NumberRoundTrip(s: seq<byte>)
    ensures BigEndian(s) < Power256(|s|) && Bytes(BigEndian(s), |s|) == s
  {
    if s != [] {
      NumberRoundTrip(s[..|s| - 1]);
      assert s == s[..|s| - 1] + [s[|s| - 1]];
    }
  }

  lemma PowersOf256()
    ensures Power256(1) == 0x100 && Power256(2) == 0x1_0000 && Power256(4) == 0x1_0000_0000
    ensures Power256(8) == 0x1_0000_0000_0000_0000
  {
    assert Power256(4) == 0x100 * (0x100 * Power256(2));
    assert Power256(6) == 0x100 * (0x100 * Power256(4));
    assert Power256(8) == 0x100 * (0x100 * Power256(6));
  }

  lemma TwoBytes(v: nat, n: nat)
    ensures Bytes(v, n + 2) == Bytes(v / 0x1_0000, n) + [v / 0x100 % 0x100, v % 0x100]
  {
    assert Bytes(v, n + 2) == Bytes(v / 0x100, n + 1) + [v % 0x100];
    assert Bytes(v / 0x100, n + 1) == Bytes(v / 0x100 / 0x100, n) + [v / 0x100 % 0x100];
    assert v / 0x100 / 0x100 == v / 0x1_0000;
  }

  lemma FourBytes(v: nat, n: nat)
    ensures Bytes(v, n + 4) ==
      Bytes(v / 0x1_0000_0000, n) + [v / 0x100_0000 % 0x100, v / 0x1_0000 % 0x100, v / 0x100 % 0x100, v % 0x100]
  {
    var h := v / 0x1_0000;
    TwoBytes(v, n + 2);
    TwoBytes(h, n);
    assert h / 0x100 == v / 0x100_0000 && h / 0x1_0000 == v / 0x1_0000_0000;
  }

  lemma EightBytes(v: nat)
    ensures Bytes(v, 8) ==
      [v / 0x100_0000_0000_0000 % 0x100, v / 0x1_0000_0000_0000 % 0x100, v / 0x100_0000_0000 % 0x100,
       v / 0x1_0000_0000 % 0x100, v / 0x100_0000 % 0x100, v / 0x1_0000 % 0x100, v / 0x100 % 0x100, v % 0x100]
  {
    var h := v / 0x1_0000_0000;
    FourBytes(v, 4);
    FourBytes(h, 0);
    assert h / 0x100 == v / 0x100_0000_0000 && h / 0x1_0000 == v / 0x1_0000_0000_0000;
    assert h / 0x100_0000 == v / 0x100_0000_0000_0000;
  }

  lemma LastTwo(s: seq<byte>, a: byte, b: byte)
    ensures BigEndian(s + [a, b]) == BigEndian(s) * 0x1_0000 + a * 0x100 + b
  {
    assert (s + [a, b])[..|s| + 1] == s + [a];
    assert (s + [a])[..|s|] == s;
  }

  // ---------- section 16 of RFC 9000 ----------

  const VARINT62_LIMIT := 0x4000_0000_0000_0000

  /** How many bytes a number takes; 0 when it has no encoding. */
  function VarInt62Len(v: nat): nat {
    if v >= VARINT62_LIMIT then 0
    else if v >= 0x4000_0000 then 8
    else if v >= 0x4000 then 4
    else if v >= 0x40 then 2
    else 1
  }

  /** The bit masks of the source are comparisons with powers of two. */
  lemma MasksAreThresholds(v: bv64)
    ensures v & 0xc000_0000_0000_0000 != 0 <==> v >= 0x4000_0000_0000_0000
    ensures v < 0x4000_0000_0000_0000 ==> (v & 0x3fff_ffff_c000_0000 != 0 <==> v >= 0x4000_0000)
    ensures v < 0x4000_0000 ==> (v & 0x3fff_c000 != 0 <==> v >= 0x4000)
    ensures v < 0x4000 ==> (v & 0x3fc0 != 0 <==> v >= 0x40)
  {
  }

  /** The two most significant bits of the first byte hold the base-2 logarithm of the length. */
  function LengthOf(first: byte): nat {
    if first < 0x40 then 1 else if first < 0x80 then 2 else if first < 0xc0 then 4 else 8
  }

  function LengthBits(n: nat): byte {
    if n == 8 then 0xc0 else if n == 4 then 0x80 else if n == 2 then 0x40 else 0
  }

  /** The number in network byte order with the length bits on top of the first byte. */
  function EncodeVarInt62(v: nat): (s: seq<byte>)
    requires v < VARINT62_LIMIT
    ensures |s| == VarInt62Len(v) && LengthOf(s[0]) == |s|
  {
    TopByte(v);
    var s := Bytes(v, VarInt62Len(v));
    s[0 := s[0] + LengthBits(|s|)]
  }

  function DecodeVarInt62(s: seq<byte>): (d: Decoded)
    ensures d.Decoded? ==> 0 < d.used <= |s| && d.used == LengthOf(s[0])
  {
    if s == [] || |s| < LengthOf(s[0]) then Undecodable
    else
      var n := LengthOf(s[0]);
      Decoded(BigEndian(s[..n][0 := s[0] % 0x40]), n)
  }

  /** Examples of appendix A.1 of RFC 9000. */
  lemma StandardExamples()
    ensures EncodeVarInt62(37) == [0x25] && EncodeVarInt62(15293) == [0x7b, 0xbd]
    ensures EncodeVarInt62(494878333) == [0x9d, 0x7f, 0x3e, 0x7d]
    ensures DecodeVarInt62([0x40, 0x25]) == Decoded(37, 2)
  {
    hide EncodeVarInt62, DecodeVarInt62;
    EncodingIs(37);
    EncodingIs(15293);
    EncodingIs(494878333);
    LongerForm();
  }

  lemma LongerForm()
    ensures DecodeVarInt62([0x40, 0x25]) == Decoded(37, 2)
  {
    LastTwo([], 0, 37);
    assert [0x40, 0x25][..2][0 := 0x40 % 0x40] == [] + [0, 37];
  }

  /** The number fits its bytes and leaves the two most significant bits of the first one free. */
  lemma TopByte(v: nat)
    requires v < VARINT62_LIMIT
    ensures Bytes(v, VarInt62Len(v))[0] < 0x40 && v < Power256(VarInt62Len(v))
  {
    hide Bytes;
    PowersOf256();
    if VarInt62Len(v) == 8 {
      EightBytes(v);
      SmallRemainder(v / 0x100_0000_0000_0000);
    } else {
      ShortBytes(v);
    }
  }

  /** The encodings byte by byte. */
  lemma EncodingIs(v: nat)
    requires v < VARINT62_LIMIT
    ensures
      var e := EncodeVarInt62(v);
      && (VarInt62Len(v) == 1 ==> e == [v % 0x40])
      && (VarInt62Len(v) == 2 ==> e == [v / 0x100 % 0x40 + 0x40, v % 0x100])
      && (VarInt62Len(v) == 4 ==>
            e == [v / 0x100_0000 % 0x40 + 0x80, v / 0x1_0000 % 0x100, v / 0x100 % 0x100, v % 0x100])
      && (VarInt62Len(v) == 8 ==>
            e == [v / 0x100_0000_0000_0000 % 0x40 + 0xc0, v / 0x1_0000_0000_0000 % 0x100, v / 0x100_0000_0000 % 0x100,
                  v / 0x1_0000_0000 % 0x100, v / 0x100_0000 % 0x100, v / 0x1_0000 % 0x100, v / 0x100 % 0x100,
                  v % 0x100])
  {
    hide Bytes;
    if VarInt62Len(v) == 8 {
      EightBytes(v);
      SmallRemainder(v / 0x100_0000_0000_0000);
    } else {
      ShortBytes(v);
    }
  }

  lemma ShortBytes(v: nat)
    requires v < 0x4000_0000
    ensures v < 0x40 ==> Bytes(v, 1) == [v % 0x40]
    ensures v < 0x4000 ==> Bytes(v, 2) == [v / 0x100 % 0x40, v % 0x100]
    ensures Bytes(v, 4) == [v / 0x100_0000 % 0x40, v / 0x1_0000 % 0x100, v / 0x100 % 0x100, v % 0x100]
  {
    hide Bytes;
    UpToFour(v);
    SmallRemainder(v / 0x100_0000);
    SmallRemainder(v / 0x100);
    SmallRemainder(v);
  }

  lemma SmallRemainder(v: nat)
    ensures v < 0x40 ==> v % 0x100 == v % 0x40 == v
  {
  }

  lemma UpToFour(v: nat)
    ensures Bytes(v, 1) == [v % 0x100] && Bytes(v, 2) == [v / 0x100 % 0x100, v % 0x100]
    ensures Bytes(v, 4) == [v / 0x100_0000 % 0x100, v / 0x1_0000 % 0x100, v / 0x100 % 0x100, v % 0x100]
  {
    assert Bytes(v, 1) == Bytes(v / 0x100, 0) + [v % 0x100];
    TwoBytes(v, 0);
    FourBytes(v, 0);
  }

  /** Reading after writing gives the number back and stops exactly behind it, whatever follows. */
  lemma VarInt62RoundTrip(v: nat, rest: seq<byte>)
    requires v < VARINT62_LIMIT
    ensures DecodeVarInt62(EncodeVarInt62(v) + rest) == Decoded(v, VarInt62Len(v))
  {
    hide BigEndian, Bytes, Power256;
    TopByte(v);
    var n, e := VarInt62Len(v), EncodeVarInt62(v);
    var s := e + rest;
    BytesRoundTrip(v, n);
    assert s[..n] == e && s[0] == e[0] && e[0] % 0x40 == Bytes(v, n)[0];
    assert e[0 := e[0] % 0x40] == Bytes(v, n);
  }

  /** Whether and how a number can be read is settled by the bytes it takes: more bytes behind it change nothing. */
  lemma MoreBytesChangeNothing(s: seq<byte>, more: seq<byte>)
    ensures DecodeVarInt62(s).Decoded? ==> DecodeVarInt62(s + more) == DecodeVarInt62(s)
  {
    if DecodeVarInt62(s).Decoded? {
      var n := LengthOf(s[0]);
      assert (s + more)[0] == s[0] && (s + more)[..n] == s[..n];
    }
  }

  /** No encoding is the start of another one. */
  lemma EncodingsArePrefixFree(v: nat, w: nat, x: seq<byte>, y: seq<byte>)
    requires v < VARINT62_LIMIT && w < VARINT62_LIMIT && EncodeVarInt62(v) + x == EncodeVarInt62(w) + y
    ensures v == w && x == y
  {
    VarInt62RoundTrip(v, x);
    VarInt62RoundTrip(w, y);
    assert x == (EncodeVarInt62(v) + x)[VarInt62Len(v)..];
    assert y == (EncodeVarInt62(w) + y)[VarInt62Len(w)..];
  }

  /** Whatever can be decoded is below 2^62, and the encoding written is never longer than the one read. */
  lemma EncodingIsShortest(s: seq<byte>)
    requires DecodeVarInt62(s).Decoded?
    ensures DecodeVarInt62(s).value < VARINT62_LIMIT
    ensures VarInt62Len(DecodeVarInt62(s).value) <= DecodeVarInt62(s).used
  {
    var n := LengthOf(s[0]);
    var t := s[..n][0 := s[0] % 0x40];
    FirstByteBounds(t);
  }

  lemma FirstByteBounds(t: seq<byte>)
    requires (|t| == 1 || |t| == 2 || |t| == 4 || |t| == 8) && t[0] < 0x40
    ensures BigEndian(t) < 0x40 * Power256(|t| - 1)
    ensures |t| == 1 ==> BigEndian(t) < 0x40
    ensures |t| == 2 ==> BigEndian(t) < 0x4000
    ensures |t| == 4 ==> BigEndian(t) < 0x4000_0000
    ensures |t| == 8 ==> BigEndian(t) < VARINT62_LIMIT
  {
    LeadingByte(t);
    assert Power256(3) == 0x100 * Power256(2);
    assert Power256(5) == 0x100 * (0x100 * Power256(3));
    assert Power256(7) == 0x100 * (0x100 * Power256(5));
  }

  lemma {:induction false} LeadingByte(t: seq<byte>)
    requires t != []
    ensures BigEndian(t) < (t[0] + 1) * Power256(|t| - 1)
  {
    if |t| > 1 {
      var front := t[..|t| - 1];
      LeadingByte(front);
      var p, k: nat := Power256(|t| - 2), t[0];
      assert (k + 1) * (0x100 * p) == 0x100 * ((k + 1) * p);
    }
  }

  /** What is read is the encoding that would be written exactly if it is as long. */
  lemma ShortestIsUnique(s: seq<byte>)
    requires DecodeVarInt62(s).Decoded?
    ensures
      var d := DecodeVarInt62(s);
      d.value < VARINT62_LIMIT && (d.used == VarInt62Len(d.value) <==> EncodeVarInt62(d.value) <= s)
  {
    hide BigEndian, Bytes;
    EncodingIsShortest(s);
    var d := DecodeVarInt62(s);
    var e := EncodeVarInt62(d.value);
    assert e <= s ==> e[0] == s[0];
    if d.used == VarInt62Len(d.value) {
      NumberRoundTrip(s[..d.used][0 := s[0] % 0x40]);
      assert s[..d.used] == e;
    }
  }

  // ---------- base 128 ----------

  const VARINT_LIMIT := 0x100_0000_0000_0000

  /** How many bytes a number takes in base 128; 0 when it needs more than eight. */
  function VarIntLen(v: nat): nat {
    if v <= 0x7f then 1
    else if v <= 0x3fff then 2
    else if v <= 0x1f_ffff then 3
    else if v <= 0xfff_ffff then 4
    else if v <= 0x7_ffff_ffff then 5
    else if v <= 0x3ff_ffff_ffff then 6
    else if v <= 0x1_ffff_ffff_ffff then 7
    else if v <= 0xff_ffff_ffff_ffff then 8
    else 0
  }

  /** Base-128 digits, least significant first; every digit but the last carries the continuation bit. */
  function EncodeVarInt(v: nat): (s: seq<byte>)
    ensures s != []
  {
    if v < 0x80 then [v] else [v % 0x80 + 0x80] + EncodeVarInt(v / 0x80)
  }

  /** The number the digits stand for, continuation bits ignored. */
  function Base128(s: seq<byte>): nat {
    if s == [] then 0 else s[0] % 0x80 + 0x80 * Base128(s[1..])
  }

  /** How many bytes there are up to and including the first one without a continuation bit; 0 if there is none. */
  function Terminated(s: seq<byte>): (n: nat)
    ensures n <= |s|
    ensures n == 0 <==> forall i :: 0 <= i < |s| ==> s[i] >= 0x80
    ensures n > 0 ==> s[n - 1] < 0x80 && forall i :: 0 <= i < n - 1 ==> s[i] >= 0x80
  {
    if s == [] then 0
    else if s[0] < 0x80 then 1
    else
      var rest := Terminated(s[1..]);
      assert forall i :: 0 < i < |s| ==> s[i] == s[1..][i - 1];
      assert forall i :: 0 <= i < |s[1..]| ==> s[1..][i] == s[i + 1];
      if rest == 0 then 0 else rest + 1
  }

  function DecodeVarInt(s: seq<byte>): Decoded {
    var n := Terminated(s);
    if 0 < n <= 8 then Decoded(Base128(s[..n]), n) else Undecodable
  }

  /** The number of digits written is the announced length, and exactly the numbers below 2^56 have one. */
  lemma VarIntLength(v: nat)
    ensures VarIntLen(v) > 0 <==> v < VARINT_LIMIT
    ensures v < VARINT_LIMIT ==> |EncodeVarInt(v)| == VarIntLen(v) <= 8
    decreases v
  {
    if 0x80 <= v < VARINT_LIMIT {
      VarIntLength(v / 0x80);
    }
  }

  lemma VarIntDigits(v: nat)
    ensures v >= 0x80 ==> EncodeVarInt(v) == [v % 0x80 + 0x80] + EncodeVarInt(v / 0x80)
    ensures v < 0x80 ==> EncodeVarInt(v) == [v]
  {
  }

  lemma {:induction false} DigitsRoundTrip(v: nat, rest: seq<byte>)
    ensures Terminated(EncodeVarInt(v) + rest) == |EncodeVarInt(v)| && Base128(EncodeVarInt(v)) == v
    decreases v
  {
    hide Terminated, Base128;
    if v < 0x80 {
      LastDigit(v, rest);
    } else {
      var later := EncodeVarInt(v / 0x80);
      DigitsRoundTrip(v / 0x80, rest);
      MoreDigits(v % 0x80 + 0x80, later);
      MoreDigits(v % 0x80 + 0x80, later + rest);
      assert [v % 0x80 + 0x80] + later + rest == [v % 0x80 + 0x80] + (later + rest);
    }
  }

  lemma LastDigit(d: byte, rest: seq<byte>)
    requires d < 0x80
    ensures Terminated([d] + rest) == 1 && Base128([d]) == d
  {
    assert [d][1..] == [];
  }

  lemma MoreDigits(d: byte, s: seq<byte>)
    requires d >= 0x80
    ensures Base128([d] + s) == d - 0x80 + 0x80 * Base128(s)
    ensures Terminated(s) > 0 ==> Terminated([d] + s) == Terminated(s) + 1
  {
    assert ([d] + s)[1..] == s;
  }

  /** The digits one by one: seven bits each, the least significant first, all but the last with a continuation bit. */
  lemma {:induction false} DigitsAre(v: nat, i: nat)
    requires i < |EncodeVarInt(v)|
    ensures EncodeVarInt(v)[i] == v / Power128(i) % 0x80 + if i < |EncodeVarInt(v)| - 1 then 0x80 else 0
    decreases v
  {
    if v >= 0x80 && i > 0 {
      DigitsAre(v / 0x80, i - 1);
      DividedTwice(v, Power128(i - 1));
    } else {
      assert Power128(0) == 1;
    }
  }

  function Power128(n: nat): (p: nat)
    ensures p > 0
  {
    if n == 0 then 1 else 0x80 * Power128(n - 1)
  }

  lemma DividedTwice(v: nat, p: nat)
    requires p > 0
    ensures v / 0x80 / p == v / (0x80 * p)
  {
    var a := v / 0x80;
    var q, r := a / p, a % p;
    assert v == 0x80 * (q * p + r) + v % 0x80;
    assert 0x80 * (q * p + r) == q * (0x80 * p) + 0x80 * r;
    assert 0x80 * r + v % 0x80 < 0x80 * p;
    QuotientIs(v, 0x80 * p, q, 0x80 * r + v % 0x80);
  }

  lemma QuotientIs(v: nat, d: nat, q: nat, r: nat)
    requires d > 0 && r < d && v == q * d + r
    ensures v / d == q
  {
    var x := v / d;
    assert x * d <= v < (x + 1) * d;
    assert x < q ==> (x + 1) * d <= q * d;
    assert x > q ==> (q + 1) * d <= x * d;
  }

  /** Reading after writing gives the number back, for every number the writer accepts. */
  lemma VarIntRoundTrip(v: nat, rest: seq<byte>)
    requires v < VARINT_LIMIT
    ensures DecodeVarInt(EncodeVarInt(v) + rest) == Decoded(v, VarIntLen(v))
  {
    hide EncodeVarInt, Terminated, Base128, VarIntLen;
    DigitsRoundTrip(v, rest);
    VarIntLength(v);
    assert (EncodeVarInt(v) + rest)[..|EncodeVarInt(v)|] == EncodeVarInt(v);
  }

  // ---------- writing into a buffer ----------

  class DataWriter {
    const buffer: array<byte>
    var length: nat

    predicate Valid()
      reads this
    {
      length <= buffer.Length
    }

    /** The payload so far. */
    function Contents(): (s: seq<byte>)
      requires Valid()
      reads this, buffer
      ensures |s| == length
    {
      buffer[..length]
    }

    constructor (buffer: array<byte>)
      ensures Valid() && this.buffer == buffer && length == 0
    {
      this.buffer := buffer;
      length := 0;
    }

    method WriteBytes(data: seq<byte>) returns (ok: bool)
      requires Valid()
      modifies this`length, buffer
      ensures Valid() && (ok <==> old(length) + |data| <= buffer.Length)
      ensures Contents() == old(Contents()) + if ok then data else []
    {
      if buffer.Length - length < |data| {
        return false;
      }
      forall i | 0 <= i < |data| {
        buffer[length + i] := data[i];
      }
      length := length + |data|;
      ok := true;
      assert buffer[..length] == old(buffer[..length]) + data;
    }

    method WriteUInt8(value: byte) returns (ok: bool)
      requires Valid()
      modifies this`length, buffer
      ensures Valid() && (ok <==> old(length) + 1 <= buffer.Length)
      ensures Contents() == old(Contents()) + if ok then [value] else []
    {
      ok := WriteBytes([value]);
    }

    /** The host's number goes out in network byte order. */
    method WriteUInt16(value: nat) returns (ok: bool)
      requires Valid() && value < 0x1_0000
      modifies this`length, buffer
      ensures Valid() && (ok <==> old(length) + 2 <= buffer.Length)
      ensures Contents() == old(Contents()) + if ok then Bytes(value, 2) else []
    {
      ok := WriteBytes(Bytes(value, 2));
    }

    method WriteUInt32(value: nat) returns (ok: bool)
      requires Valid() && value < 0x1_0000_0000
      modifies this`length, buffer
      ensures Valid() && (ok <==> old(length) + 4 <= buffer.Length)
      ensures Contents() == old(Contents()) + if ok then Bytes(value, 4) else []
    {
      ok := WriteBytes(Bytes(value, 4));
    }

    /** The eight bytes of a large number. */
    method Put8(value: uint64)
      requires Valid() && 0x4000_0000 <= value < VARINT62_LIMIT && length + 8 <= buffer.Length
      modifies this`length, buffer
      ensures Valid() && length == old(length) + 8 && Contents() == old(Contents()) + EncodeVarInt62(value)
    {
      hide EncodeVarInt62;
      EncodingIs(value);
      var next := length;
      buffer[next] := value / 0x100_0000_0000_0000 % 0x40 + 0xc0;
      buffer[next + 1] := value / 0x1_0000_0000_0000 % 0x100;
      buffer[next + 2] := value / 0x100_0000_0000 % 0x100;
      buffer[next + 3] := value / 0x1_0000_0000 % 0x100;
      buffer[next + 4] := value / 0x100_0000 % 0x100;
      buffer[next + 5] := value / 0x1_0000 % 0x100;
      buffer[next + 6] := value / 0x100 % 0x100;
      buffer[next + 7] := value % 0x100;
      length := length + 8;
      assert buffer[..length] == old(buffer[..length]) + EncodeVarInt62(value);
    }

    method Put4(value: uint64)
      requires Valid() && 0x4000 <= value < 0x4000_0000 && length + 4 <= buffer.Length
      modifies this`length, buffer
      ensures Valid() && length == old(length) + 4 && Contents() == old(Contents()) + EncodeVarInt62(value)
    {
      hide EncodeVarInt62;
      EncodingIs(value);
      var next := length;
      buffer[next] := value / 0x100_0000 % 0x40 + 0x80;
      buffer[next + 1] := value / 0x1_0000 % 0x100;
      buffer[next + 2] := value / 0x100 % 0x100;
      buffer[next + 3] := value % 0x100;
      length := length + 4;
      assert buffer[..length] == old(buffer[..length]) + EncodeVarInt62(value);
    }

    method Put2(value: uint64)
      requires Valid() && 0x40 <= value < 0x4000 && length + 2 <= buffer.Length
      modifies this`length, buffer
      ensures Valid() && length == old(length) + 2 && Contents() == old(Contents()) + EncodeVarInt62(value)
    {
      hide EncodeVarInt62;
      EncodingIs(value);
      var next := length;
      buffer[next] := value / 0x100 % 0x40 + 0x40;
      buffer[next + 1] := value % 0x100;
      length := length + 2;
      assert buffer[..length] == old(buffer[..length]) + EncodeVarInt62(value);
    }

    /** Fails exactly for a number without encoding or a buffer without room, and then writes nothing. */
    method WriteVarInt62(value: uint64) returns (ok: bool)
      requires Valid()
      modifies this`length, buffer
      ensures Valid() && (ok <==> value < VARINT62_LIMIT && old(length) + VarInt62Len(value) <= buffer.Length)
      ensures Contents() == old(Contents()) + if ok then EncodeVarInt62(value) else []
    {
      hide EncodeVarInt62;
      ok := false;
      var remaining := buffer.Length - length;
      if value >= VARINT62_LIMIT {
        return;
      }
      if value >= 0x4000_0000 {
        if remaining >= 8 {
          Put8(value);
          ok := true;
        }
        return;
      }
      if value >= 0x4000 {
        if remaining >= 4 {
          Put4(value);
          ok := true;
        }
        return;
      }
      if value >= 0x40 {
        if remaining >= 2 {
          Put2(value);
          ok := true;
        }
        return;
      }
      if remaining >= 1 {
        EncodingIs(value);
        buffer[length] := value % 0x40;
        length := length + 1;
        assert buffer[..length] == old(buffer[..length]) + EncodeVarInt62(value);
        ok := true;
      }
    }

    /** All digits are written or none. */
    method WriteVarInt(value: uint64) returns (ok: bool)
      requires Valid()
      modifies this`length, buffer
      ensures Valid() && (ok <==> value < VARINT_LIMIT && old(length) + VarIntLen(value) <= buffer.Length)
      ensures Contents() == old(Contents()) + if ok then EncodeVarInt(value) else []
    {
      hide EncodeVarInt, VarIntLen;
      VarIntLength(value);
      var need := VarIntLen(value);
      if need == 0 || need > buffer.Length - length {
        return false;
      }
      var next: nat := value;
      var more := true;
      while more
        invariant Valid() && length <= old(length) + need
        invariant more ==> Contents() + EncodeVarInt(next) == old(Contents()) + EncodeVarInt(value)
        invariant !more ==> Contents() == old(Contents()) + EncodeVarInt(value)
        decreases if more then 1 else 0, next
      {
        ghost var before, rest := Contents(), EncodeVarInt(next);
        assert |before + rest| == old(length) + need;
        VarIntDigits(next);
        var first := next % 0x80;
        next := next / 0x80;
        var wrote := WriteUInt8(if next > 0 then first + 0x80 else first);
        more := next > 0;
        assert more ==> before + rest == before + [first + 0x80] + EncodeVarInt(next);
      }
      ok := true;
    }
  }

  // ---------- reading from a buffer ----------

  class DataReader {
    const data: seq<byte>
    var pos: nat

    predicate Valid()
      reads this
    {
      pos <= |data|
    }

    /** What has not been read yet. */
    function Rest(): seq<byte>
      requires Valid()
      reads this
    {
      data[pos..]
    }

    constructor (data: seq<byte>)
      ensures Valid() && this.data == data && pos == 0
    {
      this.data := data;
      pos := 0;
    }

    /** A read beyond the end also uses up what is left. */
    method ReadBytes(size: nat) returns (ok: bool, result: seq<byte>)
      requires Valid()
      modifies this`pos
      ensures Valid() && (ok <==> size <= |old(Rest())|)
      ensures ok ==> result == old(Rest())[..size] && Rest() == old(Rest())[size..]
      ensures !ok ==> Rest() == []
    {
      if size > |data| - pos {
        pos := |data|;
        return false, [];
      }
      result := data[pos..pos + size];
      pos := pos + size;
      ok := true;
    }

    method ReadUInt8() returns (ok: bool, result: byte)
      requires Valid()
      modifies this`pos
      ensures Valid() && (ok <==> old(Rest()) != [])
      ensures ok ==> result == old(Rest())[0] && Rest() == old(Rest())[1..]
      ensures !ok ==> Rest() == []
    {
      var bytes;
      ok, bytes := ReadBytes(1);
      result := if ok then bytes[0] else 0;
    }

    /** Reads a number of n bytes in network byte order. */
    method ReadUInt(n: nat) returns (ok: bool, result: nat)
      requires Valid()
      modifies this`pos
      ensures Valid() && (ok <==> n <= |old(Rest())|)
      ensures ok ==> result == BigEndian(old(Rest())[..n]) && Rest() == old(Rest())[n..]
      ensures !ok ==> Rest() == []
    {
      var bytes;
      ok, bytes := ReadBytes(n);
      result := if ok then BigEndian(bytes) else 0;
    }

    /** A number that is not complete yet is left where it is. */
    method ReadVarInt62() returns (ok: bool, result: nat)
      requires Valid()
      modifies this`pos
      ensures Valid()
      ensures
        var d := DecodeVarInt62(old(Rest()));
        && (ok <==> d.Decoded?)
        && (if ok then result == d.value && pos == old(pos) + d.used else pos == old(pos))
    {
      var remaining, next := |data| - pos, pos;
      ok, result := false, 0;
      if remaining == 0 {
        return;
      }
      var a: nat := data[next] % 0x40;
      if data[next] >= 0xc0 {
        if remaining >= 8 {
          var b: nat, c: nat, d: nat, e: nat := data[next + 1], data[next + 2], data[next + 3], data[next + 4];
          var f: nat, g: nat, h: nat := data[next + 5], data[next + 6], data[next + 7];
          EightRead(data[next..], a, b, c, d, e, f, g, h);
          result := a * 0x100_0000_0000_0000 + b * 0x1_0000_0000_0000 + c * 0x100_0000_0000 + d * 0x1_0000_0000
            + e * 0x100_0000 + f * 0x1_0000 + g * 0x100 + h;
          pos := pos + 8;
          ok := true;
        }
        return;
      }
      if data[next] >= 0x80 {
        if remaining >= 4 {
          var b: nat, c: nat, d: nat := data[next + 1], data[next + 2], data[next + 3];
          FourRead(data[next..], a, b, c, d);
          result := a * 0x100_0000 + b * 0x1_0000 + c * 0x100 + d;
          pos := pos + 4;
          ok := true;
        }
        return;
      }
      if data[next] >= 0x40 {
        if remaining >= 2 {
          var b: nat := data[next + 1];
          TwoRead(data[next..], a, b);
          result := a * 0x100 + b;
          pos := pos + 2;
          ok := true;
        }
        return;
      }
      OneRead(data[next..]);
      result := a;
      pos := pos + 1;
      ok := true;
    }

    /** Gives up on a number of more than eight digits, and on one whose last digit has not arrived. */
    method ReadVarInt() returns (ok: bool, result: nat)
      requires Valid()
      modifies this`pos
      ensures Valid()
      ensures
        var d := DecodeVarInt(old(Rest()));
        && (ok <==> d.Decoded?)
        && (if ok then result == d.value && pos == old(pos) + d.used else pos == old(pos))
    {
      hide Base128, Terminated;
      ghost var s := Rest();
      var remaining := |data| - pos;
      var length, decodable, i := 0, false, 0;
      while i < remaining
        invariant 0 <= i <= remaining && length == i && !decodable && i <= 8 && pos == old(pos)
        invariant forall k :: 0 <= k < i ==> s[k] >= 0x80
      {
        length := length + 1;
        if data[pos + i] < 0x80 {
          decodable := true;
          break;
        }
        if length > 8 {
          break;
        }
        i := i + 1;
      }
      result := 0;
      TerminatedIs(s, length, decodable);
      if 0 < length <= 8 && decodable {
        var multi := 1;
        i := 0;
        assert s[0..length] == s[..length];
        while i < length
          invariant 0 <= i <= length && pos == old(pos)
          invariant multi > 0 && result + multi * Base128(s[i..length]) == Base128(s[..length])
        {
          var digit: nat := data[pos + i] % 0x80;
          NextDigit(s[..length], i, multi);
          assert s[i..length] == s[..length][i..] && s[i + 1..length] == s[..length][i + 1..];
          result := result + digit * multi;
          multi := multi * 0x80;
          i := i + 1;
        }
        NoDigits(s[length..length]);
        pos := pos + length;
        return true, result;
      }
      ok := false;
    }
  }

  lemma NoDigits(s: seq<byte>)
    ensures s == [] ==> Base128(s) == 0
  {
  }

  lemma NextDigit(s: seq<byte>, i: nat, multi: nat)
    requires i < |s|
    ensures var digit: nat := s[i] % 0x80; multi * Base128(s[i..]) == digit * multi + multi * 0x80 * Base128(s[i + 1..])
  {
    assert s[i..][1..] == s[i + 1..];
    var digit: nat, later := s[i] % 0x80, Base128(s[i + 1..]);
    assert multi * (digit + 0x80 * later) == digit * multi + multi * 0x80 * later;
  }

  lemma TerminatedIs(s: seq<byte>, length: nat, decodable: bool)
    requires length <= |s| && (forall k :: 0 <= k < length - 1 ==> s[k] >= 0x80)
    requires if decodable then length > 0 && s[length - 1] < 0x80 else length == |s| || length == 9
    requires !decodable && length > 0 ==> s[length - 1] >= 0x80
    ensures decodable ==> Terminated(s) == length
    ensures !decodable ==> Terminated(s) == 0 || Terminated(s) > 8
  {
  }

  lemma OneRead(s: seq<byte>)
    requires |s| >= 1 && s[0] < 0x40
    ensures DecodeVarInt62(s) == Decoded(s[0] % 0x40, 1)
  {
    var t := s[..1][0 := s[0] % 0x40];
    assert BigEndian(t) == BigEndian(t[..0]) * 0x100 + t[0];
  }

  lemma TwoRead(s: seq<byte>, a: nat, b: nat)
    requires |s| >= 2 && 0x40 <= s[0] < 0x80 && a == s[0] % 0x40 && b == s[1]
    ensures DecodeVarInt62(s) == Decoded(a * 0x100 + b, 2)
  {
    assert s[..2][0 := s[0] % 0x40] == [] + [a, b];
    LastTwo([], a, b);
  }

  lemma FourRead(s: seq<byte>, a: nat, b: nat, c: nat, d: nat)
    requires |s| >= 4 && 0x80 <= s[0] < 0xc0 && a == s[0] % 0x40 && b == s[1] && c == s[2] && d == s[3]
    ensures DecodeVarInt62(s) == Decoded(a * 0x100_0000 + b * 0x1_0000 + c * 0x100 + d, 4)
  {
    assert s[..4][0 := s[0] % 0x40] == [] + [a, b] + [c, d];
    LastTwo([], a, b);
    LastTwo([] + [a, b], c, d);
  }

  lemma EightRead(s: seq<byte>, a: nat, b: nat, c: nat, d: nat, e: nat, f: nat, g: nat, h: nat)
    requires |s| >= 8 && 0xc0 <= s[0] && a == s[0] % 0x40 && b == s[1] && c == s[2] && d == s[3]
    requires e == s[4] && f == s[5] && g == s[6] && h == s[7]
    ensures DecodeVarInt62(s) == Decoded(a * 0x100_0000_0000_0000 + b * 0x1_0000_0000_0000 + c * 0x100_0000_0000
      + d * 0x1_0000_0000 + e * 0x100_0000 + f * 0x1_0000 + g * 0x100 + h, 8)
  {
    hide BigEndian;
    var four := [] + [a, b] + [c, d];
    assert s[..8][0 := s[0] % 0x40] == four + [e, f] + [g, h];
    LastTwo([], a, b);
    LastTwo([] + [a, b], c, d);
    LastTwo(four, e, f);
    LastTwo(four + [e, f], g, h);
    NoNumber();
  }

  lemma NoNumber()
    ensures BigEndian([]) == 0
  {
  }
}
