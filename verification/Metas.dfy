/**
 The META message, by which a path names its session; tpproxy/mpproxy_client.cc:221-236 and
 tpproxy/mpproxy_server.cc:61-98.
 */
module Metas {
  import opened Words
  import opened ByteCodec
  import opened Framing
  import opened Receivers
  import opened Registries

  const META_BUFFER_SIZE := 1500

  datatype Meta = Meta(uuid: nat, sid: nat, ip: nat, port: nat) {
    predicate Fits() {
      uuid < VARINT62_LIMIT && sid < VARINT62_LIMIT && ip < 0x1_0000_0000 && port < 0x1_0000
    }

    function Key(): Key {
      Registries.Key.Key(uuid, sid)
    }

    function Encode(): seq<byte>
      requires Fits()
    {
      EncodeVarInt62(uuid) + EncodeVarInt62(sid) + Bytes(ip, 4) + Bytes(port, 2)
    }

    function ToFrame(): Frame
      requires Fits()
    {
      Frame(0, [MESSAGE_META] + Encode())
    }
  }

  /** A message that can be written. */
  type Sendable = m: Meta | m.Fits() witness Meta(0, 0, 0, 0)

  lemma MetaIsWritable(m: Sendable)
    ensures AllWritable([m.ToFrame()]) && IsMeta(m.ToFrame()) && !IsData(m.ToFrame())
    ensures m.ToFrame() == Frame(0, m.ToFrame().data) && 0 < |m.ToFrame().data| < VARINT62_LIMIT
  {
    MetaRoundTrip(m);
  }

  /** What a META message says; what cannot be read counts as 0. */
  function MetaOf(message: seq<byte>): Meta {
    if message == [] then Meta(0, 0, 0, 0)
    else
      var u := DecodeVarInt62(message[1..]);
      if u.Undecodable? then Meta(0, 0, 0, 0)
      else
        var rest := message[1..][u.used..];
        var s := DecodeVarInt62(rest);
        if s.Undecodable? then Meta(u.value, 0, 0, 0) else MetaWithOrigin(u.value, s.value, rest[s.used..])
  }

  function MetaWithOrigin(uuid: nat, sid: nat, rest: seq<byte>): Meta {
    Meta(uuid, sid, if |rest| < 4 then 0 else BigEndian(rest[..4]), if |rest| < 6 then 0 else BigEndian(rest[4..6]))
  }

  lemma MetaBytes(m: Meta)
    requires m.Fits()
    ensures [] + EncodeVarInt62(m.uuid) + EncodeVarInt62(m.sid) + Bytes(m.ip, 4) + Bytes(m.port, 2) == m.Encode()
  {
    hide EncodeVarInt62, Bytes;
    assert [] + EncodeVarInt62(m.uuid) == EncodeVarInt62(m.uuid);
  }

  lemma OriginRoundTrip(m: Meta)
    requires m.Fits()
    ensures MetaWithOrigin(m.uuid, m.sid, Bytes(m.ip, 4) + Bytes(m.port, 2)) == m
  {
    hide Bytes, BigEndian;
    var ip, port := Bytes(m.ip, 4), Bytes(m.port, 2);
    assert Power256(2) == 0x1_0000 && Power256(4) == 0x1_0000_0000 by {
      assert Power256(1) == 0x100 && Power256(3) == 0x100_0000;
    }
    BytesRoundTrip(m.ip, 4);
    BytesRoundTrip(m.port, 2);
    assert (ip + port)[..4] == ip && (ip + port)[4..6] == port;
  }

  /** The message byte by byte, the numbers of client and session aside. */
  lemma MetaIs(m: Meta)
    requires m.Fits()
    ensures m.ToFrame().offset == 0
    ensures m.ToFrame().data == [1] + EncodeVarInt62(m.uuid) + EncodeVarInt62(m.sid)
      + [m.ip / 0x100_0000, m.ip / 0x1_0000 % 0x100, m.ip / 0x100 % 0x100, m.ip % 0x100]
      + [m.port / 0x100, m.port % 0x100]
  {
    hide EncodeVarInt62, Bytes;
    AddressBytes(m.ip);
    PortBytes(m.port);
    var a, b, c, d := EncodeVarInt62(m.uuid), EncodeVarInt62(m.sid), Bytes(m.ip, 4), Bytes(m.port, 2);
    assert [1] + (a + b + c + d) == [1] + a + b + c + d;
  }

  lemma AddressBytes(v: nat)
    requires v < 0x1_0000_0000
    ensures Bytes(v, 4) == [v / 0x100_0000, v / 0x1_0000 % 0x100, v / 0x100 % 0x100, v % 0x100]
  {
    FourBytes(v, 0);
    assert Bytes(v / 0x1_0000_0000, 0) == [] && v / 0x100_0000 < 0x100;
  }

  lemma PortBytes(v: nat)
    requires v < 0x1_0000
    ensures Bytes(v, 2) == [v / 0x100, v % 0x100]
  {
    TwoBytes(v, 0);
    assert Bytes(v / 0x1_0000, 0) == [] && v / 0x100 < 0x100;
  }

  /** The receiver reads what the sender wrote: the session and the address of the origin. */
  lemma MetaRoundTrip(m: Meta)
    requires m.Fits()
    ensures MetaOf(m.ToFrame().data) == m && IsMeta(m.ToFrame()) && |m.Encode()| <= 22
  {
    hide EncodeVarInt62, DecodeVarInt62, Bytes, MetaWithOrigin;
    var a, b, c := EncodeVarInt62(m.uuid), EncodeVarInt62(m.sid), Bytes(m.ip, 4) + Bytes(m.port, 2);
    assert m.Encode() == a + (b + c);
    assert m.ToFrame().data[1..] == a + (b + c);
    VarInt62RoundTrip(m.uuid, b + c);
    VarInt62RoundTrip(m.sid, c);
    assert (a + (b + c))[|a|..] == b + c && (b + c)[|b|..] == c;
    OriginRoundTrip(m);
  }

  /** A message that ends early says what it holds: the client, then the session, then the address, then the port. */
  lemma PartOfMeta(m: Meta)
    requires m.Fits()
    ensures
      var client := [1] + EncodeVarInt62(m.uuid);
      var session := client + EncodeVarInt62(m.sid);
      && MetaOf([1]) == Meta(0, 0, 0, 0) && MetaOf(client) == Meta(m.uuid, 0, 0, 0)
      && MetaOf(session) == Meta(m.uuid, m.sid, 0, 0)
      && MetaOf(session + Bytes(m.ip, 4)) == Meta(m.uuid, m.sid, m.ip, 0)
  {
    hide EncodeVarInt62, Bytes, MetaOf;
    NoClient();
    ClientAlone(m.uuid);
    MetaStartsWith(m, []);
    MetaStartsWith(m, Bytes(m.ip, 4));
    NoPort(m);
    var a, b, c := EncodeVarInt62(m.uuid), EncodeVarInt62(m.sid), Bytes(m.ip, 4);
    assert [1] + a + b == [1] + (a + (b + [])) && [1] + a + b + c == [1] + (a + (b + c));
  }

  lemma NoClient()
    ensures MetaOf([1]) == Meta(0, 0, 0, 0)
  {
  }

  lemma ClientAlone(v: nat)
    requires v < VARINT62_LIMIT
    ensures MetaOf([1] + EncodeVarInt62(v)) == Meta(v, 0, 0, 0)
  {
    hide EncodeVarInt62, DecodeVarInt62;
    NumberAlone(v);
    NoNumberInNothing();
    var a := EncodeVarInt62(v);
    assert ([1] + a)[1..] == a && a[|a|..] == [];
  }

  lemma NoNumberInNothing()
    ensures DecodeVarInt62([]).Undecodable?
  {
  }

  lemma NoPort(m: Meta)
    requires m.Fits()
    ensures MetaWithOrigin(m.uuid, m.sid, []) == Meta(m.uuid, m.sid, 0, 0)
    ensures MetaWithOrigin(m.uuid, m.sid, Bytes(m.ip, 4)) == Meta(m.uuid, m.sid, m.ip, 0)
  {
    hide Bytes, BigEndian;
    PowersOf256();
    BytesRoundTrip(m.ip, 4);
    assert Bytes(m.ip, 4)[..4] == Bytes(m.ip, 4);
  }

  lemma NumberAlone(v: nat)
    requires v < VARINT62_LIMIT
    ensures DecodeVarInt62(EncodeVarInt62(v)) == Decoded(v, |EncodeVarInt62(v)|)
  {
    hide EncodeVarInt62, DecodeVarInt62;
    VarInt62RoundTrip(v, []);
    assert EncodeVarInt62(v) + [] == EncodeVarInt62(v);
  }

  /** Client and session, and whatever follows. */
  lemma MetaStartsWith(m: Meta, rest: seq<byte>)
    requires m.Fits()
    ensures MetaOf([1] + (EncodeVarInt62(m.uuid) + (EncodeVarInt62(m.sid) + rest)))
      == MetaWithOrigin(m.uuid, m.sid, rest)
  {
    hide EncodeVarInt62, DecodeVarInt62, MetaWithOrigin;
    var a, b := EncodeVarInt62(m.uuid), EncodeVarInt62(m.sid);
    var message := [1] + (a + (b + rest));
    assert message[1..] == a + (b + rest);
    VarInt62RoundTrip(m.uuid, b + rest);
    VarInt62RoundTrip(m.sid, rest);
    assert (a + (b + rest))[|a|..] == b + rest && (b + rest)[|b|..] == rest;
  }

  method MetaPayload(m: Meta) returns (payload: seq<byte>)
    requires m.Fits()
    ensures payload == m.Encode()
  {
    hide EncodeVarInt62, Bytes, Meta.Encode;
    MetaRoundTrip(m);
    MetaBytes(m);
    var buffer := new byte[META_BUFFER_SIZE];
    var writer := new DataWriter(buffer);
    var success := writer.WriteVarInt62(m.uuid);
    success := writer.WriteVarInt62(m.sid);
    success := writer.WriteUInt32(m.ip);
    success := writer.WriteUInt16(m.port);
    assert success;
    payload := writer.buffer[..writer.length];
  }

  /** Whether a message is META, and what it says. */
  method ReadMeta(data: seq<byte>) returns (isMeta: bool, meta: Meta)
    ensures isMeta <==> IsMeta(Frame(0, data))
    ensures isMeta ==> meta == MetaOf(data)
  {
    hide DecodeVarInt62, BigEndian;
    isMeta, meta := false, Meta(0, 0, 0, 0);
    var reader := new DataReader(data);
    assert reader.Rest() == data;
    var success, kind := reader.ReadUInt8();
    if !success || kind != MESSAGE_META {
      return;
    }
    isMeta := true;
    assert reader.Rest() == data[1..];
    var uuid, sid;
    success, uuid := reader.ReadVarInt62();
    if success {
      assert reader.Rest() == data[1..][DecodeVarInt62(data[1..]).used..];
      meta := meta.(uuid := uuid);
      success, sid := reader.ReadVarInt62();
      if success {
        meta := ReadOrigin(reader, uuid, sid);
      }
    }
  }

  method ReadOrigin(reader: DataReader, uuid: nat, sid: nat) returns (meta: Meta)
    requires reader.Valid()
    modifies reader`pos
    ensures meta == MetaWithOrigin(uuid, sid, old(reader.Rest()))
  {
    hide BigEndian;
    ghost var rest := reader.Rest();
    meta := Meta(uuid, sid, 0, 0);
    var success, ip := reader.ReadUInt(4);
    if success {
      var port;
      success, port := reader.ReadUInt(2);
      assert success ==> rest[4..][..2] == rest[4..6];
      meta := Meta(uuid, sid, ip, if success then port else 0);
    }
  }

  // ---------- which session a path belongs to ----------

  /** A path takes the first name it is given; a name with number 0 counts as none, and is replaced by the next. */
  function NextName(named: Option<Key>, message: seq<byte>): Option<Key> {
    if IsMeta(Frame(0, message)) && (named.None? || named.value.uuid == 0) then Some(MetaOf(message).Key()) else named
  }

  function Names(messages: seq<seq<byte>>): Option<Key> {
    if messages == [] then None
    else NextName(Names(messages[..|messages| - 1]), messages[|messages| - 1])
  }

  /** Message i names a client other than 0, and no message before it does. */
  predicate FirstRealName(messages: seq<seq<byte>>, i: nat) {
    && i < |messages| && NamesClient(messages[i])
    && forall j :: 0 <= j < i ==> !NamesClient(messages[j])
  }

  predicate NamesClient(message: seq<byte>) {
    IsMeta(Frame(0, message)) && MetaOf(message).uuid != 0
  }

  predicate LastMeta(messages: seq<seq<byte>>, i: nat) {
    && i < |messages| && IsMeta(Frame(0, messages[i]))
    && forall j :: i < j < |messages| ==> !IsMeta(Frame(0, messages[j]))
  }

  /** The name that stays is the first one with a number other than 0. */
  lemma {:induction false} NameIsFirstReal(messages: seq<seq<byte>>, i: nat)
    requires FirstRealName(messages, i)
    ensures Names(messages) == Some(MetaOf(messages[i]).Key())
  {
    hide MetaOf;
    var n := |messages| - 1;
    if i < n {
      NameIsFirstReal(messages[..n], i);
    } else {
      assert forall j :: 0 <= j < n ==> messages[..n][j] == messages[j];
      NameWithoutNumber(messages[..n]);
    }
  }

  /** If there is none it is the last one given. */
  lemma {:induction false} NameWithoutNumber(messages: seq<seq<byte>>)
    requires forall i :: 0 <= i < |messages| ==> !NamesClient(messages[i])
    ensures Names(messages).Some? ==> Names(messages).value.uuid == 0
    ensures forall i: nat :: LastMeta(messages, i) ==> Names(messages) == Some(MetaOf(messages[i]).Key())
    ensures (forall i :: 0 <= i < |messages| ==> !IsMeta(Frame(0, messages[i]))) ==> Names(messages).None?
  {
    hide MetaOf;
    if messages != [] {
      var n := |messages| - 1;
      var before := messages[..n];
      assert messages == before + [messages[n]];
      NameWithoutNumber(before);
      assert !NamesClient(messages[n]);
      forall i: nat | LastMeta(messages, i) && i < n
        ensures Names(messages) == Some(MetaOf(messages[i]).Key())
      {
        assert LastMeta(before, i) && !IsMeta(Frame(0, messages[n]));
      }
    }
  }
}
