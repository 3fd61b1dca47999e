/** proto/packets.go and proto/encode.go: the fields and packets of the handshake and login states. */
module LoginPackets {
  import opened Bytes
  import opened VarInt

  const PACKET_HANDSHAKE: byte := 0x00
  const LOGIN_START: byte := 0x00
  const PLUGIN_RESPONSE: byte := 0x02
  const LOGIN_DISCONNECT: byte := 0x00
  const ENCRYPTION_REQUEST: byte := 0x01
  const LOGIN_SUCCESS: byte := 0x02
  const SET_COMPRESSION: byte := 0x03
  const PLUGIN_REQUEST: byte := 0x04

  const MAX_CHANNEL := 32767

  function StringField(s: seq<byte>): seq<byte> {
    Encoding(ToInt32(|s|)) + s
  }

  function BoolField(b: bool): seq<byte> {
    [if b then 1 else 0]
  }

  function TakeBool(s: seq<byte>): Parsed<bool> {
    if s == [] then None else Some((s[0] != 0, s[1..]))
  }

  function TakeU16(s: seq<byte>): Parsed<nat> {
    var (b, rest) :- TakeBytes(s, 2);
    Some((FromBigEndian(b), rest))
  }

  function TakeString(s: seq<byte>, maxLen: nat): (r: Parsed<seq<byte>>)
    ensures r.Some? ==> |r.value.1| < |s|
  {
    var (n, rest) :- TakeVarInt(s);
    if n < 0 || n > |rest| || n > maxLen then None else Some((rest[..n], rest[n..]))
  }

  lemma StringRoundTrip(v: seq<byte>, maxLen: nat, rest: seq<byte>)
    requires |v| <= maxLen && |v| < 0x8000_0000
    ensures TakeString(StringField(v) + rest, maxLen) == Some((v, rest))
  {
    StringReadsExactly(v, maxLen, rest);
  }

  /** A string reads back exactly if it is within the maximum, and is refused otherwise. */
  lemma StringReadsExactly(v: seq<byte>, maxLen: nat, rest: seq<byte>)
    requires |v| < 0x8000_0000
    ensures TakeString(StringField(v) + rest, maxLen) == if |v| <= maxLen then Some((v, rest)) else None
  {
    ToInt32Fits(|v|);
    VarInt.RoundTrip(|v|, v + rest);
    assert StringField(v) + rest == Encoding(|v|) + (v + rest);
    assert (v + rest)[..|v|] == v;
    assert (v + rest)[|v|..] == rest;
  }

  lemma BoolRoundTrip(b: bool, rest: seq<byte>)
    ensures TakeBool(BoolField(b) + rest) == Some((b, rest))
  {
    assert (BoolField(b) + rest)[1..] == rest;
  }

  lemma U16RoundTrip(v: nat, rest: seq<byte>)
    requires v < 0x1_0000
    ensures TakeU16(BigEndian(2, v) + rest) == Some((v, rest))
  {
    assert Pow256(2) == 0x1_0000 by { assert Pow256(1) == 0x100; }
    BigEndianRoundTrip(2, v);
    TakeBytesBack(BigEndian(2, v), rest);
  }

  // ---- packets ----

  datatype Handshake = Handshake(protocol: int32, serverAddr: seq<byte>, serverPort: nat, nextState: int32)

  function EncodeHandshake(h: Handshake): seq<byte> {
    Encoding(h.protocol) + (StringField(h.serverAddr) + (BigEndian(2, h.serverPort) + Encoding(h.nextState)))
  }

  function DecodeHandshake(data: seq<byte>): Option<Handshake> {
    var (protocol, s0) :- TakeVarInt(data);
    var (addr, s1) :- TakeString(s0, 255);
    var (port, s2) :- TakeU16(s1);
    var (next, _) :- TakeVarInt(s2);
    Some(Handshake(protocol, addr, port, next))
  }

  /** A handshake reads back if its address has at most 255 bytes, and is refused otherwise. */
  lemma HandshakeRoundTrip(h: Handshake)
    requires |h.serverAddr| < 0x8000_0000 && h.serverPort < 0x1_0000
    ensures DecodeHandshake(EncodeHandshake(h)) == if |h.serverAddr| <= 255 then Some(h) else None
  {
    hide TakeVarInt, Encoding, TakeString, StringField, TakeU16;
    var next := Encoding(h.nextState);
    var port := BigEndian(2, h.serverPort) + next;
    var addr := StringField(h.serverAddr) + port;
    VarInt.RoundTrip(h.protocol, addr);
    StringReadsExactly(h.serverAddr, 255, port);
    U16RoundTrip(h.serverPort, next);
    VarInt.RoundTrip(h.nextState, []);
    assert next + [] == next;
  }

  /** LoginStart: the user name. */
  function DecodeLoginStart(data: seq<byte>): Option<seq<byte>> {
    var (name, _) :- TakeString(data, 16);
    Some(name)
  }

  /** A name reads back if it has at most 16 bytes, and is refused otherwise. */
  lemma LoginStartRoundTrip(name: seq<byte>, rest: seq<byte>)
    requires |name| < 0x8000_0000
    ensures DecodeLoginStart(StringField(name) + rest) == if |name| <= 16 then Some(name) else None
  {
    StringReadsExactly(name, 16, rest);
    hide TakeString, StringField;
  }

  datatype PluginRequest = PluginRequest(id: int32, channel: seq<byte>, data: seq<byte>)

  function EncodePluginRequest(r: PluginRequest): seq<byte> {
    Encoding(r.id) + (StringField(r.channel) + r.data)
  }

  function DecodePluginRequest(data: seq<byte>): Option<PluginRequest> {
    var (id, s0) :- TakeVarInt(data);
    var (channel, rest) :- TakeString(s0, MAX_CHANNEL);
    Some(PluginRequest(id, channel, rest))
  }

  /** A request reads back if its channel has at most 32767 bytes, and is refused otherwise. */
  lemma PluginRequestRoundTrip(r: PluginRequest)
    requires |r.channel| < 0x8000_0000
    ensures DecodePluginRequest(EncodePluginRequest(r)) == if |r.channel| <= 32767 then Some(r) else None
  {
    hide TakeVarInt, Encoding, TakeString, StringField;
    VarInt.RoundTrip(r.id, StringField(r.channel) + r.data);
    StringReadsExactly(r.channel, MAX_CHANNEL, r.data);
  }

  datatype PluginResponse = PluginResponse(id: int32, successful: bool, data: seq<byte>)

  function EncodePluginResponse(r: PluginResponse): seq<byte> {
    Encoding(r.id) + (BoolField(r.successful) + r.data)
  }

  function DecodePluginResponse(data: seq<byte>): Option<PluginResponse> {
    var (id, s0) :- TakeVarInt(data);
    var (successful, rest) :- TakeBool(s0);
    Some(PluginResponse(id, successful, rest))
  }

  lemma PluginResponseRoundTrip(r: PluginResponse)
    ensures DecodePluginResponse(EncodePluginResponse(r)) == Some(r)
  {
    hide TakeVarInt, Encoding, TakeBool, BoolField;
    VarInt.RoundTrip(r.id, BoolField(r.successful) + r.data);
    BoolRoundTrip(r.successful, r.data);
  }

  function EncodeSetCompression(threshold: int32): seq<byte> {
    Encoding(threshold)
  }

  function DecodeSetCompression(data: seq<byte>): Option<int32> {
    var (threshold, _) :- TakeVarInt(data);
    Some(threshold)
  }

  lemma SetCompressionRoundTrip(threshold: int32)
    ensures DecodeSetCompression(EncodeSetCompression(threshold)) == Some(threshold)
  {
    VarInt.RoundTrip(threshold, []);
    assert Encoding(threshold) + [] == Encoding(threshold);
  }

  /** The cursor of packetReader, packetDecoder and joinGameReader: a byte slice and a position
      that each field read moves forward. */
  class PacketCursor {
    const data: seq<byte>
    var pos: nat

    constructor (bytes: seq<byte>)
      ensures data == bytes && pos == 0
    {
      data, pos := bytes, 0;
    }

    /** Group by group, in contrast to ReadVarInt, and with the same answer on every input. */
    method TakeInt() returns (value: int32, ok: bool)
      requires pos <= |data|
      modifies this
      ensures old(pos) <= pos <= |data|
      ensures ok <==> TakeVarInt(data[old(pos)..]).Some?
      ensures ok ==> TakeVarInt(data[old(pos)..]) == Some((value, data[pos..]))
    {
      ghost var s := data[pos..];
      var result: int32 := 0;
      var place: int := 1;
      for i := 0 to 5
        invariant pos == old(pos) + i <= |data|
        invariant place == Pow128(i)
        invariant result == ToInt32(GroupsValue(s[..i]))
        invariant forall k :: 0 <= k < i ==> s[k] >= 0x80
      {
        if pos >= |data| {
          NoPrefix(s, 0);
          return 0, false;
        }
        var b := data[pos];
        assert s[i] == b && s[..i + 1] == s[..i] + [b];
        pos := pos + 1;
        var group: int := b % 0x80;
        GroupsValueSnoc(s[..i], b);
        ToInt32Sum(GroupsValue(s[..i]), group * place);
        result := ToInt32(result + group * place);
        place := place * 0x80;
        if b < 0x80 {
          PrefixLengthUnique(s, i + 1, 0);
          assert s[i + 1..] == data[pos..];
          return result, true;
        }
      }
      NoPrefix(s, 0);
      return 0, false;
    }

    method TakeFlag() returns (value: bool, ok: bool)
      requires pos <= |data|
      modifies this
      ensures old(pos) <= pos <= |data|
      ensures ok <==> TakeBool(data[old(pos)..]).Some?
      ensures ok ==> TakeBool(data[old(pos)..]) == Some((value, data[pos..]))
    {
      if |data| - pos < 1 {
        return false, false;
      }
      value, ok := data[pos] != 0, true;
      pos := pos + 1;
    }

    method TakeText(maxLen: nat) returns (value: seq<byte>, ok: bool)
      requires pos <= |data|
      modifies this
      ensures old(pos) <= pos <= |data|
      ensures ok <==> TakeString(data[old(pos)..], maxLen).Some?
      ensures ok ==> TakeString(data[old(pos)..], maxLen) == Some((value, data[pos..]))
    {
      hide TakeVarInt;
      var n, intOk := TakeInt();
      if !intOk || n < 0 || n > |data| - pos || n > maxLen {
        return [], false;
      }
      value, ok := data[pos..pos + n], true;
      assert data[pos..][..n] == value && data[pos..][n..] == data[pos + n..];
      pos := pos + n;
    }

    method TakeRaw(n: nat) returns (value: seq<byte>, ok: bool)
      requires pos <= |data|
      modifies this
      ensures old(pos) <= pos <= |data|
      ensures ok <==> TakeBytes(data[old(pos)..], n).Some?
      ensures ok ==> TakeBytes(data[old(pos)..], n) == Some((value, data[pos..]))
    {
      if n > |data| - pos {
        return [], false;
      }
      value, ok := data[pos..pos + n], true;
      assert data[pos..][..n] == value && data[pos..][n..] == data[pos + n..];
      pos := pos + n;
    }
  }
}
