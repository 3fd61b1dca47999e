/** proto/packet.go: a packet as a length-prefixed frame, compressed above a threshold.

    A mode is the client's compression threshold, negative while compression is off.
    zlib (RFC 1950) is a pair of functions with the one law the codec relies on. */
module Framing {
  import opened Bytes
  import opened VarInt

  datatype RawPacket = RawPacket(id: byte, data: seq<byte>)

  /** `decompress` takes the advertised length and fails when the output differs from it. */
  datatype Zlib = Zlib(compress: seq<byte> -> seq<byte>, decompress: (seq<byte>, int) -> Option<seq<byte>>)

  ghost predicate Lawful(z: Zlib) {
    forall x: seq<byte> :: z.decompress(z.compress(x), |x|) == Some(x)
  }

  /** Packet ID and data, the unit that compression works on. */
  function Body(p: RawPacket): (s: seq<byte>)
    ensures |s| > |p.data|
  {
    Encoding(p.id) + p.data
  }

  predicate Compresses(mode: int32, p: RawPacket) {
    mode >= 0 && ToInt32(|Body(p)|) > mode
  }

  function EncodeWithoutLen(z: Zlib, mode: int32, p: RawPacket): seq<byte> {
    if mode < 0 then Body(p)
    else if Compresses(mode, p) then Encoding(ToInt32(|Body(p)|)) + z.compress(Body(p))
    else Encoding(0) + Body(p)
  }

  function EncodeWithLen(z: Zlib, mode: int32, p: RawPacket): seq<byte> {
    var payload := EncodeWithoutLen(z, mode, p);
    Encoding(ToInt32(|payload|)) + payload
  }

  /** readPacketIDData: the ID keeps its low byte only. */
  function ReadIdData(buf: seq<byte>): Option<RawPacket> {
    var (id, data) :- TakeVarInt(buf);
    Some(RawPacket(id % 0x100, data))
  }

  function DecodeWithoutLen(z: Zlib, mode: int32, buf: seq<byte>): Option<RawPacket> {
    if mode < 0 then ReadIdData(buf)
    else
      var (dataLen, body) :- TakeVarInt(buf);
      if dataLen == 0 then ReadIdData(body)
      else
        var plain :- z.decompress(body, dataLen);
        ReadIdData(plain)
  }

  function DecodeWithLen(z: Zlib, mode: int32, buf: seq<byte>): Option<RawPacket> {
    var (len, body) :- TakeVarInt(buf);
    if len < 0 || len > |body| then None else DecodeWithoutLen(z, mode, body[..len])
  }

  /** What goes over the wire: the body alone without compression; otherwise a zero and the body up to
      the threshold, and the body's length and its compression above it. */
  lemma PayloadShape(z: Zlib, mode: int32, p: RawPacket)
    requires |Body(p)| < 0x8000_0000
    ensures mode < 0 ==> EncodeWithoutLen(z, mode, p) == Encoding(p.id) + p.data
    ensures 0 <= mode && |Body(p)| <= mode ==> EncodeWithoutLen(z, mode, p) == Encoding(0) + (Encoding(p.id) + p.data)
    ensures 0 <= mode < |Body(p)| ==>
              EncodeWithoutLen(z, mode, p) == Encoding(|Body(p)|) + z.compress(Encoding(p.id) + p.data)
  {
    ToInt32Fits(|Body(p)|);
  }

  /** A frame is the length of its payload and the payload. */
  lemma FrameShape(z: Zlib, mode: int32, p: RawPacket)
    requires |EncodeWithoutLen(z, mode, p)| < 0x8000_0000
    ensures EncodeWithLen(z, mode, p) == Encoding(|EncodeWithoutLen(z, mode, p)|) + EncodeWithoutLen(z, mode, p)
  {
    ToInt32Fits(|EncodeWithoutLen(z, mode, p)|);
  }

  lemma BodyRoundTrip(p: RawPacket)
    ensures ReadIdData(Body(p)) == Some(p)
  {
    VarInt.RoundTrip(p.id, p.data);
  }

  /** Every packet whose body length fits an int32 survives its encoding, in every mode. */
  lemma PayloadRoundTrip(z: Zlib, mode: int32, p: RawPacket)
    requires Lawful(z)
    requires |Body(p)| < 0x8000_0000
    ensures DecodeWithoutLen(z, mode, EncodeWithoutLen(z, mode, p)) == Some(p)
  {
    BodyRoundTrip(p);
    if mode >= 0 {
      ToInt32Fits(|Body(p)|);
      if Compresses(mode, p) {
        VarInt.RoundTrip(|Body(p)|, z.compress(Body(p)));
      } else {
        VarInt.RoundTrip(0, Body(p));
      }
    }
  }

  /** A frame decodes to its packet, whatever bytes follow it. */
  lemma FrameRoundTrip(z: Zlib, mode: int32, p: RawPacket, rest: seq<byte>)
    requires Lawful(z)
    requires |Body(p)| < 0x8000_0000 && |EncodeWithoutLen(z, mode, p)| < 0x8000_0000
    ensures DecodeWithLen(z, mode, EncodeWithLen(z, mode, p) + rest) == Some(p)
  {
    var payload := EncodeWithoutLen(z, mode, p);
    ToInt32Fits(|payload|);
    VarInt.RoundTrip(|payload|, payload + rest);
    assert EncodeWithLen(z, mode, p) + rest == Encoding(|payload|) + (payload + rest);
    assert (payload + rest)[..|payload|] == payload;
    PayloadRoundTrip(z, mode, p);
  }
}
