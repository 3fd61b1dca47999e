/** proto/stream.go: reading packets from a connection that delivers its bytes in arbitrary pieces.

    A connection is the sequence of results its reads will return. A read takes at most as many
    bytes as it is offered; what is left of a larger piece stays for the next read. Data and an
    error do not arrive in the same read. */
module PacketStream {
  import opened Bytes
  import opened VarInt
  import opened Framing

  const MAX_PACKET_LENGTH := 0x10_0000
  const MAX_BUFFERED_BYTES := MAX_PACKET_LENGTH + 5
  const BUF_SIZE := 8 * 1024

  datatype ReadEvent = Data(bytes: seq<byte>) | Eof | Reset | Fault

  datatype ReadError = EndOfStream | NoProgress | BufferLimit | Io

  datatype StreamError = Malformed | TooLarge | Limit | Stalled | Broken

  datatype Outcome = Packet(packet: RawPacket, raw: seq<byte>) | Closed | Failed(error: StreamError)

  /** The caller's buffer together with what the connection still holds. */
  datatype Source = Source(buf: seq<byte>, script: seq<ReadEvent>)

  function Flat(script: seq<ReadEvent>): seq<byte> {
    if script == [] then []
    else (if script[0].Data? then script[0].bytes else []) + Flat(script[1..])
  }

  /** All bytes the caller can still see: buffered, then undelivered. */
  function Total(s: Source): seq<byte> {
    s.buf + Flat(s.script)
  }

  /** The connection delivers only data, in non-empty pieces. */
  predicate Chunked(script: seq<ReadEvent>) {
    forall i :: 0 <= i < |script| ==> script[i].Data? && script[i].bytes != []
  }

  function AfterReadMore(s: Source): (r: (Source, Option<ReadError>))
    ensures s.buf <= r.0.buf
    ensures r.1.None? ==> |s.buf| < |r.0.buf|
    ensures r.1.Some? ==> r.0.buf == s.buf
    ensures |s.buf| <= MAX_BUFFERED_BYTES ==> |r.0.buf| <= MAX_BUFFERED_BYTES
    ensures r.1 == Some(BufferLimit) <==> |s.buf| >= MAX_BUFFERED_BYTES
  {
    var room := MAX_BUFFERED_BYTES - |s.buf|;
    if room <= 0 then (s, Some(BufferLimit))
    else
      var size := if room < BUF_SIZE then room else BUF_SIZE;
      if s.script == [] then (s, Some(EndOfStream))
      else match s.script[0]
        case Data(b) =>
          if b == [] then (s.(script := s.script[1..]), Some(NoProgress))
          else if |b| <= size then (Source(s.buf + b, s.script[1..]), None)
          else (Source(s.buf + b[..size], [Data(b[size..])] + s.script[1..]), None)
        case Eof => (s, Some(EndOfStream))
        case Reset => (s.(script := s.script[1..]), Some(EndOfStream))
        case Fault => (s.(script := s.script[1..]), Some(Io))
  }

  /** Read until `want` bytes are buffered or a read fails. */
  function AfterFill(s: Source, want: nat): (r: (Source, Option<ReadError>))
    ensures s.buf <= r.0.buf
    ensures r.1.None? ==> |r.0.buf| >= want
    ensures |s.buf| <= MAX_BUFFERED_BYTES ==> |r.0.buf| <= MAX_BUFFERED_BYTES
    ensures want <= MAX_BUFFERED_BYTES ==> r.1 != Some(BufferLimit)
    ensures |s.buf| >= want ==> r == (s, None)
    decreases want - |s.buf|
  {
    if |s.buf| >= want then (s, None)
    else
      var (s1, e) := AfterReadMore(s);
      if e.Some? then (s1, e) else AfterFill(s1, want)
  }

  function Ending(e: ReadError): Outcome {
    match e
    case EndOfStream => Closed
    case NoProgress => Failed(Stalled)
    case BufferLimit => Failed(Limit)
    case Io => Failed(Broken)
  }

  predicate AdvertisedLengthAllowed(mode: int32, payload: seq<byte>) {
    mode >= 0 ==>
      var r := TakeVarInt(payload);
      r.Some? && 0 <= r.value.0 <= MAX_PACKET_LENGTH
  }

  /** The frame is buffered: check, decode, and only then cut it off the buffer. */
  function AfterFrame(z: Zlib, mode: int32, g: Source, consumed: nat, total: nat): (r: (Outcome, Source))
    requires consumed <= total <= |g.buf|
  {
    if !AdvertisedLengthAllowed(mode, g.buf[consumed..total]) then (Failed(TooLarge), g)
    else
      match DecodeWithLen(z, mode, g.buf[..total])
      case None => (Failed(Malformed), g)
      case Some(p) => (Packet(p, g.buf[..total]), g.(buf := g.buf[total..]))
  }

  /** ReadPacketWithTimeout after its first fill: parse the length and read the frame. */
  function AfterLength(z: Zlib, mode: int32, s: Source): (r: (Outcome, Source)) {
    match TakeVarInt(s.buf)
    case None => (Failed(Malformed), s)
    case Some((len, rest)) =>
      if len < 0 then (Failed(Malformed), s)
      else if len > MAX_PACKET_LENGTH then (Failed(TooLarge), s)
      else
        var consumed := |s.buf| - |rest|;
        var total := consumed + len;
        var (g, e) := AfterFill(s, total);
        if e.Some? then (Ending(e.value), g) else AfterFrame(z, mode, g, consumed, total)
  }

  function AfterReadPacket(z: Zlib, mode: int32, s: Source): (r: (Outcome, Source)) {
    if |s.buf| > MAX_BUFFERED_BYTES then (Failed(Limit), s)
    else
      var (f, e) := AfterFill(s, 2);
      if e.Some? then (Ending(e.value), f) else AfterLength(z, mode, f)
  }

  // ---- conservation and bounds ----

  lemma FlatCons(e: ReadEvent, script: seq<ReadEvent>)
    ensures Flat([e] + script) == (if e.Data? then e.bytes else []) + Flat(script)
  {
    assert ([e] + script)[1..] == script;
  }

  lemma ReadMoreConserves(s: Source)
    ensures Total(AfterReadMore(s).0) == Total(s)
    ensures Chunked(s.script) ==> Chunked(AfterReadMore(s).0.script)
  {
    hide Flat;
    if s.script != [] {
      var rest := Flat(s.script[1..]);
      assert s.script == [s.script[0]] + s.script[1..];
      FlatCons(s.script[0], s.script[1..]);
      if s.script[0].Data? {
        var b := s.script[0].bytes;
        var room := MAX_BUFFERED_BYTES - |s.buf|;
        var size := if room < BUF_SIZE then room else BUF_SIZE;
        if 0 < size < |b| {
          FlatCons(Data(b[size..]), s.script[1..]);
          assert s.buf + b[..size] + (b[size..] + rest) == s.buf + (b + rest);
        } else {
          assert s.buf + b + rest == s.buf + (b + rest);
        }
      } else {
        assert [] + rest == rest;
      }
    }
  }

  lemma {:induction false} FillConserves(s: Source, want: nat)
    ensures Total(AfterFill(s, want).0) == Total(s)
    ensures Chunked(s.script) ==> Chunked(AfterFill(s, want).0.script)
    decreases want - |s.buf|
  {
    if |s.buf| < want {
      ReadMoreConserves(s);
      if AfterReadMore(s).1.None? {
        FillConserves(AfterReadMore(s).0, want);
      }
    }
  }

  /** What one read may do to its source. */
  ghost predicate Conserved(s: Source, o: Outcome, t: Source) {
    && (if o.Packet? then o.raw + Total(t) == Total(s) && s.buf <= o.raw + t.buf && |o.raw| >= 1
        else Total(t) == Total(s) && s.buf <= t.buf)
    && (|s.buf| <= MAX_BUFFERED_BYTES ==> |t.buf| <= MAX_BUFFERED_BYTES)
    && (Chunked(s.script) ==> Chunked(t.script))
  }

  lemma FrameConserves(z: Zlib, mode: int32, g: Source, consumed: nat, total: nat)
    requires 1 <= consumed <= total <= |g.buf|
    ensures Conserved(g, AfterFrame(z, mode, g, consumed, total).0, AfterFrame(z, mode, g, consumed, total).1)
    ensures AfterFrame(z, mode, g, consumed, total).0 != Failed(Limit)
  {
    assert g.buf == g.buf[..total] + g.buf[total..];
  }

  lemma LengthConserves(z: Zlib, mode: int32, s: Source)
    ensures Conserved(s, AfterLength(z, mode, s).0, AfterLength(z, mode, s).1)
    ensures AfterLength(z, mode, s).0 != Failed(Limit)
  {
    hide PrefixLength, AfterFill, AfterFrame, Flat, Chunked;
    if TakeVarInt(s.buf).Some? {
      var (len, rest) := TakeVarInt(s.buf).value;
      if 0 <= len <= MAX_PACKET_LENGTH {
        var consumed := |s.buf| - |rest|;
        FillConserves(s, consumed + len);
        var (g, e) := AfterFill(s, consumed + len);
        if e.None? {
          FrameConserves(z, mode, g, consumed, consumed + len);
        }
      }
    }
  }

  /** On every call the raw bytes returned and the new source are the old source, nothing is
      consumed unless a packet is returned, the buffer bound is kept, and the limit error means
      that the caller's buffer was over the limit already. */
  lemma ReadConserves(z: Zlib, mode: int32, s: Source)
    ensures Conserved(s, AfterReadPacket(z, mode, s).0, AfterReadPacket(z, mode, s).1)
    ensures AfterReadPacket(z, mode, s).0 == Failed(Limit) <==> |s.buf| > MAX_BUFFERED_BYTES
  {
    FillConserves(s, 2);
    LengthConserves(z, mode, AfterFill(s, 2).0);
  }

  // ---- what is refused ----

  /** How a read ends when the connection has nothing more to give: closed at its end or on a reset, stalled
      on an empty read, broken otherwise; the failing read is over. */
  lemma EndingsExactly(z: Zlib, mode: int32, buf: seq<byte>, script: seq<ReadEvent>)
    requires |buf| < 2
    ensures AfterReadPacket(z, mode, Source(buf, [])) == (Closed, Source(buf, []))
    ensures AfterReadPacket(z, mode, Source(buf, [Eof] + script)) == (Closed, Source(buf, [Eof] + script))
    ensures AfterReadPacket(z, mode, Source(buf, [Reset] + script)) == (Closed, Source(buf, script))
    ensures AfterReadPacket(z, mode, Source(buf, [Data([])] + script)) == (Failed(Stalled), Source(buf, script))
    ensures AfterReadPacket(z, mode, Source(buf, [Fault] + script)) == (Failed(Broken), Source(buf, script))
  {
    assert forall e: ReadEvent :: ([e] + script)[1..] == script;
  }

  /** One read takes 8 KiB at most, and less when fewer bytes are left below 1 MiB and five. */
  lemma ReadTakesExactly(buf: seq<byte>, b: seq<byte>, script: seq<ReadEvent>)
    requires b != [] && |buf| < 1024 * 1024 + 5
    ensures var room := 1024 * 1024 + 5 - |buf|;
            var most := if room < 8192 then room else 8192;
            var (t, e) := AfterReadMore(Source(buf, [Data(b)] + script));
            && e == None
            && (|b| <= most ==> t == Source(buf + b, script))
            && (|b| > most ==> t == Source(buf + b[..most], [Data(b[most..])] + script))
  {
    assert ([Data(b)] + script)[1..] == script;
  }

  /** A length that is negative or over the limit is refused before anything is read for it. */
  lemma BadLengthIsRefused(z: Zlib, mode: int32, len: int32, more: seq<byte>, script: seq<ReadEvent>)
    requires 2 <= |Encoding(len) + more| <= MAX_BUFFERED_BYTES
    ensures var s := Source(Encoding(len) + more, script);
            && (len < 0 ==> AfterReadPacket(z, mode, s) == (Failed(Malformed), s))
            && (len > 1024 * 1024 ==> AfterReadPacket(z, mode, s) == (Failed(TooLarge), s))
  {
    VarInt.RoundTrip(len, more);
    hide Encoding, TakeVarInt;
  }

  /** With compression, a frame whose advertised length is missing, negative or over the limit is refused; any
      other frame is returned exactly if it decodes, and refused as malformed otherwise. */
  lemma BufferedFrameExactly(z: Zlib, mode: int32, payload: seq<byte>, more: seq<byte>, script: seq<ReadEvent>)
    requires |payload| <= 1024 * 1024
    requires 2 <= |Encoding(|payload|) + payload + more| <= MAX_BUFFERED_BYTES
    ensures var frame := Encoding(|payload|) + payload;
            var s := Source(frame + more, script);
            var advertised := TakeVarInt(payload);
            var p := DecodeWithoutLen(z, mode, payload);
            AfterReadPacket(z, mode, s) ==
              if mode >= 0 && (advertised.None? || advertised.value.0 < 0 || advertised.value.0 > 1024 * 1024)
              then (Failed(TooLarge), s)
              else if p.None? then (Failed(Malformed), s)
              else (Packet(p.value, frame), Source(more, script))
  {
    hide Encoding, TakeVarInt, DecodeWithoutLen;
    var n := |payload|;
    var prefix := Encoding(n);
    var frame := prefix + payload;
    var buf := frame + more;
    VarInt.RoundTrip(n, payload + more);
    assert buf == prefix + (payload + more);
    VarInt.RoundTrip(n, payload);
    assert buf[..|frame|] == frame && buf[|frame|..] == more && buf[|prefix|..|frame|] == payload;
    assert payload[..n] == payload;
  }

  // ---- one frame under every chunking ----

  /** What the edge accepts: lengths within the public limits, before and after compression. */
  predicate Fits(z: Zlib, mode: int32, p: RawPacket) {
    |EncodeWithoutLen(z, mode, p)| <= MAX_PACKET_LENGTH && |Body(p)| <= MAX_PACKET_LENGTH
  }

  /** Bytes of the outer length prefix. */
  function LengthBytes(z: Zlib, mode: int32, p: RawPacket): nat {
    |Encoding(ToInt32(|EncodeWithoutLen(z, mode, p)|))|
  }

  /** Bytes buffered when the reader parses the length: it waits for two and no more. */
  function Arrived(s: Source): nat {
    |AfterFill(s, 2).0.buf|
  }

  lemma {:induction false} FillSucceeds(s: Source, want: nat)
    requires Chunked(s.script)
    requires want <= |Total(s)| && want <= MAX_BUFFERED_BYTES
    ensures AfterFill(s, want).1.None?
    decreases want - |s.buf|
  {
    if |s.buf| < want {
      ReadMoreConserves(s);
      if s.script == [] {
        assert false;
      }
      FillSucceeds(AfterReadMore(s).0, want);
    }
  }

  lemma FrameSize(z: Zlib, mode: int32, p: RawPacket)
    ensures |EncodeWithoutLen(z, mode, p)| >= 1
    ensures |EncodeWithLen(z, mode, p)| >= 2
    ensures |EncodeWithLen(z, mode, p)| == LengthBytes(z, mode, p) + |EncodeWithoutLen(z, mode, p)|
  {
  }

  lemma AdvertisedIsAllowed(z: Zlib, mode: int32, p: RawPacket)
    requires Fits(z, mode, p)
    ensures AdvertisedLengthAllowed(mode, EncodeWithoutLen(z, mode, p))
  {
    if mode >= 0 {
      ToInt32Fits(|Body(p)|);
      if Compresses(mode, p) {
        VarInt.RoundTrip(|Body(p)|, z.compress(Body(p)));
      } else {
        VarInt.RoundTrip(0, Body(p));
      }
    }
  }

  /** A buffered length prefix parses to the payload length. */
  lemma PrefixParses(z: Zlib, mode: int32, s: Source, p: RawPacket, rest: seq<byte>)
    requires Fits(z, mode, p)
    requires Total(s) == EncodeWithLen(z, mode, p) + rest
    requires |s.buf| >= LengthBytes(z, mode, p)
    ensures TakeVarInt(s.buf) == Some((|EncodeWithoutLen(z, mode, p)|, s.buf[LengthBytes(z, mode, p)..]))
  {
    var payload := EncodeWithoutLen(z, mode, p);
    var n := LengthBytes(z, mode, p);
    ToInt32Fits(|payload|);
    assert s.buf[..n] == Total(s)[..n] == Encoding(|payload|);
    VarInt.RoundTrip(|payload|, s.buf[n..]);
    assert s.buf == Encoding(|payload|) + s.buf[n..];
  }

  /** A buffered frame decodes to its packet and is cut off. */
  lemma FrameDecodes(z: Zlib, mode: int32, g: Source, p: RawPacket, rest: seq<byte>)
    requires Lawful(z) && Fits(z, mode, p)
    requires Total(g) == EncodeWithLen(z, mode, p) + rest
    requires |g.buf| >= |EncodeWithLen(z, mode, p)|
    ensures var frame := EncodeWithLen(z, mode, p);
            var (o, t) := AfterFrame(z, mode, g, LengthBytes(z, mode, p), |frame|);
            o == Packet(p, frame) && Total(t) == rest
  {
    var frame := EncodeWithLen(z, mode, p);
    var n, total := LengthBytes(z, mode, p), |frame|;
    assert g.buf[..total] == Total(g)[..total] == frame;
    assert g.buf[n..total] == frame[n..] == EncodeWithoutLen(z, mode, p);
    AdvertisedIsAllowed(z, mode, p);
    FrameRoundTrip(z, mode, p, []);
    assert frame + [] == frame;
    assert g.buf[total..] + Flat(g.script) == Total(g)[total..];
  }

  /** With the whole length prefix buffered, the frame is read and exactly it is consumed. */
  lemma ReadWholePrefix(z: Zlib, mode: int32, s: Source, p: RawPacket, rest: seq<byte>)
    requires Lawful(z) && Fits(z, mode, p)
    requires Chunked(s.script) && |s.buf| <= MAX_BUFFERED_BYTES
    requires Total(s) == EncodeWithLen(z, mode, p) + rest
    requires |s.buf| >= LengthBytes(z, mode, p)
    ensures AfterLength(z, mode, s).0 == Packet(p, EncodeWithLen(z, mode, p))
    ensures Total(AfterLength(z, mode, s).1) == rest
  {
    hide TakeVarInt, AfterFill, AfterFrame, Encoding, EncodeWithoutLen, Flat;
    PrefixParses(z, mode, s, p, rest);
    FrameSize(z, mode, p);
    var total := |EncodeWithLen(z, mode, p)|;
    FillSucceeds(s, total);
    FillConserves(s, total);
    FrameDecodes(z, mode, AfterFill(s, total).0, p, rest);
  }

  /** With part of the length prefix missing, the reader reports a malformed packet. */
  lemma ReadPartialPrefix(z: Zlib, mode: int32, s: Source, p: RawPacket, rest: seq<byte>)
    requires Total(s) == EncodeWithLen(z, mode, p) + rest
    requires |s.buf| < LengthBytes(z, mode, p)
    ensures AfterLength(z, mode, s) == (Failed(Malformed), s)
  {
    var len := ToInt32(|EncodeWithoutLen(z, mode, p)|);
    GroupsShape(len % TWO_32);
    assert forall k :: 0 <= k < |s.buf| ==> s.buf[k] == Total(s)[k] == Encoding(len)[k] >= 0x80;
    NoPrefix(s.buf, 0);
  }

  /** Reading a frame succeeds exactly when its length prefix is buffered by the time the reader
      has its two bytes, and then consumes exactly the frame. */
  lemma ReadFrame(z: Zlib, mode: int32, s: Source, p: RawPacket, rest: seq<byte>)
    requires Lawful(z) && Fits(z, mode, p)
    requires Chunked(s.script) && |s.buf| <= MAX_BUFFERED_BYTES
    requires Total(s) == EncodeWithLen(z, mode, p) + rest
    ensures var (o, t) := AfterReadPacket(z, mode, s);
            if Arrived(s) >= LengthBytes(z, mode, p)
            then o == Packet(p, EncodeWithLen(z, mode, p)) && Total(t) == rest
            else o == Failed(Malformed) && Total(t) == Total(s)
  {
    FrameSize(z, mode, p);
    FillSucceeds(s, 2);
    FillConserves(s, 2);
    var f := AfterFill(s, 2).0;
    if Arrived(s) >= LengthBytes(z, mode, p) {
      ReadWholePrefix(z, mode, f, p, rest);
    } else {
      ReadPartialPrefix(z, mode, f, p, rest);
    }
  }

  // ---- whole streams ----

  function Stream(z: Zlib, mode: int32, ps: seq<RawPacket>): seq<byte> {
    if ps == [] then [] else EncodeWithLen(z, mode, ps[0]) + Stream(z, mode, ps[1..])
  }

  /** Up to `n` successive reads: the packets returned before the first other outcome. */
  function ReadMany(z: Zlib, mode: int32, s: Source, n: nat): (seq<RawPacket>, Source)
    decreases n
  {
    if n == 0 then ([], s)
    else
      var (o, t) := AfterReadPacket(z, mode, s);
      if !o.Packet? then ([], t)
      else
        var (ps, last) := ReadMany(z, mode, t, n - 1);
        ([o.packet] + ps, last)
  }

  /** Every length prefix is complete when the reader comes to parse it. */
  predicate PrefixesArriveWhole(z: Zlib, mode: int32, s: Source, ps: seq<RawPacket>)
    decreases ps
  {
    ps == [] ||
    (Arrived(s) >= LengthBytes(z, mode, ps[0]) &&
     PrefixesArriveWhole(z, mode, AfterReadPacket(z, mode, s).1, ps[1..]))
  }

  /** Chunking independence: successive reads return exactly the packets written, in order,
      if and only if no length prefix is split across the two-byte mark. */
  lemma {:induction false} ChunkingIndependence(z: Zlib, mode: int32, s: Source, ps: seq<RawPacket>, rest: seq<byte>)
    requires Lawful(z) && forall i :: 0 <= i < |ps| ==> Fits(z, mode, ps[i])
    requires Chunked(s.script) && |s.buf| <= MAX_BUFFERED_BYTES
    requires Total(s) == Stream(z, mode, ps) + rest
    ensures ReadMany(z, mode, s, |ps|).0 == ps <==> PrefixesArriveWhole(z, mode, s, ps)
    ensures PrefixesArriveWhole(z, mode, s, ps) ==> Total(ReadMany(z, mode, s, |ps|).1) == rest
    decreases ps
  {
    hide AfterReadPacket, Arrived, Fits, LengthBytes, EncodeWithLen, Chunked;
    if ps != [] {
      var tail := Stream(z, mode, ps[1..]) + rest;
      assert Total(s) == EncodeWithLen(z, mode, ps[0]) + tail;
      ReadFrame(z, mode, s, ps[0], tail);
      ReadConserves(z, mode, s);
      if Arrived(s) >= LengthBytes(z, mode, ps[0]) {
        var t := AfterReadPacket(z, mode, s).1;
        ChunkingIndependence(z, mode, t, ps[1..], rest);
        var qs := ReadMany(z, mode, t, |ps| - 1).0;
        assert ReadMany(z, mode, s, |ps|).0 == [ps[0]] + qs;
        assert ps == [ps[0]] + ps[1..];
        assert ([ps[0]] + qs)[1..] == qs;
      }
    }
  }

  /** A packet within the limits whose payload length fits in two bytes. */
  predicate Small(z: Zlib, mode: int32, p: RawPacket) {
    Fits(z, mode, p) && |EncodeWithoutLen(z, mode, p)| < 0x4000
  }

  lemma SmallLengthBytes(z: Zlib, mode: int32, p: RawPacket)
    requires |EncodeWithoutLen(z, mode, p)| < 0x4000
    ensures LengthBytes(z, mode, p) <= 2
  {
    GroupsLength(|EncodeWithoutLen(z, mode, p)|);
    ToInt32Fits(|EncodeWithoutLen(z, mode, p)|);
  }

  lemma {:induction false} SmallPrefixesArriveWhole(z: Zlib, mode: int32, s: Source, ps: seq<RawPacket>, rest: seq<byte>)
    requires Lawful(z) && forall i :: 0 <= i < |ps| ==> Small(z, mode, ps[i])
    requires Chunked(s.script) && |s.buf| <= MAX_BUFFERED_BYTES
    requires Total(s) == Stream(z, mode, ps) + rest
    ensures PrefixesArriveWhole(z, mode, s, ps)
    decreases ps
  {
    hide AfterReadPacket, Fits, LengthBytes, EncodeWithLen, EncodeWithoutLen, Chunked;
    if ps != [] {
      var tail := Stream(z, mode, ps[1..]) + rest;
      assert Total(s) == EncodeWithLen(z, mode, ps[0]) + tail;
      FrameSize(z, mode, ps[0]);
      FillSucceeds(s, 2);
      SmallLengthBytes(z, mode, ps[0]);
      ReadFrame(z, mode, s, ps[0], tail);
      ReadConserves(z, mode, s);
      SmallPrefixesArriveWhole(z, mode, AfterReadPacket(z, mode, s).1, ps[1..], rest);
    }
  }

  /** Payloads under 16384 bytes come back whatever the chunking. */
  lemma SmallPacketsAlwaysReadBack(z: Zlib, mode: int32, s: Source, ps: seq<RawPacket>, rest: seq<byte>)
    requires Lawful(z) && forall i :: 0 <= i < |ps| ==> Small(z, mode, ps[i])
    requires Chunked(s.script) && |s.buf| <= MAX_BUFFERED_BYTES
    requires Total(s) == Stream(z, mode, ps) + rest
    ensures ReadMany(z, mode, s, |ps|).0 == ps && Total(ReadMany(z, mode, s, |ps|).1) == rest
  {
    SmallPrefixesArriveWhole(z, mode, s, ps, rest);
    ChunkingIndependence(z, mode, s, ps, rest);
  }

  /** The hypothesis is needed: a well-formed three-byte length split after its second byte fails. */
  lemma SplitLengthFails(z: Zlib, p: RawPacket)
    requires |Body(p)| == 0x4000
    ensures var frame := EncodeWithLen(z, -1, p);
            AfterReadPacket(z, -1, Source([], [Data(frame[..2]), Data(frame[2..])])).0 == Failed(Malformed)
  {
    var frame := EncodeWithLen(z, -1, p);
    GroupsLength(0x4000);
    ToInt32Fits(0x4000);
    FrameSize(z, -1, p);
    var s := Source([], [Data(frame[..2]), Data(frame[2..])]);
    var f := Source(frame[..2], [Data(frame[2..])]);
    assert [] + frame[..2] == frame[..2];
    assert AfterReadMore(s) == (f, None);
    assert AfterFill(s, 2) == AfterFill(f, 2) == (f, None);
    assert Flat(f.script) == frame[2..] by { FlatCons(Data(frame[2..]), []); }
    assert Total(f) == frame + [];
    ReadPartialPrefix(z, -1, f, p, []);
  }

  /** The reader itself: a buffer grown by reads and cut when a packet is complete. */
  class PacketReader {
    var buf: seq<byte>
    var script: seq<ReadEvent>

    constructor (initial: seq<byte>, pending: seq<ReadEvent>)
      ensures View() == Source(initial, pending)
    {
      buf, script := initial, pending;
    }

    function View(): Source
      reads this
    {
      Source(buf, script)
    }

    method ReadMore() returns (e: Option<ReadError>)
      modifies this
      ensures (View(), e) == AfterReadMore(old(View()))
    {
      var remaining := MAX_BUFFERED_BYTES - |buf|;
      if remaining <= 0 {
        return Some(BufferLimit);
      }
      var readSize := BUF_SIZE;
      if remaining < readSize {
        readSize := remaining;
      }
      if script == [] {
        return Some(EndOfStream);
      }
      match script[0] {
        case Data(b) =>
          if |b| <= readSize {
            script := script[1..];
            if b == [] {
              return Some(NoProgress);
            }
            buf := buf + b;
          } else {
            buf := buf + b[..readSize];
            script := [Data(b[readSize..])] + script[1..];
          }
          return None;
        case Eof =>
          return Some(EndOfStream);
        case Reset =>
          script := script[1..];
          return Some(EndOfStream);
        case Fault =>
          script := script[1..];
          return Some(Io);
      }
    }

    method Fill(want: nat) returns (e: Option<ReadError>)
      modifies this
      ensures (View(), e) == AfterFill(old(View()), want)
    {
      while |buf| < want
        invariant AfterFill(View(), want) == AfterFill(old(View()), want)
        decreases want - |buf|
      {
        e := ReadMore();
        if e.Some? {
          return;
        }
      }
      e := None;
    }

    method TakeFrame(z: Zlib, mode: int32, consumed: nat, total: nat) returns (o: Outcome)
      requires consumed <= total <= |buf|
      modifies this
      ensures (o, View()) == AfterFrame(z, mode, old(View()), consumed, total)
    {
      if mode >= 0 {
        var _, dataLen, ok := ReadVarInt(buf[consumed..total]);
        if !ok || dataLen < 0 || dataLen > MAX_PACKET_LENGTH {
          return Failed(TooLarge);
        }
      }
      var raw := buf[..total];
      var decoded := DecodeWithLen(z, mode, raw);
      if decoded.None? {
        return Failed(Malformed);
      }
      buf := buf[total..];
      return Packet(decoded.value, raw);
    }

    method ReadPacket(z: Zlib, mode: int32) returns (o: Outcome)
      modifies this
      ensures (o, View()) == AfterReadPacket(z, mode, old(View()))
      ensures o.Packet? ==> o.raw + Total(View()) == old(Total(View()))
      ensures !o.Packet? ==> Total(View()) == old(Total(View())) && old(buf) <= buf
      ensures old(|buf|) <= MAX_BUFFERED_BYTES ==> |buf| <= MAX_BUFFERED_BYTES && o != Failed(Limit)
    {
      hide TakeVarInt, PrefixLength, AfterFill, AfterFrame, Flat, Chunked;
      ReadConserves(z, mode, View());
      if |buf| > MAX_BUFFERED_BYTES {
        return Failed(Limit);
      }
      var e := Fill(2);
      if e.Some? {
        return Ending(e.value);
      }
      var consumed, len, ok := ReadVarInt(buf);
      if !ok || len < 0 {
        return Failed(Malformed);
      }
      if len > MAX_PACKET_LENGTH {
        return Failed(TooLarge);
      }
      var total := consumed + len;
      e := Fill(total);
      if e.Some? {
        return Ending(e.value);
      }
      o := TakeFrame(z, mode, consumed, total);
    }
  }
}
