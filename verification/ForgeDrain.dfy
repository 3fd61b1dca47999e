/** forge.go: reading the client's answers to a cold replay, which nobody needs. */
module ForgeDrain {
  import opened Bytes
  import opened Framing
  import opened LoginPackets
  import opened PacketStream

  /** All answers read; the client is gone or silent for too long, which is no error here; or a read
      failed otherwise. `silence` says whether a failing read is one that timed out. */
  datatype Drain = AllRead | Gone | ReadFailed

  function AfterDrain(z: Zlib, mode: int32, s: Source, count: nat, silence: bool): (Drain, Source)
    decreases |Total(s)|
  {
    if count == 0 then (AllRead, s)
    else
      var (o, t) := AfterReadPacket(z, mode, s);
      ReadConserves(z, mode, s);
      match o
      case Packet(p, _) => AfterDrain(z, mode, t, if p.id == PLUGIN_RESPONSE then count - 1 else count, silence)
      case Closed => (Gone, t)
      case Failed(e) => (if e == Broken && silence then Gone else ReadFailed, t)
  }

  function Responses(ps: seq<RawPacket>): nat {
    if ps == [] then 0 else (if ps[0].id == PLUGIN_RESPONSE then 1 else 0) + Responses(ps[1..])
  }

  /** Draining only ever takes bytes off the front. */
  lemma {:induction false} DrainConserves(z: Zlib, mode: int32, s: Source, count: nat, silence: bool)
    ensures var t := AfterDrain(z, mode, s, count, silence).1;
            |Total(t)| <= |Total(s)| && Total(t) == Total(s)[|Total(s)| - |Total(t)|..]
    decreases |Total(s)|
  {
    hide AfterReadPacket, Flat;
    if count > 0 {
      ReadConserves(z, mode, s);
      var (o, t) := AfterReadPacket(z, mode, s);
      if o.Packet? {
        DrainConserves(z, mode, t, if o.packet.id == PLUGIN_RESPONSE then count - 1 else count, silence);
      }
    }
  }

  lemma {:induction false} LastCounts(ps: seq<RawPacket>)
    requires ps != [] && ps[|ps| - 1].id == PLUGIN_RESPONSE
    ensures Responses(ps) > 0
    decreases ps
  {
    if |ps| > 1 {
      LastCounts(ps[1..]);
    }
  }

  /** A client that answers every query is drained up to its last answer and not a byte further,
      whatever else it sends in between, if and only if the reader gets every length prefix whole;
      otherwise draining ends in an error. */
  lemma {:induction false} DrainStopsAfterLastAnswer(z: Zlib, mode: int32, s: Source, ps: seq<RawPacket>, rest: seq<byte>, silence: bool)
    requires Lawful(z) && forall i :: 0 <= i < |ps| ==> Fits(z, mode, ps[i])
    requires Chunked(s.script) && |s.buf| <= MAX_BUFFERED_BYTES
    requires Total(s) == Stream(z, mode, ps) + rest
    requires ps != [] ==> ps[|ps| - 1].id == PLUGIN_RESPONSE
    ensures var (r, t) := AfterDrain(z, mode, s, Responses(ps), silence);
            if PrefixesArriveWhole(z, mode, s, ps) then r == AllRead && Total(t) == rest else r == ReadFailed
    decreases ps
  {
    hide AfterReadPacket, Arrived, Fits, LengthBytes, EncodeWithLen, Chunked, Flat;
    if ps == [] {
      assert Stream(z, mode, ps) + rest == rest;
    } else {
      LastCounts(ps);
      var tail := Stream(z, mode, ps[1..]) + rest;
      assert Total(s) == EncodeWithLen(z, mode, ps[0]) + tail;
      ReadFrame(z, mode, s, ps[0], tail);
      ReadConserves(z, mode, s);
      if Arrived(s) >= LengthBytes(z, mode, ps[0]) {
        DrainStopsAfterLastAnswer(z, mode, AfterReadPacket(z, mode, s).1, ps[1..], rest, silence);
      }
    }
  }

  /** Packets under 16384 bytes are drained however they arrive. */
  lemma SmallAnswersAlwaysDrain(z: Zlib, mode: int32, s: Source, ps: seq<RawPacket>, rest: seq<byte>, silence: bool)
    requires Lawful(z) && forall i :: 0 <= i < |ps| ==> Small(z, mode, ps[i])
    requires Chunked(s.script) && |s.buf| <= MAX_BUFFERED_BYTES
    requires Total(s) == Stream(z, mode, ps) + rest
    requires ps != [] ==> ps[|ps| - 1].id == PLUGIN_RESPONSE
    ensures var (r, t) := AfterDrain(z, mode, s, Responses(ps), silence); r == AllRead && Total(t) == rest
  {
    SmallPrefixesArriveWhole(z, mode, s, ps, rest);
    DrainStopsAfterLastAnswer(z, mode, s, ps, rest, silence);
  }

  /** How draining ends when answers are missing: without complaint at the end of the stream, on a reset or on
      a timeout, and in an error on an empty or otherwise failing read. */
  lemma DrainEndings(z: Zlib, mode: int32, buf: seq<byte>, script: seq<ReadEvent>, count: nat, silence: bool)
    requires |buf| < 2 && count > 0
    ensures AfterDrain(z, mode, Source(buf, []), count, silence) == (Gone, Source(buf, []))
    ensures AfterDrain(z, mode, Source(buf, [Reset] + script), count, silence) == (Gone, Source(buf, script))
    ensures AfterDrain(z, mode, Source(buf, [Fault] + script), count, silence) ==
              (if silence then Gone else ReadFailed, Source(buf, script))
    ensures AfterDrain(z, mode, Source(buf, [Data([])] + script), count, silence) == (ReadFailed, Source(buf, script))
  {
    EndingsExactly(z, mode, buf, script);
    hide AfterReadPacket;
  }

  /** drainForgeResponses. */
  method DrainResponses(reader: PacketReader, z: Zlib, mode: int32, expected: nat, silence: bool) returns (r: Drain)
    modifies reader
    ensures (r, reader.View()) == AfterDrain(z, mode, old(reader.View()), expected, silence)
  {
    hide AfterReadPacket;
    var count := expected;
    while count > 0
      invariant AfterDrain(z, mode, reader.View(), count, silence) == AfterDrain(z, mode, old(reader.View()), expected, silence)
      decreases |Total(reader.View())|
    {
      ReadConserves(z, mode, reader.View());
      var o := reader.ReadPacket(z, mode);
      match o {
        case Packet(p, _) =>
          if p.id == PLUGIN_RESPONSE {
            count := count - 1;
          }
        case Closed => return Gone;
        case Failed(e) => return if e == Broken && silence then Gone else ReadFailed;
      }
    }
    return AllRead;
  }
}
