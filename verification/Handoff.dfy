/** status.go and probe.go: what becomes of the bytes that were read ahead when a connection changes
    hands, from the status loop to a join method and from the login to the proxied session. */
module Handoff {
  import opened Bytes
  import opened Framing
  import opened LoginPackets
  import opened PacketStream
  import opened Nbt
  import opened JoinGame

  datatype ClientState = Handshaking | Status | LoggingIn

  /** ClientState.FromID. */
  function StateOf(id: int32): Option<ClientState> {
    match id
    case 0 => Some(Handshaking)
    case 1 => Some(Status)
    case 2 => Some(LoggingIn)
    case _ => None
  }

  const STATUS_REQUEST: byte := 0x00
  const STATUS_RESPONSE: byte := 0x00
  const PING: byte := 0x01

  datatype Refusal = Lockout | Banned | NotWhitelisted

  /** How a connection leaves the status loop: handed to a join method with the remembered bytes, the bytes
      from login start on, and nothing buffered; kicked; or closed. `answers` is what a status client
      was written. */
  datatype Served =
    | Occupied(history: seq<byte>, queue: seq<byte>, rest: Source)
    | Kicked(refusal: Refusal)
    | Disconnected(answers: seq<seq<byte>>)

  /** What the surroundings decide. `status` is the text of the k-th answer and `writes` whether it can be
      written. */
  datatype Gate = Gate(
    lockout: bool, banned: bool, whitelisted: seq<byte> -> bool, status: nat -> seq<byte>, writes: nat -> bool)

  /** Why a client that starts its login is turned away, if it is; a name that does not decode is not checked. */
  function RefusalOf(gate: Gate, p: RawPacket): Option<Refusal> {
    var name := DecodeLoginStart(p.data);
    if gate.lockout then Some(Lockout)
    else if gate.banned then Some(Banned)
    else if name.Some? && !gate.whitelisted(name.value) then Some(NotWhitelisted)
    else None
  }

  /** The new protocol state that a handshake packet asks for. */
  function Requested(p: RawPacket): Option<ClientState> {
    var h :- DecodeHandshake(p.data);
    StateOf(h.nextState)
  }

  /** What a status client gets for a packet: the status, its own ping, or nothing. */
  function StatusAnswer(z: Zlib, gate: Gate, k: nat, p: RawPacket, raw: seq<byte>): Option<seq<byte>> {
    if p.id == STATUS_REQUEST then Some(EncodeWithLen(z, -1, RawPacket(STATUS_RESPONSE, StringField(gate.status(k)))))
    else if p.id == PING then Some(raw)
    else None
  }

  function AfterServe(z: Zlib, gate: Gate, s: Source, state: ClientState, history: seq<byte>, answers: seq<seq<byte>>): Served
    decreases |Total(s)|
  {
    var (o, t) := AfterReadPacket(z, -1, s);
    ReadConserves(z, -1, s);
    if !o.Packet? then Disconnected(answers)
    else
      match state
      case Handshaking =>
        if o.packet.id != PACKET_HANDSHAKE then AfterServe(z, gate, t, state, history, answers)
        else
          var next := Requested(o.packet);
          if next.None? then Disconnected(answers)
          else AfterServe(z, gate, t, next.value, if next.value == LoggingIn then history + o.raw else history, answers)
      case Status =>
        var answer := StatusAnswer(z, gate, |answers|, o.packet, o.raw);
        if answer.None? then AfterServe(z, gate, t, state, history, answers)
        else if gate.writes(|answers|) then AfterServe(z, gate, t, state, history, answers + [answer.value])
        else Disconnected(answers)
      case LoggingIn =>
        if o.packet.id != LOGIN_START then AfterServe(z, gate, t, state, history, answers)
        else
          var refusal := RefusalOf(gate, o.packet);
          if refusal.Some? then Kicked(refusal.value)
          else Occupied(history + o.raw + t.buf, o.raw + t.buf, t.(buf := []))
  }

  /** The next packet is a login handshake. */
  ghost predicate LoginHandshakeNext(z: Zlib, s: Source) {
    var o := AfterReadPacket(z, -1, s).0;
    o.Packet? && o.packet.id == PACKET_HANDSHAKE && Requested(o.packet) == Some(LoggingIn)
  }

  ghost predicate LoginStartNext(z: Zlib, s: Source) {
    var o := AfterReadPacket(z, -1, s).0;
    o.Packet? && o.packet.id == LOGIN_START
  }

  lemma {:induction false} StatusNeverLogsIn(z: Zlib, gate: Gate, s: Source, history: seq<byte>, answers: seq<seq<byte>>)
    ensures AfterServe(z, gate, s, Status, history, answers).Disconnected?
    decreases |Total(s)|
  {
    hide AfterReadPacket, Requested, Total, StatusAnswer;
    ReadConserves(z, -1, s);
    var (o, t) := AfterReadPacket(z, -1, s);
    if o.Packet? {
      assert |Total(t)| < |Total(s)|;
      var answer := StatusAnswer(z, gate, |answers|, o.packet, o.raw);
      StatusNeverLogsIn(z, gate, t, history, if answer.Some? then answers + [answer.value] else answers);
    }
  }

  /** In the login state: whatever was remembered plus the rest of the stream comes out exactly if
      the very next packet is the login start; otherwise bytes have been dropped. */
  lemma {:induction false} LoginHandoff(z: Zlib, gate: Gate, s: Source, history: seq<byte>, answers: seq<seq<byte>>)
    ensures var r := AfterServe(z, gate, s, LoggingIn, history, answers);
            r.Occupied? ==>
              && (LoginStartNext(z, s) ==>
                    && r.history + Total(r.rest) == history + Total(s)
                    && r.queue + Total(r.rest) == Total(s)
                    && r.rest.buf == [])
              && (!LoginStartNext(z, s) ==> |r.history| + |Total(r.rest)| < |history| + |Total(s)|)
    decreases |Total(s)|
  {
    hide AfterReadPacket, RefusalOf;
    ReadConserves(z, -1, s);
    var (o, t) := AfterReadPacket(z, -1, s);
    if o.Packet? {
      if o.packet.id != LOGIN_START {
        LoginHandoff(z, gate, t, history, answers);
      }
    }
  }

  lemma {:induction false} HandshakeHandoff(z: Zlib, gate: Gate, s: Source)
    ensures var r := AfterServe(z, gate, s, Handshaking, [], []);
            r.Occupied? ==>
              if LoginHandshakeNext(z, s) && LoginStartNext(z, AfterReadPacket(z, -1, s).1)
              then r.history + Total(r.rest) == Total(s)
              else |r.history| + |Total(r.rest)| < |Total(s)|
    decreases |Total(s)|
  {
    hide AfterReadPacket, Requested;
    ReadConserves(z, -1, s);
    var (o, t) := AfterReadPacket(z, -1, s);
    if o.Packet? {
      if o.packet.id == PACKET_HANDSHAKE && Requested(o.packet).Some? {
        assert [] + o.raw == o.raw;
        StatusNeverLogsIn(z, gate, t, [], []);
        LoginHandoff(z, gate, t, o.raw, []);
        if Requested(o.packet).value == Handshaking {
          HandshakeHandoff(z, gate, t);
        }
      } else {
        HandshakeHandoff(z, gate, t);
      }
    }
  }

  /** Hand-off conservation: the held bytes followed by the unread socket bytes are exactly what the
      client sent, if and only if its first two packets are a login handshake and a login start. */
  lemma ClientHandoffExact(z: Zlib, gate: Gate, s: Source)
    ensures var r := AfterServe(z, gate, s, Handshaking, [], []);
            r.Occupied? ==>
              (r.history + Total(r.rest) == Total(s) <==>
               LoginHandshakeNext(z, s) && LoginStartNext(z, AfterReadPacket(z, -1, s).1))
  {
    hide AfterReadPacket, Requested, AfterServe, LoginHandshakeNext, LoginStartNext;
    HandshakeHandoff(z, gate, s);
  }

  // ---- what becomes of a client ----

  /** Whom the gate lets in: nobody during a lockout, no banned address, and no name that is not on the
      whitelist; a login start without a readable name is not held against the whitelist. */
  ghost predicate Admits(gate: Gate, name: Option<seq<byte>>) {
    !gate.lockout && !gate.banned && (name == None || gate.whitelisted(name.value))
  }

  /** During a lockout or for a banned address, no stream whatsoever gets a client to a join method. */
  lemma {:induction false} RefusedIsNeverOccupied(z: Zlib, gate: Gate, s: Source, state: ClientState, history: seq<byte>, answers: seq<seq<byte>>)
    requires gate.lockout || gate.banned
    ensures !AfterServe(z, gate, s, state, history, answers).Occupied?
    decreases |Total(s)|
  {
    hide AfterReadPacket, Requested, Total, StatusAnswer;
    ReadConserves(z, -1, s);
    var (o, t) := AfterReadPacket(z, -1, s);
    if o.Packet? {
      assert |Total(t)| < |Total(s)|;
      if state == Handshaking && o.packet.id == PACKET_HANDSHAKE && Requested(o.packet).Some? {
        var next := Requested(o.packet).value;
        RefusedIsNeverOccupied(z, gate, t, next, if next == LoggingIn then history + o.raw else history, answers);
      } else if state == Status && StatusAnswer(z, gate, |answers|, o.packet, o.raw).Some? {
        RefusedIsNeverOccupied(z, gate, t, state, history, answers + [StatusAnswer(z, gate, |answers|, o.packet, o.raw).value]);
      } else {
        RefusedIsNeverOccupied(z, gate, t, state, history, answers);
      }
    }
  }

  /** A handshake packet that asks for a state. */
  ghost predicate IsHandshake(p: RawPacket, next: int32) {
    p.id == 0x00 && DecodeHandshake(p.data).Some? && DecodeHandshake(p.data).value.nextState == next
  }

  /** A client that starts its login is handed over exactly if the gate admits its name. */
  lemma LoginStartIsServed(z: Zlib, gate: Gate, s: Source, start: RawPacket, name: Option<seq<byte>>, rest: seq<byte>, history: seq<byte>)
    requires Lawful(z) && Fits(z, -1, start) && start.id == 0x00 && DecodeLoginStart(start.data) == name
    requires Chunked(s.script) && |s.buf| <= MAX_BUFFERED_BYTES
    requires Total(s) == EncodeWithLen(z, -1, start) + rest && Arrived(s) >= LengthBytes(z, -1, start)
    ensures var r := AfterServe(z, gate, s, LoggingIn, history, []);
            if Admits(gate, name) then
              && r.Occupied? && r.rest.buf == []
              && r.queue + Total(r.rest) == Total(s) && r.history + Total(r.rest) == history + Total(s)
            else r == Kicked(if gate.lockout then Lockout else if gate.banned then Banned else NotWhitelisted)
  {
    hide AfterReadPacket, Arrived, Fits, LengthBytes, EncodeWithLen, Chunked, DecodeLoginStart;
    ReadFrame(z, -1, s, start, rest);
    LoginHandoff(z, gate, s, history, []);
  }

  /** A client that sends a login handshake and a login start is handed over exactly if the gate admits its
      name, with every byte it sent; otherwise it is kicked, for the first reason that applies. */
  lemma LoginIsServed(z: Zlib, gate: Gate, s: Source, handshake: RawPacket, start: RawPacket, name: Option<seq<byte>>, rest: seq<byte>)
    requires Lawful(z) && Fits(z, -1, handshake) && Fits(z, -1, start)
    requires Chunked(s.script) && |s.buf| <= MAX_BUFFERED_BYTES
    requires Total(s) == Stream(z, -1, [handshake, start]) + rest && PrefixesArriveWhole(z, -1, s, [handshake, start])
    requires IsHandshake(handshake, 2) && start.id == 0x00 && DecodeLoginStart(start.data) == name
    ensures var r := AfterServe(z, gate, s, Handshaking, [], []);
            if Admits(gate, name) then
              && r.Occupied? && r.rest.buf == []
              && r.history + Total(r.rest) == Total(s)
              && r.queue + Total(r.rest) == EncodeWithLen(z, -1, start) + rest
            else r == Kicked(if gate.lockout then Lockout else if gate.banned then Banned else NotWhitelisted)
  {
    hide AfterReadPacket, Arrived, Fits, LengthBytes, EncodeWithLen, Chunked, Flat, DecodeLoginStart, DecodeHandshake, AfterServe, Stream;
    TwoFrames(z, handshake, start, rest);
    var tail := EncodeWithLen(z, -1, start) + rest;
    assert [handshake, start][1..] == [start];
    HandshakeIsServed(z, gate, s, handshake, tail);
    ReadConserves(z, -1, s);
    var t := AfterReadPacket(z, -1, s).1;
    assert PrefixesArriveWhole(z, -1, t, [start]);
    LoginStartIsServed(z, gate, t, start, name, rest, EncodeWithLen(z, -1, handshake));
  }

  lemma TwoFrames(z: Zlib, a: RawPacket, b: RawPacket, rest: seq<byte>)
    ensures Stream(z, -1, [a, b]) + rest == EncodeWithLen(z, -1, a) + (EncodeWithLen(z, -1, b) + rest)
  {
    hide EncodeWithLen;
    assert [a, b][1..] == [b] && [b][1..] == [];
    assert Stream(z, -1, [b]) == EncodeWithLen(z, -1, b) + [];
  }

  /** What a status client is owed for its packets: the status for each request and its own frame for each
      ping, until a write fails. */
  function StatusAnswers(z: Zlib, gate: Gate, k: nat, ps: seq<RawPacket>): seq<seq<byte>>
    decreases ps
  {
    if ps == [] then []
    else if ps[0].id == 0x00 then
      if gate.writes(k)
      then [EncodeWithLen(z, -1, RawPacket(0x00, StringField(gate.status(k))))] + StatusAnswers(z, gate, k + 1, ps[1..])
      else []
    else if ps[0].id == 0x01 then
      if gate.writes(k) then [EncodeWithLen(z, -1, ps[0])] + StatusAnswers(z, gate, k + 1, ps[1..]) else []
    else StatusAnswers(z, gate, k, ps[1..])
  }

  lemma NothingLeft(z: Zlib, s: Source)
    requires Total(s) == [] && Chunked(s.script)
    ensures AfterReadPacket(z, -1, s).0 == Closed
  {
    SomethingLeft(s.script);
  }

  lemma SomethingLeft(script: seq<ReadEvent>)
    requires Chunked(script)
    ensures script != [] ==> Flat(script) != []
  {
  }

  lemma AnswersUnfold(z: Zlib, gate: Gate, k: nat, ps: seq<RawPacket>)
    requires ps != []
    ensures var answer := StatusAnswer(z, gate, k, ps[0], EncodeWithLen(z, -1, ps[0]));
            StatusAnswers(z, gate, k, ps) ==
              if answer.None? then StatusAnswers(z, gate, k, ps[1..])
              else if gate.writes(k) then [answer.value] + StatusAnswers(z, gate, k + 1, ps[1..])
              else []
  {
    hide EncodeWithLen;
  }

  lemma StatusStep(z: Zlib, gate: Gate, s: Source, history: seq<byte>, answers: seq<seq<byte>>)
    requires AfterReadPacket(z, -1, s).0.Packet?
    ensures var (o, t) := AfterReadPacket(z, -1, s);
            var answer := StatusAnswer(z, gate, |answers|, o.packet, o.raw);
            AfterServe(z, gate, s, Status, history, answers) ==
              if answer.None? then AfterServe(z, gate, t, Status, history, answers)
              else if gate.writes(|answers|) then AfterServe(z, gate, t, Status, history, answers + [answer.value])
              else Disconnected(answers)
  {
    hide AfterReadPacket, StatusAnswer;
    ReadConserves(z, -1, s);
  }

  /** A status client gets exactly what it is owed, in order, and is then disconnected. */
  lemma {:induction false} StatusIsServed(z: Zlib, gate: Gate, s: Source, ps: seq<RawPacket>, history: seq<byte>, answers: seq<seq<byte>>)
    requires Lawful(z) && forall i :: 0 <= i < |ps| ==> Fits(z, -1, ps[i])
    requires Chunked(s.script) && |s.buf| <= MAX_BUFFERED_BYTES
    requires Total(s) == Stream(z, -1, ps) && PrefixesArriveWhole(z, -1, s, ps)
    ensures AfterServe(z, gate, s, Status, history, answers) ==
              Disconnected(answers + StatusAnswers(z, gate, |answers|, ps))
    decreases ps
  {
    hide AfterReadPacket, Arrived, Fits, LengthBytes, EncodeWithLen, Chunked, Flat, AfterServe, StatusAnswer, StatusAnswers, Lawful,
         Stream;
    if ps == [] {
      NoStream(z, -1);
      StatusEnds(z, gate, s, history, answers);
      assert answers + [] == answers;
    } else {
      StreamGrows(z, -1, ps);
      ReadFrame(z, -1, s, ps[0], Stream(z, -1, ps[1..]));
      ReadConserves(z, -1, s);
      StatusStep(z, gate, s, history, answers);
      AnswersUnfold(z, gate, |answers|, ps);
      var t := AfterReadPacket(z, -1, s).1;
      var answer := StatusAnswer(z, gate, |answers|, ps[0], EncodeWithLen(z, -1, ps[0]));
      if answer.None? {
        StatusIsServed(z, gate, t, ps[1..], history, answers);
      } else if gate.writes(|answers|) {
        StatusIsServed(z, gate, t, ps[1..], history, answers + [answer.value]);
        var more := StatusAnswers(z, gate, |answers| + 1, ps[1..]);
        assert answers + [answer.value] + more == answers + ([answer.value] + more);
      } else {
        assert answers + [] == answers;
      }
    }
  }

  lemma StatusEnds(z: Zlib, gate: Gate, s: Source, history: seq<byte>, answers: seq<seq<byte>>)
    requires Total(s) == [] && Chunked(s.script)
    ensures AfterServe(z, gate, s, Status, history, answers) == Disconnected(answers)
    ensures StatusAnswers(z, gate, |answers|, []) == []
  {
    NothingLeft(z, s);
    hide AfterReadPacket;
  }

  /** What a handshake leads to: the status conversation for state 1, the login for state 2, another handshake
      for state 0, and the end of the connection for any other state or a malformed packet. */
  lemma HandshakeIsServed(z: Zlib, gate: Gate, s: Source, p: RawPacket, rest: seq<byte>)
    requires Lawful(z) && Fits(z, -1, p) && p.id == 0x00
    requires Chunked(s.script) && |s.buf| <= MAX_BUFFERED_BYTES
    requires Total(s) == EncodeWithLen(z, -1, p) + rest && Arrived(s) >= LengthBytes(z, -1, p)
    ensures var r := AfterServe(z, gate, s, Handshaking, [], []);
            var t := AfterReadPacket(z, -1, s).1;
            && Total(t) == rest
            && (IsHandshake(p, 1) ==> r == AfterServe(z, gate, t, Status, [], []))
            && (IsHandshake(p, 2) ==> r == AfterServe(z, gate, t, LoggingIn, EncodeWithLen(z, -1, p), []))
            && (IsHandshake(p, 0) ==> r == AfterServe(z, gate, t, Handshaking, [], []))
            && ((forall next: int32 | 0 <= next < 3 :: !IsHandshake(p, next)) ==> r == Disconnected([]))
  {
    hide AfterReadPacket, Arrived, Fits, LengthBytes, EncodeWithLen, Chunked, Flat, DecodeHandshake;
    ReadFrame(z, -1, s, p, rest);
    ReadConserves(z, -1, s);
    assert [] + EncodeWithLen(z, -1, p) == EncodeWithLen(z, -1, p);
    if forall next: int32 | 0 <= next < 3 :: !IsHandshake(p, next) {
      assert !IsHandshake(p, 0) && !IsHandshake(p, 1) && !IsHandshake(p, 2);
    }
  }

  /** A packet that the state has no use for is passed over. */
  lemma OtherPacketsAreSkipped(z: Zlib, gate: Gate, s: Source, state: ClientState, history: seq<byte>, answers: seq<seq<byte>>)
    requires var o := AfterReadPacket(z, -1, s).0; o.Packet? && o.packet.id > 1
    ensures AfterServe(z, gate, s, state, history, answers) == AfterServe(z, gate, AfterReadPacket(z, -1, s).1, state, history, answers)
  {
    hide AfterReadPacket;
    ReadConserves(z, -1, s);
  }

  /** Serve, the loop over the client's packets. */
  method Serve(reader: PacketReader, z: Zlib, gate: Gate) returns (r: Served)
    modifies reader
    ensures r == AfterServe(z, gate, old(reader.View()), Handshaking, [], [])
    ensures r.Occupied? ==> r.rest == reader.View()
  {
    hide AfterReadPacket, DecodeHandshake, DecodeLoginStart, EncodeWithLen;
    var state := Handshaking;
    var history: seq<byte> := [];
    var answers: seq<seq<byte>> := [];
    while true
      invariant AfterServe(z, gate, reader.View(), state, history, answers) ==
                AfterServe(z, gate, old(reader.View()), Handshaking, [], [])
      decreases |Total(reader.View())|
    {
      ReadConserves(z, -1, reader.View());
      var o := reader.ReadPacket(z, -1);
      if !o.Packet? {
        return Disconnected(answers);
      }
      if state == Handshaking && o.packet.id == PACKET_HANDSHAKE {
        var h := DecodeHandshake(o.packet.data);
        if h.None? {
          return Disconnected(answers);
        }
        var next := StateOf(h.value.nextState);
        if next.None? {
          return Disconnected(answers);
        }
        state := next.value;
        if state == LoggingIn {
          history := history + o.raw;
        }
      } else if state == Status && o.packet.id == STATUS_REQUEST {
        if !gate.writes(|answers|) {
          return Disconnected(answers);
        }
        answers := answers + [EncodeWithLen(z, -1, RawPacket(STATUS_RESPONSE, StringField(gate.status(|answers|))))];
      } else if state == Status && o.packet.id == PING {
        if !gate.writes(|answers|) {
          return Disconnected(answers);
        }
        answers := answers + [o.raw];
      } else if state == LoggingIn && o.packet.id == LOGIN_START {
        var name := DecodeLoginStart(o.packet.data);
        if gate.lockout {
          return Kicked(Lockout);
        }
        if gate.banned {
          return Kicked(Banned);
        }
        if name.Some? && !gate.whitelisted(name.value) {
          return Kicked(NotWhitelisted);
        }
        history := history + o.raw;
        history := history + reader.buf;
        var queue := o.raw + reader.buf;
        reader.buf := [];
        return Occupied(history, queue, reader.View());
      }
    }
  }

  // ---- waiting for the backend's JoinGame ----

  /** `Halted`: the program panicked on a JoinGame packet. */
  datatype Joined = Joined(data: JoinData, raw: seq<byte>, queued: seq<byte>, rest: Source) | NotJoined | Halted

  /** waitForServerJoinGameNoTimeout: frames before JoinGame are queued whole. */
  function AfterJoinWait(z: Zlib, mode: int32, protocol: Protocol, s: Source, queued: seq<byte>): Joined
    decreases |Total(s)|
  {
    var (o, t) := AfterReadPacket(z, mode, s);
    ReadConserves(z, mode, s);
    if !o.Packet? then NotJoined
    else if IsJoinGame(protocol, o.packet.id) then
      match DecodeJoinGame(protocol, o.packet.data)
      case Done(data, _) => Joined(data, o.raw, queued, t.(buf := queued + t.buf))
      case Malformed => NotJoined
      case Crash => Halted
    else if |queued| + |o.raw| > MAX_BUFFERED_BYTES then NotJoined
    else AfterJoinWait(z, mode, protocol, t, queued + o.raw)
  }

  /** The frame is a JoinGame packet of that protocol and decodes to the data. */
  ghost predicate IsJoinFrame(z: Zlib, mode: int32, protocol: Protocol, raw: seq<byte>, data: JoinData) {
    var p := DecodeWithLen(z, mode, raw);
    && p.Some? && IsJoinGame(protocol, p.value.id)
    && DecodeJoinGame(protocol, p.value.data).Done? && DecodeJoinGame(protocol, p.value.data).value == data
  }

  /** A packet that is returned is the decoding of the bytes it took. */
  lemma ReturnedIsDecoded(z: Zlib, mode: int32, s: Source)
    ensures var o := AfterReadPacket(z, mode, s).0; o.Packet? ==> DecodeWithLen(z, mode, o.raw) == Some(o.packet)
  {
    hide AfterFill, DecodeWithLen;
  }

  /** The session resumes with the backend's bytes in order and only the JoinGame frame missing. */
  lemma {:induction false} JoinWaitRemovesOneFrame(z: Zlib, mode: int32, protocol: Protocol, s: Source, queued: seq<byte>)
    ensures var r := AfterJoinWait(z, mode, protocol, s, queued);
            r.Joined? ==>
              && IsJoinFrame(z, mode, protocol, r.raw, r.data)
              && |r.raw| >= 1 && |r.queued| + |r.raw| <= |queued| + |Total(s)|
              && r.queued == (queued + Total(s))[..|r.queued|]
              && r.raw == (queued + Total(s))[|r.queued|..|r.queued| + |r.raw|]
              && Total(r.rest) == r.queued + (queued + Total(s))[|r.queued| + |r.raw|..]
    decreases |Total(s)|
  {
    hide AfterReadPacket, DecodeJoinGame, IsJoinGame, DecodeWithLen;
    ReadConserves(z, mode, s);
    ReturnedIsDecoded(z, mode, s);
    var (o, t) := AfterReadPacket(z, mode, s);
    if o.Packet? {
      if IsJoinGame(protocol, o.packet.id) {
        assert queued + Total(s) == queued + o.raw + Total(t);
        assert t.(buf := queued + t.buf) == Source(queued + t.buf, t.script);
        assert Total(t.(buf := queued + t.buf)) == queued + Total(t);
      } else {
        assert queued + o.raw + Total(t) == queued + Total(s);
        JoinWaitRemovesOneFrame(z, mode, protocol, t, queued + o.raw);
      }
    }
  }

  lemma {:induction false} StreamGrows(z: Zlib, mode: int32, ps: seq<RawPacket>)
    requires ps != []
    ensures Stream(z, mode, ps) == EncodeWithLen(z, mode, ps[0]) + Stream(z, mode, ps[1..])
    ensures |Stream(z, mode, ps)| >= |EncodeWithLen(z, mode, ps[0])|
  {
    hide EncodeWithLen;
  }

  /** Exactly how the wait ends when a JoinGame packet comes after others: with its data, all other bytes kept
      in order; in failure if the packets before it do not fit the buffer or it does not parse; in a panic
      with its decoder. */
  lemma {:induction false} JoinWaitExactly(
    z: Zlib, mode: int32, protocol: Protocol, s: Source, others: seq<RawPacket>, join: RawPacket, rest: seq<byte>, queued: seq<byte>)
    requires Lawful(z) && Fits(z, mode, join) && forall i :: 0 <= i < |others| ==> Fits(z, mode, others[i])
    requires IsJoinGame(protocol, join.id) && forall i :: 0 <= i < |others| ==> !IsJoinGame(protocol, others[i].id)
    requires Chunked(s.script) && |s.buf| <= MAX_BUFFERED_BYTES
    requires Total(s) == Stream(z, mode, others) + (EncodeWithLen(z, mode, join) + rest)
    requires PrefixesArriveWhole(z, mode, s, others + [join])
    ensures var r := AfterJoinWait(z, mode, protocol, s, queued);
            var kept := queued + Stream(z, mode, others);
            var decoded := DecodeJoinGame(protocol, join.data);
            if others != [] && |kept| > 1024 * 1024 + 5 then r == NotJoined
            else
              && (decoded.Done? ==>
                    r.Joined? && r.data == decoded.value && r.queued == kept && Total(r.rest) == kept + rest)
              && (decoded.Malformed? ==> r == NotJoined)
              && (decoded.Crash? ==> r == Halted)
    decreases others
  {
    hide AfterReadPacket, Arrived, Fits, LengthBytes, EncodeWithLen, Chunked, DecodeJoinGame, IsJoinGame, Stream;
    if others == [] {
      NoStream(z, mode);
      assert others + [join] == [join] && [] + (EncodeWithLen(z, mode, join) + rest) == EncodeWithLen(z, mode, join) + rest;
      assert queued + [] == queued;
      ReadFrame(z, mode, s, join, rest);
      ReadConserves(z, mode, s);
      var t := AfterReadPacket(z, mode, s).1;
      assert queued + t.buf + Flat(t.script) == queued + (t.buf + Flat(t.script));
    } else {
      var frame := EncodeWithLen(z, mode, others[0]);
      var tail := Stream(z, mode, others[1..]);
      StreamGrows(z, mode, others);
      assert (others + [join])[0] == others[0] && (others + [join])[1..] == others[1..] + [join];
      assert Total(s) == frame + (tail + (EncodeWithLen(z, mode, join) + rest));
      ReadFrame(z, mode, s, others[0], tail + (EncodeWithLen(z, mode, join) + rest));
      ReadConserves(z, mode, s);
      assert queued + frame + tail == queued + (frame + tail);
      if |queued| + |frame| <= MAX_BUFFERED_BYTES {
        JoinWaitExactly(z, mode, protocol, AfterReadPacket(z, mode, s).1, others[1..], join, rest, queued + frame);
        NoStream(z, mode);
      }
    }
  }

  lemma NoStream(z: Zlib, mode: int32)
    ensures Stream(z, mode, []) == []
  {
  }

  method WaitForJoinGame(reader: PacketReader, z: Zlib, mode: int32, protocol: Protocol) returns (data: Option<JoinData>, st: Status)
    modifies reader
    ensures match AfterJoinWait(z, mode, protocol, old(reader.View()), [])
            case Joined(d, _, _, rest) => st == Ok && data == Some(d) && reader.View() == rest
            case NotJoined => st == Bad && data == None
            case Halted => st == Panicked && data == None
  {
    hide AfterReadPacket, DecodeJoinGame;
    var queued: seq<byte> := [];
    while true
      invariant AfterJoinWait(z, mode, protocol, reader.View(), queued) == AfterJoinWait(z, mode, protocol, old(reader.View()), [])
      decreases |Total(reader.View())|
    {
      ReadConserves(z, mode, reader.View());
      var o := reader.ReadPacket(z, mode);
      if !o.Packet? {
        return None, Bad;
      }
      if IsJoinGame(protocol, o.packet.id) {
        var decoded := DecodeJoinGame(protocol, o.packet.data);
        if decoded.Crash? {
          return None, Panicked;
        }
        if decoded.Malformed? {
          return None, Bad;
        }
        if |queued| > 0 {
          var remaining := reader.buf;
          reader.buf := queued + remaining;
        } else {
          assert queued + reader.buf == reader.buf;
        }
        return Some(decoded.value), Ok;
      }
      if |queued| + |o.raw| > MAX_BUFFERED_BYTES {
        return None, Bad;
      }
      queued := queued + o.raw;
    }
  }
}
