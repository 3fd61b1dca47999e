/** lobby.go: the login of a lobby client up to LoginSuccess, by the hot FML3 relay, the cold FML3
    replay or the plain path, and the compression that the client and the proxy must agree on.

    Write results are an oracle over the number of packets already written to the client. */
module LobbyLogin {
  import opened Bytes
  import opened VarInt
  import opened Framing
  import opened LoginPackets
  import opened ForgeRelay
  import opened BackendLogin
  import Cfb8
  import PacketStream
  import ForgeDrain

  type Writes = nat -> bool

  function Write(peer: Peer, p: RawPacket, writes: Writes): Option<Peer> {
    if writes(|peer.sent|) then Some(peer.Write(p)) else None
  }

  function SetCompressionPacket(threshold: int32): RawPacket {
    RawPacket(SET_COMPRESSION, EncodeSetCompression(threshold))
  }

  /** respondSetCompression, then switch the client: the packet itself goes out under the old mode. */
  function EnableCompression(threshold: int32, peer: Peer, writes: Writes): Option<Peer> {
    var written :- Write(peer, SetCompressionPacket(threshold), writes);
    Some(written.(mode := threshold))
  }

  /** ensureClientCompression: the client, and whether compression is active. */
  function EnsureCompression(threshold: int32, peer: Peer, writes: Writes): Option<(Peer, bool)> {
    if threshold < 0 then Some((peer, false))
    else if peer.mode >= 0 then if peer.mode != threshold then None else Some((peer, true))
    else
      var enabled :- EnableCompression(threshold, peer, writes);
      Some((enabled, true))
  }

  /** replayForgeLoginPayload: every cached request, as recorded. */
  function ReplayRequests(peer: Peer, cache: seq<Exchange>, writes: Writes): Option<Peer>
    decreases cache
  {
    if cache == [] then Some(peer)
    else
      var written :- Write(peer, RawPacket(PLUGIN_REQUEST, cache[0].request), writes);
      ReplayRequests(written, cache[1..], writes)
  }

  /** The tail shared by the cold and the plain path. */
  function FinishLogin(threshold: int32, peer: Peer, compressionSent: bool, uuidAndName: seq<byte>, writes: Writes): Option<Peer> {
    var ready :- if threshold >= 0 && !compressionSent then EnableCompression(threshold, peer, writes) else Some(peer);
    Write(ready, RawPacket(LOGIN_SUCCESS, uuidAndName), writes)
  }

  /** `drained` says whether reading back the client's answers ended without an error. */
  function ColdLogin(threshold: int32, peer: Peer, cache: seq<Exchange>, drained: bool, uuidAndName: seq<byte>, writes: Writes): Option<Peer> {
    var (ready, compressionSent) :- EnsureCompression(threshold, peer, writes);
    var replayed :- ReplayRequests(ready, cache, writes);
    if !drained then None else FinishLogin(threshold, replayed, compressionSent, uuidAndName, writes)
  }

  /** The cached queries that the client will answer. */
  function Answered(cache: seq<Exchange>): nat {
    if cache == [] then 0 else (if cache[0].noResponse then 0 else 1) + Answered(cache[1..])
  }

  /** Whether draining the client's answers, in the mode the replay was written in, ends without an error. */
  predicate Drains(threshold: int32, peer: Peer, cache: seq<Exchange>, source: PacketStream.Source, z: Zlib, silence: bool) {
    var mode := if threshold < 0 then peer.mode else threshold;
    ForgeDrain.AfterDrain(z, mode, source, Answered(cache), silence).0 != ForgeDrain.ReadFailed
  }

  function HotLogin(cfg: Config, threshold: int32, peer: Peer, cache: seq<Exchange>, events: seq<BackendEvent>, writes: Writes): Option<Peer> {
    var (ready, _) :- EnsureCompression(threshold, peer, writes);
    var run := Run(cfg, Start(Some(Relay([], 0, 0, ready)), cache), events);
    if run.phase == Play && run.relay.Some? then Some(run.relay.value.client) else None
  }

  /** What happens around one login; `laterCache` is the cache when a cold login reads it again.
      `challenge` is the contents of the encryption request, and `authenticated` says whether the
      client's answer and its session were good. */
  datatype Surroundings = Surroundings(
    challenge: seq<byte>, authenticated: bool,
    cache: seq<Exchange>, laterCache: seq<Exchange>, events: seq<BackendEvent>,
    drained: bool, uuidAndName: seq<byte>, writes: Writes)

  function EncryptionRequest(challenge: seq<byte>): RawPacket {
    RawPacket(ENCRYPTION_REQUEST, challenge)
  }

  /** authenticateLobbyClient, for an online lobby. */
  function Authenticate(cfg: Config, peer: Peer, env: Surroundings): Option<Peer> {
    if !cfg.onlineMode then Some(peer)
    else
      var asked :- Write(peer, EncryptionRequest(env.challenge), env.writes);
      if env.authenticated then Some(asked) else None
  }

  /** LobbyServe for FML3 and for servers without Forge; the result is the client after LoginSuccess. */
  function ServeLogin(cfg: Config, threshold: int32, peer: Peer, env: Surroundings): Option<Peer>
    requires cfg.forge ==> cfg.fml3
  {
    var known :- Authenticate(cfg, peer, env);
    if cfg.forge && env.cache == [] then HotLogin(cfg, threshold, known, env.cache, env.events, env.writes)
    else if cfg.forge then ColdLogin(threshold, known, env.laterCache, env.drained, env.uuidAndName, env.writes)
    else FinishLogin(threshold, known, false, env.uuidAndName, env.writes)
  }

  // ---- the client's side of the wire ----

  function Wire(z: Zlib, sent: seq<Sent>): seq<byte> {
    if sent == [] then [] else EncodeWithLen(z, sent[0].mode, sent[0].packet) + Wire(z, sent[1..])
  }

  /** A client in the login state: decode each frame, switch modes on every SetCompression. */
  function ClientReads(z: Zlib, mode: int32, bytes: seq<byte>): Option<seq<RawPacket>>
    decreases |bytes|
  {
    if bytes == [] then Some([])
    else
      var (len, body) :- TakeVarInt(bytes);
      if len < 0 || len > |body| then None
      else
        var p :- DecodeWithoutLen(z, mode, body[..len]);
        var next :- if p.id == SET_COMPRESSION then DecodeSetCompression(p.data) else Some(mode);
        var rest :- ClientReads(z, next, body[len..]);
        Some([p] + rest)
  }

  /** Lengths that the frame header can carry. */
  predicate Encodable(z: Zlib, s: Sent) {
    |Body(s.packet)| < 0x8000_0000 && |EncodeWithoutLen(z, s.mode, s.packet)| < 0x8000_0000
  }

  /** Frames written before compression was negotiated. */
  ghost predicate Uncompressed(sent: seq<Sent>) {
    forall i :: 0 <= i < |sent| ==> sent[i].mode == -1 && sent[i].packet.id != SET_COMPRESSION
  }

  /** Frames written after the client was switched to `threshold`. */
  ghost predicate Steady(sent: seq<Sent>, from: nat, threshold: int32) {
    forall i :: from <= i < |sent| ==> sent[i].mode == threshold && sent[i].packet.id != SET_COMPRESSION
  }

  /** The log of a client that was written `before`, then switched to `threshold`, once and before
      any frame in the new mode. */
  ghost predicate SwitchedOnce(before: seq<Sent>, peer: Peer, threshold: int32) {
    && peer.mode == threshold
    && |before| < |peer.sent|
    && peer.sent[..|before|] == before
    && peer.sent[|before|] == Sent(-1, SetCompressionPacket(threshold))
    && Steady(peer.sent, |before| + 1, threshold)
  }

  /** What an online client has been written before compression: the encryption request as well. */
  function BeforeCompression(cfg: Config, written: seq<Sent>, env: Surroundings): seq<Sent> {
    if cfg.onlineMode then written + [Sent(-1, EncryptionRequest(env.challenge))] else written
  }

  lemma ClientReadsFrame(z: Zlib, mode: int32, p: RawPacket, rest: seq<byte>)
    requires Lawful(z) && Encodable(z, Sent(mode, p))
    ensures var next := if p.id == SET_COMPRESSION then DecodeSetCompression(p.data) else Some(mode);
            next.Some? && ClientReads(z, next.value, rest).Some? ==>
              ClientReads(z, mode, EncodeWithLen(z, mode, p) + rest) == Some([p] + ClientReads(z, next.value, rest).value)
  {
    var payload := EncodeWithoutLen(z, mode, p);
    var bytes := EncodeWithLen(z, mode, p) + rest;
    ToInt32Fits(|payload|);
    VarInt.RoundTrip(|payload|, payload + rest);
    assert bytes == Encoding(|payload|) + (payload + rest);
    assert (payload + rest)[..|payload|] == payload && (payload + rest)[|payload|..] == rest;
    PayloadRoundTrip(z, mode, p);
    assert bytes != [];
    hide Encoding, EncodeWithoutLen, DecodeWithoutLen, TakeVarInt, DecodeSetCompression;
  }

  /** A client follows frames in its mode up to where it can follow the rest. */
  lemma {:induction false} ClientReadsSteadyMode(z: Zlib, mode: int32, sent: seq<Sent>, more: seq<Sent>)
    requires Lawful(z)
    requires forall i :: 0 <= i < |sent| ==> Encodable(z, sent[i]) && sent[i].mode == mode && sent[i].packet.id != SET_COMPRESSION
    requires ClientReads(z, mode, Wire(z, more)) == Some(Packets(more))
    ensures ClientReads(z, mode, Wire(z, sent + more)) == Some(Packets(sent + more))
    decreases sent
  {
    hide Encodable, EncodeWithLen, DecodeSetCompression, TakeVarInt, DecodeWithoutLen, ClientReads;
    if sent == [] {
      assert sent + more == more;
    } else {
      var all, tail := sent + more, sent[1..] + more;
      assert all[0] == sent[0] == Sent(mode, sent[0].packet) && all[1..] == tail;
      ClientReadsSteadyMode(z, mode, sent[1..], more);
      ClientReadsFrame(z, mode, sent[0].packet, Wire(z, tail));
      assert Packets(all) == [sent[0].packet] + Packets(tail);
    }
  }

  lemma ClientReadsNothing(z: Zlib, mode: int32)
    ensures ClientReads(z, mode, Wire(z, [])) == Some(Packets([]))
  {
  }

  /** A client that switches on SetCompression decodes exactly the packets the proxy wrote. */
  lemma ClientDecodesEverything(z: Zlib, threshold: int32, before: seq<Sent>, peer: Peer)
    requires Lawful(z) && Uncompressed(before) && SwitchedOnce(before, peer, threshold)
    requires forall i :: 0 <= i < |peer.sent| ==> Encodable(z, peer.sent[i])
    ensures ClientReads(z, -1, Wire(z, peer.sent)) == Some(Packets(peer.sent))
  {
    hide Encodable, EncodeWithLen, ClientReads, DecodeSetCompression, EncodeSetCompression;
    var n := |before|;
    var after, switched := peer.sent[n + 1..], peer.sent[n..];
    var p := SetCompressionPacket(threshold);
    ClientReadsNothing(z, threshold);
    assert after + [] == after;
    ClientReadsSteadyMode(z, threshold, after, []);
    SetCompressionRoundTrip(threshold);
    ClientReadsFrame(z, -1, p, Wire(z, after));
    assert switched[0] == Sent(-1, p) && switched[1..] == after;
    assert Packets(switched) == [p] + Packets(after);
    assert before + switched == peer.sent;
    assert forall i :: 0 <= i < n ==> before[i] == peer.sent[i];
    ClientReadsSteadyMode(z, -1, before, switched);
  }

  // ---- every path switches once ----

  lemma {:induction false} ReplayKeepsMode(threshold: int32, before: seq<Sent>, peer: Peer, cache: seq<Exchange>, writes: Writes)
    requires SwitchedOnce(before, peer, threshold)
    ensures var r := ReplayRequests(peer, cache, writes); r.Some? ==> SwitchedOnce(before, r.value, threshold)
    decreases cache
  {
    if cache != [] && writes(|peer.sent|) {
      var p := RawPacket(PLUGIN_REQUEST, cache[0].request);
      WriteKeepsMode(threshold, before, peer, p);
      ReplayKeepsMode(threshold, before, peer.Write(p), cache[1..], writes);
    }
  }

  lemma WriteKeepsMode(threshold: int32, before: seq<Sent>, peer: Peer, p: RawPacket)
    requires SwitchedOnce(before, peer, threshold) && p.id != SET_COMPRESSION
    ensures SwitchedOnce(before, peer.Write(p), threshold)
  {
    assert peer.Write(p).sent[..|before|] == peer.sent[..|before|];
  }

  ghost predicate HotClient(before: seq<Sent>, st: Login, threshold: int32) {
    && st.relay.Some? && SwitchedOnce(before, st.relay.value.client, threshold)
    && (st.phase == Play ==> EndsInSuccess(st.relay.value.client))
  }

  /** The last packet written to the client is LoginSuccess. */
  predicate EndsInSuccess(peer: Peer) {
    peer.sent != [] && peer.sent[|peer.sent| - 1].packet.id == LOGIN_SUCCESS
  }

  lemma QueryWrites(r: Relay, request: PluginRequest, env: Env)
    ensures var t := AfterQuery(r, request, env).0;
            t.client == r.client || exists data :: t.client == r.client.Write(RawPacket(PLUGIN_REQUEST, data))
  {
    hide EncodePluginRequest, InnerPacketId, DecodePluginResponse;
  }

  lemma QueryKeepsMode(before: seq<Sent>, r: Relay, request: PluginRequest, env: Env, threshold: int32)
    requires SwitchedOnce(before, r.client, threshold)
    ensures SwitchedOnce(before, AfterQuery(r, request, env).0.client, threshold)
  {
    hide AfterQuery, SwitchedOnce;
    QueryWrites(r, request, env);
    var t := AfterQuery(r, request, env).0;
    if t.client != r.client {
      var data :| t.client == r.client.Write(RawPacket(PLUGIN_REQUEST, data));
      WriteKeepsMode(threshold, before, r.client, RawPacket(PLUGIN_REQUEST, data));
    }
  }

  lemma HotStepKeepsMode(cfg: Config, before: seq<Sent>, st: Login, ev: BackendEvent, threshold: int32)
    requires threshold >= 0 && st.phase == Negotiating && HotClient(before, st, threshold)
    ensures HotClient(before, Step(cfg, st, ev), threshold)
  {
    hide AfterQuery, DecodePluginRequest, DecodeSetCompression, EncodePluginResponse, SetCompressionPacket, Steady;
    if ev.Got? {
      var client := st.relay.value.client;
      if ev.packet.id == PLUGIN_REQUEST && DecodePluginRequest(ev.packet.data).Some? {
        QueryKeepsMode(before, st.relay.value, DecodePluginRequest(ev.packet.data).value, ev.env, threshold);
      } else if ev.packet.id == LOGIN_SUCCESS {
        WriteKeepsMode(threshold, before, client, ev.packet);
      }
    }
  }

  lemma {:induction false} HotRunKeepsMode(cfg: Config, before: seq<Sent>, st: Login, events: seq<BackendEvent>, threshold: int32)
    requires threshold >= 0 && HotClient(before, st, threshold)
    ensures HotClient(before, Run(cfg, st, events), threshold)
    decreases events
  {
    hide Step, HotClient;
    if events != [] && st.phase == Negotiating {
      HotStepKeepsMode(cfg, before, st, events[0], threshold);
      HotRunKeepsMode(cfg, before, Step(cfg, st, events[0]), events[1..], threshold);
    }
  }

  lemma EnableSwitches(threshold: int32, before: seq<Sent>)
    ensures SwitchedOnce(before, Peer(-1, before).Write(SetCompressionPacket(threshold)).(mode := threshold), threshold)
  {
  }

  /** Compression agreement. Whatever uncompressed frames a client was written before, whichever path
      its login takes to LoginSuccess and whether or not it authenticates: it is sent exactly one
      SetCompression, uncompressed and directly after those frames and the encryption request of an
      online lobby; every later frame is in the new mode and the last packet is LoginSuccess. */
  lemma CompressionAgreement(cfg: Config, threshold: int32, written: seq<Sent>, env: Surroundings)
    requires threshold >= 0
    requires cfg.forge ==> cfg.fml3
    ensures var before := BeforeCompression(cfg, written, env);
            var done := ServeLogin(cfg, threshold, Peer(-1, written), env);
            done.Some? ==> SwitchedOnce(before, done.value, threshold) && EndsInSuccess(done.value)
  {
    hide Run, SwitchedOnce, SetCompressionPacket;
    var before := BeforeCompression(cfg, written, env);
    var known := Peer(-1, before);
    var ready := known.Write(SetCompressionPacket(threshold)).(mode := threshold);
    EnableSwitches(threshold, before);
    var done := ServeLogin(cfg, threshold, Peer(-1, written), env);
    if done.Some? {
      assert Authenticate(cfg, Peer(-1, written), env) == Some(known);
      if cfg.forge && env.cache == [] {
        HotRunKeepsMode(cfg, before, Start(Some(Relay([], 0, 0, ready)), env.cache), env.events, threshold);
      } else {
        var cache := if cfg.forge then env.laterCache else [];
        ReplayKeepsMode(threshold, before, ready, cache, env.writes);
        var replayed := ReplayRequests(ready, cache, env.writes).value;
        WriteKeepsMode(threshold, before, replayed, RawPacket(LOGIN_SUCCESS, env.uuidAndName));
      }
    }
  }

  /** The frames the client can be sent at all. */
  ghost predicate AllEncodable(z: Zlib, sent: seq<Sent>) {
    forall i :: 0 <= i < |sent| ==> Encodable(z, sent[i])
  }

  /** Hence the client decodes the whole login. */
  lemma ClientFollowsLogin(z: Zlib, cfg: Config, threshold: int32, written: seq<Sent>, env: Surroundings)
    requires Lawful(z) && threshold >= 0 && Uncompressed(written)
    requires cfg.forge ==> cfg.fml3
    ensures var done := ServeLogin(cfg, threshold, Peer(-1, written), env);
            done.Some? && AllEncodable(z, done.value.sent) ==>
              ClientReads(z, -1, Wire(z, done.value.sent)) == Some(Packets(done.value.sent))
  {
    CompressionAgreement(cfg, threshold, written, env);
    assert Uncompressed(BeforeCompression(cfg, written, env));
    hide ServeLogin, SwitchedOnce, Encodable, ClientReads, Wire, Uncompressed;
    var done := ServeLogin(cfg, threshold, Peer(-1, written), env);
    if done.Some? && AllEncodable(z, done.value.sent) {
      ClientDecodesEverything(z, threshold, BeforeCompression(cfg, written, env), done.value);
    }
  }

  lemma {:induction false} WireConcat(z: Zlib, a: seq<Sent>, b: seq<Sent>)
    ensures Wire(z, a + b) == Wire(z, a) + Wire(z, b)
    decreases a
  {
    hide EncodeWithLen;
    if a == [] {
      assert a + b == b;
    } else {
      assert (a + b)[0] == a[0] && (a + b)[1..] == a[1..] + b;
      WireConcat(z, a[1..], b);
    }
  }

  /** The bytes an online client is sent: plain up to the encryption request, then through the
      cipher stream that starts from the shared secret. */
  function EncryptedWire(z: Zlib, f: Cfb8.Cipher, secret: seq<byte>, plain: seq<Sent>, rest: seq<Sent>): seq<byte> {
    Wire(z, plain) + Cfb8.Apply(f, false, secret, Wire(z, rest)).0
  }

  /** What the client makes of those bytes: it deciphers all but the first `plain`. */
  function Deciphered(f: Cfb8.Cipher, secret: seq<byte>, plain: nat, bytes: seq<byte>): seq<byte>
    requires plain <= |bytes|
  {
    bytes[..plain] + Cfb8.Apply(f, true, secret, bytes[plain..]).0
  }

  lemma DecipheredIsPlain(z: Zlib, f: Cfb8.Cipher, secret: seq<byte>, plain: seq<Sent>, rest: seq<Sent>)
    ensures |Wire(z, plain)| <= |EncryptedWire(z, f, secret, plain, rest)|
    ensures Deciphered(f, secret, |Wire(z, plain)|, EncryptedWire(z, f, secret, plain, rest)) == Wire(z, plain + rest)
  {
    hide Wire, Cfb8.Apply;
    var p, w := Wire(z, plain), EncryptedWire(z, f, secret, plain, rest);
    assert w[..|p|] == p && w[|p|..] == Cfb8.Apply(f, false, secret, Wire(z, rest)).0;
    Cfb8.Inversion(f, secret, Wire(z, rest));
    WireConcat(z, plain, rest);
  }

  /** The same over an encrypted connection: a client that deciphers everything after the encryption
      request and switches on SetCompression decodes the whole online login. */
  lemma ClientFollowsEncryptedLogin(
    z: Zlib, f: Cfb8.Cipher, secret: seq<byte>, cfg: Config, threshold: int32, written: seq<Sent>, env: Surroundings)
    requires Lawful(z) && threshold >= 0 && Uncompressed(written)
    requires cfg.forge ==> cfg.fml3
    requires cfg.onlineMode
    ensures var before := BeforeCompression(cfg, written, env);
            var done := ServeLogin(cfg, threshold, Peer(-1, written), env);
            done.Some? && AllEncodable(z, done.value.sent) ==>
              && |before| <= |done.value.sent| && done.value.sent[..|before|] == before
              && var n, wire := |Wire(z, before)|, EncryptedWire(z, f, secret, before, done.value.sent[|before|..]);
                 n <= |wire| && ClientReads(z, -1, Deciphered(f, secret, n, wire)) == Some(Packets(done.value.sent))
  {
    hide ServeLogin, AllEncodable, ClientReads, Wire, Steady, EncryptedWire, Deciphered, BeforeCompression, Packets,
         Uncompressed, Lawful, SetCompressionPacket, EndsInSuccess;
    CompressionAgreement(cfg, threshold, written, env);
    ClientFollowsLogin(z, cfg, threshold, written, env);
    var before := BeforeCompression(cfg, written, env);
    var done := ServeLogin(cfg, threshold, Peer(-1, written), env);
    if done.Some? && AllEncodable(z, done.value.sent) {
      var rest := done.value.sent[|before|..];
      assert before + rest == done.value.sent;
      DecipheredIsPlain(z, f, secret, before, rest);
    }
  }

  // ---- every login, exactly ----

  /** The `count` writes from number `from` on all succeed. */
  ghost predicate AllWritten(writes: Writes, from: nat, count: nat) {
    forall i :: from <= i < from + count ==> writes(i)
  }

  /** The cached queries as frames. */
  function Replayed(mode: int32, cache: seq<Exchange>): (r: seq<Sent>)
    ensures |r| == |cache|
  {
    seq(|cache|, i requires 0 <= i < |cache| => Sent(mode, RawPacket(0x04, cache[i].request)))
  }

  lemma {:induction false} ReplayExactly(peer: Peer, cache: seq<Exchange>, writes: Writes)
    ensures var r := ReplayRequests(peer, cache, writes);
            && (r.Some? <==> AllWritten(writes, |peer.sent|, |cache|))
            && (r.Some? ==> r.value == Peer(peer.mode, peer.sent + Replayed(peer.mode, cache)))
    decreases cache
  {
    if cache == [] {
      assert peer.sent + [] == peer.sent;
    } else {
      var n := |peer.sent|;
      if writes(n) {
        var next := peer.Write(RawPacket(PLUGIN_REQUEST, cache[0].request));
        ReplayExactly(next, cache[1..], writes);
        assert Replayed(peer.mode, cache) == [Replayed(peer.mode, cache)[0]] + Replayed(peer.mode, cache[1..]);
      }
    }
  }

  /** The mode of a client after compression has been negotiated, or not. */
  function NewMode(threshold: int32): int32 {
    if threshold >= 0 then threshold else -1
  }

  /** The switch, as a frame. */
  function SwitchFrames(threshold: int32): seq<Sent> {
    if threshold >= 0 then [Sent(-1, RawPacket(0x03, Encoding(threshold)))] else []
  }

  /** The login of a client that is not relayed: the frames before, the switch, the cached queries of a Forge
      server, and LoginSuccess. */
  function LoginLog(cfg: Config, threshold: int32, written: seq<Sent>, env: Surroundings): seq<Sent> {
    BeforeCompression(cfg, written, env) + SwitchFrames(threshold)
    + (if cfg.forge then Replayed(NewMode(threshold), env.laterCache) else [])
    + [Sent(NewMode(threshold), RawPacket(0x02, env.uuidAndName))]
  }

  lemma FinishExactly(threshold: int32, peer: Peer, compressionSent: bool, uuidAndName: seq<byte>, writes: Writes)
    requires peer.mode == if compressionSent then NewMode(threshold) else -1
    requires compressionSent ==> threshold >= 0
    ensures var switch := if compressionSent then [] else SwitchFrames(threshold);
            var log := switch + [Sent(NewMode(threshold), RawPacket(0x02, uuidAndName))];
            var r := FinishLogin(threshold, peer, compressionSent, uuidAndName, writes);
            && (r.Some? <==> AllWritten(writes, |peer.sent|, |log|))
            && (r.Some? ==> r.value == Peer(NewMode(threshold), peer.sent + log))
  {
    var n := |peer.sent|;
    assert AllWritten(writes, n, 1) <==> writes(n);
    assert AllWritten(writes, n, 2) <==> writes(n) && writes(n + 1);
  }

  lemma OneWritten(writes: Writes, from: nat)
    ensures AllWritten(writes, from, 0) && (AllWritten(writes, from, 1) <==> writes(from))
  {
  }

  lemma WrittenConcat(writes: Writes, from: nat, a: nat, b: nat)
    ensures AllWritten(writes, from, a + b) <==> AllWritten(writes, from, a) && AllWritten(writes, from + a, b)
  {
  }

  lemma EnsureExactly(threshold: int32, before: seq<Sent>, writes: Writes)
    ensures var r := EnsureCompression(threshold, Peer(-1, before), writes);
            && (r.Some? <==> AllWritten(writes, |before|, |SwitchFrames(threshold)|))
            && (r.Some? ==> r.value == (Peer(NewMode(threshold), before + SwitchFrames(threshold)), threshold >= 0))
  {
    assert AllWritten(writes, |before|, 1) <==> writes(|before|);
    assert before + [] == before;
  }

  /** A client that is already compressed is not switched again, and not to another threshold. */
  lemma EnsureOnlyOnce(threshold: int32, peer: Peer, writes: Writes)
    requires threshold >= 0 && peer.mode >= 0
    ensures EnsureCompression(threshold, peer, writes) == if peer.mode == threshold then Some((peer, true)) else None
  {
  }

  lemma ColdExactly(threshold: int32, before: seq<Sent>, cache: seq<Exchange>, drained: bool, uuidAndName: seq<byte>, writes: Writes)
    ensures var mode := NewMode(threshold);
            var log := SwitchFrames(threshold) + Replayed(mode, cache) + [Sent(mode, RawPacket(0x02, uuidAndName))];
            var r := ColdLogin(threshold, Peer(-1, before), cache, drained, uuidAndName, writes);
            && (r.Some? <==> drained && AllWritten(writes, |before|, |log|))
            && (r.Some? ==> r.value == Peer(mode, before + log))
  {
    hide AllWritten, ReplayRequests, FinishLogin, EnsureCompression, SwitchFrames;
    var mode := NewMode(threshold);
    var switch, replayed, last := SwitchFrames(threshold), Replayed(mode, cache), [Sent(mode, RawPacket(0x02, uuidAndName))];
    var ready := Peer(mode, before + switch);
    var full := Peer(mode, ready.sent + replayed);
    NoSwitch(threshold);
    EnsureExactly(threshold, before, writes);
    ReplayExactly(ready, cache, writes);
    FinishExactly(threshold, full, threshold >= 0, uuidAndName, writes);
    assert [] + last == last;
    WrittenConcat(writes, |before|, |switch|, |replayed|);
    WrittenConcat(writes, |before|, |switch| + |replayed|, 1);
    assert before + (switch + replayed + last) == before + switch + replayed + last;
  }

  lemma NoSwitch(threshold: int32)
    ensures threshold < 0 ==> SwitchFrames(threshold) == []
  {
  }

  lemma AuthenticateExactly(cfg: Config, written: seq<Sent>, env: Surroundings)
    ensures var r := Authenticate(cfg, Peer(-1, written), env);
            && (r.Some? <==> (cfg.onlineMode ==> env.authenticated && env.writes(|written|)))
            && (r.Some? ==> r.value == Peer(-1, BeforeCompression(cfg, written, env)))
  {
  }

  /** The answers to expect are the recorded queries that were answered. */
  lemma {:induction false} AnsweredCounts(cache: seq<Exchange>)
    ensures Answered(cache) == |set i | 0 <= i < |cache| && !cache[i].noResponse|
    decreases |cache|
  {
    if cache != [] {
      var n := |cache| - 1;
      AnsweredSnoc(cache);
      AnsweredCounts(cache[..n]);
      var before := set i | 0 <= i < n && !cache[..n][i].noResponse;
      var all := set i | 0 <= i < |cache| && !cache[i].noResponse;
      assert all == before + if cache[n].noResponse then {} else {n};
    }
  }

  lemma {:induction false} AnsweredSnoc(cache: seq<Exchange>)
    requires cache != []
    ensures Answered(cache) == Answered(cache[..|cache| - 1]) + if cache[|cache| - 1].noResponse then 0 else 1
    decreases cache
  {
    if |cache| > 1 {
      AnsweredSnoc(cache[1..]);
      assert cache[1..][..|cache| - 2] == cache[..|cache| - 1][1..];
    } else {
      assert cache[1..] == [] && cache[..0] == [];
    }
  }

  /** A client that answers every replayed query that was answered before, in the new mode, is drained exactly
      if the reader gets every length prefix whole. */
  lemma AnsweringClientDrains(
    threshold: int32, peer: Peer, cache: seq<Exchange>, s: PacketStream.Source, z: Zlib, ps: seq<RawPacket>, rest: seq<byte>, silence: bool)
    requires threshold >= 0
    requires Lawful(z) && forall i :: 0 <= i < |ps| ==> PacketStream.Fits(z, threshold, ps[i])
    requires PacketStream.Chunked(s.script) && |s.buf| <= PacketStream.MAX_BUFFERED_BYTES
    requires PacketStream.Total(s) == PacketStream.Stream(z, threshold, ps) + rest
    requires ps != [] ==> ps[|ps| - 1].id == PLUGIN_RESPONSE
    requires ForgeDrain.Responses(ps) == |set i | 0 <= i < |cache| && !cache[i].noResponse|
    ensures Drains(threshold, peer, cache, s, z, silence) <==> PacketStream.PrefixesArriveWhole(z, threshold, s, ps)
  {
    hide ForgeDrain.AfterDrain;
    AnsweredCounts(cache);
    ForgeDrain.DrainStopsAfterLastAnswer(z, threshold, s, ps, rest, silence);
  }

  /** Every login that is not relayed, exactly: it succeeds if and only if the client authenticates where it
      must, its answers can be drained where there are any, and every frame can be written; and the client
      is then written exactly these frames. */
  lemma LoginExactly(cfg: Config, threshold: int32, written: seq<Sent>, env: Surroundings)
    requires cfg.forge ==> cfg.fml3 && env.cache != []
    ensures var r := ServeLogin(cfg, threshold, Peer(-1, written), env);
            var log := LoginLog(cfg, threshold, written, env);
            && (r.Some? <==>
                  && (cfg.onlineMode ==> env.authenticated) && (cfg.forge ==> env.drained)
                  && AllWritten(env.writes, |written|, |log| - |written|))
            && (r.Some? ==> r.value == Peer(NewMode(threshold), log))
  {
    var before := BeforeCompression(cfg, written, env);
    var mode := NewMode(threshold);
    var last := [Sent(mode, RawPacket(0x02, env.uuidAndName))];
    hide AllWritten, ColdLogin, FinishLogin, SwitchFrames, Authenticate, Replayed, NewMode;
    AuthenticateExactly(cfg, written, env);
    OneWritten(env.writes, |written|);
    WrittenConcat(env.writes, |written|, |before| - |written|, |LoginLog(cfg, threshold, written, env)| - |before|);
    if cfg.forge {
      ColdExactly(threshold, before, env.laterCache, env.drained, env.uuidAndName, env.writes);
      var switch, replayed := SwitchFrames(threshold), Replayed(mode, env.laterCache);
      assert before + (switch + replayed + last) == before + switch + replayed + last;
    } else {
      FinishExactly(threshold, Peer(-1, before), false, env.uuidAndName, env.writes);
      assert before + (SwitchFrames(threshold) + last) == before + SwitchFrames(threshold) + [] + last;
    }
  }

  /** Every relayed login, exactly: it succeeds if and only if the client authenticates where it must, the
      switch can be written and the backend login can be completed; the client is then written the frames
      before, the switch, and what the relay writes. */
  lemma HotLoginExactly(cfg: Config, threshold: int32, written: seq<Sent>, env: Surroundings)
    requires cfg.forge && cfg.fml3 && env.cache == []
    ensures var r := ServeLogin(cfg, threshold, Peer(-1, written), env);
            var before := BeforeCompression(cfg, written, env);
            var mode := NewMode(threshold);
            && (r.Some? <==>
                  && (cfg.onlineMode ==> env.authenticated)
                  && AllWritten(env.writes, |written|, |before| + |SwitchFrames(threshold)| - |written|)
                  && HotAccepted(cfg, mode, [], env.events))
            && (r.Some? ==> r.value.sent == before + SwitchFrames(threshold) + ClientLog(mode, 0, env.events))
  {
    var before := BeforeCompression(cfg, written, env);
    AuthenticateExactly(cfg, written, env);
    EnsureExactly(threshold, before, env.writes);
    OneWritten(env.writes, |written|);
    WrittenConcat(env.writes, |written|, |before| - |written|, |SwitchFrames(threshold)|);
    var ready := Peer(NewMode(threshold), before + SwitchFrames(threshold));
    var st := Start(Some(Relay([], 0, 0, ready)), []);
    NobodyAsked();
    assert Hot(st) && ForwardedOnRequest(st);
    HotRunExactly(cfg, st, env.events);
    ClientLogExactly(cfg, st, env.events);
    CacheChangesOnlyOnSuccess(cfg, st, env.events);
    hide AllWritten, Run, HotAccepted, ClientLog, SwitchFrames, Authenticate, EnsureCompression, AsksForProfile;
  }

  /** The lobby's handle on its client. */
  class LobbyClient {
    var peer: Peer

    constructor ()
      ensures peer == Peer(-1, [])
    {
      peer := Peer(-1, []);
    }

    method Send(p: RawPacket, writes: Writes) returns (ok: bool)
      modifies this
      ensures (if ok then Some(peer) else None) == Write(old(peer), p, writes)
      ensures !ok ==> peer == old(peer)
    {
      if !writes(|peer.sent|) {
        return false;
      }
      peer := peer.Write(p);
      return true;
    }

    /** The encryption request; what follows of the authentication is its result. */
    method AskForEncryption(cfg: Config, env: Surroundings) returns (ok: bool)
      requires cfg.onlineMode
      modifies this
      ensures (if ok then Some(peer) else None) == Authenticate(cfg, old(peer), env)
    {
      var sent := Send(EncryptionRequest(env.challenge), env.writes);
      return sent && env.authenticated;
    }

    method Ensure(threshold: int32, writes: Writes) returns (active: bool, ok: bool)
      modifies this
      ensures (if ok then Some((peer, active)) else None) == EnsureCompression(threshold, old(peer), writes)
    {
      if threshold < 0 {
        return false, true;
      }
      if peer.mode >= 0 {
        if peer.mode != threshold {
          return false, false;
        }
        return true, true;
      }
      var sent := Send(SetCompressionPacket(threshold), writes);
      if !sent {
        return false, false;
      }
      peer := peer.(mode := threshold);
      return true, true;
    }

    method Replay(cache: seq<Exchange>, writes: Writes) returns (responsesExpected: nat, ok: bool)
      modifies this
      ensures (if ok then Some(peer) else None) == ReplayRequests(old(peer), cache, writes)
      ensures ok ==> responsesExpected == Answered(cache) && peer.mode == old(peer.mode)
    {
      responsesExpected := 0;
      for i := 0 to |cache|
        invariant peer.mode == old(peer.mode)
        invariant ReplayRequests(peer, cache[i..], writes) == ReplayRequests(old(peer), cache, writes)
        invariant responsesExpected + Answered(cache[i..]) == Answered(cache)
      {
        assert cache[i..][1..] == cache[i + 1..];
        var sent := Send(RawPacket(PLUGIN_REQUEST, cache[i].request), writes);
        if !sent {
          return 0, false;
        }
        if !cache[i].noResponse {
          responsesExpected := responsesExpected + 1;
        }
      }
      return responsesExpected, true;
    }

    /** The cold path up to LoginSuccess; the client's answers are read off `reader`. */
    method Cold(
      threshold: int32, cache: seq<Exchange>, reader: PacketStream.PacketReader, z: Zlib, silence: bool,
      uuidAndName: seq<byte>, writes: Writes)
      returns (ok: bool)
      modifies this, reader
      ensures (if ok then Some(peer) else None) ==
                ColdLogin(threshold, old(peer), cache, Drains(threshold, old(peer), cache, old(reader.View()), z, silence), uuidAndName, writes)
    {
      hide ForgeDrain.AfterDrain;
      var compressionSent, ensured := Ensure(threshold, writes);
      if !ensured {
        return false;
      }
      var responsesExpected, replayed := Replay(cache, writes);
      if !replayed {
        return false;
      }
      var r := ForgeDrain.DrainResponses(reader, z, peer.mode, responsesExpected, silence);
      if r == ForgeDrain.ReadFailed {
        return false;
      }
      ok := Finish(threshold, compressionSent, uuidAndName, writes);
    }

    method Finish(threshold: int32, compressionSent: bool, uuidAndName: seq<byte>, writes: Writes) returns (ok: bool)
      modifies this
      ensures (if ok then Some(peer) else None) == FinishLogin(threshold, old(peer), compressionSent, uuidAndName, writes)
    {
      if threshold >= 0 && !compressionSent {
        var sent := Send(SetCompressionPacket(threshold), writes);
        if !sent {
          return false;
        }
        peer := peer.(mode := threshold);
      }
      ok := Send(RawPacket(LOGIN_SUCCESS, uuidAndName), writes);
    }
  }
}
