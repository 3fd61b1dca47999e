/** lobby.go: logging in to the backend on behalf of a client, with the FML3 exchange either
    relayed live (hot) or answered from the cache that a live exchange left behind (cold).

    The backend is an arbitrary sequence of packets. Each comes with what the surroundings do
    while it is handled: write results, the client's next packet, the forwarding payload. */
module BackendLogin {
  import opened Bytes
  import opened VarInt
  import opened Framing
  import opened LoginPackets
  import opened ForgeRelay

  const VELOCITY: seq<byte> := Ascii("velocity:player_info")

  datatype Config = Config(onlineMode: bool, forge: bool, fml3: bool)

  datatype BackendEvent = Got(packet: RawPacket, env: Env) | Ended

  datatype Phase = Negotiating | Play | Dropped

  /** A backend query and what it got. */
  datatype Turn = Turn(request: PluginRequest, reply: Reply)

  /** `relay` is present in a hot login; `cache` is the server's exchange cache. */
  datatype Login = Login(
    backend: Peer,
    forwarded: bool,
    replayIndex: nat,
    relay: Option<Relay>,
    cache: seq<Exchange>,
    turns: seq<Turn>,
    phase: Phase)

  function Start(relay: Option<Relay>, cache: seq<Exchange>): Login {
    Login(Peer(-1, []), false, 0, relay, cache, [], Negotiating)
  }

  function Drop(st: Login): Login {
    st.(phase := Dropped)
  }

  /** The packet that carries a reply to the backend. */
  function ReplyPacket(reply: Reply): Option<RawPacket> {
    match reply
    case Silent => None
    case Answer(response) => Some(RawPacket(PLUGIN_RESPONSE, EncodePluginResponse(response)))
    case Synthesized(packet) => Some(packet)
  }

  function Serve(st: Login, request: PluginRequest, reply: Reply): Login {
    var packet := ReplyPacket(reply);
    st.(backend := if packet.Some? then st.backend.Write(packet.value) else st.backend,
        turns := st.turns + [Turn(request, reply)])
  }

  function Refuse(st: Login, request: PluginRequest, env: Env): Login {
    if env.backendWriteOk then Serve(st, request, Answer(PluginResponse(request.id, false, []))) else Drop(st)
  }

  /** cachedForgeRequestMatches: same channel and data; the message ID is not compared. */
  predicate CachedRequestMatches(e: Exchange, request: PluginRequest) {
    var cached := DecodePluginRequest(e.request);
    cached.Some? && cached.value.channel == request.channel && cached.value.data == request.data
  }

  function AfterCachedQuery(st: Login, request: PluginRequest, env: Env): Login {
    if st.replayIndex >= |st.cache| then Refuse(st, request, env)
    else
      var e := st.cache[st.replayIndex];
      if !CachedRequestMatches(e, request) then Drop(st)
      else
        var next := st.(replayIndex := st.replayIndex + 1);
        if e.noResponse then Serve(next, request, Silent)
        else if env.backendWriteOk then Serve(next, request, Answer(PluginResponse(request.id, e.success, e.data)))
        else Drop(next)
  }

  function AfterPluginRequest(cfg: Config, st: Login, request: PluginRequest, env: Env): Login {
    if request.channel == VELOCITY then
      if env.velocity.None? || !env.backendWriteOk then Drop(st)
      else Serve(st.(forwarded := true), request, Answer(PluginResponse(request.id, true, env.velocity.value)))
    else if st.relay.Some? then
      var (r, reply) := AfterQuery(st.relay.value, request, env);
      if reply.None? then Drop(st.(relay := Some(r))) else Serve(st.(relay := Some(r)), request, reply.value)
    else if request.channel == WRAPPER && st.cache != [] then AfterCachedQuery(st, request, env)
    else if cfg.forge && !cfg.fml3 then
      if env.legacy.None? || !env.backendWriteOk then Drop(st) else Serve(st, request, Synthesized(env.legacy.value))
    else Refuse(st, request, env)
  }

  /** In a hot login the threshold must reach the held client first, and may not change afterwards. */
  function AfterSetCompression(st: Login, packet: RawPacket, env: Env): Login {
    match DecodeSetCompression(packet.data)
    case None => Drop(st)
    case Some(threshold) =>
      if st.relay.None? then st.(backend := st.backend.(mode := threshold))
      else
        var client := st.relay.value.client;
        if client.mode >= 0 then
          if client.mode != threshold then Drop(st) else st.(backend := st.backend.(mode := threshold))
        else if !env.clientWriteOk then Drop(st)
        else
          st.(backend := st.backend.(mode := threshold),
              relay := Some(st.relay.value.(client := client.Write(packet).(mode := threshold))))
  }

  /** forgeLoginRelay.commit: a login without exchanges leaves the cache alone. */
  function Committed(r: Relay, cache: seq<Exchange>): seq<Exchange> {
    if r.exchanges != [] then r.exchanges else cache
  }

  function AfterLoginSuccess(cfg: Config, st: Login, packet: RawPacket, env: Env): Login {
    if cfg.onlineMode && !st.forwarded then Drop(st)
    else if st.relay.None? then st.(phase := Play)
    else if !env.clientWriteOk then Drop(st)
    else
      var r := st.relay.value;
      st.(relay := Some(r.(client := r.client.Write(packet))), cache := Committed(r, st.cache), phase := Play)
  }

  function Step(cfg: Config, st: Login, ev: BackendEvent): Login {
    if ev.Ended? then Drop(st)
    else if ev.packet.id == SET_COMPRESSION then AfterSetCompression(st, ev.packet, ev.env)
    else if ev.packet.id == ENCRYPTION_REQUEST then Drop(st)
    else if ev.packet.id == PLUGIN_REQUEST then
      match DecodePluginRequest(ev.packet.data)
      case None => Drop(st)
      case Some(request) => AfterPluginRequest(cfg, st, request, ev.env)
    else if ev.packet.id == LOGIN_SUCCESS then AfterLoginSuccess(cfg, st, ev.packet, ev.env)
    else if ev.packet.id == LOGIN_DISCONNECT then Drop(st)
    else st
  }

  function Run(cfg: Config, st: Login, events: seq<BackendEvent>): Login
    decreases events
  {
    if events == [] || st.phase != Negotiating then st
    else Run(cfg, Step(cfg, st, events[0]), events[1..])
  }

  // ---- the cache changes only on a completed hot login ----

  lemma {:induction false} CacheChangesOnlyOnSuccess(cfg: Config, st: Login, events: seq<BackendEvent>)
    ensures var t := Run(cfg, st, events);
            && (t.phase != Play || st.relay.None? ==> t.cache == st.cache)
            && (t.relay.Some? <==> st.relay.Some?)
            && (st.phase == Negotiating && t.phase == Play && t.relay.Some? ==> t.cache == Committed(t.relay.value, st.cache))
    decreases events
  {
    hide DecodePluginRequest, DecodeSetCompression, AfterQuery, CachedRequestMatches, EncodePluginResponse;
    if events != [] && st.phase == Negotiating {
      var t := Step(cfg, st, events[0]);
      CacheChangesOnlyOnSuccess(cfg, t, events[1..]);
    }
  }

  // ---- what a hot login records ----

  /** The exchanges a sequence of served queries stands for: one per wrapper query, numbered from 1. */
  function Record(turns: seq<Turn>): seq<Exchange> {
    if turns == [] then []
    else
      var before := Record(turns[..|turns| - 1]);
      var last := turns[|turns| - 1];
      if last.request.channel == WRAPPER then before + [ExchangeOf(ToInt32(|before| + 1), last.request, last.reply)]
      else before
  }

  /** How a hot login treats a query that is not for profile forwarding. */
  ghost predicate LiveTurn(t: Turn) {
    t.request.channel != VELOCITY ==>
      && !t.reply.Synthesized?
      && (t.reply.Silent? <==> OneWay(t.request))
      && (t.reply.Answer? ==> t.reply.response.id == t.request.id)
      && (t.request.channel != WRAPPER ==> t.reply == Answer(PluginResponse(t.request.id, false, [])))
  }

  ghost predicate Hot(st: Login) {
    && st.relay.Some?
    && (st.phase != Dropped ==>
          && RelayInv(st.relay.value)
          && st.relay.value.exchanges == Record(st.turns)
          && forall i :: 0 <= i < |st.turns| ==> LiveTurn(st.turns[i]))
  }

  lemma RecordSnoc(turns: seq<Turn>, t: Turn)
    ensures Record(turns + [t]) ==
      if t.request.channel == WRAPPER
      then Record(turns) + [ExchangeOf(ToInt32(|Record(turns)| + 1), t.request, t.reply)]
      else Record(turns)
  {
    assert (turns + [t])[..|turns|] == turns;
  }

  lemma VelocityIsNotWrapper()
    ensures VELOCITY != WRAPPER
  {
    assert |VELOCITY| == 20 && |WRAPPER| == 16;
  }

  lemma HotQuery(cfg: Config, st: Login, request: PluginRequest, env: Env)
    requires Hot(st) && st.phase == Negotiating
    ensures Hot(AfterPluginRequest(cfg, st, request, env))
  {
    hide AfterQuery, OneWay, RelayInv, EncodePluginResponse, Record;
    if request.channel == VELOCITY {
      if env.velocity.Some? && env.backendWriteOk {
        VelocityIsNotWrapper();
        RecordSnoc(st.turns, Turn(request, Answer(PluginResponse(request.id, true, env.velocity.value))));
      }
    } else {
      var r := st.relay.value;
      var (r', reply) := AfterQuery(r, request, env);
      if reply.Some? {
        QueryServed(r, request, env);
        QueryKeepsInvariant(r, request, env);
        RecordSnoc(st.turns, Turn(request, reply.value));
        assert |r.exchanges| < 0x7FFF_FFFF by { InvariantBounds(r); }
        ToInt32Fits(|r.exchanges| + 1);
      }
    }
  }

  lemma InvariantBounds(r: Relay)
    requires RelayInv(r)
    ensures |r.exchanges| <= MAX_EXCHANGES
  {
  }

  lemma HotStep(cfg: Config, st: Login, ev: BackendEvent)
    requires Hot(st) && st.phase == Negotiating
    ensures Hot(Step(cfg, st, ev))
  {
    hide AfterPluginRequest, DecodePluginRequest, DecodeSetCompression, NumberedRequest, RecordedBytes, Record, LiveTurn;
    if ev.Got? && ev.packet.id == PLUGIN_REQUEST && DecodePluginRequest(ev.packet.data).Some? {
      HotQuery(cfg, st, DecodePluginRequest(ev.packet.data).value, ev.env);
    }
  }

  /** Every state of every hot login keeps the relay invariant and records exactly its queries. */
  lemma {:induction false} HotRun(cfg: Config, st: Login, events: seq<BackendEvent>)
    requires Hot(st)
    ensures Hot(Run(cfg, st, events))
    decreases events
  {
    hide Step, Hot;
    if events != [] && st.phase == Negotiating {
      HotStep(cfg, st, events[0]);
      HotRun(cfg, Step(cfg, st, events[0]), events[1..]);
    }
  }

  // ---- replay refines live relay ----

  /** The same query, up to the message ID. */
  predicate SameQuery(a: PluginRequest, b: PluginRequest) {
    a.channel == b.channel && a.data == b.data
  }

  /** The backend of a cold login asks what the backend of the hot login asked, as far as it gets. */
  ghost predicate AsksTheSame(cold: seq<Turn>, hot: seq<Turn>) {
    && |cold| <= |hot|
    && forall i :: 0 <= i < |cold| ==> SameQuery(cold[i].request, hot[i].request)
  }

  /** Each backend is answered alike, under its own message ID; silence answers silence. */
  predicate SameReply(cold: Turn, hot: Turn) {
    match hot.reply
    case Silent => cold.reply == Silent
    case Answer(r) =>
      && r.id == hot.request.id
      && cold.reply == Answer(PluginResponse(cold.request.id, r.successful, r.data))
    case Synthesized(_) => false
  }

  ghost predicate Refines(cold: seq<Turn>, hot: seq<Turn>) {
    && |cold| <= |hot|
    && forall i :: 0 <= i < |cold| && cold[i].request.channel != VELOCITY ==> SameReply(cold[i], hot[i])
  }

  /** A cold login over the cache left by `hot`, at a point where its queries have matched. */
  ghost predicate Cold(st: Login, hot: seq<Turn>) {
    && st.relay.None?
    && st.cache == Record(hot)
    && (AsksTheSame(st.turns, hot) ==>
          && Refines(st.turns, hot)
          && (st.phase != Dropped ==> st.replayIndex == |Record(hot[..|st.turns|])|))
  }

  lemma {:induction false} RecordPrefix(turns: seq<Turn>, n: nat)
    requires n <= |turns|
    ensures Record(turns[..n]) <= Record(turns)
    decreases |turns| - n
  {
    if n == |turns| {
      assert turns[..n] == turns;
    } else {
      RecordSnoc(turns[..n], turns[n]);
      assert turns[..n] + [turns[n]] == turns[..n + 1];
      RecordPrefix(turns, n + 1);
    }
  }

  /** Entry `n` of the record, if query `n` is a wrapper query, is at the position the replay has reached. */
  lemma RecordAt(turns: seq<Turn>, n: nat)
    requires n < |turns|
    ensures var k := |Record(turns[..n])|;
            && (turns[n].request.channel == WRAPPER ==>
                  && |Record(turns[..n + 1])| == k + 1
                  && k < |Record(turns)|
                  && Record(turns)[k] == ExchangeOf(ToInt32(k + 1), turns[n].request, turns[n].reply))
            && (turns[n].request.channel != WRAPPER ==> |Record(turns[..n + 1])| == k)
  {
    RecordSnoc(turns[..n], turns[n]);
    assert turns[..n] + [turns[n]] == turns[..n + 1];
    RecordPrefix(turns, n + 1);
  }

  /** A recorded query matches exactly the queries of the same channel and data, whatever their IDs. */
  lemma RecordedRequestMatches(id: int32, recorded: Turn, request: PluginRequest)
    requires recorded.request.channel == WRAPPER
    ensures CachedRequestMatches(ExchangeOf(id, recorded.request, recorded.reply), request) <==>
              request.channel == recorded.request.channel && request.data == recorded.request.data
  {
    PluginRequestRoundTrip(recorded.request.(id := id));
    hide EncodePluginRequest, DecodePluginRequest;
  }

  /** The backend can be written to, and a profile that it asks for can be forwarded. */
  predicate Answerable(request: PluginRequest, env: Env) {
    env.backendWriteOk && (request.channel == VELOCITY ==> env.velocity.Some?)
  }

  /** One query of a cold login: unless a write fails it is served, and as in the hot login. */
  lemma ColdQuery(cfg: Config, st: Login, request: PluginRequest, env: Env, hot: seq<Turn>)
    requires cfg.forge && cfg.fml3
    requires forall i :: 0 <= i < |hot| ==> LiveTurn(hot[i])
    requires Cold(st, hot) && AsksTheSame(st.turns, hot) && st.phase == Negotiating
    requires |st.turns| < |hot| && SameQuery(request, hot[|st.turns|].request)
    ensures var t := AfterPluginRequest(cfg, st, request, env);
            && (Answerable(request, env) ==> t.phase == st.phase && |t.turns| == |st.turns| + 1)
            && t.turns[..|st.turns|] == st.turns && |t.turns| <= |st.turns| + 1
            && (|t.turns| > |st.turns| ==>
                  && t.turns[|st.turns|].request == request
                  && t.replayIndex == |Record(hot[..|st.turns| + 1])|
                  && (request.channel != VELOCITY ==> SameReply(t.turns[|st.turns|], hot[|st.turns|])))
  {
    hide Record, CachedRequestMatches, EncodePluginResponse, OneWay, EncodePluginRequest;
    var n := |st.turns|;
    VelocityIsNotWrapper();
    RecordAt(hot, n);
    if request.channel == WRAPPER {
      RecordedRequestMatches(ToInt32(st.replayIndex + 1), hot[n], request);
    }
  }

  lemma ColdQueryAny(cfg: Config, st: Login, request: PluginRequest, env: Env, hot: seq<Turn>)
    requires cfg.forge && cfg.fml3
    requires forall i :: 0 <= i < |hot| ==> LiveTurn(hot[i])
    requires Cold(st, hot) && st.phase == Negotiating
    ensures Cold(AfterPluginRequest(cfg, st, request, env), hot)
  {
    hide Record, CachedRequestMatches, EncodePluginResponse, SameReply, LiveTurn;
    var t := AfterPluginRequest(cfg, st, request, env);
    QueryAppends(cfg, st, request, env);
    if AsksTheSame(t.turns, hot) {
      if |t.turns| > |st.turns| {
        assert t.turns[..|st.turns|] == st.turns;
        assert forall i :: 0 <= i < |st.turns| ==> st.turns[i] == t.turns[i];
        assert AsksTheSame(st.turns, hot);
        assert SameQuery(t.turns[|st.turns|].request, hot[|st.turns|].request);
        ColdQuery(cfg, st, request, env, hot);
      }
    }
  }

  lemma QueryAppends(cfg: Config, st: Login, request: PluginRequest, env: Env)
    requires st.relay.None?
    ensures var t := AfterPluginRequest(cfg, st, request, env);
            && t.relay.None? && t.cache == st.cache
            && (t.turns == st.turns || (|t.turns| == |st.turns| + 1 && t.turns[..|st.turns|] == st.turns && t.turns[|st.turns|].request == request))
            && (t.turns == st.turns ==> t.phase == Dropped)
  {
    hide CachedRequestMatches, EncodePluginResponse;
  }

  lemma {:induction false} ColdRun(cfg: Config, st: Login, events: seq<BackendEvent>, hot: seq<Turn>)
    requires cfg.forge && cfg.fml3
    requires forall i :: 0 <= i < |hot| ==> LiveTurn(hot[i])
    requires Cold(st, hot)
    ensures Cold(Run(cfg, st, events), hot)
    decreases events
  {
    hide AfterPluginRequest, DecodePluginRequest, DecodeSetCompression, Record, Refines, LiveTurn;
    if events != [] && st.phase == Negotiating {
      var ev := events[0];
      if ev.Got? && ev.packet.id == PLUGIN_REQUEST && DecodePluginRequest(ev.packet.data).Some? {
        ColdQueryAny(cfg, st, DecodePluginRequest(ev.packet.data).value, ev.env, hot);
      }
      ColdRun(cfg, Step(cfg, st, ev), events[1..], hot);
    }
  }

  /** A completed hot login that committed its exchanges; one without any leaves an earlier cache. */
  ghost predicate Recorded(hot: Login, before: seq<Exchange>) {
    hot.phase == Play && (before == [] || (hot.relay.Some? && hot.relay.value.exchanges != []))
  }

  /** Replay refines live relay. Take any completed hot login and any later login answered from the
      cache it committed. As long as the later backend asks the same queries under IDs of its own,
      position by position it gets the same success flag and data under its own ID, nothing where
      the hot backend got nothing, and the same refusal of every other channel. */
  lemma ReplayRefinesLive(
    hotCfg: Config, client: Peer, before: seq<Exchange>, hotEvents: seq<BackendEvent>,
    coldCfg: Config, coldEvents: seq<BackendEvent>)
    requires coldCfg.forge && coldCfg.fml3
    ensures var hot := Run(hotCfg, Start(Some(Relay([], 0, 0, client)), before), hotEvents);
            var cold := Run(coldCfg, Start(None, hot.cache), coldEvents);
            Recorded(hot, before) && AsksTheSame(cold.turns, hot.turns) ==> Refines(cold.turns, hot.turns)
  {
    var st := Start(Some(Relay([], 0, 0, client)), before);
    var hot := Run(hotCfg, st, hotEvents);
    HotRun(hotCfg, st, hotEvents);
    CacheChangesOnlyOnSuccess(hotCfg, st, hotEvents);
    if Recorded(hot, before) {
      assert hot.cache == Record(hot.turns);
      assert hot.turns[..0] == [];
      ColdRun(coldCfg, Start(None, hot.cache), coldEvents, hot.turns);
    }
  }

  /** The replay never stalls: the next query of the hot login, asked again, is always served. */
  lemma ReplayServesNextQuery(
    hotCfg: Config, client: Peer, before: seq<Exchange>, hotEvents: seq<BackendEvent>,
    coldCfg: Config, coldEvents: seq<BackendEvent>, request: PluginRequest, env: Env)
    requires coldCfg.forge && coldCfg.fml3
    requires Answerable(request, env)
    ensures var hot := Run(hotCfg, Start(Some(Relay([], 0, 0, client)), before), hotEvents);
            var cold := Run(coldCfg, Start(None, hot.cache), coldEvents);
            var n := |cold.turns|;
            Recorded(hot, before) && cold.phase == Negotiating &&
            AsksTheSame(cold.turns, hot.turns) && n < |hot.turns| && SameQuery(request, hot.turns[n].request) ==>
              var next := AfterPluginRequest(coldCfg, cold, request, env);
              next.phase == Negotiating && |next.turns| == n + 1 && next.turns[n].request == request
  {
    var st := Start(Some(Relay([], 0, 0, client)), before);
    var hot := Run(hotCfg, st, hotEvents);
    var cold := Run(coldCfg, Start(None, hot.cache), coldEvents);
    HotRun(hotCfg, st, hotEvents);
    CacheChangesOnlyOnSuccess(hotCfg, st, hotEvents);
    if Recorded(hot, before) && cold.phase == Negotiating && AsksTheSame(cold.turns, hot.turns) && |cold.turns| < |hot.turns|
       && SameQuery(request, hot.turns[|cold.turns|].request) {
      assert hot.cache == Record(hot.turns);
      assert hot.turns[..0] == [];
      ColdRun(coldCfg, Start(None, hot.cache), coldEvents, hot.turns);
      ColdQuery(coldCfg, cold, request, env, hot.turns);
    }
  }

  // ---- every hot login, exactly ----

  /** Another turn, written to the backend if there is anything to write. */
  function Extended(turns: seq<Turn>, request: PluginRequest, reply: Reply): seq<Turn> {
    turns + [Turn(request, reply)]
  }

  /** What a profile request gets. */
  function ProfileReply(request: PluginRequest, env: Env): Reply
    requires env.velocity.Some?
  {
    Answer(PluginResponse(request.id, true, env.velocity.value))
  }

  /** A hot login that will be completed, told from what the backend and the surroundings do: every query
      can be served, compression is never renegotiated, and the backend accepts at last, in an online
      lobby after asking for the profile. `mode` is the held client's threshold. */
  ghost predicate HotAccepted(cfg: Config, mode: int32, turns: seq<Turn>, events: seq<BackendEvent>)
    decreases events
  {
    events != [] && events[0].Got? &&
    var packet, env, rest := events[0].packet, events[0].env, events[1..];
    match packet.id
    case 0x02 => env.clientWriteOk && (cfg.onlineMode ==> AsksForProfile(turns))
    case 0x04 =>
      var request := DecodePluginRequest(packet.data);
      && request.Some?
      && if request.value.channel == Ascii("velocity:player_info")
         then env.velocity.Some? && env.backendWriteOk &&
              HotAccepted(cfg, mode, Extended(turns, request.value, ProfileReply(request.value, env)), rest)
         else Servable(Record(turns), request.value, env) &&
              HotAccepted(cfg, mode, Extended(turns, request.value, LiveReply(request.value, env.answer)), rest)
    case 0x03 =>
      var threshold := DecodeSetCompression(packet.data);
      && threshold.Some?
      && (if mode >= 0 then mode == threshold.value else env.clientWriteOk)
      && HotAccepted(cfg, threshold.value, turns, rest)
    case 0x00 => false
    case 0x01 => false
    case _ => HotAccepted(cfg, mode, turns, rest)
  }

  /** The turns of such a login. */
  ghost function HotTurns(turns: seq<Turn>, events: seq<BackendEvent>): seq<Turn>
    decreases events
  {
    if events == [] || events[0].Ended? || events[0].packet.id == 0x02 then turns
    else if events[0].packet.id == 0x04 && DecodePluginRequest(events[0].packet.data).Some? then
      var request := DecodePluginRequest(events[0].packet.data).value;
      var env := events[0].env;
      var reply :=
        if request.channel == Ascii("velocity:player_info") && env.velocity.Some? then ProfileReply(request, env)
        else LiveReply(request, env.answer);
      HotTurns(Extended(turns, request, reply), events[1..])
    else HotTurns(turns, events[1..])
  }

  /** One query of a hot login: exactly when it is served, and what that does. */
  lemma HotQueryExactly(cfg: Config, st: Login, request: PluginRequest, env: Env)
    requires Hot(st) && st.phase == Negotiating
    ensures var t := AfterPluginRequest(cfg, st, request, env);
            if request.channel == Ascii("velocity:player_info") then
              if env.velocity.Some? && env.backendWriteOk
              then t.phase == Negotiating && t.turns == Extended(st.turns, request, ProfileReply(request, env))
              else t.phase == Dropped && t.turns == st.turns && t.backend == st.backend
            else
              if Servable(Record(st.turns), request, env)
              then t.phase == Negotiating && t.turns == Extended(st.turns, request, LiveReply(request, env.answer))
              else t.phase == Dropped && t.turns == st.turns && t.backend == st.backend
    ensures AfterPluginRequest(cfg, st, request, env).relay.Some?
    ensures AfterPluginRequest(cfg, st, request, env).relay.value.client.mode == st.relay.value.client.mode
    ensures AfterPluginRequest(cfg, st, request, env).cache == st.cache
  {
    QueryServedExactly(st.relay.value, request, env);
    QueryKeepsClientMode(st.relay.value, request, env);
    hide AfterQuery, Servable, LiveReply, EncodePluginResponse, RelayInv, Record, LiveTurn, Ascii;
  }

  lemma QueryKeepsClientMode(r: Relay, request: PluginRequest, env: Env)
    ensures AfterQuery(r, request, env).0.client.mode == r.client.mode
  {
    hide EncodePluginRequest, InnerPacketId, DecodePluginResponse;
  }

  /** Every hot login, exactly: it is completed if and only if it can be, its turns are the backend's queries
      with what they were to get, and then the cache is the record of these turns. */
  lemma {:induction false} HotRunExactly(cfg: Config, st: Login, events: seq<BackendEvent>)
    requires Hot(st) && st.phase == Negotiating && ForwardedOnRequest(st)
    ensures var t := Run(cfg, st, events);
            && (t.phase == Play <==> HotAccepted(cfg, st.relay.value.client.mode, st.turns, events))
            && (t.phase == Play ==>
                  && t.turns == HotTurns(st.turns, events)
                  && t.cache == if Record(t.turns) != [] then Record(t.turns) else st.cache)
    decreases events
  {
    hide AfterPluginRequest, DecodePluginRequest, DecodeSetCompression, Record, LiveTurn, AsksForProfile, Servable, LiveReply,
         ProfileReply, Extended, RelayInv, Ascii;
    if events != [] && events[0].Got? {
      var ev := events[0];
      var t := Step(cfg, st, ev);
      HotStep(cfg, st, ev);
      if ev.packet.id == PLUGIN_REQUEST && DecodePluginRequest(ev.packet.data).Some? {
        var request := DecodePluginRequest(ev.packet.data).value;
        HotQueryExactly(cfg, st, request, ev.env);
        QueryForwards(cfg, st, request, ev.env);
      }
      if t.phase == Negotiating {
        HotRunExactly(cfg, t, events[1..]);
      } else {
        assert Run(cfg, t, events[1..]) == t;
      }
    }
  }

  // ---- every cold login, exactly ----

  /** The queries for the login wrapper, in order. */
  ghost function WrapperTurns(turns: seq<Turn>): seq<Turn> {
    if turns == [] then []
    else
      var last := turns[|turns| - 1];
      WrapperTurns(turns[..|turns| - 1]) + (if last.request.channel == Ascii("fml:loginwrapper") then [last] else [])
  }

  /** A served wrapper query against the cache: within it, the same channel and data as recorded and the
      recorded answer, or none, under its own ID; past the end of a cache, a refusal. */
  ghost predicate FromCache(cache: seq<Exchange>, k: nat, t: Turn) {
    if k >= |cache| then cache != [] ==> t.reply == Answer(PluginResponse(t.request.id, false, []))
    else
      var recorded := DecodePluginRequest(cache[k].request);
      && recorded.Some? && recorded.value.channel == t.request.channel && recorded.value.data == t.request.data
      && t.reply == if cache[k].noResponse then Silent
                    else Answer(PluginResponse(t.request.id, cache[k].success, cache[k].data))
  }

  ghost predicate AllFromCache(st: Login) {
    && st.relay.None?
    && (st.phase != Dropped ==>
          st.replayIndex == if |WrapperTurns(st.turns)| < |st.cache| then |WrapperTurns(st.turns)| else |st.cache|)
    && (forall k :: 0 <= k < |WrapperTurns(st.turns)| ==> FromCache(st.cache, k, WrapperTurns(st.turns)[k]))
  }

  /** Whether and with what a query of a cold login is served, as told by the cache and the number of wrapper
      queries before it; none means that the login is dropped. */
  ghost function ColdReply(cfg: Config, cache: seq<Exchange>, k: nat, request: PluginRequest, env: Env): Option<Reply> {
    if request.channel == Ascii("velocity:player_info") then
      if env.velocity.Some? && env.backendWriteOk then Some(ProfileReply(request, env)) else None
    else if request.channel == Ascii("fml:loginwrapper") && k < |cache| then
      var recorded := DecodePluginRequest(cache[k].request);
      if recorded.None? || recorded.value.channel != request.channel || recorded.value.data != request.data then None
      else if cache[k].noResponse then Some(Silent)
      else if env.backendWriteOk then Some(Answer(PluginResponse(request.id, cache[k].success, cache[k].data)))
      else None
    else if !env.backendWriteOk then None
    else if cfg.forge && !cfg.fml3 && (request.channel != Ascii("fml:loginwrapper") || cache == []) then
      if env.legacy.Some? then Some(Synthesized(env.legacy.value)) else None
    else Some(Answer(PluginResponse(request.id, false, [])))
  }

  lemma WrapperSnoc(turns: seq<Turn>, t: Turn)
    ensures WrapperTurns(turns + [t]) ==
      WrapperTurns(turns) + (if t.request.channel == Ascii("fml:loginwrapper") then [t] else [])
  {
    hide Ascii;
    assert (turns + [t])[..|turns|] == turns;
  }

  /** One query of a cold login, exactly: served with what is due, or dropped without another turn and
      without anything written. */
  lemma ColdQueryExactly(cfg: Config, st: Login, request: PluginRequest, env: Env)
    requires AllFromCache(st) && st.phase == Negotiating
    ensures var t := AfterPluginRequest(cfg, st, request, env);
            var due := ColdReply(cfg, st.cache, |WrapperTurns(st.turns)|, request, env);
            if due.Some? then t.phase == Negotiating && t.turns == Extended(st.turns, request, due.value)
            else t.phase == Dropped && t.turns == st.turns && t.backend == st.backend
  {
    hide WrapperTurns, EncodePluginResponse, DecodePluginRequest, FromCache, Ascii;
    VelocityIsNotWrapper();
  }

  lemma ColdQueryFromCache(cfg: Config, st: Login, request: PluginRequest, env: Env)
    requires AllFromCache(st) && st.phase == Negotiating
    ensures AllFromCache(AfterPluginRequest(cfg, st, request, env))
  {
    ColdQueryExactly(cfg, st, request, env);
    IndexMoves(cfg, st, request, env);
    QueryAppends(cfg, st, request, env);
    var t := AfterPluginRequest(cfg, st, request, env);
    var n := |st.turns|;
    hide AfterPluginRequest, DecodePluginRequest, WrapperTurns, Ascii;
    if |t.turns| > n {
      WrapperSnoc(st.turns, t.turns[n]);
      assert t.turns == st.turns + [t.turns[n]];
      VelocityIsNotWrapper();
      var before, after := WrapperTurns(st.turns), WrapperTurns(t.turns);
      forall k | 0 <= k < |after|
        ensures FromCache(t.cache, k, after[k])
      {
        if k < |before| {
          assert after[k] == before[k];
          assert FromCache(st.cache, k, before[k]);
        }
      }
    }
  }

  lemma IndexMoves(cfg: Config, st: Login, request: PluginRequest, env: Env)
    requires st.relay.None? && st.phase == Negotiating
    ensures var t := AfterPluginRequest(cfg, st, request, env);
            t.phase == Negotiating ==>
              t.replayIndex == if request.channel == WRAPPER && st.replayIndex < |st.cache| then st.replayIndex + 1 else st.replayIndex
  {
    hide CachedRequestMatches, EncodePluginResponse;
    VelocityIsNotWrapper();
  }

  /** Every state of every cold login, whatever the backend asks: the k-th wrapper query that was served is
      the k-th recorded one and got what was recorded, and those past the end were refused. */
  lemma {:induction false} ColdRunFromCache(cfg: Config, st: Login, events: seq<BackendEvent>)
    requires AllFromCache(st)
    ensures AllFromCache(Run(cfg, st, events)) && Run(cfg, st, events).cache == st.cache
    decreases events
  {
    hide AfterPluginRequest, DecodePluginRequest, DecodeSetCompression, WrapperTurns, FromCache;
    if events != [] && st.phase == Negotiating {
      var ev := events[0];
      if ev.Got? && ev.packet.id == PLUGIN_REQUEST && DecodePluginRequest(ev.packet.data).Some? {
        ColdQueryFromCache(cfg, st, DecodePluginRequest(ev.packet.data).value, ev.env);
        QueryAppends(cfg, st, DecodePluginRequest(ev.packet.data).value, ev.env);
      }
      ColdRunFromCache(cfg, Step(cfg, st, ev), events[1..]);
    }
  }

  /** A cold login that will be completed: every query has something due, and the backend accepts at last. */
  ghost predicate ColdAccepted(cfg: Config, cache: seq<Exchange>, turns: seq<Turn>, events: seq<BackendEvent>)
    decreases events
  {
    events != [] && events[0].Got? &&
    var packet, env, rest := events[0].packet, events[0].env, events[1..];
    match packet.id
    case 0x02 => cfg.onlineMode ==> AsksForProfile(turns)
    case 0x04 =>
      var request := DecodePluginRequest(packet.data);
      && request.Some?
      && var due := ColdReply(cfg, cache, |WrapperTurns(turns)|, request.value, env);
         due.Some? && ColdAccepted(cfg, cache, Extended(turns, request.value, due.value), rest)
    case 0x03 => DecodeSetCompression(packet.data).Some? && ColdAccepted(cfg, cache, turns, rest)
    case 0x00 => false
    case 0x01 => false
    case _ => ColdAccepted(cfg, cache, turns, rest)
  }

  /** Every cold login is completed if and only if it can be. */
  lemma {:induction false} ColdRunExactly(cfg: Config, st: Login, events: seq<BackendEvent>)
    requires AllFromCache(st) && st.phase == Negotiating && ForwardedOnRequest(st)
    ensures Run(cfg, st, events).phase == Play <==> ColdAccepted(cfg, st.cache, st.turns, events)
    decreases events
  {
    hide AfterPluginRequest, DecodePluginRequest, DecodeSetCompression, WrapperTurns, FromCache, ColdReply, AsksForProfile, Extended;
    if events != [] && events[0].Got? {
      var ev := events[0];
      var t := Step(cfg, st, ev);
      if ev.packet.id == PLUGIN_REQUEST && DecodePluginRequest(ev.packet.data).Some? {
        var request := DecodePluginRequest(ev.packet.data).value;
        ColdQueryExactly(cfg, st, request, ev.env);
        ColdQueryFromCache(cfg, st, request, ev.env);
        QueryAppends(cfg, st, request, ev.env);
        QueryForwards(cfg, st, request, ev.env);
      }
      if t.phase == Negotiating {
        ColdRunExactly(cfg, t, events[1..]);
      } else {
        assert Run(cfg, t, events[1..]) == t;
      }
    }
  }

  /** The record of a login and its wrapper queries are the same list. */
  lemma {:induction false} RecordIsWrapperTurns(turns: seq<Turn>)
    ensures |Record(turns)| == |WrapperTurns(turns)|
    ensures forall k :: 0 <= k < |Record(turns)| ==>
              Record(turns)[k] == ExchangeOf(ToInt32(k + 1), WrapperTurns(turns)[k].request, WrapperTurns(turns)[k].reply)
    ensures forall k :: 0 <= k < |WrapperTurns(turns)| ==>
              WrapperTurns(turns)[k] in turns && WrapperTurns(turns)[k].request.channel == WRAPPER
    decreases |turns|
  {
    hide Ascii, ExchangeOf;
    if turns != [] {
      RecordIsWrapperTurns(turns[..|turns| - 1]);
    }
  }

  /** A cold login never answers from the cache what the hot login was not asked: position by position its
      served wrapper queries are those of the hot login in channel and data, with the same answers. */
  lemma ReplayAnswersOnlyTheRecorded(
    hotCfg: Config, client: Peer, before: seq<Exchange>, hotEvents: seq<BackendEvent>,
    coldCfg: Config, coldEvents: seq<BackendEvent>, k: nat)
    ensures var hot := Run(hotCfg, Start(Some(Relay([], 0, 0, client)), before), hotEvents);
            var cold := Run(coldCfg, Start(None, hot.cache), coldEvents);
            var asked, recorded := WrapperTurns(cold.turns), WrapperTurns(hot.turns);
            Recorded(hot, before) && k < |asked| ==>
              if k < |recorded| then SameQuery(asked[k].request, recorded[k].request) && SameReply(asked[k], recorded[k])
              else recorded != [] ==> asked[k].reply == Answer(PluginResponse(asked[k].request.id, false, []))
  {
    hide Step, FromCache;
    var st := Start(Some(Relay([], 0, 0, client)), before);
    var hot := Run(hotCfg, st, hotEvents);
    var cold := Run(coldCfg, Start(None, hot.cache), coldEvents);
    HotRun(hotCfg, st, hotEvents);
    CacheChangesOnlyOnSuccess(hotCfg, st, hotEvents);
    ColdRunFromCache(coldCfg, Start(None, hot.cache), coldEvents);
    RecordIsWrapperTurns(hot.turns);
    if Recorded(hot, before) && k < |WrapperTurns(cold.turns)| {
      assert FromCache(cold.cache, k, WrapperTurns(cold.turns)[k]);
      if k < |WrapperTurns(hot.turns)| {
        var t := WrapperTurns(hot.turns)[k];
        assert LiveTurn(t);
        FromRecord(cold.cache, k, WrapperTurns(cold.turns)[k], t);
      } else {
        PastTheEnd(cold.cache, k, WrapperTurns(cold.turns)[k]);
      }
    }
  }

  lemma FromRecord(cache: seq<Exchange>, k: nat, asked: Turn, recorded: Turn)
    requires k < |cache| && cache[k] == ExchangeOf(ToInt32(k + 1), recorded.request, recorded.reply)
    requires recorded.request.channel == WRAPPER && LiveTurn(recorded) && FromCache(cache, k, asked)
    ensures SameQuery(asked.request, recorded.request) && SameReply(asked, recorded)
  {
    VelocityIsNotWrapper();
    PluginRequestRoundTrip(recorded.request.(id := ToInt32(k + 1)));
    hide EncodePluginRequest, DecodePluginRequest, OneWay, Ascii;
  }

  lemma PastTheEnd(cache: seq<Exchange>, k: nat, asked: Turn)
    requires k >= |cache| && FromCache(cache, k, asked)
    ensures cache != [] ==> asked.reply == Answer(PluginResponse(asked.request.id, false, []))
  {
  }

  // ---- a whole replayed login ----

  /** Packets that a backend may send at any time during a login. */
  predicate Harmless(p: RawPacket) {
    && p.id != ENCRYPTION_REQUEST && p.id != LOGIN_DISCONNECT
    && (p.id == SET_COMPRESSION ==> DecodeSetCompression(p.data).Some?)
  }

  /** A backend that asks these queries in order, under message IDs of its own and with harmless packets
      in between, and then accepts the login. */
  ghost predicate AsksThenAccepts(events: seq<BackendEvent>, queries: seq<Turn>)
    decreases events
  {
    events != [] && events[0].Got? &&
    var packet, env := events[0].packet, events[0].env;
    if packet.id == LOGIN_SUCCESS then queries == []
    else if packet.id == PLUGIN_REQUEST then
      var request := DecodePluginRequest(packet.data);
      && queries != [] && request.Some?
      && SameQuery(request.value, queries[0].request) && Answerable(request.value, env)
      && AsksThenAccepts(events[1..], queries[1..])
    else Harmless(packet) && AsksThenAccepts(events[1..], queries)
  }

  /** The profile has been forwarded exactly if it was asked for. */
  ghost predicate ForwardedOnRequest(st: Login) {
    st.forwarded <==> AsksForProfile(st.turns)
  }

  ghost predicate AsksForProfile(turns: seq<Turn>) {
    exists i :: 0 <= i < |turns| && turns[i].request.channel == VELOCITY
  }

  lemma ProfileSnoc(turns: seq<Turn>, t: Turn)
    ensures AsksForProfile(turns + [t]) <==> AsksForProfile(turns) || t.request.channel == VELOCITY
  {
    if i :| 0 <= i < |turns| && turns[i].request.channel == VELOCITY {
      assert (turns + [t])[i].request.channel == VELOCITY;
    }
    assert (turns + [t])[|turns|] == t;
  }

  lemma QueryForwards(cfg: Config, st: Login, request: PluginRequest, env: Env)
    requires ForwardedOnRequest(st)
    ensures ForwardedOnRequest(AfterPluginRequest(cfg, st, request, env))
  {
    hide AfterQuery, CachedRequestMatches, EncodePluginResponse, AsksForProfile;
    var t := AfterPluginRequest(cfg, st, request, env);
    if |t.turns| > |st.turns| {
      ProfileSnoc(st.turns, t.turns[|st.turns|]);
      assert t.turns == st.turns + [t.turns[|st.turns|]];
    }
  }

  lemma {:induction false} RunForwards(cfg: Config, st: Login, events: seq<BackendEvent>)
    requires ForwardedOnRequest(st)
    ensures var t := Run(cfg, st, events);
            && ForwardedOnRequest(t)
            && (st.phase == Negotiating && t.phase == Play && cfg.onlineMode ==> AsksForProfile(t.turns))
    decreases events
  {
    hide AfterPluginRequest, DecodePluginRequest, DecodeSetCompression, AsksForProfile;
    if events != [] && st.phase == Negotiating {
      var ev := events[0];
      if ev.Got? && ev.packet.id == PLUGIN_REQUEST && DecodePluginRequest(ev.packet.data).Some? {
        QueryForwards(cfg, st, DecodePluginRequest(ev.packet.data).value, ev.env);
        QueryNeverFinishes(cfg, st, DecodePluginRequest(ev.packet.data).value, ev.env);
      }
      RunForwards(cfg, Step(cfg, st, ev), events[1..]);
    }
  }

  lemma QueryNeverFinishes(cfg: Config, st: Login, request: PluginRequest, env: Env)
    requires st.phase == Negotiating
    ensures AfterPluginRequest(cfg, st, request, env).phase != Play
  {
    hide AfterQuery, CachedRequestMatches, EncodePluginResponse;
  }

  lemma {:induction false} ColdCompletes(cfg: Config, st: Login, events: seq<BackendEvent>, hot: seq<Turn>)
    requires cfg.forge && cfg.fml3 && (cfg.onlineMode ==> AsksForProfile(hot))
    requires forall i :: 0 <= i < |hot| ==> LiveTurn(hot[i])
    requires Cold(st, hot) && AsksTheSame(st.turns, hot) && st.phase == Negotiating && ForwardedOnRequest(st)
    requires AsksThenAccepts(events, hot[|st.turns|..])
    ensures var t := Run(cfg, st, events);
            t.phase == Play && |t.turns| == |hot| && AsksTheSame(t.turns, hot)
    decreases events
  {
    hide AfterPluginRequest, DecodePluginRequest, DecodeSetCompression, Record, Refines, LiveTurn, AsksForProfile, Answerable;
    var ev, n := events[0], |st.turns|;
    if ev.packet.id == LOGIN_SUCCESS {
      assert |hot| == n;
      if cfg.onlineMode {
        SameProfile(st.turns, hot);
      }
    } else if ev.packet.id == PLUGIN_REQUEST {
      var request := DecodePluginRequest(ev.packet.data).value;
      var t := AfterPluginRequest(cfg, st, request, ev.env);
      assert hot[n..][0] == hot[n] && hot[n..][1..] == hot[n + 1..];
      ColdQuery(cfg, st, request, ev.env, hot);
      ColdQueryAny(cfg, st, request, ev.env, hot);
      QueryForwards(cfg, st, request, ev.env);
      assert forall i :: 0 <= i < n ==> t.turns[i] == t.turns[..n][i];
      ColdCompletes(cfg, t, events[1..], hot);
    } else {
      ColdCompletes(cfg, Step(cfg, st, ev), events[1..], hot);
    }
  }

  lemma SameProfile(cold: seq<Turn>, hot: seq<Turn>)
    requires AsksTheSame(cold, hot) && |cold| == |hot| && AsksForProfile(hot)
    ensures AsksForProfile(cold)
  {
    var i :| 0 <= i < |hot| && hot[i].request.channel == VELOCITY;
    assert SameQuery(cold[i].request, hot[i].request);
  }

  /** A replayed login as a whole. A later backend that asks the queries of the hot login in order, under
      IDs of its own and with harmless packets in between, and then accepts, is logged in to: every
      query is served, each as in the hot login. */
  lemma ReplayCompletes(
    hotCfg: Config, client: Peer, before: seq<Exchange>, hotEvents: seq<BackendEvent>,
    coldCfg: Config, coldEvents: seq<BackendEvent>)
    requires coldCfg.forge && coldCfg.fml3 && (coldCfg.onlineMode ==> hotCfg.onlineMode)
    ensures var hot := Run(hotCfg, Start(Some(Relay([], 0, 0, client)), before), hotEvents);
            var cold := Run(coldCfg, Start(None, hot.cache), coldEvents);
            Recorded(hot, before) && AsksThenAccepts(coldEvents, hot.turns) ==>
              && cold.phase == Play && |cold.turns| == |hot.turns|
              && AsksTheSame(cold.turns, hot.turns) && Refines(cold.turns, hot.turns)
  {
    hide Step, LiveTurn, AsksForProfile, AsksThenAccepts, Refines;
    var st := Start(Some(Relay([], 0, 0, client)), before);
    var hot := Run(hotCfg, st, hotEvents);
    var start := Start(None, hot.cache);
    HotRun(hotCfg, st, hotEvents);
    CacheChangesOnlyOnSuccess(hotCfg, st, hotEvents);
    if Recorded(hot, before) && AsksThenAccepts(coldEvents, hot.turns) {
      NobodyAsked();
      RunForwards(hotCfg, st, hotEvents);
      ReplayRefinesLive(hotCfg, client, before, hotEvents, coldCfg, coldEvents);
      StartsCold(hot.cache, hot.turns);
      assert hot.turns[0..] == hot.turns;
      ColdCompletes(coldCfg, start, coldEvents, hot.turns);
    }
  }

  lemma NobodyAsked()
    ensures !AsksForProfile([])
  {
  }

  lemma StartsCold(cache: seq<Exchange>, hot: seq<Turn>)
    requires cache == Record(hot)
    ensures Cold(Start(None, cache), hot) && AsksTheSame([], hot)
  {
    assert hot[..0] == [];
  }

  // ---- the transcript is what the backend received ----

  function Replies(turns: seq<Turn>): seq<RawPacket> {
    if turns == [] then []
    else
      var packet := ReplyPacket(turns[|turns| - 1].reply);
      Replies(turns[..|turns| - 1]) + (if packet.Some? then [packet.value] else [])
  }

  function Packets(sent: seq<Sent>): (ps: seq<RawPacket>)
    ensures |ps| == |sent|
  {
    seq(|sent|, i requires 0 <= i < |sent| => sent[i].packet)
  }

  predicate Faithful(st: Login) {
    Packets(st.backend.sent) == Replies(st.turns)
  }

  lemma ServeKeepsTranscript(st: Login, request: PluginRequest, reply: Reply)
    requires Faithful(st)
    ensures Faithful(Serve(st, request, reply))
  {
    assert (st.turns + [Turn(request, reply)])[..|st.turns|] == st.turns;
    var packet := ReplyPacket(reply);
    if packet.Some? {
      var sent := st.backend.sent;
      assert Packets(sent + [Sent(st.backend.mode, packet.value)]) == Packets(sent) + [packet.value];
    }
  }

  lemma QueryKeepsTranscript(cfg: Config, st: Login, request: PluginRequest, env: Env)
    requires Faithful(st)
    ensures Faithful(AfterPluginRequest(cfg, st, request, env))
  {
    hide AfterQuery, CachedRequestMatches, Packets, Replies, EncodePluginResponse;
    var t := AfterPluginRequest(cfg, st, request, env);
    if |t.turns| > |st.turns| {
      ServeKeepsTranscript(st, request, t.turns[|st.turns|].reply);
    }
  }

  /** Whatever the login, the packets written to the backend are the replies of its turns, in order. */
  lemma {:induction false} TranscriptIsOnTheWire(cfg: Config, st: Login, events: seq<BackendEvent>)
    requires Faithful(st)
    ensures Faithful(Run(cfg, st, events))
    decreases events
  {
    hide AfterPluginRequest, DecodePluginRequest, DecodeSetCompression, Packets, Replies;
    if events != [] && st.phase == Negotiating {
      var ev := events[0];
      if ev.Got? && ev.packet.id == PLUGIN_REQUEST && DecodePluginRequest(ev.packet.data).Some? {
        QueryKeepsTranscript(cfg, st, DecodePluginRequest(ev.packet.data).value, ev.env);
      }
      TranscriptIsOnTheWire(cfg, Step(cfg, st, ev), events[1..]);
    }
  }

  /** The frame that carries a reply, in the mode of the moment. */
  function ReplyFrames(mode: int32, reply: Reply): seq<Sent> {
    match reply
    case Silent => []
    case Answer(response) => [Sent(mode, RawPacket(0x02, EncodePluginResponse(response)))]
    case Synthesized(packet) => [Sent(mode, packet)]
  }

  /** What a completed login has written to the backend: one reply for each query, in the mode that the
      backend asked for last. */
  ghost function BackendLog(mode: int32, turns: seq<Turn>, events: seq<BackendEvent>): seq<Sent>
    decreases events
  {
    if events == [] || events[0].Ended? || events[0].packet.id == 0x02 then []
    else if events[0].packet.id == 0x04 && turns != [] then
      ReplyFrames(mode, turns[0].reply) + BackendLog(mode, turns[1..], events[1..])
    else if events[0].packet.id == 0x03 && DecodeSetCompression(events[0].packet.data).Some? then
      BackendLog(DecodeSetCompression(events[0].packet.data).value, turns, events[1..])
    else BackendLog(mode, turns, events[1..])
  }

  lemma QueryWritesReply(cfg: Config, st: Login, request: PluginRequest, env: Env)
    requires st.phase == Negotiating
    ensures var t := AfterPluginRequest(cfg, st, request, env);
            t.phase != Dropped ==>
              && |t.turns| == |st.turns| + 1 && t.turns[..|st.turns|] == st.turns
              && t.backend == Peer(st.backend.mode, st.backend.sent + ReplyFrames(st.backend.mode, t.turns[|st.turns|].reply))
  {
    hide AfterQuery, CachedRequestMatches, EncodePluginResponse;
  }

  lemma {:induction false} BackendLogExactly(cfg: Config, st: Login, events: seq<BackendEvent>)
    requires st.phase == Negotiating
    ensures var t := Run(cfg, st, events);
            t.phase == Play ==>
              && |st.turns| <= |t.turns| && t.turns[..|st.turns|] == st.turns
              && t.backend.sent == st.backend.sent + BackendLog(st.backend.mode, t.turns[|st.turns|..], events)
    decreases events
  {
    hide AfterPluginRequest, DecodePluginRequest, DecodeSetCompression, ReplyFrames;
    var t := Run(cfg, st, events);
    if events != [] && events[0].Got? && t.phase == Play {
      var ev := events[0];
      var next := Step(cfg, st, ev);
      if next.phase == Negotiating {
        BackendLogExactly(cfg, next, events[1..]);
        if ev.packet.id == PLUGIN_REQUEST {
          QueryWritesReply(cfg, st, DecodePluginRequest(ev.packet.data).value, ev.env);
          var n := |st.turns|;
          var added := t.turns[n..];
          assert t.turns[..n] == t.turns[..n + 1][..n];
          assert added[0] == t.turns[..n + 1][n] && added[1..] == t.turns[n + 1..];
        }
      } else if ev.packet.id == PLUGIN_REQUEST && DecodePluginRequest(ev.packet.data).Some? {
        QueryNeverFinishes(cfg, st, DecodePluginRequest(ev.packet.data).value, ev.env);
      } else {
        assert Run(cfg, next, events[1..]) == next;
        assert t.turns[|st.turns|..] == [];
      }
    }
  }

  /** What a completed hot login has written to the held client, in its mode: the wrapper queries under IDs
      of their own, counted on from `k`, the first SetCompression, and at last the backend's acceptance. */
  ghost function ClientLog(mode: int32, k: nat, events: seq<BackendEvent>): seq<Sent>
    decreases events
  {
    if events == [] || events[0].Ended? then []
    else
      var packet, rest := events[0].packet, events[1..];
      var request := DecodePluginRequest(packet.data);
      if packet.id == 0x02 then [Sent(mode, packet)]
      else if packet.id == 0x04 && request.Some? && request.value.channel == Ascii("fml:loginwrapper") then
        [Sent(mode, RawPacket(0x04, EncodePluginRequest(request.value.(id := ToInt32(k + 1)))))] + ClientLog(mode, k + 1, rest)
      else if packet.id == 0x03 && mode < 0 && DecodeSetCompression(packet.data).Some? then
        [Sent(mode, packet)] + ClientLog(DecodeSetCompression(packet.data).value, k, rest)
      else ClientLog(mode, k, rest)
  }

  lemma HotQueryWritesClient(cfg: Config, st: Login, request: PluginRequest, env: Env)
    requires Hot(st) && st.phase == Negotiating && AfterPluginRequest(cfg, st, request, env).phase != Dropped
    ensures var r, t := st.relay.value, AfterPluginRequest(cfg, st, request, env).relay.value;
            var k := |r.exchanges|;
            if request.channel == WRAPPER
            then |t.exchanges| == k + 1 && t.client == r.client.Write(RawPacket(PLUGIN_REQUEST, EncodePluginRequest(request.(id := ToInt32(k + 1)))))
            else t == r
  {
    var r := st.relay.value;
    VelocityIsNotWrapper();
    InvariantBounds(r);
    ToInt32Fits(|r.exchanges| + 1);
    if request.channel != VELOCITY && AfterQuery(r, request, env).1.Some? {
      QueryServed(r, request, env);
    }
    hide AfterQuery, EncodePluginRequest, EncodePluginResponse, RelayInv, Record, LiveTurn, Ascii;
  }

  /** What any wrapper query of a hot login, served or not, writes to the client: itself under the next ID, if
      there is room for it and the client takes it. */
  lemma WrapperQueryWrites(cfg: Config, st: Login, request: PluginRequest, env: Env)
    requires Hot(st) && st.phase == Negotiating && request.channel == WRAPPER
    ensures var r, t := st.relay.value, AfterPluginRequest(cfg, st, request, env).relay;
            var encoded := Outgoing(r.exchanges, request);
            t.Some? && t.value.client.sent == r.client.sent +
              if |r.exchanges| < 512 && |encoded| <= 1024 * 1024 && RecordedBytes(r.exchanges) + |encoded| <= 8 * 1024 * 1024
                 && env.clientWriteOk
              then [Sent(r.client.mode, RawPacket(0x04, encoded))] else []
  {
    VelocityIsNotWrapper();
    InvariantBounds(st.relay.value);
    ToInt32Fits(|st.relay.value.exchanges| + 1);
    hide EncodePluginRequest, InnerPacketId, DecodePluginResponse, EncodePluginResponse, RecordedBytes, NumberedRequest, Record, LiveTurn, Ascii;
  }

  /** From its beginning, uncompressed, a completed login writes to the backend exactly its replies. */
  lemma LoginWritesReplies(cfg: Config, relay: Option<Relay>, cache: seq<Exchange>, events: seq<BackendEvent>)
    ensures var t := Run(cfg, Start(relay, cache), events);
            t.phase == Play ==> t.backend.sent == BackendLog(-1, t.turns, events)
  {
    hide Run, BackendLog;
    BackendLogExactly(cfg, Start(relay, cache), events);
    var t := Run(cfg, Start(relay, cache), events);
    assert t.turns[0..] == t.turns;
    assert [] + BackendLog(-1, t.turns, events) == BackendLog(-1, t.turns, events);
  }

  lemma {:induction false} ClientLogExactly(cfg: Config, st: Login, events: seq<BackendEvent>)
    requires Hot(st) && st.phase == Negotiating
    ensures var t := Run(cfg, st, events);
            var r := st.relay.value;
            t.phase == Play ==>
              t.relay.Some? && t.relay.value.client.sent == r.client.sent + ClientLog(r.client.mode, |r.exchanges|, events)
    decreases events
  {
    hide AfterPluginRequest, DecodePluginRequest, DecodeSetCompression, Record, LiveTurn, RelayInv, Ascii, EncodePluginRequest;
    var t := Run(cfg, st, events);
    if events != [] && events[0].Got? && t.phase == Play {
      var ev := events[0];
      var next := Step(cfg, st, ev);
      HotStep(cfg, st, ev);
      if ev.packet.id == PLUGIN_REQUEST && DecodePluginRequest(ev.packet.data).Some? {
        var request := DecodePluginRequest(ev.packet.data).value;
        HotQueryExactly(cfg, st, request, ev.env);
        if next.phase != Dropped {
          HotQueryWritesClient(cfg, st, request, ev.env);
        }
      }
      if next.phase == Negotiating {
        ClientLogExactly(cfg, next, events[1..]);
      } else {
        assert Run(cfg, next, events[1..]) == next;
      }
    }
  }

  // ---- the login loop ----

  /** The part of ServerState that holds the exchange cache, as a value. That nobody else can write to
      the memory behind it is the subject of `ExchangeCache`. */
  class ServerCache {
    var exchanges: seq<Exchange>

    constructor ()
      ensures exchanges == []
    {
      exchanges := [];
    }
  }

  /** connectToServerNoTimeout after the handshake and login start have been written. */
  class BackendConnection {
    var backend: Peer
    var forwarded: bool
    var replayIndex: nat
    ghost var turns: seq<Turn>
    const relay: ForgeLoginRelay?
    const server: ServerCache

    constructor (held: ForgeLoginRelay?, state: ServerCache)
      ensures relay == held && server == state
      ensures View(Negotiating) == Start(if held == null then None else Some(held.View()), state.exchanges)
    {
      backend, forwarded, replayIndex, turns := Peer(-1, []), false, 0, [];
      relay, server := held, state;
    }

    ghost function View(phase: Phase): Login
      reads this, relay, server
    {
      Login(backend, forwarded, replayIndex, if relay == null then None else Some(relay.View()),
            server.exchanges, turns, phase)
    }

    /** Write what a query gets, if anything. */
    method Answered(request: PluginRequest, reply: Reply)
      modifies this
      ensures unchanged(`forwarded, `replayIndex)
      ensures View(Negotiating) == Serve(old(View(Negotiating)), request, reply)
    {
      var packet := ReplyPacket(reply);
      if packet.Some? {
        backend := backend.Write(packet.value);
      }
      turns := turns + [Turn(request, reply)];
    }

    /** Write a login-plugin response unless the connection fails. */
    method Respond(request: PluginRequest, success: bool, data: seq<byte>, env: Env) returns (phase: Phase)
      modifies this
      ensures unchanged(`forwarded, `replayIndex)
      ensures View(phase) ==
        if env.backendWriteOk then Serve(old(View(Negotiating)), request, Answer(PluginResponse(request.id, success, data)))
        else Drop(old(View(Negotiating)))
    {
      if !env.backendWriteOk {
        return Dropped;
      }
      Answered(request, Answer(PluginResponse(request.id, success, data)));
      return Negotiating;
    }

    method AnswerFromCache(cache: seq<Exchange>, request: PluginRequest, env: Env) returns (phase: Phase)
      requires cache == server.exchanges
      modifies this
      ensures View(phase) == AfterCachedQuery(old(View(Negotiating)), request, env)
    {
      hide CachedRequestMatches, EncodePluginResponse;
      if replayIndex >= |cache| {
        phase := Respond(request, false, [], env);
        return;
      }
      var e := cache[replayIndex];
      if !CachedRequestMatches(e, request) {
        return Dropped;
      }
      replayIndex := replayIndex + 1;
      if e.noResponse {
        Answered(request, Silent);
        return Negotiating;
      }
      phase := Respond(request, e.success, e.data, env);
    }

    method HandlePluginRequest(cfg: Config, request: PluginRequest, env: Env) returns (phase: Phase)
      modifies this, relay
      ensures View(phase) == AfterPluginRequest(cfg, old(View(Negotiating)), request, env)
    {
      hide CachedRequestMatches, EncodePluginResponse, AfterQuery, AfterCachedQuery;
      if request.channel == VELOCITY {
        if env.velocity.None? {
          return Dropped;
        }
        phase := Respond(request, true, env.velocity.value, env);
        if phase == Negotiating {
          forwarded := true;
        }
        return;
      }
      if relay != null {
        var reply := relay.Serve(request, env);
        if reply.None? {
          return Dropped;
        }
        Answered(request, reply.value);
        return Negotiating;
      }
      if request.channel == WRAPPER {
        var cache := server.exchanges;
        if |cache| != 0 {
          phase := AnswerFromCache(cache, request, env);
          return;
        }
      }
      if cfg.forge && cfg.fml3 {
        phase := Respond(request, false, [], env);
        return;
      }
      if cfg.forge {
        if env.legacy.None? || !env.backendWriteOk {
          return Dropped;
        }
        Answered(request, Synthesized(env.legacy.value));
        return Negotiating;
      }
      phase := Respond(request, false, [], env);
    }

    method HandleSetCompression(packet: RawPacket, env: Env) returns (phase: Phase)
      modifies this, relay
      ensures View(phase) == AfterSetCompression(old(View(Negotiating)), packet, env)
    {
      hide DecodeSetCompression;
      var decoded := DecodeSetCompression(packet.data);
      if decoded.None? {
        return Dropped;
      }
      if relay != null {
        if relay.client.mode >= 0 {
          if relay.client.mode != decoded.value {
            return Dropped;
          }
        } else {
          if !env.clientWriteOk {
            return Dropped;
          }
          relay.client := relay.client.Write(packet).(mode := decoded.value);
        }
      }
      backend := backend.(mode := decoded.value);
      return Negotiating;
    }

    method HandleLoginSuccess(cfg: Config, packet: RawPacket, env: Env) returns (phase: Phase)
      modifies this, relay, server
      ensures View(phase) == AfterLoginSuccess(cfg, old(View(Negotiating)), packet, env)
    {
      if cfg.onlineMode && !forwarded {
        return Dropped;
      }
      if relay != null {
        if !env.clientWriteOk {
          return Dropped;
        }
        relay.client := relay.client.Write(packet);
        if |relay.exchanges| != 0 {
          server.exchanges := relay.exchanges;
        }
      }
      return Play;
    }

    method Connect(cfg: Config, events: seq<BackendEvent>) returns (phase: Phase)
      modifies this, relay, server
      ensures View(phase) == Run(cfg, old(View(Negotiating)), events)
    {
      hide AfterPluginRequest, AfterSetCompression, AfterLoginSuccess, DecodePluginRequest;
      phase := Negotiating;
      var i := 0;
      while i < |events| && phase == Negotiating
        invariant 0 <= i <= |events|
        invariant Run(cfg, View(phase), events[i..]) == Run(cfg, old(View(Negotiating)), events)
        decreases |events| - i
      {
        var ev := events[i];
        assert events[i..][1..] == events[i + 1..];
        i := i + 1;
        if ev.Ended? {
          phase := Dropped;
        } else if ev.packet.id == SET_COMPRESSION {
          phase := HandleSetCompression(ev.packet, ev.env);
        } else if ev.packet.id == ENCRYPTION_REQUEST {
          phase := Dropped;
        } else if ev.packet.id == PLUGIN_REQUEST {
          var request := DecodePluginRequest(ev.packet.data);
          if request.None? {
            phase := Dropped;
          } else {
            phase := HandlePluginRequest(cfg, request.value, ev.env);
          }
        } else if ev.packet.id == LOGIN_SUCCESS {
          phase := HandleLoginSuccess(cfg, ev.packet, ev.env);
        } else if ev.packet.id == LOGIN_DISCONNECT {
          phase := Dropped;
        }
      }
    }
  }
}
