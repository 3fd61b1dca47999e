/** forge.go: relaying FML3 login queries to a live client and recording the exchanges. */
module ForgeRelay {
  import opened Bytes
  import opened VarInt
  import opened Framing
  import opened LoginPackets
  import PacketStream

  const WRAPPER: seq<byte> := Ascii("fml:loginwrapper")
  const HANDSHAKE: seq<byte> := Ascii("fml:handshake")
  const MOD_DATA: int32 := 5

  const MAX_EXCHANGES := 512
  const MAX_CACHE_BYTES := 0x80_0000

  /** One recorded query: the request as sent to the client, under its client-side ID, and the
      client's answer unless the query is one-way. */
  datatype Exchange = Exchange(request: seq<byte>, success: bool, data: seq<byte>, noResponse: bool)

  /** A packet written to a peer and the compression threshold its frame was encoded under. */
  datatype Sent = Sent(mode: int32, packet: RawPacket)

  /** The proxy's view of one peer: its compression threshold and everything written to it. */
  datatype Peer = Peer(mode: int32, sent: seq<Sent>) {
    function Write(p: RawPacket): Peer {
      this.(sent := sent + [Sent(mode, p)])
    }
  }

  /** Outcome of waiting for the client's next packet. */
  datatype ClientRead = Received(packet: RawPacket) | Nothing

  /** What the surroundings do while one backend packet is handled. `velocity` is the signed profile
      and `legacy` the synthesized FML2 answer, if they can be built; writing them to the backend
      succeeds or fails like any other write. */
  datatype Env = Env(
    clientWriteOk: bool,
    backendWriteOk: bool,
    answer: ClientRead,
    velocity: Option<seq<byte>>,
    legacy: Option<RawPacket>)

  /** What a backend query got: nothing, a login-plugin response, or a synthesized FML2 packet. */
  datatype Reply = Silent | Answer(response: PluginResponse) | Synthesized(packet: RawPacket)

  datatype Relay = Relay(exchanges: seq<Exchange>, clientId: int32, cacheBytes: nat, client: Peer)

  /** inspectForgeLoginWrapper: the packet ID inside a wrapped fml:handshake message. */
  function InnerPacketId(request: PluginRequest): Option<int32> {
    if request.channel != WRAPPER then None
    else
      var (inner, s0) :- TakeString(request.data, MAX_CHANNEL);
      if inner != HANDSHAKE then None
      else
        var (len, s1) :- TakeVarInt(s0);
        if len <= 0 || len > |s1| then None
        else
          var (id, _) :- TakeVarInt(s1);
          Some(id)
  }

  /** FML3 ModData is sent and never answered. */
  predicate OneWay(request: PluginRequest) {
    InnerPacketId(request) == Some(MOD_DATA)
  }

  /** A wrapped message: inner channel, declared length, then packet ID and contents. */
  function Wrapped(inner: seq<byte>, declared: int32, payload: seq<byte>): seq<byte> {
    StringField(inner) + (Encoding(declared) + payload)
  }

  /** A wrapped message is one-way exactly if it is on Forge's own handshake channel, declares a length that
      is there, and starts with packet ID 5. */
  lemma WrappedIsOneWay(id: int32, inner: seq<byte>, declared: int32, payload: seq<byte>)
    requires |inner| <= MAX_CHANNEL
    ensures OneWay(PluginRequest(id, WRAPPER, Wrapped(inner, declared, payload))) <==>
              && inner == Ascii("fml:handshake") && 0 < declared <= |payload|
              && TakeVarInt(payload).Some? && TakeVarInt(payload).value.0 == 5
  {
    hide Encoding, TakeVarInt, StringField, TakeString, Ascii;
    StringRoundTrip(inner, MAX_CHANNEL, Encoding(declared) + payload);
    VarInt.RoundTrip(declared, payload);
  }

  /** A client response that the relay accepts for the request it just sent. */
  function AcceptedResponse(answer: ClientRead, id: int32): Option<PluginResponse> {
    if answer.Nothing? || answer.packet.id != PLUGIN_RESPONSE then None
    else
      var response :- DecodePluginResponse(answer.packet.data);
      if response.id != id then None else Some(response)
  }

  /** Relay state after the request has been written to the client. */
  function AfterRequest(r: Relay, request: PluginRequest, encoded: seq<byte>, id: int32, env: Env): (Relay, Option<Reply>) {
    if OneWay(request) then
      (r.(exchanges := r.exchanges + [Exchange(encoded, false, [], true)], cacheBytes := r.cacheBytes + |encoded|), Some(Silent))
    else
      match AcceptedResponse(env.answer, id)
      case None => (r, None)
      case Some(response) =>
        if |response.data| > PacketStream.MAX_PACKET_LENGTH ||
           r.cacheBytes + |encoded| + |response.data| > MAX_CACHE_BYTES then (r, None)
        else
          var recorded := r.(
            exchanges := r.exchanges + [Exchange(encoded, response.successful, response.data, false)],
            cacheBytes := r.cacheBytes + |encoded| + |response.data|);
          (recorded,
           if env.backendWriteOk then Some(Answer(PluginResponse(request.id, response.successful, response.data))) else None)
  }

  /** forgeLoginRelay.relay; no reply means that it returned an error. */
  function AfterRelay(r: Relay, request: PluginRequest, env: Env): (Relay, Option<Reply>) {
    if |r.exchanges| >= MAX_EXCHANGES then (r, None)
    else
      var wrapped := request.channel == WRAPPER;
      var r1 := if wrapped then r.(clientId := ToInt32(r.clientId + 1)) else r;
      var id := if wrapped then r1.clientId else request.id;
      var encoded := EncodePluginRequest(request.(id := id));
      if |encoded| > PacketStream.MAX_PACKET_LENGTH || r.cacheBytes + |encoded| > MAX_CACHE_BYTES then (r1, None)
      else if !env.clientWriteOk then (r1, None)
      else
        AfterRequest(r1.(client := r1.client.Write(RawPacket(PLUGIN_REQUEST, encoded))), request, encoded, id, env)
  }

  /** relayForgeLoginRequest: only the login wrapper reaches the client; anything else is refused. */
  function AfterQuery(r: Relay, request: PluginRequest, env: Env): (Relay, Option<Reply>) {
    if request.channel != WRAPPER then
      (r, if env.backendWriteOk then Some(Answer(PluginResponse(request.id, false, []))) else None)
    else AfterRelay(r, request, env)
  }

  // ---- what the relay keeps ----

  function RecordedBytes(exchanges: seq<Exchange>): nat {
    if exchanges == [] then 0
    else
      var last := exchanges[|exchanges| - 1];
      RecordedBytes(exchanges[..|exchanges| - 1]) + |last.request| + |last.data|
  }

  /** Stored request `k` decodes, goes to the wrapper channel and carries client-side ID `k + 1`. */
  predicate NumberedRequest(exchanges: seq<Exchange>, k: nat)
    requires k < |exchanges|
  {
    var decoded := DecodePluginRequest(exchanges[k].request);
    decoded.Some? && decoded.value.id == k + 1 && decoded.value.channel == WRAPPER
  }

  ghost predicate RelayInv(r: Relay) {
    && |r.exchanges| <= MAX_EXCHANGES
    && r.clientId == |r.exchanges|
    && r.cacheBytes == RecordedBytes(r.exchanges) <= MAX_CACHE_BYTES
    && forall k :: 0 <= k < |r.exchanges| ==> NumberedRequest(r.exchanges, k)
  }

  lemma RecordedBytesSnoc(exchanges: seq<Exchange>, e: Exchange)
    ensures RecordedBytes(exchanges + [e]) == RecordedBytes(exchanges) + |e.request| + |e.data|
  {
    assert (exchanges + [e])[..|exchanges|] == exchanges;
  }

  /** The exchange that a served wrapper query leaves behind. */
  function ExchangeOf(id: int32, request: PluginRequest, reply: Reply): Exchange {
    var encoded := EncodePluginRequest(request.(id := id));
    match reply
    case Answer(response) => Exchange(encoded, response.successful, response.data, false)
    case _ => Exchange(encoded, false, [], true)
  }

  /** A served query: one exchange recorded under the next ID for the wrapper, none otherwise; the
      backend is answered under its own ID with what the client said under that next ID, and left
      without an answer exactly for one-way data. */
  lemma QueryServed(r: Relay, request: PluginRequest, env: Env)
    requires RelayInv(r) && AfterQuery(r, request, env).1.Some?
    ensures var (t, reply) := AfterQuery(r, request, env);
            && !reply.value.Synthesized?
            && (reply.value.Silent? <==> OneWay(request))
            && (reply.value.Answer? ==> reply.value.response.id == request.id)
            && (request.channel != WRAPPER ==> t == r && reply == Some(Answer(PluginResponse(request.id, false, []))))
            && (reply.value.Answer? && request.channel == WRAPPER ==>
                  && env.answer.Received? && env.answer.packet.id == PLUGIN_RESPONSE
                  && DecodePluginResponse(env.answer.packet.data) ==
                     Some(PluginResponse(|r.exchanges| + 1, reply.value.response.successful, reply.value.response.data)))
            && (request.channel == WRAPPER ==>
                  && t.exchanges == r.exchanges + [ExchangeOf(|r.exchanges| + 1, request, reply.value)]
                  && t.client == r.client.Write(RawPacket(PLUGIN_REQUEST, EncodePluginRequest(request.(id := |r.exchanges| + 1)))))
  {
    hide EncodePluginRequest, InnerPacketId, DecodePluginResponse;
    ToInt32Fits(|r.exchanges| + 1);
    if request.channel != WRAPPER {
      assert !OneWay(request) by { NotOneWay(request); }
    }
  }

  /** The request as the client gets it, under the next client-side ID. */
  function Outgoing(recorded: seq<Exchange>, request: PluginRequest): seq<byte> {
    EncodePluginRequest(PluginRequest(ToInt32(|recorded| + 1), request.channel, request.data))
  }

  /** The client's answer carries the next ID and stays within 1 MiB, and the record within 8 MiB. */
  predicate GoodAnswer(recorded: seq<Exchange>, request: PluginRequest, answer: ClientRead) {
    && answer.Received? && answer.packet.id == PLUGIN_RESPONSE
    && var response := DecodePluginResponse(answer.packet.data);
       && response.Some? && response.value.id == |recorded| + 1
       && |response.value.data| <= 1024 * 1024
       && RecordedBytes(recorded) + |Outgoing(recorded, request)| + |response.value.data| <= 8 * 1024 * 1024
  }

  /** When a live query is served: another channel whenever the refusal can be written; a wrapper query
      while there is room for it, the client takes it and, unless it is one-way, gives a good answer
      that can be written. */
  predicate Servable(recorded: seq<Exchange>, request: PluginRequest, env: Env) {
    if request.channel != Ascii("fml:loginwrapper") then env.backendWriteOk
    else
      && |recorded| < 512
      && |Outgoing(recorded, request)| <= 1024 * 1024
      && RecordedBytes(recorded) + |Outgoing(recorded, request)| <= 8 * 1024 * 1024
      && env.clientWriteOk
      && (OneWay(request) || (GoodAnswer(recorded, request, env.answer) && env.backendWriteOk))
  }

  /** What it gets: a refusal, nothing, or what the client said, under its own ID. */
  function LiveReply(request: PluginRequest, answer: ClientRead): Reply {
    if request.channel != Ascii("fml:loginwrapper") then Answer(PluginResponse(request.id, false, []))
    else if OneWay(request) || answer.Nothing? || DecodePluginResponse(answer.packet.data).None? then Silent
    else
      var response := DecodePluginResponse(answer.packet.data).value;
      Answer(PluginResponse(request.id, response.successful, response.data))
  }

  /** Exactly when a live query is served, and with what. */
  lemma QueryServedExactly(r: Relay, request: PluginRequest, env: Env)
    requires RelayInv(r)
    ensures var reply := AfterQuery(r, request, env).1;
            && (reply.Some? <==> Servable(r.exchanges, request, env))
            && (reply.Some? ==> reply.value == LiveReply(request, env.answer))
  {
    hide EncodePluginRequest, InnerPacketId, DecodePluginResponse, RecordedBytes, Ascii;
    ToInt32Fits(|r.exchanges| + 1);
  }

  lemma NotOneWay(request: PluginRequest)
    requires request.channel != WRAPPER
    ensures !OneWay(request)
  {
  }

  /** The stored request of the next exchange is numbered in sequence. */
  lemma NextIsNumbered(exchanges: seq<Exchange>, request: PluginRequest, reply: Reply)
    requires request.channel == WRAPPER && |exchanges| < MAX_EXCHANGES
    requires forall k :: 0 <= k < |exchanges| ==> NumberedRequest(exchanges, k)
    ensures var t := exchanges + [ExchangeOf(|exchanges| + 1, request, reply)];
            forall k :: 0 <= k < |t| ==> NumberedRequest(t, k)
  {
    var n := |exchanges|;
    PluginRequestRoundTrip(request.(id := n + 1));
    hide EncodePluginRequest, DecodePluginRequest;
    var t := exchanges + [ExchangeOf(n + 1, request, reply)];
    forall k | 0 <= k < |t|
      ensures NumberedRequest(t, k)
    {
      if k < n {
        assert NumberedRequest(exchanges, k);
      }
    }
  }

  /** Every served query keeps the relay invariant. */
  lemma QueryKeepsInvariant(r: Relay, request: PluginRequest, env: Env)
    requires RelayInv(r) && AfterQuery(r, request, env).1.Some?
    ensures RelayInv(AfterQuery(r, request, env).0)
  {
    hide EncodePluginRequest, InnerPacketId, DecodePluginResponse, NumberedRequest, RecordedBytes;
    var reply := AfterQuery(r, request, env).1.value;
    QueryServed(r, request, env);
    if request.channel == WRAPPER {
      ToInt32Fits(|r.exchanges| + 1);
      RecordedBytesSnoc(r.exchanges, ExchangeOf(|r.exchanges| + 1, request, reply));
      NextIsNumbered(r.exchanges, request, reply);
    }
  }

  /** The relay object that lives for one hot login. */
  class ForgeLoginRelay {
    var exchanges: seq<Exchange>
    var clientId: int32
    var cacheBytes: nat
    var client: Peer

    constructor (held: Peer)
      ensures View() == Relay([], 0, 0, held)
    {
      exchanges, clientId, cacheBytes, client := [], 0, 0, held;
    }

    function View(): Relay
      reads this
    {
      Relay(exchanges, clientId, cacheBytes, client)
    }

    method Forward(request: PluginRequest, env: Env) returns (reply: Option<Reply>)
      modifies this
      ensures (View(), reply) == AfterRelay(old(View()), request, env)
    {
      hide EncodePluginRequest, InnerPacketId, DecodePluginResponse;
      if |exchanges| >= MAX_EXCHANGES {
        return None;
      }
      var clientMessageId := request.id;
      if request.channel == WRAPPER {
        clientId := ToInt32(clientId + 1);
        clientMessageId := clientId;
      }
      var encoded := EncodePluginRequest(PluginRequest(clientMessageId, request.channel, request.data));
      if |encoded| > PacketStream.MAX_PACKET_LENGTH || cacheBytes + |encoded| > MAX_CACHE_BYTES {
        return None;
      }
      if !env.clientWriteOk {
        return None;
      }
      client := client.Write(RawPacket(PLUGIN_REQUEST, encoded));
      if OneWay(request) {
        exchanges := exchanges + [Exchange(encoded, false, [], true)];
        cacheBytes := cacheBytes + |encoded|;
        return Some(Silent);
      }
      if env.answer.Nothing? || env.answer.packet.id != PLUGIN_RESPONSE {
        return None;
      }
      var decoded := DecodePluginResponse(env.answer.packet.data);
      if decoded.None? || decoded.value.id != clientMessageId {
        return None;
      }
      var response := decoded.value;
      if |response.data| > PacketStream.MAX_PACKET_LENGTH ||
         cacheBytes + |encoded| + |response.data| > MAX_CACHE_BYTES {
        return None;
      }
      exchanges := exchanges + [Exchange(encoded, response.successful, response.data, false)];
      cacheBytes := cacheBytes + (|encoded| + |response.data|);
      if !env.backendWriteOk {
        return None;
      }
      return Some(Answer(PluginResponse(request.id, response.successful, response.data)));
    }

    method Serve(request: PluginRequest, env: Env) returns (reply: Option<Reply>)
      modifies this
      ensures (View(), reply) == AfterQuery(old(View()), request, env)
    {
      if request.channel != WRAPPER {
        return if env.backendWriteOk then Some(Answer(PluginResponse(request.id, false, []))) else None;
      }
      reply := Forward(request, env);
    }
  }
}
