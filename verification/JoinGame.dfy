/** proto/packets/play/join_game.go: building the lobby's JoinGame packet and parsing the
    backend's, with NBT compounds embedded in the packet. */
module JoinGame {
  import opened Bytes
  import opened VarInt
  import opened LoginPackets
  import opened Nbt

  type Protocol = Option<nat>

  const V1_17: nat := 755
  const V1_20_1: nat := 763

  predicate IsV1_20_1(protocol: Protocol) {
    protocol == Some(V1_20_1)
  }

  function JoinGamePacketId(protocol: Protocol): byte {
    if IsV1_20_1(protocol) then 0x28
    else if protocol.Some? && protocol.value < V1_17 then 0x24
    else 0x26
  }

  predicate IsJoinGame(protocol: Protocol, packetId: byte) {
    if IsV1_20_1(protocol) then packetId == 0x28
    else if protocol.Some? && protocol.value < V1_17 then packetId == 0x24
    else packetId == 0x26
  }

  datatype Params = Params(
    codec: seq<Entry>, dimension: seq<Entry>,
    maxPlayers: int32, viewDistance: int32, simulationDistance: int32,
    hardcore: bool, flags: Flags)

  datatype Flags = Flags(reducedDebugInfo: bool, enableRespawnScreen: bool, isDebug: bool, isFlat: bool)

  /** The fields both layouts start with. */
  datatype Head = Head(hardcore: bool, gameMode: byte, previousGameMode: byte, worldNames: seq<seq<byte>>, codec: seq<Entry>)

  datatype JoinData = JoinData(
    head: Head, dimension: Option<seq<Entry>>, dimensionType: Option<seq<byte>>, worldName: seq<byte>,
    hashedSeed: int, maxPlayers: int32, viewDistance: int32, simulationDistance: Option<int32>, flags: Flags)

  const WORLD_NAMES: seq<seq<byte>> :=
    [Ascii("minecraft:overworld"), Ascii("minecraft:the_nether"), Ascii("minecraft:the_end")]
  const OVERWORLD: seq<byte> := Ascii("minecraft:overworld")
  const LOBBY: seq<byte> := Ascii("lazymc:lobby")

  // ---- encoding ----

  function StringFields(names: seq<seq<byte>>): seq<byte> {
    if names == [] then [] else StringField(names[0]) + StringFields(names[1..])
  }

  function FlagFields(f: Flags): seq<byte> {
    BoolField(f.reducedDebugInfo) + (BoolField(f.enableRespawnScreen) + (BoolField(f.isDebug) + BoolField(f.isFlat)))
  }

  function HeadFields(p: Params): seq<byte> {
    BigEndian(4, 0) + (BoolField(p.hardcore) + ([3, 0xFF] + (Encoding(ToInt32(|WORLD_NAMES|)) + (StringFields(WORLD_NAMES) + RootBytes(p.codec)))))
  }

  /** World name, hashed seed, player count and view distance, as both layouts write them. */
  function MiddleFields(p: Params): seq<byte> {
    StringField(LOBBY) + (SignedField(8, 0) + (Encoding(p.maxPlayers) + Encoding(p.viewDistance)))
  }

  function OldLayout(p: Params): seq<byte> {
    HeadFields(p) + (RootBytes(p.dimension) + (MiddleFields(p) + FlagFields(p.flags)))
  }

  /** A simulation distance that is not positive falls back to the view distance. */
  function EffectiveSimulation(p: Params): int32 {
    if p.simulationDistance <= 0 then p.viewDistance else p.simulationDistance
  }

  function NewLayout(p: Params): seq<byte> {
    HeadFields(p) + (StringField(OVERWORLD) + (MiddleFields(p) + (Encoding(EffectiveSimulation(p)) +
    (FlagFields(p.flags) + (BoolField(false) + Encoding(0))))))
  }

  function LobbyJoinGame(protocol: Protocol, p: Params): seq<byte> {
    if IsV1_20_1(protocol) then NewLayout(p) else OldLayout(p)
  }

  // ---- decoding ----

  function Lift<T>(p: Parsed<T>): Read<T> {
    if p.Some? then Done(p.value.0, p.value.1) else Malformed
  }

  /** joinGameReader.str has no length limit of its own. */
  function ReadText(s: seq<byte>): (r: Read<seq<byte>>)
    ensures r.Done? ==> |r.rest| < |s|
    ensures !r.Crash?
  {
    Lift(TakeString(s, 0x7FFF_FFFF))
  }

  function ReadTexts(s: seq<byte>, n: int): Read<seq<seq<byte>>>
    decreases n
  {
    if n <= 0 then Done([], s)
    else
      var (name, s0) :- ReadText(s);
      var (names, s1) :- ReadTexts(s0, n - 1);
      Done([name] + names, s1)
  }

  function ReadWorldNames(s: seq<byte>): Read<seq<seq<byte>>> {
    var (n, rest) :- Lift(TakeVarInt(s));
    if n < 0 then Malformed else ReadTexts(rest, n)
  }

  function ReadHead(s: seq<byte>): Read<Head> {
    var (_, s0) :- Lift(TakeBytes(s, 4));
    var (hardcore, s1) :- Lift(TakeBool(s0));
    var (modes, s2) :- Lift(TakeBytes(s1, 2));
    var (names, s3) :- ReadWorldNames(s2);
    var (codec, s4) :- ReadRoot(s3);
    Done(Head(hardcore, modes[0], modes[1], names, codec), s4)
  }

  function ReadFlags(s: seq<byte>): Read<Flags> {
    var (a, s0) :- Lift(TakeBool(s));
    var (b, s1) :- Lift(TakeBool(s0));
    var (c, s2) :- Lift(TakeBool(s1));
    var (d, s3) :- Lift(TakeBool(s2));
    Done(Flags(a, b, c, d), s3)
  }

  function ReadMiddle(s: seq<byte>): Read<(seq<byte>, int, int32, int32)> {
    var (world, s0) :- ReadText(s);
    var (seed, s1) :- ReadField(s0, 8);
    var (maxPlayers, s2) :- Lift(TakeVarInt(s1));
    var (view, s3) :- Lift(TakeVarInt(s2));
    Done((world, seed, maxPlayers, view), s3)
  }

  function DecodeOld(data: seq<byte>): Read<JoinData> {
    var (head, s0) :- ReadHead(data);
    var (dimension, s1) :- ReadRoot(s0);
    var ((world, seed, maxPlayers, view), s2) :- ReadMiddle(s1);
    var (flags, s3) :- ReadFlags(s2);
    Done(JoinData(head, Some(dimension), None, world, seed, maxPlayers, view, None, flags), s3)
  }

  /** The optional death location is consumed and the portal cooldown must be present. */
  function ReadTrailer(s: seq<byte>): Read<()> {
    var (death, s0) :- Lift(TakeBool(s));
    var s2 :- if !death then Done((), s0) else
      var (_, s1) :- ReadText(s0);
      var (_, s2) :- Lift(TakeBytes(s1, 8));
      Done((), s2);
    var (_, s3) :- Lift(TakeVarInt(s2.1));
    Done((), s3)
  }

  function DecodeNew(data: seq<byte>): Read<JoinData> {
    var (head, s0) :- ReadHead(data);
    var (kind, s1) :- ReadText(s0);
    var ((world, seed, maxPlayers, view), s2) :- ReadMiddle(s1);
    var (simulation, s3) :- Lift(TakeVarInt(s2));
    var (flags, s4) :- ReadFlags(s3);
    var (_, s5) :- ReadTrailer(s4);
    Done(JoinData(head, None, Some(kind), world, seed, maxPlayers, view, Some(simulation), flags), s5)
  }

  function DecodeJoinGame(protocol: Protocol, data: seq<byte>): Read<JoinData> {
    if IsV1_20_1(protocol) then DecodeNew(data) else DecodeOld(data)
  }

  // ---- round trip ----

  lemma TextBack(v: seq<byte>, rest: seq<byte>)
    requires |v| < 0x7FFF_FFFF
    ensures ReadText(StringField(v) + rest) == Done(v, rest)
  {
    StringRoundTrip(v, 0x7FFF_FFFF, rest);
  }

  lemma {:induction false} TextsBack(names: seq<seq<byte>>, rest: seq<byte>)
    requires forall i :: 0 <= i < |names| ==> |names[i]| < 0x7FFF_FFFF
    ensures ReadTexts(StringFields(names) + rest, |names|) == Done(names, rest)
    decreases names
  {
    hide ReadText, StringField;
    if names == [] {
      assert StringFields(names) + rest == rest;
    } else {
      var tail := StringFields(names[1..]) + rest;
      assert StringFields(names) + rest == StringField(names[0]) + tail;
      TextBack(names[0], tail);
      TextsBack(names[1..], rest);
      assert names == [names[0]] + names[1..];
    }
  }

  lemma WorldNamesBack(rest: seq<byte>)
    ensures ReadWorldNames(Encoding(ToInt32(|WORLD_NAMES|)) + (StringFields(WORLD_NAMES) + rest)) == Done(WORLD_NAMES, rest)
  {
    ToInt32Fits(|WORLD_NAMES|);
    VarInt.RoundTrip(|WORLD_NAMES|, StringFields(WORLD_NAMES) + rest);
    TextsBack(WORLD_NAMES, rest);
    hide TakeVarInt, Encoding, StringFields, ReadTexts;
  }

  lemma FlagsBack(f: Flags, rest: seq<byte>)
    ensures ReadFlags(FlagFields(f) + rest) == Done(f, rest)
  {
    var d := BoolField(f.isFlat) + rest;
    var c := BoolField(f.isDebug) + d;
    var b := BoolField(f.enableRespawnScreen) + c;
    FourFields(BoolField(f.reducedDebugInfo), BoolField(f.enableRespawnScreen), BoolField(f.isDebug), BoolField(f.isFlat), rest);
    BoolRoundTrip(f.reducedDebugInfo, b);
    BoolRoundTrip(f.enableRespawnScreen, c);
    BoolRoundTrip(f.isDebug, d);
    BoolRoundTrip(f.isFlat, rest);
    hide TakeBool, BoolField;
  }

  function LobbyHead(p: Params): Head {
    Head(p.hardcore, 3, 0xFF, WORLD_NAMES, p.codec)
  }

  lemma HeadBack(p: Params, rest: seq<byte>)
    requires WellFormedEntries(p.codec)
    ensures ReadHead(HeadFields(p) + rest) == Done(LobbyHead(p), rest)
  {
    hide BigEndian, BoolField, TakeBool, ReadWorldNames, Encoding, StringFields, RootBytes, ReadRoot, ToInt32, WellFormedEntries;
    var codec := RootBytes(p.codec) + rest;
    var names := Encoding(ToInt32(|WORLD_NAMES|)) + (StringFields(WORLD_NAMES) + codec);
    var modes: seq<byte> := [3, 0xFF];
    assert HeadFields(p) + rest == BigEndian(4, 0) + (BoolField(p.hardcore) + (modes + names));
    TakeBytesBack(BigEndian(4, 0), BoolField(p.hardcore) + (modes + names));
    BoolRoundTrip(p.hardcore, modes + names);
    TakeBytesBack(modes, names);
    WorldNamesBack(codec);
    RootBack(p.codec, rest);
  }

  lemma ZeroFits(width: nat)
    ensures FitsSigned(width, 0)
  {
  }

  lemma MiddleBack(p: Params, rest: seq<byte>)
    ensures ReadMiddle(MiddleFields(p) + rest) == Done((LOBBY, 0, p.maxPlayers, p.viewDistance), rest)
  {
    hide Encoding, TakeVarInt, ReadField, SignedField, StringField, ReadText, Ascii, FitsSigned;
    var view := Encoding(p.viewDistance) + rest;
    var players := Encoding(p.maxPlayers) + view;
    var seed := SignedField(8, 0) + players;
    FourFields(StringField(LOBBY), SignedField(8, 0), Encoding(p.maxPlayers), Encoding(p.viewDistance), rest);
    assert FitsSigned(8, 0) by {
      ZeroFits(8);
    }
    TextBack(LOBBY, seed);
    FieldBack(8, 0, players);
    VarInt.RoundTrip(p.maxPlayers, view);
    VarInt.RoundTrip(p.viewDistance, rest);
  }

  lemma OldBack(p: Params)
    requires WellFormedEntries(p.codec) && WellFormedEntries(p.dimension)
    ensures DecodeOld(OldLayout(p)) ==
      Done(JoinData(LobbyHead(p), Some(p.dimension), None, LOBBY, 0, p.maxPlayers, p.viewDistance, None, p.flags), [])
  {
    hide HeadFields, ReadHead, LobbyHead, RootBytes, ReadRoot, MiddleFields, ReadMiddle, FlagFields, ReadFlags, WellFormedEntries;
    var flags := FlagFields(p.flags) + [];
    assert flags == FlagFields(p.flags);
    var middle := MiddleFields(p) + flags;
    HeadBack(p, RootBytes(p.dimension) + middle);
    RootBack(p.dimension, middle);
    MiddleBack(p, flags);
    FlagsBack(p.flags, []);
  }

  lemma TrailerBack()
    ensures ReadTrailer(BoolField(false) + Encoding(0)) == Done((), [])
  {
    BoolRoundTrip(false, Encoding(0));
    VarInt.RoundTrip(0, []);
    assert Encoding(0) + [] == Encoding(0);
    hide TakeBool, BoolField, TakeVarInt, Encoding;
  }

  lemma NewBack(p: Params)
    requires WellFormedEntries(p.codec)
    ensures DecodeNew(NewLayout(p)) ==
      Done(JoinData(LobbyHead(p), None, Some(OVERWORLD), LOBBY, 0, p.maxPlayers, p.viewDistance,
                    Some(EffectiveSimulation(p)), p.flags), [])
  {
    TextBack(OVERWORLD, MiddleFields(p) + (Encoding(EffectiveSimulation(p)) + (FlagFields(p.flags) + (BoolField(false) + Encoding(0)))));
    hide HeadFields, ReadHead, LobbyHead, StringField, ReadText, MiddleFields, ReadMiddle, BoolField,
         Encoding, TakeVarInt, FlagFields, ReadFlags, ReadTrailer, WellFormedEntries, EffectiveSimulation, Ascii;
    var trailer := BoolField(false) + Encoding(0);
    var flags := FlagFields(p.flags) + trailer;
    var simulation := Encoding(EffectiveSimulation(p)) + flags;
    var kind := StringField(OVERWORLD) + (MiddleFields(p) + simulation);
    HeadBack(p, kind);
    MiddleBack(p, simulation);
    VarInt.RoundTrip(EffectiveSimulation(p), flags);
    FlagsBack(p.flags, trailer);
    TrailerBack();
  }

  /** JoinGame round trip, for every protocol version: the payload of the lobby's packet decodes to
      exactly what was encoded and nothing is left over, and the packet is recognised by its ID. */
  lemma JoinGameRoundTrip(protocol: Protocol, p: Params)
    requires WellFormedEntries(p.codec) && (!IsV1_20_1(protocol) ==> WellFormedEntries(p.dimension))
    ensures DecodeJoinGame(protocol, LobbyJoinGame(protocol, p)) ==
      Done(JoinData(LobbyHead(p),
                    if IsV1_20_1(protocol) then None else Some(p.dimension),
                    if IsV1_20_1(protocol) then Some(OVERWORLD) else None,
                    LOBBY, 0, p.maxPlayers, p.viewDistance,
                    if IsV1_20_1(protocol) then Some(EffectiveSimulation(p)) else None,
                    p.flags), [])
    ensures IsJoinGame(protocol, JoinGamePacketId(protocol))
    ensures forall id: byte :: IsJoinGame(protocol, id) ==> id == JoinGamePacketId(protocol)
  {
    hide DecodeOld, DecodeNew, OldLayout, NewLayout, WellFormedEntries;
    if IsV1_20_1(protocol) {
      NewBack(p);
    } else {
      OldBack(p);
    }
  }

  // ---- the decoders as they run ----

  /** One decoder: a cursor over the packet and the fields it has filled in so far. */
  class JoinGameDecoder {
    const r: PacketCursor

    constructor (data: seq<byte>)
      ensures fresh(r) && r.data == data && r.pos == 0
    {
      r := new PacketCursor(data);
    }

    ghost predicate Valid()
      reads this, r
    {
      r.pos <= |r.data|
    }

    ghost function Rest(): seq<byte>
      requires Valid()
      reads this, r
    {
      r.data[r.pos..]
    }

    /** An NBT compound read by a reader of its own over the remaining bytes. */
    method Compound() returns (entries: seq<Entry>, st: Status)
      requires Valid()
      modifies r
      ensures Valid() && Agrees(ReadRoot(old(Rest())), st, entries, Rest())
    {
      hide ReadRoot;
      var nbt := new NbtReader(r.data[r.pos..]);
      assert nbt.Rest() == nbt.data;
      entries, st := nbt.TakeRoot();
      if st == Ok {
        r.pos := |r.data| - (|nbt.data| - nbt.pos);
      }
    }

    method WorldNames() returns (names: seq<seq<byte>>, st: Status)
      requires Valid()
      modifies r
      ensures Valid() && Agrees(ReadWorldNames(old(Rest())), st, names, Rest())
    {
      hide TakeVarInt, TakeString;
      names := [];
      var n, ok := r.TakeInt();
      if !ok || n < 0 {
        return [], Bad;
      }
      ghost var start := Rest();
      PrependLaws([], [], ReadTexts(start, n));
      for i := 0 to n
        invariant Valid()
        invariant ReadTexts(start, n) == Prepend(names, ReadTexts(Rest(), n - i))
      {
        var name, okName := r.TakeText(0x7FFF_FFFF);
        if !okName {
          return [], Bad;
        }
        PrependLaws(names, name, ReadTexts(Rest(), n - i - 1));
        names := names + [name];
      }
      PrependNone(names, Rest());
      return names, Ok;
    }

    method Start() returns (head: Head, st: Status)
      requires Valid()
      modifies r
      ensures Valid() && Agrees(ReadHead(old(Rest())), st, head, Rest())
    {
      hide TakeBool, ReadWorldNames, ReadRoot;
      head := Head(false, 0, 0, [], []);
      var _, okId := r.TakeRaw(4);
      if !okId {
        return head, Bad;
      }
      var hardcore, okHardcore := r.TakeFlag();
      if !okHardcore {
        return head, Bad;
      }
      var modes, okModes := r.TakeRaw(2);
      if !okModes {
        return head, Bad;
      }
      var names, okNames := WorldNames();
      if okNames != Ok {
        return head, okNames;
      }
      var codec, okCodec := Compound();
      return Head(hardcore, modes[0], modes[1], names, codec), okCodec;
    }

    method TakeFlags() returns (flags: Flags, st: Status)
      requires Valid()
      modifies r
      ensures Valid() && Agrees(ReadFlags(old(Rest())), st, flags, Rest())
    {
      hide TakeBool;
      flags := Flags(false, false, false, false);
      var a, okA := r.TakeFlag();
      if !okA {
        return flags, Bad;
      }
      var b, okB := r.TakeFlag();
      if !okB {
        return flags, Bad;
      }
      var c, okC := r.TakeFlag();
      if !okC {
        return flags, Bad;
      }
      var d, okD := r.TakeFlag();
      if !okD {
        return flags, Bad;
      }
      return Flags(a, b, c, d), Ok;
    }

    method Trailer() returns (st: Status)
      requires Valid()
      modifies r
      ensures Valid() && Agrees(ReadTrailer(old(Rest())), st, (), Rest())
    {
      hide TakeBool, TakeVarInt, TakeString, TakeBytes;
      var death, okDeath := r.TakeFlag();
      if !okDeath {
        return Bad;
      }
      if death {
        var _, okWorld := r.TakeText(0x7FFF_FFFF);
        if !okWorld {
          return Bad;
        }
        var _, okSkip := r.TakeRaw(8);
        if !okSkip {
          return Bad;
        }
      }
      var _, okCooldown := r.TakeInt();
      return if okCooldown then Ok else Bad;
    }

    /** World name to view distance: the fields both layouts share. */
    method Middle() returns (world: seq<byte>, seed: int, maxPlayers: int32, view: int32, st: Status)
      requires Valid()
      modifies r
      ensures Valid() && Agrees(ReadMiddle(old(Rest())), st, (world, seed, maxPlayers, view), Rest())
    {
      hide TakeString, TakeVarInt, FromSignedField;
      world, seed, maxPlayers, view, st := [], 0, 0, 0, Bad;
      var okWorld, okSeed, okPlayers, okView;
      world, okWorld := r.TakeText(0x7FFF_FFFF);
      if !okWorld {
        return;
      }
      var field;
      field, okSeed := r.TakeRaw(8);
      if !okSeed {
        return;
      }
      seed := FromSignedField(field);
      maxPlayers, okPlayers := r.TakeInt();
      if !okPlayers {
        return;
      }
      view, okView := r.TakeInt();
      st := if okView then Ok else Bad;
    }

    method TakeOld() returns (d: JoinData, st: Status)
      requires Valid()
      modifies r
      ensures Valid() && Agrees(DecodeOld(old(Rest())), st, d, Rest())
    {
      hide ReadHead, ReadRoot, ReadMiddle, ReadFlags;
      var head, dimension, flags;
      head, st := Start();
      d := JoinData(head, None, None, [], 0, 0, 0, None, Flags(false, false, false, false));
      if st != Ok {
        return;
      }
      dimension, st := Compound();
      if st != Ok {
        return;
      }
      var world, seed, maxPlayers, view;
      world, seed, maxPlayers, view, st := Middle();
      if st != Ok {
        return;
      }
      flags, st := TakeFlags();
      d := JoinData(head, Some(dimension), None, world, seed, maxPlayers, view, None, flags);
    }

    method TakeNew() returns (d: JoinData, st: Status)
      requires Valid()
      modifies r
      ensures Valid() && Agrees(DecodeNew(old(Rest())), st, d, Rest())
    {
      hide ReadHead, ReadMiddle, ReadFlags, ReadTrailer, TakeVarInt, TakeString;
      var head, flags;
      head, st := Start();
      d := JoinData(head, None, None, [], 0, 0, 0, None, Flags(false, false, false, false));
      if st != Ok {
        return;
      }
      var kind, okKind := r.TakeText(0x7FFF_FFFF);
      if !okKind {
        return d, Bad;
      }
      var world, seed, maxPlayers, view;
      world, seed, maxPlayers, view, st := Middle();
      if st != Ok {
        return;
      }
      var simulation, okSimulation := r.TakeInt();
      if !okSimulation {
        return d, Bad;
      }
      flags, st := TakeFlags();
      if st != Ok {
        return;
      }
      st := Trailer();
      d := JoinData(head, None, Some(kind), world, seed, maxPlayers, view, Some(simulation), flags);
    }
  }
}
