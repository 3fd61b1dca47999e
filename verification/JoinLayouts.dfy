/** proto/packets/play/join_game.go: the JoinGame packet as any backend may write it, with a decoder that
    takes every field from its place, and the lobby's packet as one such packet. */
module JoinLayouts {
  import opened Bytes
  import opened VarInt
  import opened LoginPackets
  import opened Nbt
  import opened JoinGame

  // ---- the layouts ----

  function HeadBytes(entityId: seq<byte>, h: Head): seq<byte> {
    entityId + (BoolField(h.hardcore) + ([h.gameMode, h.previousGameMode] +
    (Encoding(ToInt32(|h.worldNames|)) + (StringFields(h.worldNames) + RootBytes(h.codec)))))
  }

  function MiddleBytes(world: seq<byte>, seed: int, maxPlayers: int32, view: int32): seq<byte> {
    StringField(world) + (SignedField(8, seed) + (Encoding(maxPlayers) + Encoding(view)))
  }

  /** Where the player last died: a world and eight bytes of position. */
  datatype Death = Death(world: seq<byte>, position: seq<byte>)

  function TrailerBytes(death: Option<Death>, cooldown: int32): seq<byte> {
    match death
    case None => [0] + Encoding(cooldown)
    case Some(d) => [1] + (StringField(d.world) + (d.position + Encoding(cooldown)))
  }

  /** The layout before 1.20.1: the dimension as a compound. */
  function OldBytes(entityId: seq<byte>, h: Head, dimension: seq<Entry>, world: seq<byte>, seed: int, maxPlayers: int32, view: int32, f: Flags): seq<byte> {
    HeadBytes(entityId, h) + (RootBytes(dimension) + (MiddleBytes(world, seed, maxPlayers, view) + FlagFields(f)))
  }

  /** The layout of 1.20.1: the dimension by name, a simulation distance, and the last death. */
  function NewBytes(
    entityId: seq<byte>, h: Head, kind: seq<byte>, world: seq<byte>, seed: int, maxPlayers: int32, view: int32, simulation: int32,
    f: Flags, death: Option<Death>, cooldown: int32): seq<byte>
  {
    HeadBytes(entityId, h) + (StringField(kind) + (MiddleBytes(world, seed, maxPlayers, view) +
    (Encoding(simulation) + (FlagFields(f) + TrailerBytes(death, cooldown)))))
  }

  /** Lengths that their fields can carry, and a codec that can be written. */
  ghost predicate GoodHead(entityId: seq<byte>, h: Head) {
    && |entityId| == 4 && |h.worldNames| < 0x8000_0000 && WellFormedEntries(h.codec)
    && forall i :: 0 <= i < |h.worldNames| ==> |h.worldNames[i]| < 0x7FFF_FFFF
  }

  ghost predicate GoodDeath(death: Option<Death>) {
    death.Some? ==> |death.value.world| < 0x7FFF_FFFF && |death.value.position| == 8
  }

  // ---- decoding them ----

  lemma NamesReadBack(names: seq<seq<byte>>, rest: seq<byte>)
    requires |names| < 0x8000_0000 && forall i :: 0 <= i < |names| ==> |names[i]| < 0x7FFF_FFFF
    ensures ReadWorldNames(Encoding(ToInt32(|names|)) + (StringFields(names) + rest)) == Done(names, rest)
  {
    hide TakeVarInt, Encoding, StringFields, ReadTexts;
    ToInt32Fits(|names|);
    VarInt.RoundTrip(|names|, StringFields(names) + rest);
    TextsBack(names, rest);
  }

  lemma HeadReadsBack(entityId: seq<byte>, h: Head, rest: seq<byte>)
    requires GoodHead(entityId, h)
    ensures ReadHead(HeadBytes(entityId, h) + rest) == Done(h, rest)
  {
    hide BoolField, TakeBool, ReadWorldNames, Encoding, StringFields, RootBytes, ReadRoot, ToInt32, WellFormedEntries;
    var codec := RootBytes(h.codec) + rest;
    var names := Encoding(ToInt32(|h.worldNames|)) + (StringFields(h.worldNames) + codec);
    var modes: seq<byte> := [h.gameMode, h.previousGameMode];
    HeadAssoc(entityId, BoolField(h.hardcore), modes, Encoding(ToInt32(|h.worldNames|)), StringFields(h.worldNames), RootBytes(h.codec), rest);
    TakeBytesBack(entityId, BoolField(h.hardcore) + (modes + names));
    BoolRoundTrip(h.hardcore, modes + names);
    TakeBytesBack(modes, names);
    NamesReadBack(h.worldNames, codec);
    RootBack(h.codec, rest);
  }

  lemma HeadAssoc(a: seq<byte>, b: seq<byte>, c: seq<byte>, d: seq<byte>, e: seq<byte>, f: seq<byte>, rest: seq<byte>)
    ensures (a + (b + (c + (d + (e + f))))) + rest == a + (b + (c + (d + (e + (f + rest)))))
  {
  }

  lemma MiddleReadsBack(world: seq<byte>, seed: int, maxPlayers: int32, view: int32, rest: seq<byte>)
    requires |world| < 0x7FFF_FFFF && FitsSigned(8, seed)
    ensures ReadMiddle(MiddleBytes(world, seed, maxPlayers, view) + rest) == Done((world, seed, maxPlayers, view), rest)
  {
    hide Encoding, TakeVarInt, ReadField, SignedField, StringField, ReadText, FitsSigned;
    FourFields(StringField(world), SignedField(8, seed), Encoding(maxPlayers), Encoding(view), rest);
    var last := Encoding(view) + rest;
    var players := Encoding(maxPlayers) + last;
    TextBack(world, SignedField(8, seed) + players);
    FieldBack(8, seed, players);
    VarInt.RoundTrip(maxPlayers, last);
    VarInt.RoundTrip(view, rest);
  }

  /** The trailer is read to its end, with or without a last death. */
  lemma TrailerReadsBack(death: Option<Death>, cooldown: int32, rest: seq<byte>)
    requires GoodDeath(death)
    ensures ReadTrailer(TrailerBytes(death, cooldown) + rest) == Done((), rest)
  {
    hide TakeVarInt, Encoding, StringField, TakeString;
    var last := Encoding(cooldown) + rest;
    VarInt.RoundTrip(cooldown, rest);
    if death.None? {
      assert TrailerBytes(death, cooldown) + rest == [0] + last;
      assert ([0] + last)[1..] == last;
    } else {
      var d := death.value;
      var tail := StringField(d.world) + (d.position + last);
      assert TrailerBytes(death, cooldown) + rest == [1] + tail;
      assert ([1] + tail)[1..] == tail;
      TextBack(d.world, d.position + last);
      TakeBytesBack(d.position, last);
    }
  }

  /** A backend's packet in the older layout decodes to its fields, whatever they are. */
  lemma OldReadsBack(
    entityId: seq<byte>, h: Head, dimension: seq<Entry>, world: seq<byte>, seed: int, maxPlayers: int32, view: int32, f: Flags, rest: seq<byte>)
    requires GoodHead(entityId, h) && WellFormedEntries(dimension) && |world| < 0x7FFF_FFFF && FitsSigned(8, seed)
    ensures DecodeOld(OldBytes(entityId, h, dimension, world, seed, maxPlayers, view, f) + rest) ==
              Done(JoinData(h, Some(dimension), None, world, seed, maxPlayers, view, None, f), rest)
  {
    hide HeadBytes, ReadHead, RootBytes, ReadRoot, MiddleBytes, ReadMiddle, FlagFields, ReadFlags, WellFormedEntries, GoodHead, FitsSigned;
    var flags := FlagFields(f) + rest;
    var middle := MiddleBytes(world, seed, maxPlayers, view) + flags;
    FourFields(HeadBytes(entityId, h), RootBytes(dimension), MiddleBytes(world, seed, maxPlayers, view), FlagFields(f), rest);
    HeadReadsBack(entityId, h, RootBytes(dimension) + middle);
    RootBack(dimension, middle);
    MiddleReadsBack(world, seed, maxPlayers, view, flags);
    FlagsBack(f, rest);
  }

  /** A backend's packet in the 1.20.1 layout decodes to its fields, whatever they are, also after a death. */
  lemma NewReadsBack(
    entityId: seq<byte>, h: Head, kind: seq<byte>, world: seq<byte>, seed: int, maxPlayers: int32, view: int32, simulation: int32,
    f: Flags, death: Option<Death>, cooldown: int32, rest: seq<byte>)
    requires GoodHead(entityId, h) && GoodDeath(death) && |kind| < 0x7FFF_FFFF && |world| < 0x7FFF_FFFF && FitsSigned(8, seed)
    ensures DecodeNew(NewBytes(entityId, h, kind, world, seed, maxPlayers, view, simulation, f, death, cooldown) + rest) ==
              Done(JoinData(h, None, Some(kind), world, seed, maxPlayers, view, Some(simulation), f), rest)
  {
    hide HeadBytes, ReadHead, StringField, ReadText, MiddleBytes, ReadMiddle, FlagFields, ReadFlags, TrailerBytes, ReadTrailer,
         Encoding, TakeVarInt, GoodHead, GoodDeath, FitsSigned;
    var trailer := TrailerBytes(death, cooldown) + rest;
    var flags := FlagFields(f) + trailer;
    var distance := Encoding(simulation) + flags;
    var middle := MiddleBytes(world, seed, maxPlayers, view) + distance;
    HeadAssoc(HeadBytes(entityId, h), StringField(kind), MiddleBytes(world, seed, maxPlayers, view), Encoding(simulation),
              FlagFields(f), TrailerBytes(death, cooldown), rest);
    HeadReadsBack(entityId, h, StringField(kind) + middle);
    TextBack(kind, middle);
    MiddleReadsBack(world, seed, maxPlayers, view, distance);
    VarInt.RoundTrip(simulation, flags);
    FlagsBack(f, trailer);
    TrailerReadsBack(death, cooldown, rest);
  }

  // ---- the lobby's packet ----

  function Worlds(): seq<seq<byte>> {
    [Ascii("minecraft:overworld"), Ascii("minecraft:the_nether"), Ascii("minecraft:the_end")]
  }

  lemma ZeroBytes()
    ensures BigEndian(4, 0) == [0, 0, 0, 0]
  {
    assert BigEndian(1, 0) == [0] && BigEndian(2, 0) == [0, 0] && BigEndian(3, 0) == [0, 0, 0];
  }

  /** The lobby's packet, field by field: entity 0, spectator mode with none before, the three worlds, the
      world lazymc:lobby with seed 0, and no last death. */
  lemma LobbyLayout(protocol: Protocol, p: Params)
    ensures var h := Head(p.hardcore, 3, 0xFF, Worlds(), p.codec);
            var simulation := if p.simulationDistance > 0 then p.simulationDistance else p.viewDistance;
            LobbyJoinGame(protocol, p) ==
              if protocol == Some(763)
              then NewBytes([0, 0, 0, 0], h, Ascii("minecraft:overworld"), Ascii("lazymc:lobby"), 0, p.maxPlayers, p.viewDistance,
                            simulation, p.flags, None, 0)
              else OldBytes([0, 0, 0, 0], h, p.dimension, Ascii("lazymc:lobby"), 0, p.maxPlayers, p.viewDistance, p.flags)
  {
    hide Ascii, Encoding, StringField, StringFields, RootBytes, FlagFields, SignedField;
    ZeroBytes();
    hide BigEndian;
    assert WORLD_NAMES == Worlds();
  }

  /** The packet IDs: 0x28 for 1.20.1, 0x24 before 1.17, 0x26 otherwise and for an unknown version. */
  lemma PacketIds(protocol: Protocol, id: byte)
    ensures var expected :=
              if protocol == Some(763) then 0x28
              else if protocol.Some? && protocol.value < 755 then 0x24
              else 0x26;
            JoinGamePacketId(protocol) == expected && (IsJoinGame(protocol, id) <==> id == expected)
  {
  }

  /** The flags in their order: reduced debug info, respawn screen, debug world, flat world. */
  lemma FlagLayout(f: Flags)
    ensures FlagFields(f) == [if f.reducedDebugInfo then 1 else 0, if f.enableRespawnScreen then 1 else 0,
                              if f.isDebug then 1 else 0, if f.isFlat then 1 else 0]
  {
  }
}
