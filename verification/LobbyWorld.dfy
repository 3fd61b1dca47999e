/** lobby.go and probe.go: the lobby's JoinGame packet, built from the one that a backend sent.

    Nothing a backend sends can break it: whatever codec the decoder accepts is well formed, and so is
    the lobby dimension edited from it. */
module LobbyWorld {
  import opened Bytes
  import opened VarInt
  import opened LoginPackets
  import opened Nbt
  import opened NbtExact
  import opened JoinGame
  import opened Dimension

  // ---- a decoded packet is well formed ----

  lemma HeadIsWellFormed(s: seq<byte>)
    requires ReadHead(s).Done?
    ensures WellFormedEntries(ReadHead(s).value.codec)
  {
    hide ReadWorldNames, ReadRoot, WellFormedEntries, TakeBool;
    var s0 := TakeBytes(s, 4).value.1;
    var s1 := TakeBool(s0).value.1;
    var s2 := TakeBytes(s1, 2).value.1;
    RootGivesWellFormed(ReadWorldNames(s2).rest);
  }

  /** Every codec and dimension that a backend's JoinGame packet decodes to meets the hypothesis of the
      round trip. */
  lemma DecodedIsWellFormed(protocol: Protocol, data: seq<byte>)
    ensures var r := DecodeJoinGame(protocol, data);
            r.Done? ==>
              && WellFormedEntries(r.value.head.codec)
              && (r.value.dimension.Some? ==> WellFormedEntries(r.value.dimension.value))
              && (r.value.dimension.Some? <==> !IsV1_20_1(protocol))
  {
    hide ReadHead, ReadRoot, ReadMiddle, ReadFlags, ReadTrailer, ReadText, TakeVarInt, WellFormedEntries;
    if DecodeJoinGame(protocol, data).Done? {
      HeadIsWellFormed(data);
      if !IsV1_20_1(protocol) {
        RootGivesWellFormed(ReadHead(data).rest);
      }
    }
  }

  // ---- the lobby dimension is well formed ----

  lemma {:induction false} LookupIsWellFormed(entries: seq<Entry>, name: Name)
    requires forall i :: 0 <= i < |entries| ==> WellFormedEntry(entries[i])
    requires Lookup(entries, name).Some?
    ensures WellFormed(Lookup(entries, name).value)
    decreases entries
  {
    hide WellFormed;
    assert WellFormedEntry(entries[0]);
    if entries[0].name != name {
      LookupIsWellFormed(entries[1..], name);
    }
  }

  lemma ElementIsWellFormed(d: Tag)
    requires WellFormed(d) && ElementOf(d).Some?
    ensures WellFormedEntries(ElementOf(d).value)
  {
    LookupIsWellFormed(d.entries, ELEMENT);
    hide Lookup;
  }

  lemma {:induction false} NamedIsWellFormed(items: seq<Tag>, name: seq<byte>)
    requires forall i :: 0 <= i < |items| ==> WellFormed(items[i])
    requires FirstNamed(items, name).Some?
    ensures WellFormedEntries(FirstNamed(items, name).value)
    decreases items
  {
    hide WellFormed, WellFormedEntries, ElementOf, IsNamed;
    if IsNamed(items[0], name) && ElementOf(items[0]).Some? {
      ElementIsWellFormed(items[0]);
    } else {
      NamedIsWellFormed(items[1..], name);
    }
  }

  lemma {:induction false} PreferredIsWellFormed(items: seq<Tag>, preferred: seq<seq<byte>>)
    requires forall i :: 0 <= i < |items| ==> WellFormed(items[i])
    requires FirstPreferred(items, preferred).Some?
    ensures WellFormedEntries(FirstPreferred(items, preferred).value)
    decreases preferred
  {
    hide WellFormed, WellFormedEntries, FirstNamed;
    if FirstNamed(items, preferred[0]).Some? {
      NamedIsWellFormed(items, preferred[0]);
    } else {
      PreferredIsWellFormed(items, preferred[1..]);
    }
  }

  lemma BaseIsWellFormed(types: seq<Entry>, fallback: seq<Entry>)
    requires WellFormedEntries(types) && WellFormedEntries(fallback)
    ensures WellFormedEntries(BaseDimension(types, fallback))
  {
    hide Lookup, ElementOf, FirstPreferred, WellFormedEntry, DistinctNames, FitsSigned;
    var value := Lookup(types, VALUE);
    if value.Some? && value.value.List? {
      LookupIsWellFormed(types, VALUE);
      var items := value.value.items;
      assert forall i :: 0 <= i < |items| ==> WellFormed(items[i]);
      hide WellFormed, WellFormedEntries;
      if FirstPreferred(items, PREFERRED).Some? {
        PreferredIsWellFormed(items, PREFERRED);
      } else if items != [] && ElementOf(items[0]).Some? {
        ElementIsWellFormed(items[0]);
      }
    }
  }

  lemma {:induction false} ApplyAllIsWellFormed(entries: seq<Entry>, overrides: seq<Entry>)
    requires WellFormedEntries(entries) && forall i :: 0 <= i < |overrides| ==> WellFormedEntry(overrides[i])
    ensures WellFormedEntries(ApplyAll(entries, overrides))
    decreases overrides
  {
    hide WellFormedEntries, WellFormedEntry, Nbt.Insert;
    if overrides != [] {
      var o := overrides[0];
      assert o == Entry(o.name, o.tag);
      InsertKeepsWellFormed(entries, o.name, o.tag);
      ApplyAllIsWellFormed(Nbt.Insert(entries, o.name, o.tag), overrides[1..]);
    }
  }

  lemma Ranges()
    ensures Pow256(1) == 0x100 && Pow256(2) == 0x1_0000 && Pow256(4) == 0x1_0000_0000
    ensures Pow256(8) == 0x1_0000_0000_0000_0000
  {
    assert Pow256(3) == 0x100_0000;
    assert Pow256(6) == 0x1_0000_0000_0000;
  }

  /** Every override is a short name with a number or a short text. */
  lemma OverridesAreWellFormed()
    ensures forall i :: 0 <= i < |OVERRIDES| ==> WellFormedEntry(OVERRIDES[i])
  {
    Ranges();
    hide Pow256, Ascii;
    forall i | 0 <= i < |OVERRIDES|
      ensures WellFormedEntry(OVERRIDES[i])
    {
    }
  }

  lemma LobbyDimensionIsWellFormed(codec: seq<Entry>, fallback: seq<Entry>)
    requires WellFormedEntries(codec) && WellFormedEntries(fallback)
    ensures WellFormedEntries(LobbyDimension(codec, fallback))
  {
    hide Lookup, BaseDimension, ApplyAll, WellFormedEntry;
    var types := Lookup(codec, DIMENSION_TYPE);
    if types.Some? && types.value.Compound? {
      LookupIsWellFormed(codec, DIMENSION_TYPE);
      BaseIsWellFormed(types.value.entries, fallback);
      OverridesAreWellFormed();
      ApplyAllIsWellFormed(BaseDimension(types.value.entries, fallback), OVERRIDES);
    }
  }

  // ---- the lobby's packet ----

  /** lobbyJoinGameParams: from the last status, the probed packet and the embedded defaults. */
  function LobbyParams(maxPlayers: Option<int32>, probed: Option<JoinData>, defaultCodec: seq<Entry>, fallback: seq<Entry>): Params {
    var codec := if probed.Some? then probed.value.head.codec else defaultCodec;
    Params(
      codec, LobbyDimension(codec, fallback),
      if maxPlayers.Some? then maxPlayers.value else if probed.Some? then probed.value.maxPlayers else 20,
      if probed.Some? then probed.value.viewDistance else 10,
      0,
      probed.Some? && probed.value.head.hardcore,
      if probed.Some? then probed.value.flags else Flags(false, true, false, false))
  }

  /** Whatever packet the probe decoded under the configured protocol, and without one, a client of any
      protocol that decodes the lobby's packet gets the backend's codec, its hardcore flag, view
      distance and world flags, and the lobby dimension made from that codec. */
  lemma LobbyPacketCarriesProbe(
    configured: Protocol, protocol: Protocol, data: seq<byte>, maxPlayers: Option<int32>, defaultCodec: seq<Entry>, fallback: seq<Entry>)
    requires WellFormedEntries(defaultCodec) && WellFormedEntries(fallback)
    ensures var r := DecodeJoinGame(configured, data);
            var probed := if r.Done? then Some(r.value) else None;
            var p := LobbyParams(maxPlayers, probed, defaultCodec, fallback);
            var back := DecodeJoinGame(protocol, LobbyJoinGame(protocol, p));
            && back.Done? && back.rest == []
            && back.value.head.codec == p.codec && back.value.viewDistance == p.viewDistance
            && back.value.head.hardcore == p.hardcore && back.value.flags == p.flags
            && (!IsV1_20_1(protocol) ==> back.value.dimension == Some(LobbyDimension(p.codec, fallback)))
            && (IsV1_20_1(protocol) ==> back.value.simulationDistance == Some(p.viewDistance))
            && back.value.maxPlayers == p.maxPlayers
            && (maxPlayers.Some? ==> p.maxPlayers == maxPlayers.value)
            && (r.Done? ==>
                  && p.codec == r.value.head.codec && p.viewDistance == r.value.viewDistance
                  && p.hardcore == r.value.head.hardcore && p.flags == r.value.flags
                  && (maxPlayers.None? ==> p.maxPlayers == r.value.maxPlayers))
            && (!r.Done? ==>
                  && p.codec == defaultCodec && p.viewDistance == 10 && !p.hardcore
                  && p.flags == Flags(false, true, false, false)
                  && (maxPlayers.None? ==> p.maxPlayers == 20))
  {
    hide DecodeJoinGame, LobbyJoinGame, LobbyDimension, WellFormedEntries;
    var r := DecodeJoinGame(configured, data);
    var probed := if r.Done? then Some(r.value) else None;
    var p := LobbyParams(maxPlayers, probed, defaultCodec, fallback);
    DecodedIsWellFormed(configured, data);
    LobbyDimensionIsWellFormed(p.codec, fallback);
    JoinGameRoundTrip(protocol, p);
  }

  // ---- when a backend's packet makes the decoder panic ----

  /** The bytes of the embedded codec, if the decoder comes that far. */
  function CodecBytes(data: seq<byte>): Option<seq<byte>> {
    var (_, s0) :- TakeBytes(data, 4);
    var (_, s1) :- TakeBool(s0);
    var (_, s2) :- TakeBytes(s1, 2);
    var names := ReadWorldNames(s2);
    if names.Done? then Some(names.rest) else None
  }

  /** The string and byte-array lengths on the decoder's way through the embedded compounds. */
  function PacketLengths(protocol: Protocol, data: seq<byte>): seq<int> {
    match CodecBytes(data)
    case None => []
    case Some(bytes) =>
      var codec := ReadRoot(bytes);
      RootLengths(bytes) + if !IsV1_20_1(protocol) && codec.Done? then RootLengths(codec.rest) else []
  }

  lemma {:induction false} TextsDoNotCrash(s: seq<byte>, n: int)
    ensures !ReadTexts(s, n).Crash?
    decreases n
  {
    hide ReadText;
    if n > 0 && ReadText(s).Done? {
      TextsDoNotCrash(ReadText(s).rest, n - 1);
    }
  }

  lemma NamesDoNotCrash(s: seq<byte>)
    ensures !ReadWorldNames(s).Crash?
  {
    hide TakeVarInt, ReadTexts;
    if TakeVarInt(s).Some? {
      TextsDoNotCrash(TakeVarInt(s).value.1, TakeVarInt(s).value.0);
    }
  }

  lemma HeadCrashes(data: seq<byte>)
    ensures var bytes := CodecBytes(data);
            && (ReadHead(data).Crash? <==> bytes.Some? && ReadRoot(bytes.value).Crash?)
            && (ReadHead(data).Done? <==> bytes.Some? && ReadRoot(bytes.value).Done?)
            && (ReadHead(data).Done? ==> ReadHead(data).rest == ReadRoot(bytes.value).rest)
  {
    hide ReadWorldNames, ReadRoot, TakeBool;
    if TakeBytes(data, 4).Some? {
      var s0 := TakeBytes(data, 4).value.1;
      if TakeBool(s0).Some? {
        var s1 := TakeBool(s0).value.1;
        if TakeBytes(s1, 2).Some? {
          NamesDoNotCrash(TakeBytes(s1, 2).value.1);
        }
      }
    }
  }

  lemma RestDoesNotCrash(s: seq<byte>)
    ensures !ReadMiddle(s).Crash? && !ReadFlags(s).Crash? && !ReadTrailer(s).Crash?
  {
    hide ReadText, TakeVarInt, ReadField, TakeBool, TakeBytes;
  }

  /** Decoding a backend's JoinGame packet panics exactly if a string or byte-array length in its
      codec, or in the dimension of the older layout, is negative where the decoder comes to it. */
  lemma JoinGameCrashesExactly(protocol: Protocol, data: seq<byte>)
    ensures DecodeJoinGame(protocol, data).Crash? <==> HasNegative(PacketLengths(protocol, data))
  {
    hide ReadHead, ReadRoot, ReadMiddle, ReadFlags, ReadTrailer, ReadText, TakeVarInt, RootLengths, HasNegative, CodecBytes;
    NoneNegative();
    HeadCrashes(data);
    if CodecBytes(data).Some? {
      var bytes := CodecBytes(data).value;
      var codec := ReadRoot(bytes);
      RootCrashesExactly(bytes);
      if codec.Done? {
        RootCrashesExactly(codec.rest);
        HasNegativeConcat(RootLengths(bytes), RootLengths(codec.rest));
      }
      assert RootLengths(bytes) + [] == RootLengths(bytes);
    }
    forall s: seq<byte>
      ensures !ReadMiddle(s).Crash? && !ReadFlags(s).Crash? && !ReadTrailer(s).Crash?
    {
      RestDoesNotCrash(s);
    }
  }

  /** Eleven bytes: no world names, and a codec whose name has a negative length. */
  lemma ElevenBytesPanic()
    ensures DecodeJoinGame(None, [0, 0, 0, 0, 0, 0, 0, 0, 10, 0x80, 0]).Crash?
  {
    hide ReadHead, ReadRoot, CodecBytes, ReadMiddle, ReadFlags;
    WitnessCodec();
    HeadCrashes([0, 0, 0, 0, 0, 0, 0, 0, 10, 0x80, 0]);
    ThreeBytesPanic();
  }

  lemma WitnessCodec()
    ensures CodecBytes([0, 0, 0, 0, 0, 0, 0, 0, 10, 0x80, 0]) == Some([10, 0x80, 0])
  {
    hide TakeVarInt;
    var s: seq<byte> := [0, 0, 0, 0, 0, 0, 0, 0, 10, 0x80, 0];
    assert s[4..] == [0, 0, 0, 0, 10, 0x80, 0];
    assert s[4..][1..] == [0, 0, 0, 10, 0x80, 0];
    assert s[4..][1..][2..] == [0, 10, 0x80, 0] == [0] + [10, 0x80, 0];
    NoNames([10, 0x80, 0]);
    hide ReadWorldNames;
  }

  lemma NoNames(rest: seq<byte>)
    ensures ReadWorldNames([0] + rest) == Done([], rest)
  {
    var s := [0] + rest;
    assert s[..1] == [0] && s[1..] == rest;
    PrefixLengthUnique(s, 1, 0);
    assert GroupsValue([0]) == 0;
  }

  lemma TextIsSafe(s: seq<byte>)
    requires Low(s)
    ensures Safe(ReadText(s)) && (TakeVarInt(s).Some? ==> Low(TakeVarInt(s).value.1))
  {
    hide PrefixLength;
  }

  lemma {:induction false} TextsAreSafe(s: seq<byte>, n: int)
    requires Low(s)
    ensures Safe(ReadTexts(s, n))
    decreases n
  {
    hide ReadText, Low;
    if n > 0 {
      TextIsSafe(s);
      if ReadText(s).Done? {
        TextsAreSafe(ReadText(s).rest, n - 1);
      }
    }
  }

  lemma CodecBytesAreLow(data: seq<byte>)
    requires Low(data) && CodecBytes(data).Some?
    ensures Low(CodecBytes(data).value)
  {
    hide TakeVarInt, ReadTexts;
    var s0 := TakeBytes(data, 4).value.1;
    var s1 := TakeBool(s0).value.1;
    var s2 := TakeBytes(s1, 2).value.1;
    TextIsSafe(s2);
    hide Low;
    TextsAreSafe(TakeVarInt(s2).value.1, TakeVarInt(s2).value.0);
  }

  /** Without a byte of 0x80 or more, no packet does that. */
  lemma JoinGameIsSafe(protocol: Protocol, data: seq<byte>)
    requires Low(data)
    ensures !DecodeJoinGame(protocol, data).Crash?
  {
    hide RootLengths, HasNegative, CodecBytes, DecodeJoinGame, ReadRoot, Low;
    JoinGameCrashesExactly(protocol, data);
    NoneNegative();
    if CodecBytes(data).Some? {
      var bytes := CodecBytes(data).value;
      CodecBytesAreLow(data);
      RootIsSafe(bytes);
      RootCrashesExactly(bytes);
      var codec := ReadRoot(bytes);
      if codec.Done? {
        RootIsSafe(codec.rest);
        RootCrashesExactly(codec.rest);
        HasNegativeConcat(RootLengths(bytes), RootLengths(codec.rest));
      }
      assert RootLengths(bytes) + [] == RootLengths(bytes);
    }
  }
}
