# LazyGate: a verified model

LazyGate is a Minecraft gateway. It answers for a backend server that sleeps, wakes it when a player
arrives, holds the player meanwhile (in a login queue or in a small lobby world) and then splices the
two connections together. This project models the parts of it that are hard to get right, and proves
what they promise:

- **FML3 login.** The first Forge client is relayed live and its exchanges are recorded; later backend
  logins are answered from that record. `ForgeRelay` and `BackendLogin` show that a replay gives every
  later backend what the live client gave the first one, whatever the backend sends in between, and
  `LobbyLogin` that client and proxy always agree on compression, in offline and online lobbies;
  `ForgeDrain` reads off a client's answers to a replay and `ExchangeCache` is the memory of the record.
- **Wire layer.** `VarInt`, `Framing`, `PacketStream` and `LoginPackets` cover var-ints, optionally
  compressed frames, the incremental reader and the login packets; `ReadSizes` tells from sizes alone
  which streams the reader survives, and `Handoff` follows every byte from one owner of a connection to
  the next.
- **NBT and JoinGame.** `Nbt`, `NbtExact`, `NbtSize`, `JoinGame`, `Compounds` and `Dimension` cover the
  recursive codec, what its reader can return and how large that can be, the packet that embeds it, deep
  cloning on the heap and the lobby dimension edited on a clone. `JoinLayouts` is the packet as any
  backend may write it, and `LobbyWorld` goes from there to the one that the lobby sends.
- **Server lifecycle.** `HelperSlots`, `StateWatch`, `Lifecycle` and `LifecycleLaws` cover the helper slots,
  the watch channels and the state machine with its deadlines: what never happens and what must. The first
  two interleave single critical sections.
- **Two transformations.** `Cfb8` is the CFB-8 stream of section 6.3 of NIST SP 800-38A, and
  `ServerProperties` the rewriter of `server.properties`.

Code that works step by step is a method or a class whose `ensures` equate its result with a function
of the inputs or of the old state; the properties are lemmas about those functions. Besides what an
operation keeps, its `...Exactly` lemma says when it succeeds and what it then does. Whatever comes from
outside (network reads and writes, the backend, clocks, processes, write failures) is a parameter, and
every property holds for all of its values. Five properties are false as one would first state them;
for each there is a concrete failing case and an exact condition:

- Packets come back in order however the bytes arrive. A length prefix of three bytes fails if a read
  ends after its second byte, even when everything arrives in one piece (`PacketStream.SplitLengthFails`,
  `ReadSizes.OnePieceCanFail`); the exact condition is in `PacketStream.ChunkingIndependence` and, from
  sizes alone, in `ReadSizes.ChunkingBySizes` and `ReadSizes.ChunkingByReadEnds`.
- A subscriber ends up with the current state. Overlapping transitions can leave it with an older one
  (`StateWatch.OverlapLosesState`); the exact condition is in `StateWatch.LostStateExactly`.
- Every NBT tag reads back from its bytes. A string over 32767 bytes does not
  (`Nbt.StringReadsBackExactly`); the exact condition, for every tag and compound, is well-formedness
  (`NbtExact.TagReadsBackExactly`, `NbtExact.RootReadsBackExactly`).
- Bad NBT input is reported. Three bytes make the reader panic (`NbtExact.ThreeBytesPanic`,
  `LobbyWorld.ElevenBytesPanic`); it panics exactly at a negative string or byte-array length
  (`NbtExact.RootCrashesExactly`, `LobbyWorld.JoinGameCrashesExactly`), and never without a byte of 0x80
  or more.
- A list that was read has no more items than the bytes they took. Twelve bytes, all below 0x80, make a
  list of 2139062143 items (`NbtSize.TwelveBytesMakeAHugeList`), which no memory holds; it happens exactly
  for a list of End with a positive count (`NbtSize.ItemsWithinBytesExactly`), and everything else is
  bounded by one tag per byte (`NbtSize.OneTagPerByte`).

`dafny verify dfyconfig.toml` checks the whole project.

## Model

| member | source | states |
|---|---|---|
| BackendLogin.ReplayRefinesLive | lobby.go:730-799 | For any hot login that committed its exchanges and any later login answered from that cache, as long as the later backend asks the same queries under message IDs of its own: position by position the same success flag and data under its own ID, silence exactly where the live run was silent, the same refusal of other channels. |
| BackendLogin.ReplayAnswersOnlyTheRecorded | lobby.go:761-786 | Whatever the later backend asks: its k-th served wrapper query is the k-th of the hot login in channel and data and got the same answer under its own ID; those past the end were refused. |
| BackendLogin.ReplayServesNextQuery | lobby.go:761-786 | The replay does not stall: with a working backend connection, and a profile to forward if that is what is asked for, the next recorded query, asked again under any ID, is always served and the login goes on. |
| BackendLogin.ReplayCompletes | lobby.go:673-865 | A later backend that asks the hot queries in order under its own IDs, with harmless packets in between, and then accepts, is logged in to: every query is served, each as in the hot login. |
| BackendLogin.ColdRunExactly | lobby.go:673-865 | A login without a relay, in any configuration, is completed if and only if every query has an answer due to it, as told by the cache and the number of wrapper queries before it, and the backend accepts, in an online lobby after asking for the profile. |
| BackendLogin.ColdQueryExactly | lobby.go:739-825 | One query of such a login is served with what is due to it, or the login is dropped with nothing written; a wrapper query that differs from the recorded one in channel or data is dropped. |
| BackendLogin.ColdRunFromCache | lobby.go:761-786 | In every state of every such login the served wrapper queries are the recorded ones, position by position. |
| BackendLogin.HotRunExactly | lobby.go:673-865 | A relayed login is completed if and only if every query can be served, compression is never renegotiated and the backend accepts; its turns are then the queries with what they were to get, and the cache is their record. |
| BackendLogin.HotQueryExactly | lobby.go:739-759 | One query of a relayed login is served exactly when it can be, with the forwarded profile, a refusal, silence or the client's answer; otherwise the login is dropped. |
| BackendLogin.BackendLogExactly | lobby.go:673-865 | A completed login has written to the backend one reply for each query, in the mode the backend asked for last. |
| BackendLogin.LoginWritesReplies | lobby.go:613-672 | From its beginning, uncompressed, that is all it writes. |
| BackendLogin.ClientLogExactly | lobby.go:690-852 | A completed relayed login has written to the held client the wrapper queries under IDs 1, 2, and so on, the first SetCompression if it was not compressed, and the backend's acceptance, each in the client's mode. |
| BackendLogin.WrapperQueryWrites | forge.go:105-139 | Any wrapper query, served or not, is written to the client if there is room for it and the client takes it. |
| BackendLogin.RunForwards | lobby.go:739-746 | In every login the profile has been forwarded exactly if it was asked for, and an online login completes only then. |
| BackendLogin.TranscriptIsOnTheWire | lobby.go:673-865 | In every login the packets written to the backend are exactly the replies of its served queries, in order. |
| BackendLogin.CacheChangesOnlyOnSuccess | lobby.go:828-841 | A login that does not reach LoginSuccess, or has no relay, leaves the server's cache as it was; a completed hot login stores its exchanges, unless there are none. |
| BackendLogin.HotRun | lobby.go:673-865 | Every state of every hot login keeps the relay invariant and holds exactly the exchanges of its wrapper queries, in order. |
| BackendLogin.HotQuery | lobby.go:739-759 | One query of a hot login keeps that invariant, on the velocity channel, the wrapper channel and all others. |
| BackendLogin.ColdRun | lobby.go:761-799 | Every state of every cached login has its replay index at the number of wrapper queries asked, and its answers agree with the live ones. |
| BackendLogin.ColdQuery | lobby.go:761-786 | One query of a cached login is served unless its write fails or its profile is missing, with the live reply under its own ID. |
| BackendLogin.RecordedRequestMatches | forge.go:213-216 | A recorded query matches exactly the queries of the same channel and data, whatever their message IDs. |
| BackendLogin.RecordAt | forge.go:105-175 | The exchange of query n stands in the record at the number of wrapper queries before it. |
| ExchangeCache.ForgeLoginCache.Snapshot | server.go:673-686 | What is handed out equals the cache and lies in new memory only, so its holder cannot change the cache. |
| ExchangeCache.ForgeLoginCache.Replace | server.go:689-701 | The cache becomes what was handed in, in new memory only, so the giver cannot change it afterwards. |
| ExchangeCache.CopyExchanges | server.go:678-684 | Equal exchanges with no byte slice in common with the original. |
| BackendLogin.BackendConnection.AnswerFromCache | lobby.go:762-785 | The method does what the cached-query step of the login machine does: negative answer past the end, disconnect on mismatch, silence or the recorded answer. |
| BackendLogin.BackendConnection.HandlePluginRequest | lobby.go:730-825 | The method does what the plugin-request step does, branch by branch, with a write failure on each. |
| BackendLogin.BackendConnection.HandleSetCompression | lobby.go:690-721 | The threshold reaches the held client first and may not change afterwards; then the backend side switches. |
| BackendLogin.BackendConnection.HandleLoginSuccess | lobby.go:828-852 | Rejects an unforwarded profile in online mode; otherwise forwards the packet, commits and enters play. |
| BackendLogin.BackendConnection.Connect | lobby.go:613-871 | The login loop over any sequence of backend packets ends in the state of the step relation's run. |
| ForgeRelay.QueryServed | forge.go:105-211 | A served query records one exchange under the next ID for the wrapper and none otherwise; the backend gets its own ID back with what the client said under that next ID, and no answer exactly for one-way data. |
| ForgeRelay.QueryServedExactly | forge.go:105-211 | A live query is served exactly if it is on another channel and the refusal can be written, or there are fewer than 512 exchanges, request and record stay within 1 MiB and 8 MiB, the client takes it and, unless it is one-way, gives an answer under the next ID within these limits that can be written; and what it then gets. |
| ForgeRelay.QueryKeepsInvariant | forge.go:105-175 | After every served query client-side IDs are 1..n in order, `cacheBytes` is the sum of stored lengths and at most 8 MiB, n is at most 512 and every stored request decodes. |
| ForgeRelay.NextIsNumbered | forge.go:224-230 | The next stored request decodes to the wrapper channel and the next ID. |
| ForgeRelay.WrappedIsOneWay | forge.go:177-198 | A wrapped message is one-way exactly if its inner channel is fml:handshake, its declared length is positive and present, and its packet ID is 5. |
| ForgeRelay.ForgeLoginRelay.Forward | forge.go:105-175 | The relay method updates exchanges, ID counter, byte count and client exactly as the relay step, on every error path too. |
| ForgeRelay.ForgeLoginRelay.Serve | forge.go:205-211 | Wrapper queries are relayed; any other channel is refused without touching the relay. |
| ForgeDrain.DrainStopsAfterLastAnswer | forge.go:478-529 | A client that answers every expected query with packets within the limits is drained up to its last answer and not a byte further, whatever it sends in between, if every length prefix arrives whole, and otherwise the drain ends in an error. |
| ForgeDrain.SmallAnswersAlwaysDrain | forge.go:478-529 | With payloads under 16384 bytes that holds however the bytes arrive. |
| ForgeDrain.DrainConserves | forge.go:478-529 | Draining only takes bytes off the front of the stream, however it ends. |
| ForgeDrain.DrainEndings | forge.go:478-529 | With answers missing, draining ends without complaint at the end of the stream, on a reset or a timeout, and in an error otherwise. |
| ForgeDrain.DrainResponses | forge.go:478-529 | The loop ends as specified: all answers read, client gone or silent, or an error. |
| LobbyLogin.CompressionAgreement | lobby.go:86-158 | Whatever uncompressed frames the client was written before, online or not, on the hot, cold and plain path to LoginSuccess: the log is those frames, the encryption request of an online lobby, exactly one SetCompression unframed by compression, and then only frames in the new mode, the last of them LoginSuccess. |
| LobbyLogin.LoginExactly | lobby.go:86-158 | A login that is not relayed succeeds if and only if the client authenticates where it must, its answers can be drained where there are any, and every frame can be written; the client is then written exactly the frames before, the encryption request, the switch, the cached queries in order, and LoginSuccess. |
| LobbyLogin.HotLoginExactly | lobby.go:105-128 | A relayed login succeeds if and only if the client authenticates where it must, the switch can be written and the backend login can be completed; the client is then written the frames before, the switch, and what the relay writes. |
| LobbyLogin.EnsureOnlyOnce | lobby.go:255-271 | A compressed client is not switched again, and another threshold is an error. |
| LobbyLogin.AnsweringClientDrains | lobby.go:241-250 | A client that answers every replayed query that was answered before is drained exactly if the reader gets every length prefix whole. |
| LobbyLogin.AnsweredCounts | forge.go:259-271 | The answers to expect are the recorded queries that were answered. |
| LobbyLogin.ClientFollowsLogin | lobby.go:86-158 | A client that starts uncompressed and switches on SetCompression decodes exactly the packets the proxy wrote. |
| LobbyLogin.ClientFollowsEncryptedLogin | online_auth.go:264-336 | The same when everything after the encryption request goes through the cipher stream and the client deciphers it from the same secret. |
| LobbyLogin.DecipheredIsPlain | online_auth.go:264-336 | Deciphering all but the plain part of such a stream gives the bytes of all frames. |
| LobbyLogin.ClientDecodesEverything | proto/packet.go:88-124 | The same for any log of uncompressed frames, one switch, and frames in the new mode. |
| LobbyLogin.ClientReadsFrame | proto/packet.go:47-85 | One frame in front of any bytes reads back as its packet, in the mode it was written in. |
| LobbyLogin.HotStepKeepsMode | lobby.go:690-721 | No backend packet makes a hot login switch its client a second time. |
| LobbyLogin.ReplayKeepsMode | forge.go:259-271 | Replaying any cache to a switched client keeps every frame in the new mode. |
| LobbyLogin.LobbyClient.Ensure | lobby.go:255-271 | Sends SetCompression under the old mode and switches, once; an already different threshold is an error. |
| LobbyLogin.LobbyClient.Replay | forge.go:259-271 | Writes every cached request in order and counts the answers to expect. |
| LobbyLogin.LobbyClient.Cold | lobby.go:241-250 | Compression, replay, draining the answers that the replay expects off the client's stream, and the shared tail, as the cold path specifies. |
| LobbyLogin.LobbyClient.AskForEncryption | online_auth.go:76-90 | Writes the encryption request; the rest of the authentication is its result. |
| LobbyLogin.LobbyClient.Finish | lobby.go:144-158 | SetCompression only if not sent yet, then LoginSuccess. |
| VarInt.RoundTrip | proto/varint.go:7-57 | For every int32 and every suffix, the encoding is 1 to 5 bytes and decodes to the value with exactly the suffix left. |
| VarInt.PrefixLengthUnique | proto/varint.go:7-30 | The first byte without the continuation bit, within five, decides the length. |
| VarInt.NoPrefix | proto/varint.go:7-30 | Without such a byte nothing decodes. |
| VarInt.PrefixStable | proto/varint.go:7-30 | Further bytes change neither the value nor the consumption of a decodable prefix. |
| VarInt.GroupsShape | proto/varint.go:42-57 | Exactly the last byte of an encoding has no continuation bit. |
| VarInt.EncodeVarInt | proto/varint.go:42-57 | The loop emits the encoding of the 32-bit pattern. |
| VarInt.DecodeGroups | proto/varint.go:33-39 | The loop computes the truncated sum of the seven-bit groups. |
| VarInt.ReadVarInt | proto/varint.go:7-30 | Succeeds exactly where the specification decodes, with its value and consumption. |
| LoginPackets.PacketCursor.TakeInt | proto/packets.go:204-218 | The group-by-group cursor decoder (the same code as forge.go:402-416 and proto/packets/play/join_game.go:60-74) accepts exactly what ReadVarInt accepts, with the same value and consumption. |
| LoginPackets.PacketCursor.TakeFlag | proto/packets.go:220-227 | Reads one byte as a flag, or fails at the end. |
| LoginPackets.PacketCursor.TakeText | proto/packets.go:265-273 | Accepts exactly the strings whose length is non-negative, present and within the maximum. |
| LoginPackets.StringReadsExactly | proto/packets.go:265-273 | A string field reads back in front of any bytes if it is within the maximum, and is refused otherwise. |
| LoginPackets.HandshakeRoundTrip | proto/packets.go:51-80 | A handshake reads back if its address has at most 255 bytes, and is refused otherwise. |
| LoginPackets.LoginStartRoundTrip | proto/packets.go:88-100 | A name reads back if it has at most 16 bytes, and is refused otherwise. |
| LoginPackets.PluginRequestRoundTrip | proto/packets.go:138-149 | A login-plugin request reads back if its channel has at most 32767 bytes, and is refused otherwise. |
| LoginPackets.PluginResponseRoundTrip | proto/packets.go:110-128 | A login-plugin response reads back as encoded. |
| LoginPackets.SetCompressionRoundTrip | proto/packets.go:157-164 | A SetCompression packet reads back as encoded. |
| Framing.PayloadRoundTrip | proto/packet.go:47-124 | Under every compression mode, below and above the threshold, the payload decodes to the packet. |
| Framing.PayloadShape | proto/packet.go:88-124 | Without compression the payload is the body; up to the threshold it is a zero and the body; above it, the body's length and its compression. |
| Framing.FrameShape | proto/packet.go:76-85 | A frame is the length of its payload and the payload. |
| Framing.FrameRoundTrip | proto/packet.go:31-124 | A frame with its length prefix decodes to the packet, whatever follows it. |
| PacketStream.ChunkingIndependence | proto/stream.go:59-126 | For any packets in one mode and any split into non-empty reads, successive reads return exactly those packets in order, and leave exactly what follows, if and only if every length prefix is buffered whole once two bytes are. |
| PacketStream.SmallPacketsAlwaysReadBack | proto/stream.go:59-126 | Payloads under 16384 bytes come back under every chunking. |
| PacketStream.SplitLengthFails | proto/stream.go:72-86 | A three-byte length split after its second byte is reported as malformed. |
| ReadSizes.ChunkingBySizes | proto/stream.go:59-126 | For all frames within the limits, the packets come back in order if and only if adding up the sizes of pieces, reads and frames finds every prefix whole once two bytes have arrived. |
| ReadSizes.ChunkingByReadEnds | proto/stream.go:59-126 | For frames that leave room for a whole read, that is: no read, as the sizes of the pieces fix them, ends two bytes into a three-byte length prefix. |
| ReadSizes.PrefixesArriveBySizes | proto/stream.go:72-106 | Every length prefix arrives whole if and only if the sizes suffice. |
| ReadSizes.FillIsAhead | proto/stream.go:160-178 | How far reading ahead gets depends on sizes alone. |
| ReadSizes.OnePieceCanFail | proto/stream.go:160-178 | Two well-formed frames sent in one piece: the second is lost if the 8 KiB read ends two bytes into its prefix. |
| ReadSizes.FillEnds | proto/stream.go:160-178 | Reading ahead stops at the first end of a read that is far enough. |
| PacketStream.ReadFrame | proto/stream.go:59-126 | One read returns the next frame if its prefix has arrived, and otherwise fails without consuming anything. |
| PacketStream.ReadConserves | proto/stream.go:59-126 | On every call returned bytes plus the new source equal the old source, what was buffered is returned or still buffered in order, nothing is consumed without a packet, the buffer bound is kept, and the limit error occurs exactly for a buffer already over the limit. |
| PacketStream.BufferedFrameExactly | proto/stream.go:108-125 | A buffered frame is refused exactly if its advertised length is missing, negative or over 1 MiB under compression, or it does not decode; otherwise it is returned and cut off. |
| PacketStream.BadLengthIsRefused | proto/stream.go:81-97 | A negative length is malformed and one over 1 MiB too large, before anything is read for it. |
| PacketStream.EndingsExactly | proto/stream.go:72-79 | Closed at the end or on a reset, stalled on an empty read, broken otherwise. |
| PacketStream.ReadTakesExactly | proto/stream.go:160-178 | One read takes 8 KiB at most, and less near the limit of 1 MiB and five. |
| PacketStream.FillConserves | proto/stream.go:160-178 | Reading ahead moves bytes into the buffer and changes nothing else. |
| PacketStream.AfterFill | proto/stream.go:72-106 | Filling to an accepted length never meets the buffer limit and never passes it. |
| PacketStream.AdvertisedIsAllowed | proto/stream.go:108-113 | A packet within the limits is not refused for its advertised uncompressed length. |
| PacketStream.PacketReader.ReadMore | proto/stream.go:160-178 | The method agrees with the specified read, including its four errors. |
| PacketStream.PacketReader.Fill | proto/stream.go:72-106 | The loop agrees with the specified fill. |
| PacketStream.PacketReader.ReadPacket | proto/stream.go:59-126 | The method agrees with the specified read of a packet and leaves the specified buffer. |
| Handoff.ClientHandoffExact | status.go:54-171 | Held bytes followed by unread socket bytes are exactly what the client sent, if and only if its first two packets are a login handshake and a login start. |
| Handoff.LoginIsServed | status.go:54-171 | A client that sends a login handshake and a login start is handed over exactly if there is no lockout, its address is not banned and its name, if readable, is whitelisted, with every byte it sent; otherwise it is kicked for the first reason that applies. |
| Handoff.RefusedIsNeverOccupied | status.go:109-139 | During a lockout or for a banned address no stream whatsoever gets a client to a join method. |
| Handoff.StatusIsServed | status.go:83-106 | A status client is written exactly the status for each request and its own frame for each ping, in order, until a write fails, and is then disconnected. |
| Handoff.HandshakeIsServed | status.go:54-81 | State 1 leads to the status conversation, 2 to the login, 0 to another handshake, and anything else ends the connection. |
| Handoff.OtherPacketsAreSkipped | status.go:174-178 | A packet that the state has no use for is passed over. |
| Handoff.LoginHandoff | status.go:157-171 | In the login state the queue from login start on followed by the unread bytes is the stream; any other packet before it loses bytes. |
| Handoff.StatusNeverLogsIn | status.go:54-107 | A client in the status state is never handed to a join method. |
| Handoff.Serve | status.go:25-184 | The loop over the client's packets ends as specified. |
| Handoff.JoinWaitRemovesOneFrame | probe.go:328-372 | After the wait the buffer is the backend's bytes in order with one frame missing, and that frame is a JoinGame packet of the protocol and decodes to the data returned. |
| Handoff.JoinWaitExactly | probe.go:328-372 | The first JoinGame packet after others ends the wait with its data and all other bytes kept in order, exactly if the packets before it fit the buffer and it decodes. |
| Handoff.WaitForJoinGame | probe.go:328-372 | The loop returns the specified data and leaves the specified buffer, fails, or panics with the decoder. |
| Nbt.TagBack | nbt/nbt.go:234-272 | Every well-formed tag, at any nesting of lists and compounds, reads back in front of any bytes and leaves exactly those. |
| Nbt.EntriesBack | nbt/nbt.go:225-232 | The entries of a compound read back with the same names in the same order. |
| Nbt.ItemsBack | nbt/read.go:107-230 | The items of a homogeneous list read back. |
| Nbt.RootBack | nbt/nbt.go:218-222 | A written root compound reads back equal, with exactly the trailing bytes left. |
| Nbt.StringReadsBackExactly | nbt/read.go:77-85 | A string reads back if and only if it has at most 32767 bytes. |
| NbtExact.TagReadsBackExactly | nbt/read.go:107-230 | Any tag, at any depth, reads back from its bytes if and only if it is well formed. |
| NbtExact.RootReadsBackExactly | nbt/read.go:89-105 | A root compound reads back, in front of any bytes, if and only if it is well formed. |
| NbtExact.ReadGivesWellFormed | nbt/read.go:107-230 | Whatever the reader returns is well formed and of the type that was asked for. |
| NbtExact.ReadWriteRead | nbt/nbt.go:218-222 | Whatever was read once reads back when it is written again. |
| NbtExact.InsertKeepsWellFormed | nbt/nbt.go:122-127 | Inserting a well-formed entry keeps names distinct and entries well formed. |
| NbtExact.NameCrashesExactly | nbt/read.go:77-85 | Reading a string panics exactly if its length is complete and starts with a byte of 0x80 or more. |
| NbtExact.ThreeBytesPanic | nbt/read.go:89-105 | The root read of 0A 80 00 panics. |
| NbtExact.TagCrashesExactly | nbt/read.go:107-230 | Reading a tag panics exactly if a string or byte-array length on the way is negative. |
| NbtExact.RootCrashesExactly | nbt/read.go:89-105 | The same for a root compound, its name included. |
| NbtExact.RootIsSafe | nbt/read.go:89-105 | Input without a byte of 0x80 or more never makes the reader panic. |
| NbtSize.ItemsWithinBytesExactly | nbt/read.go:161-178 | A list that was read has no more items than the bytes they took if and only if its element type is not End or its count is not positive. |
| NbtSize.TwelveBytesMakeAHugeList | nbt/read.go:161-178 | A root compound of twelve bytes, all below 0x80, reads as a list of 0x7F7F7F7F End items. |
| NbtSize.OneTagPerByte | nbt/read.go:107-230 | Whatever the input, the reader returns at most one tag for each byte it took, End items apart. |
| NbtSize.RootWithinBytes | nbt/read.go:89-105 | The same for a root compound. |
| LobbyWorld.JoinGameCrashesExactly | proto/packets/play/join_game.go:109-329 | Decoding a backend's JoinGame packet panics exactly if such a length in its codec, or in the dimension of the older layout, is negative. |
| LobbyWorld.ElevenBytesPanic | proto/packets/play/join_game.go:109-213 | Eleven bytes, with no world names and a codec name of negative length, make the decoder panic. |
| LobbyWorld.JoinGameIsSafe | proto/packets/play/join_game.go:109-329 | A packet without a byte of 0x80 or more never makes the decoder panic. |
| LobbyWorld.DecodedIsWellFormed | proto/packets/play/join_game.go:31-40 | Every codec and dimension decoded from a backend meets the hypothesis of the JoinGame round trip. |
| LobbyWorld.LobbyDimensionIsWellFormed | mc/dimension.go:22-51 | The lobby dimension made from a well-formed codec is well formed. |
| LobbyWorld.LobbyPacketCarriesProbe | lobby.go:385-439 | Whatever packet the probe decoded under the configured protocol, and without one, a client of any protocol that decodes the lobby's packet gets the backend's codec, hardcore flag, view distance and world flags, and the lobby dimension made from that codec. |
| Nbt.NbtWriter.WriteTag | nbt/nbt.go:234-272 | The recursive writer appends exactly the specified bytes. |
| Nbt.NbtWriter.WriteEntries | nbt/nbt.go:225-232 | The loop over the names appends the entries and the end marker. |
| Nbt.NbtWriter.WriteRoot | nbt/nbt.go:218-222 | Appends root type, empty name and contents. |
| Nbt.NbtReader.TakeName | nbt/read.go:77-85 | Agrees with the specified string read, including the negative length that panics. |
| Nbt.NbtReader.Take | nbt/read.go:107-230 | The recursive reader agrees with the specified one on result and position. |
| Nbt.NbtReader.TakeEntries | nbt/read.go:107-230 | The compound loop inserts what it reads, as specified. |
| Nbt.NbtReader.TakeItems | nbt/read.go:107-230 | The list loop appends what it reads, as specified. |
| Nbt.NbtReader.TakeRoot | nbt/read.go:89-105 | Agrees with the specified root read. |
| JoinGame.JoinGameRoundTrip | proto/packets/play/join_game.go:359-425 | For every protocol version and all parameters with well-formed codecs, decoding the lobby payload recovers every field, with the simulation-distance fallback, and leaves nothing over; the emitted ID is the only one recognised for that version. |
| JoinLayouts.OldReadsBack | proto/packets/play/join_game.go:109-213 | Any backend's packet in the older layout, with any names, codec, dimension, seed and flags, decodes to its fields. |
| JoinLayouts.NewReadsBack | proto/packets/play/join_game.go:228-329 | Any backend's packet in the 1.20.1 layout decodes to its fields, with or without a last death. |
| JoinLayouts.LobbyLayout | proto/packets/play/join_game.go:359-414 | The lobby's packet is entity 0, spectator, the three worlds, lazymc:lobby with seed 0, the given distances and flags, and no last death, in the layout of the version. |
| JoinLayouts.PacketIds | proto/packets/play/join_game.go:417-425 | The ID is 0x28 for 763, 0x24 below 755 and 0x26 otherwise, for writing and for recognising. |
| JoinLayouts.FlagLayout | proto/packets/play/join_game.go:378-381 | The four flags are written in their order. |
| JoinGame.OldBack | proto/packets/play/join_game.go:109-213 | The layout before 1.20.1 decodes to every encoded field. |
| JoinGame.NewBack | proto/packets/play/join_game.go:228-329 | The 1.20.1 layout decodes to every encoded field. |
| JoinGame.HeadBack | proto/packets/play/join_game.go:359-384 | The shared head, with world names and the embedded codec, reads back in front of any bytes. |
| JoinGame.JoinGameDecoder.TakeOld | proto/packets/play/join_game.go:109-213 | The cursor decoder agrees with the specified decoding. |
| JoinGame.JoinGameDecoder.TakeNew | proto/packets/play/join_game.go:228-329 | The cursor decoder agrees with the specified decoding, including its optional trailer. |
| Compounds.Compound.Insert | nbt/nbt.go:122-127 | Names stay distinct and equal to the map's keys; an existing name keeps its place with the new value, a new one goes last. |
| Compounds.Compound.Clone | nbt/nbt.go:165-174 | An equal compound with the same name order, made of new compounds and arrays at every depth. |
| Compounds.CloneNode | nbt/nbt.go:176-200 | The copy of any tag has the same value and shares no compound and no array with the original. |
| Compounds.ListingInsert | nbt/nbt.go:122-127 | Updating map and name list is inserting into the ordered entries. |
| Dimension.LobbyDimensionShape | mc/dimension.go:22-51 | The lobby dimension of any codec with dimension types carries every lobby property, keeps the order of its base and agrees with it on all other names. |
| Dimension.LobbyProperties | mc/dimension.go:35-48 | The lobby's fourteen properties, one by one. |
| Dimension.BaseExactly | mc/dimension.go:67-86 | The base is the element of the first usable dimension of the most preferred name there is, the End before the Nether before the Overworld; without any, that of the first dimension; without that, the default. |
| Dimension.SourceExactly | mc/dimension.go:22-33 | Where the list of dimensions is found, and that the default serves without one. |
| Dimension.OverridesTakeEffect | mc/dimension.go:35-49 | Overrides with distinct names all take effect, other entries are unchanged, existing names keep their order in front. |
| Dimension.FirstNamedIsFirst | mc/dimension.go:68-75 | The search for a name finds the element of the first item that has the name and an element, and fails exactly if there is none. |
| Dimension.MostPreferredWins | mc/dimension.go:55-76 | The base comes from the most preferred name that can be found. |
| Dimension.GetCompound | nbt/nbt.go:82-91 | Finds a compound-valued child exactly if there is one. |
| Dimension.ChooseBase | mc/dimension.go:55-86 | The base is the specified one: the first preferred name with an element, else the first dimension, else the default; it shares nothing with the codec. |
| Dimension.BuildLobbyDimension | mc/dimension.go:22-51 | The result is the specified dimension and the caller's codec is unchanged at every depth. |
| Cfb8.ChunkedInversion | online_auth.go:280-336 | For any block function and equal IVs, any split into writes and any split into reads give the plaintext back and equal registers. |
| Cfb8.EncryptIsCfb8 | online_auth.go:320-336 | Encryption meets the definition of CFB with s = 8: each ciphertext byte is the plaintext byte mixed with the cipher of the last block of IV and ciphertext. |
| Cfb8.Inversion | online_auth.go:320-336 | Decryption undoes encryption and leaves both registers equal. |
| Cfb8.ApplyConcat | online_auth.go:320-336 | Processing a then b equals processing a + b. |
| Cfb8.PiecesAreOneCall | online_auth.go:320-336 | Any number of calls equals one call on the concatenation. |
| Cfb8.Stream.constructor | online_auth.go:316-318 | The register starts as a copy of the IV. |
| Cfb8.Stream.MixByte | online_auth.go:322-334 | One byte: mixed output, register shifted by the ciphertext byte. |
| Cfb8.Stream.XorKeyStream | online_auth.go:320-336 | Output and register are those of the specification, also in place, and bytes beyond the input are untouched. |
| Cfb8.ReadEncrypted | online_auth.go:280-288 | Exactly the received bytes are decrypted in place. |
| Cfb8.WriteEncrypted | online_auth.go:290-307 | A write that succeeds puts exactly the ciphertext on the wire, one that fails a prefix of it, and reports how much; it succeeds exactly if the connection accepts all bytes; the caller's buffer is untouched. |
| Cfb8.AcceptsExactly | online_auth.go:296-305 | All bytes are accepted exactly if some run of writes, none failing or taking nothing, takes them. |
| HelperSlots.SingleFlight | server.go:156-184 | Over every interleaving of begin, PID store and both halves of finish: unfinished helpers are one, it owns the current generation, and once all have finished the PID is 0 and the slot free. |
| HelperSlots.RunningPidIsOnRecord | server.go:386-389 | While a helper with a stored PID runs, that PID is the one on record, under its generation. |
| HelperSlots.PhasesAdvance | server.go:156-184 | Each helper goes from launched to stored to clearing to finished by its own actions alone, and each of them takes effect. |
| HelperSlots.RepeatedFinishIsHarmless | server.go:169-184 | A stale or repeated finish changes no slot and clears no newer helper's PID. |
| HelperSlots.PidOutlivesOthers | server.go:386-410 | A stored PID changes only by its own helper's clearing, or by the next helper's store while it waits to be cleared. |
| HelperSlots.RunKeepsInv | server.go:156-184 | The slot, PID and stray-finish invariants hold in every reachable state. |
| HelperSlots.HoldsAfter | server.go:156-184 | Only a launch gives a helper the slot and only its own release takes it away. |
| HelperSlots.ServerHelper.BeginControllerHelper | server.go:156-165 | Launches with a new generation exactly if the slot is free. |
| HelperSlots.ServerHelper.RememberPid | server.go:386-389 | Stores PID and generation. |
| HelperSlots.ServerHelper.FinishControllerHelper | server.go:169-184 | Both halves in a row: only a matching generation releases the slot, only its own PID is cleared. |
| StateWatch.LostStateExactly | server.go:195-251 | Over every interleaving, once settled each subscriber found by the last broadcast holds its value and later ones the current state, so no state is lost exactly if that broadcast carried the current state or found nobody. |
| StateWatch.NoLostState | server.go:195-251 | With broadcasts in the order of their transitions (one transition in flight is a special case) and arbitrary subscribes and receives, each subscriber's last delivered or pending value is the current state. |
| StateWatch.SendsAlwaysLand | server.go:205-223 | The broadcaster's second send and a subscriber's first send always find room. |
| StateWatch.BroadcastEnds | server.go:205-223 | A broadcast ends after three operations of its own for each subscriber and one more, whatever the receivers do meanwhile. |
| StateWatch.OverlapLosesState | server.go:245-251 | Two overlapping transitions can leave a subscriber with Starting while the server has started. |
| StateWatch.HeldClientIsReleased | join_hold.go:37-65 | A waiter without a verdict has Started pending once the server has settled in Started, and its next receive releases it. |
| StateWatch.RunKeepsInv | server.go:195-251 | What each subscriber must hold, lock by lock, holds in every reachable state. |
| StateWatch.WaitForServer | join_hold.go:32-81 | The waiter skips Starting and decides on the first other state delivered; a client whose wait ends without one is not let through. |
| StateWatch.StateBroadcaster.Subscribe | server.go:195-202 | The new channel holds the current state; nothing else changes. |
| StateWatch.StateBroadcaster.Broadcast | server.go:205-223 | Every subscriber ends with the new state pending. |
| Lifecycle.ControllerManagedSafety | server.go:291-354 | From the initial state no sequence of events sends a signal, chooses sleep or reaches Stopping in a controller-managed configuration, and every transition is a wake, an answered or unanswered poll, or an expiry. |
| Lifecycle.ManagedRun | monitor.go:35-76 | The same from any state that satisfies it. |
| LifecycleLaws.AnsweringServerIsSafe | server.go:291-311 | Once a server has replied and as long as nothing stops it, it is neither killed nor expired. |
| LifecycleLaws.UnansweredStartEnds | monitor.go:63-75 | A start that nobody answers ends at the first check at or after its timeout: the process is killed, or a managed start expires. |
| LifecycleLaws.StartedStays | server.go:234-288 | A started server stays so, without signal or transition, until something stops it or it is put to sleep. |
| LifecycleLaws.RunChains | server.go:234-288 | Over every run the transitions follow one another, none leads to where it came from, and the last led to the current state. |
| LifecycleLaws.UpdateChains | server.go:234-288 | A transition happens exactly from the required state, if one is required, and to another state. |
| LifecycleLaws.PollExactly | server.go:291-311 | A reply starts any server that is not stopping and ends its deadline; a missing one stops a started server; a ping changes nothing. |
| LifecycleLaws.BedtimeExactly | server.go:501-541 | Sleep is chosen exactly for an unmanaged, started, empty server past its minimum online time and idle for long enough. |
| LifecycleLaws.DeadlineExactly | monitor.go:63-75 | At a deadline and only then a known process is killed or a managed start expires. |
| LifecycleLaws.StartExactly | server.go:316-354 | A start is begun exactly from Stopped, with its deadline and, where configured, an unfreeze signal. |
| LifecycleLaws.StopExactly | server.go:454-477 | What stopping does: freeze, else RCON, else signal. |
| LifecycleLaws.UnfreezeExactly | server.go:799-824 | A known, unmanaged process is signalled, and a stopping or stopped server starts. |
| LifecycleLaws.ProcessEndExactly | server.go:427-440 | The end of the process stops an unmanaged server, and a crash starts it again where configured. |
| LifecycleLaws.ReportsExactly | server.go:316-558 | What start, stop, kill and expiry report. |
| LifecycleLaws.BookkeepingExactly | server.go:570-579 | A seeded status counts only while there is none. |
| LifecycleLaws.NewServerIsIdle | server.go:139-150 | A new server is stopped and due for nothing. |
| Lifecycle.SleepAndKillTiming | server.go:254-310 | Over every run with monotone time: the kill deadline is set exactly in Starting and Stopping with a non-zero timeout and is entry plus timeout, no kill is sent and no start expires earlier, and sleep is chosen only when started, empty, past the minimum online time and idle for SleepAfter since entry and since players were seen. |
| Lifecycle.TimingRun | server.go:501-548 | The invariant behind it, for every run from every state that satisfies it. |
| Lifecycle.BedtimeJustified | server.go:501-541 | A sleep decision is justified by entry time and last status. |
| Lifecycle.DeadlineJustified | server.go:544-558 | A kill or expiry happens only at a deadline of the current state: entry plus its timeout, or later. |
| Lifecycle.UpdateKeepsTime | server.go:234-288 | Every transition leaves the deadlines of the state it enters. |
| Lifecycle.ServerState.UpdateStateFrom | server.go:234-288 | The method makes the specified transition and reports whether it did. |
| Lifecycle.ServerState.KeepOnlineFor | server.go:591-602 | Sets or clears the time until which the server stays online. |
| Lifecycle.ServerState.UpdateStatus | server.go:291-311 | State, last activity and last status change as specified, for a reply and for none. |
| Lifecycle.ServerState.Start | server.go:316-354 | Moves only from Stopped, and unfreezes where configured. |
| Lifecycle.ServerState.Stop | server.go:454-477 | Freeze, RCON and signal in that order, and nothing for a controller-managed server. |
| Lifecycle.ServerState.ForceKill | server.go:480-496 | Signals only a known process that is not controller-managed. |
| Lifecycle.ServerState.ShouldSleep | server.go:501-541 | The decision agrees with the specified condition. |
| Lifecycle.ServerState.ShouldKill | server.go:544-548 | True exactly from the deadline on. |
| Lifecycle.ServerState.ExpireControllerManagedTransition | server.go:552-558 | Fails a timed-out start closed, without a signal. |
| Lifecycle.ServerState.UnfreezeServerSignal | server.go:799-824 | Signal and transitions as specified. |
| Lifecycle.ServerState.FreezeServerSignal | server.go:776-796 | Signal and transitions as specified. |
| Lifecycle.ServerState.StopServerSignal | server.go:752-773 | Transitions only if the signal was delivered. |
| Lifecycle.ServerState.MonitorTick | monitor.go:35-76 | A tick is a poll, a bedtime check and a deadline check in a row. |
| ServerProperties.ReadAfterWrite | mc/server_properties.go:69-162 | For well-formed changes and any append order, every changed property reads back as its trimmed new value, under any spelling, and every other property reads as before. |
| ServerProperties.SecondRewriteChangesNothing | mc/server_properties.go:69-134 | A second rewrite reports no change, appends nothing and keeps every line. |
| ServerProperties.LinesSurvive | mc/server_properties.go:93-123 | Every line survives in its place, except that the first line of each changed property with another value gets the new one under its own spelling; the flag says whether there was one. |
| ServerProperties.CommentsSurvive | mc/server_properties.go:97-108 | Comments, blank lines and lines without '=' survive every rewrite. |
| ServerProperties.RemainingExactly | mc/server_properties.go:113-120 | What is left to append are exactly the changes that no line sets. |
| ServerProperties.LinesAfterRewrite | mc/server_properties.go:125-131 | The lines of the rewritten file are the rewritten lines and then the missing properties, up to one carriage return at the very end. |
| ServerProperties.CommentByKey | mc/server_properties.go:97-110 | A line with a key is skipped as a comment exactly if its key starts with '#'. |
| ServerProperties.SpacesExactly | mc/server_properties.go:95-110 | What is trimmed is the white space of Unicode. |
| ServerProperties.ReadsWhatMatches | mc/server_properties.go:149-159 | For a well-formed change, the reader looks at exactly the lines that the rewriter matches. |
| ServerProperties.ContentLines | mc/server_properties.go:84-92 | The loop gives the non-empty lines without their carriage return. |
| ServerProperties.RewriteLine | mc/server_properties.go:95-122 | One line, branch by branch, with the change it uses up. |
| ServerProperties.AppendMissing | mc/server_properties.go:127-131 | Appends every remaining change once, in some order. |
| ServerProperties.RewriteContents | mc/server_properties.go:69-134 | The method gives the specified contents and flag for some append order. |
| ServerProperties.ReadServerProperties | mc/server_properties.go:149-159 | The loop returns the specified value. |

## Left out

- Sockets, dialing, read and write deadlines, goroutine timeouts and process spawning are parameters. A read never brings data and an error in the same call.
- zlib is a pair of functions with `decompress(compress(x), |x|) == x`, and the block cipher any function on blocks; RSA, SHA-1, HMAC, HTTP, TOML and JSON do not occur.
- The legacy FML2 replay of raw payloads and its synthesized answers: the answer is a packet given from outside, and the compression properties are about FML3 and servers without Forge.
- LobbyLogin.LobbyClient.AskForEncryption: key exchange and session lookup are results given from outside.
- BackendLogin.BackendConnection.HandlePluginRequest: the signed velocity profile and the synthesized FML2 answer are given from outside.
- ReadSizes.ChunkingByReadEnds: covers frames up to 8 KiB below the buffer limit, because nearer to it a read is shortened by what is already buffered; `ReadSizes.ChunkingBySizes` covers all.
- Lifecycle.ServerState.Start: launching the process or helper is a later event.
- Lifecycle.ServerState.Stop: the RCON lock and its cooldown are part of what the outside answers.
- A backend login without a server state (a nil `server`) is one with an empty cache.
- LobbyLogin.CompressionAgreement: the threshold is any non-negative number, where the source has the constant 256.
- VarInt.DecodeGroups: shifts and ors on disjoint bits are written as sums of multiples, truncated to 32 bits.
- PacketStream.PacketReader.ReadPacket: the check that an accepted frame fits the buffer limit is not modelled, because no accepted length can fail it.
- LoginPackets.PacketCursor.TakeInt: the three identical cursor decoders are one class.
- Handoff.Serve: the text of a kick and the waking of the server are not part of what it returns.
- Memory is unbounded: what a list of End with a huge count does to the process is not modelled, only how large it gets.
- Nbt.TagBack: floats are bit patterns, so the conversion of signalling NaNs is not modelled. A tag always has the fields of its type, and recursion depth is unbounded.
- Dimension.BuildLobbyDimension: the embedded default dimension is a parameter, and the fixed list of insertions is a loop over that list. SNBT parsing is not part of this model.
- JoinGame.JoinGameRoundTrip: the encoder is a function rather than a writer object.
- Lifecycle.ServerState.UpdateStateFrom: a transition and the deadlines it sets are one atomic step, where the source releases its lock in between.
- HelperSlots.SingleFlight: covers the controller-managed configuration, in which every launched process has a generation.
- StateWatch.StateBroadcaster.Broadcast: the class has nobody receiving meanwhile; the interleavings are in the step model.
- ServerProperties.RewriteContents: text is a sequence of characters, so invalid UTF-8 is not modelled, and case folding is any function on characters that keeps '#'. File access is not part of this model.
- Status JSON, kicks, favicons, bans, whitelists, PROXY v2 headers, RCON framing, offline UUIDs, title, sound and keep-alive packets, configuration and the command line would only add easy members.
