# FrameMC in Dafny

FrameMC is a reverse proxy for Minecraft servers. A client connects once; the proxy relays its packets
to a backend server, and during play it can move the client to another backend, by command or because
the backend failed, without the client reconnecting. To do that it frames and compresses packets on
each side at different thresholds, encrypts the client side, rewrites some backend packets byte by byte,
and shadows what the client displays so that it can clear the screen before a transfer.

This project models those parts and proves what they promise, layer by layer:

| file | layer |
|---|---|
| `Wire.dfy`, `VarInt.dfy`, `Fields.dfy` | bytes, cursors, UTF-8, VarInts (LEB128), length-prefixed fields |
| `Codec.dfy` | frames with optional compression, read back from a byte source |
| `Cfb8.dfy`, `EncryptedStream.dfy` | the cipher mode and the stream that buffers ciphertext under backpressure |
| `RootIndex.dfy`, `CommandTree.dfy`, `CommandInjection.dfy` | grafting proxy commands into a declared command tree |
| `Respawn.dfy` | cutting the spawn record out of Login (Play) |
| `Login.dfy`, `Registry.dfy`, `Digest.dfy` | LoginSuccess and Velocity payloads, the registry cache, the server hash |
| `PluginChannel.dfy`, `ConfigPhase.dfy`, `ConfigBridge.dfy` | the Configuration phase of a new connection |
| `Display.dfy`, `Routing.dfy` | the Play phase as functions: what is displayed, and every step of a session |
| `Transfers.dfy`, `Sessions.dfy`, `Runs.dfy`, `SessionTheorems.dfy` | what every step keeps, hence every run |
| `Translations.dfy` | what a backend packet becomes, said of the bytes the client reads |
| `Turns.dfy` | what every turn comes to: whether the session goes on, where it is, what the proxy says |
| `Relaying.dfy` | what passes between client and backends, in order |
| `Counterexamples.dfy` | runs on which a promise fails, and the exact conditions |
| `PlayStateMachine.dfy` | the state machine as an object, each method proved equal to its function |
| `ClientStream.dfy` | a session written to its client through the encrypting stream |

Conventions. A reader takes a buffer and a position and returns a value and the next position. Strings are
byte sequences together with UTF-8 validity, since lengths on the wire count bytes. Casts such as
`len as i32` are written out (`AsI32`). The block cipher, zlib, the hyphenated UUID spelling, the table of
argument-parser layouts, name normalization, the wording of chat messages, the outcome of every write and
the iteration order of hash sets are parameters: functions about which only the stated laws are known.
The loops and mutating methods of the source are methods; each ensures that it computes the corresponding
function, and the laws are lemmas about the functions.

A session is `Run(env, Start(...), events)`: `env` fixes the configuration and how the world answers, and
an event carries a packet together with the script result, completion list or connector answer that the
turn meets. `clientIntact` says that no write to the client has failed so far.

## Model

| member | source | states |
|---|---|---|
| VarInt.VarIntRoundTrip | src/protocol/varint.rs:70-156 | decoding undoes encoding on every i32, at any position and whatever surrounds it |
| VarInt.VarLongRoundTrip | src/protocol/varint.rs:108-169 | the same for every i64 |
| VarInt.SizeIsEncodedLength | src/protocol/varint.rs:146-180 | the encoder writes exactly `varint_size` bytes |
| VarInt.EncodingsArePrefixFree | src/protocol/varint.rs:146-156 | no encoding is a proper prefix of another and no two values share one |
| VarInt.LongEncodingsArePrefixFree | src/protocol/varint.rs:159-169 | the same for VarLongs |
| VarInt.ReencodingNeverGrows | src/protocol/varint.rs:70-156 | an accepted k-byte VarInt re-encodes in at most k bytes, in the same bytes exactly when k = 1 or its last byte is non-zero |
| VarInt.LongReencodingNeverGrows | src/protocol/varint.rs:108-169 | the same for an accepted VarLong of up to ten bytes |
| VarInt.ReadGroups | src/protocol/varint.rs:70-140 | the decoding loop computes the capped LEB128 reading, errors included |
| VarInt.PutGroups | src/protocol/varint.rs:146-169 | the encoding loop appends the LEB128 groups |
| Codec.FrameReadsBackIffItFits | src/network/codec.rs:113-266 | for every packet and every limit, a frame is read back exactly, with what follows it intact, if and only if its lengths survive the cast to 32 bits and meet the limit; lengths that survive but exceed it are refused as too large |
| Codec.StreamRoundTrip | src/network/codec.rs:113-266 | any list of packets within the limits, framed back to back at any threshold, reads back exactly, in order, with nothing left |
| Codec.EncodePacket | src/network/codec.rs:209-266 | the encoder produces the frame of the specification: a length, then id and payload, at a threshold behind data length 0 when they are shorter than it, otherwise deflated behind their size |
| Codec.UncompressedIffBelowThreshold | src/network/codec.rs:227-263 | the data length of a frame is 0 if and only if id and payload together are shorter than the threshold |
| Codec.ReaderAcceptsIff | src/network/codec.rs:139-197 | any frame is accepted if and only if its data length is 0, or lies between threshold and limit and is what the bytes inflate to; the two refusals are told apart |
| Codec.ByteSource.ReadBody | src/network/codec.rs:129-138 | the 64 KiB chunk loop reads exactly the announced bytes, or fails when the source ends |
| Codec.ByteSource.ReadPacket | src/network/codec.rs:113-197 | reading from a source returns the packet of the specification and leaves exactly the bytes behind its frame |
| Cfb8.XorIsBitwise | src/crypto/aes.rs:165-170 | the masking operation is the bitwise exclusive or |
| Cfb8.RegisterIsLastBytes | src/crypto/aes.rs:43-47 | the shift register is always the last bytes of the initial vector followed by the ciphertext |
| Cfb8.EncryptAt | src/crypto/aes.rs:165-170 | each ciphertext byte is its plaintext byte masked with the cipher of the preceding register |
| Cfb8.DecryptUndoesEncrypt | src/crypto/aes.rs:121-170 | decryption from the same register gives the plaintext back |
| Cfb8.EncryptInPieces | src/crypto/aes.rs:165-170 | encrypting chunk by chunk with the register carried along is encrypting at once |
| Cfb8.DecryptInPieces | src/crypto/aes.rs:121-130 | decrypting arbitrary chunks is decrypting at once |
| Cfb8.PrefixDelivered | src/crypto/aes.rs:104-137 | any received prefix of the ciphertext decrypts to exactly the corresponding prefix of the plaintext |
| EncryptedStreams.EncryptedStream.FlushPending | src/crypto/aes.rs:77-102 | draining conserves bytes taken plus bytes still buffered, reports readiness exactly when the buffer is empty, and its result, the answers it uses up and what it leaves are determined by the answers of the inner stream |
| EncryptedStreams.DrainFailsOn | src/crypto/aes.rs:86-96 | draining fails only on an answer that is a failure or takes no byte, and stops right there |
| EncryptedStreams.EncryptedStream.PollWrite | src/crypto/aes.rs:139-189 | what the inner stream took followed by the buffer stays the encryption of everything accepted and the buffer stays within 64 KiB; the result is that of draining, or a whole chunk accepted, and the stream is poisoned exactly by a failure of the direct write |
| EncryptedStreams.EncryptedStream.PollFlush | src/crypto/aes.rs:191-223 | a successful flush means the inner stream took the encryption of everything accepted; once drained, the result is the inner stream's own answer, before that the draining's |
| EncryptedStreams.EncryptedStream.PollRead | src/crypto/aes.rs:104-137 | what arrived is decrypted behind the bytes already in the caller's buffer, continuing the stream |
| EncryptedStreams.EncryptedStream.WriteFrame | src/network/codec.rs:270-279 | an awaited write and flush, through any stalls, leaves exactly the encryption of all that was accepted on the wire, otherwise a beginning of the frame was accepted; it succeeds whenever the inner stream does not fail and is ready once per byte and once for the flush |
| EncryptedStreams.Converse | src/crypto/aes.rs:77-220 | for every schedule of polls and every chunking, what is delivered is a prefix of what was accepted, and all of it after a flush once every wire byte is read |
| Digest.DigestIsCanonicalSignedHex | src/crypto/mojang_auth.rs:37-62 | the digest of any hash parses to its two's-complement value, without leading zeros or a minus zero |
| Digest.CanonicalSpellingIsUnique | src/crypto/mojang_auth.rs:25-31 | no two canonical spellings denote the same number |
| Digest.NegatedValue | src/crypto/mojang_auth.rs:38-48 | inverting and adding one with carry computes 256^n minus the value (zero for zero) |
| Digest.NegateInPlace | src/crypto/mojang_auth.rs:40-48 | the in-place loop negates the array |
| Digest.MojangDigest | src/crypto/mojang_auth.rs:37-62 | the code computes the digest of the specification |
| RootIndex.ScanIsExactIff | src/routing/state_machine.rs:1161-1201 | for every VarInt a reader accepts as root index, padded, negative or out of range included, the backward scan locates it if and only if it is canonical, points to a node, and is 0, or preceded by nothing or by a byte with its high bit clear, or by one whose absorption would leave the index range |
| RootIndex.PickedTailIsCanonical | src/routing/state_machine.rs:1180-1201 | whatever tail the scan picks is in range and re-encodes to the very same bytes |
| RootIndex.SmallTreesAreScannedExactly | src/routing/state_machine.rs:1161-1201 | in a tree of at most 128 nodes the scan locates the root index exactly when it is canonical and points to a node, whatever bytes come before it |
| RootIndex.ScanBackwards | src/routing/state_machine.rs:1167-1196 | the two loops of the scan compute its specification |
| CommandInjection.InjectionGraftsTheTreeIff | src/routing/state_machine.rs:1126-1289 | for every packet a client reads as a tree with nodes and every parser layout table, the client reads the rewritten packet as the grafted tree if and only if node 0 is a plain root, the root index is canonical, points to a node and is unambiguous, and the new counts and lengths fit 32-bit fields |
| CommandInjection.MisreadTree | src/routing/state_machine.rs:1161-1201 | a whole packet of 200 nodes whose rewriting the client does not read as the grafted tree |
| CommandInjection.MisreadPadding | src/routing/state_machine.rs:1168-1171 | a packet of one node, its root index padded to two bytes, whose rewriting the client does not read as the grafted tree |
| CommandInjection.GraftMeaning | src/routing/state_machine.rs:1219-1289 | the grafted tree has N+2+L nodes, nodes 1..N-1 unchanged, root children followed by N, N+2, ..., N+1+L, the same root index, and field by field the new "server" node, its argument and the literals |
| CommandInjection.GraftKeepsChildrenInRange | src/routing/state_machine.rs:1219-1289 | every child index stays in range |
| CommandInjection.LiteralsAreProper | src/routing/state_machine.rs:1203-1215 | injected literals are pairwise distinct, never empty, never "server", start with the built-in ones, include every other configured name and nothing else |
| CommandInjection.NamesSpelled | src/routing/state_machine.rs:1203-1284 | the names that are written spell "server", "name", "minecraft:ask_server", "hub", "lobby" and "steel" |
| CommandInjection.InjectProxyCommands | src/routing/state_machine.rs:1126-1289 | the code computes the specified rewriting, pass-through and error cases included |
| CommandInjection.CutDeclared | src/routing/state_machine.rs:1139-1201 | reading count, root node, children and root index as the code does |
| Respawn.ModernExtractionAgrees | src/routing/state_machine.rs:836-971 | from 766 on the Respawn is the spawn record byte for byte plus the kept flags, and decodes to that record exactly when the dimension name is UTF-8 |
| Respawn.ExtractionCarriesTheLogin | src/routing/state_machine.rs:836-1093 | from 764 on, from every well-formed Login (any names, limits, flags, place of death and trailing fields) the extraction succeeds exactly when it has at most 1024 dimension names, and then decodes to that Login's dimension, seed, game modes and flags with the data kept as requested |
| Respawn.SpawnInfoReads | src/routing/state_machine.rs:901-961 | a written spawn record is read back field by field wherever it lies; strict readers refuse a name that is not UTF-8 |
| Respawn.TrailingLoginFieldsAreIgnored | src/routing/state_machine.rs:836-1087 | from 764 on, fields behind the spawn record do not influence the extraction |
| Respawn.CutLoginYieldsNothing | src/routing/state_machine.rs:836-1087 | from 764 on, a beginning of a Login yields a Respawn exactly when it reaches the end of the spawn record |
| Respawn.LegacyExtractionAgrees | src/routing/state_machine.rs:966-1087 | in 764 and 765 the extracted Respawn decodes to exactly the fields read from the Login |
| Respawn.RespawnRoundTrip | src/routing/state_machine.rs:489-789 | an encoded Respawn decodes to every field its version carries |
| Respawn.ExtractFromLogin | src/routing/state_machine.rs:836-1093 | the code computes the extraction of the specification, with None as an error |
| Login.LoginSuccessDecodes | src/protocol/login.rs:374-647 | for every version, what an encoded packet decodes to, and that any bytes behind it are rejected |
| Login.RoundTripIffModern | src/protocol/login.rs:374-647 | from 707 on the round trip succeeds if and only if the version is at least 759 |
| Login.LoginSuccessLayout | src/protocol/login.rs:374-421 | where UUID, name, property count, properties and session id lie in the packet from 707 on |
| Login.WriteLoginSuccess | src/protocol/login.rs:374-421 | the encoder, property loop included, writes the specified payload |
| Login.ReadLoginSuccess | src/protocol/login.rs:469-647 | the decoder, property loop included, computes the specified result |
| Login.PropertyLayout | src/protocol/login.rs:387-401 | a property is its name, its value, and a flag in front of an optional signature |
| Login.VelocityRoundTrip | src/protocol/forwarding.rs:149-188 | address and profile can be read back from the payload |
| Login.VelocityLayout | src/protocol/forwarding.rs:149-188 | where version 4, address, UUID, name, property count and properties lie in the payload |
| Login.VelocityPayloadIsInjective | src/protocol/forwarding.rs:149-188 | distinct addresses or profiles never share a payload |
| Registry.CacheHoldsLast | src/protocol/configuration.rs:240-273 | after any packet sequence the cache holds exactly the last decodable packet of each id |
| Registry.SerializedOnceInKeyOrder | src/protocol/configuration.rs:343-345 | every cached registry is emitted once and decodes to what was cached, in the only ascending order of the keys |
| Registry.ReplayRebuilds | src/protocol/configuration.rs:343-345 | replaying the serialized cache into an empty one rebuilds an equal cache |
| Registry.RegistryRoundTrip | src/protocol/configuration.rs:58-101 | a registry packet decodes back to its identifier and raw bytes |
| Registry.SessionRegistryCache.CachePacket | src/protocol/configuration.rs:263-273 | the cache step, its result and its error |
| PluginChannel.ProtectedIff | src/protocol/packet.rs:35-53 | a packet is protected if and only if its payload begins with a length and one of the four channel names, each letter in either case |
| ConfigBridge.Bridge | src/network/listener.rs:776-842 | for every interleaving and every way to leave the loop, failures included, each side was sent the other's packets minus protected ones, in order, so none that names a protected channel; the loop leaves for Play at the first turn at which FinishConfiguration was forwarded both ways, and every turn before the last went smoothly; the cache follows the packets |
| Display.ClassesAreDisjoint | src/routing/state_machine.rs:1563-1919 | from protocol 764 on no clientbound id belongs to two of the proxy's packet classes |
| Display.WatchedClassesCollideIff | src/routing/state_machine.rs:1293-1919 | in every version, a tracked class or Login (Play) shares an id with another class exactly at 759 and 760 (StopSound, sounds) and 761 (SystemChat, sounds) |
| Display.SoundsAreUnmistakableIff | src/routing/state_machine.rs:1904-1919 | sound ids stand for sounds alone exactly outside 759 to 761 |
| Display.StopAllSilencesIff | src/routing/state_machine.rs:1563-1583 | the stop-all packet changes nothing but the audio, which it silences at every version except 759 and 760 |
| Display.ReplayMeaning | src/routing/state_machine.rs:2486-2532 | a bar, objective, slot or sound is present after a log exactly when the last packet deciding it showed it |
| Display.BarEffectIs | src/routing/state_machine.rs:2495-2504 | a boss bar packet, spelled out, shows its bar with action 0, removes it with 1 and does nothing otherwise |
| Display.ObjectiveEffectIs | src/routing/state_machine.rs:2506-2519 | the same for objectives |
| Display.SlotEffectIs | src/routing/state_machine.rs:2521-2532 | a display slot packet shows its slot with a name and clears it without |
| Display.RemoveObjectiveRemoves | src/routing/state_machine.rs:1732-1800 | the removal packet decodes as the removal of that objective and nothing else |
| Display.ClearSlotClears | src/routing/state_machine.rs:1817-1882 | the clearing packet decodes as clearing that slot and nothing else |
| Display.RemoveBarRemoves | src/routing/state_machine.rs:1670-1718 | the removal packet decodes as the removal of that boss bar and nothing else |
| Transfers.TeardownLeavesNothing | src/routing/state_machine.rs:2737-2796 | in every version and whatever order the sets are drained in, the teardown packets leave nothing displayed, except sound that was playing at 759 and 760 |
| Transfers.TeardownIsMinimal | src/routing/state_machine.rs:2737-2796 | the teardown sends one packet closing the tracked window, by its number, one stopping active sound, and one for each tracked objective, slot and bar, and no more |
| Transfers.SwitchIsAllOrNothing | src/routing/state_machine.rs:2051-2310 | a switch returns Ok(true) exactly when the target is configured, answers and finishes its configuration, and then installs everything together; on any other outcome only the cache may have changed, and it is what the packets read during the configuration make it |
| Transfers.ConfigureFinishesIff | src/routing/state_machine.rs:2107-2284 | the configuration finishes exactly when the target sends FinishConfiguration before anything fails; replies, acknowledgement and cache are then determined |
| Transfers.PingIsAnsweredIff | src/routing/state_machine.rs:2107-2284 | a 0x05 packet during configuration is answered from 766 on; before, it changes nothing and goes unanswered |
| SessionTheorems.ShadowMirrorsClient | src/routing/state_machine.rs:2486-2532 | in every reachable state of every version, the tracked bars, objectives and slots are what replaying the packets sent to the client yields and tracked audio is audible; outside 759 to 761 the audio flag is exact too |
| Counterexamples.MirrorsInEveryRunIff | src/routing/state_machine.rs:1563-1919 | the whole shadow is exact in every run if and only if the version is none of 759, 760 and 761 |
| Counterexamples.SoundSurvivesTransfer | src/routing/state_machine.rs:1563-1583 | at 759 and 760, a run after which the client plays a sound that is no longer tracked |
| Counterexamples.NoticeMistakenForSound | src/routing/state_machine.rs:1314-1335 | at 761, a run whose chat notice has the id of a sound |
| SessionTheorems.SwitchLeavesNothingDisplayed | src/routing/state_machine.rs:2288-2310 | after a successful switch nothing is tracked and the client displays nothing; at 759 to 761 it may still play a sound |
| SessionTheorems.LoginsAreAccountedFor | src/routing/state_machine.rs:2566-2628 | in every run and version, each later connection that sent a Login had its first one turned into one Respawn made from it, and all other Logins, as received, were sent on |
| SessionTheorems.LaterLoginReachesTheClientIff | src/routing/state_machine.rs:2576-2580 | a Login of a later backend reaches the client exactly when that backend sent more than one |
| Counterexamples.SecondLoginIsRelayed | src/routing/state_machine.rs:2615-2624 | in every version, a run in which a client in mid-session is sent a Login |
| SessionTheorems.OneLoginReachesTheClient | src/routing/state_machine.rs:2566-2628 | with at most one Login per connection the client gets at most one, from the first backend, and each later one becomes exactly one Respawn |
| SessionTheorems.ThresholdsAreDecoupled | src/routing/state_machine.rs:2297-2299 | over any run of any version a client decoder at the initial threshold, and each backend's decoder at its own, recover exactly the packets sent |
| Translations.RespawnStandsForLogin | src/routing/state_machine.rs:2583-2599 | the Respawn made for a Login decodes to that Login's dimension, seed, game modes and flags with data kept 0x03; to a reset into the overworld when the Login has no readable spawn record, and before 764 (with 0x01); from 766 on it is the spawn record byte for byte |
| Translations.InjectedIsGraft | src/routing/state_machine.rs:2630-2656 | the packet sent for a command tree reads as the grafted tree exactly when the tree is graftable, and is the packet itself when there is nothing to rewrite |
| Relaying.ClientReceivesInOrder | src/routing/state_machine.rs:2468-2672 | in every run, what the client was sent on behalf of each connection corresponds one to one and in order to that connection's unprotected packets other than disconnects: the first Login of a later one by a Respawn that stands for it, command trees by their grafts, the rest unchanged |
| Relaying.OrdinaryPacketsReachTheClient | src/routing/state_machine.rs:2660-2672 | packets other than Login, command tree and disconnect reach the client unchanged, all of them and in order |
| Relaying.BackendReceivesInOrder | src/routing/state_machine.rs:2314-2464 | over any run, each connection is sent, in order, exactly the client packets that were neither protected, taken over by the script nor answered here while it was the current one |
| Relaying.FirstBackendReceivesInOrder | src/routing/state_machine.rs:2314-2464 | the first backend is sent these packets and nothing else |
| Relaying.NewBackendIsGreeted | src/routing/state_machine.rs:2107-2310 | a later backend was sent, before them, its configuration replies in order and one acknowledgement, or nothing before 764 |
| Relaying.NothingProtectedCrosses | src/routing/state_machine.rs:2315-2318 | in no run is a packet that names a protected channel, in any mix of cases, passed on to a backend, handled from one, or relayed to the client |
| Turns.InterceptedIff | src/routing/state_machine.rs:2324-2344 | which client packets are commands: by id, and in the chat only behind a slash |
| Turns.TabRequestIff | src/routing/state_machine.rs:2385-2393 | which client packets are completion requests |
| Turns.HandleClientResult | src/routing/state_machine.rs:2314-2464 | a client packet never ends the session: the result is Ok(true) unless a write made in that turn failed |
| Turns.HandleBackendResult | src/routing/state_machine.rs:2534-2672 | a backend packet ends it exactly when it is a disconnect that cannot be made up for, or its write to the client fails |
| Turns.SessionEndsOnlyThen | src/routing/state_machine.rs:2809-2872 | in every run in which writes succeed, a turn ends the session exactly when the client left, shutdown was asked for, or the backend was lost or disconnected and the default server is the current one or unreachable |
| Turns.TurnMoves | src/routing/state_machine.rs:2364-2368 | a turn moves the session exactly when a script reroutes to a reachable server or a lost backend is made up for by the default one, and then to that server, over a new connection, with a clean slate |
| Turns.TurnTells | src/routing/state_machine.rs:2314-2702 | what the client is sent in a turn: the script's message, an answer, notices, what a switch says, then what a backend packet becomes, and nothing else |
| Turns.TurnWindow | src/routing/state_machine.rs:2474-2484 | the tracked window follows the windows backend and client open and close, and a move forgets it |
| Turns.WindowIsTracked | src/routing/state_machine.rs:2474-2484 | a window is tracked by the low byte of the number it was opened with |
| ClientStream.EncryptedSession | src/network/codec.rs:270-279 | with every client write an awaited write and flush on the encrypting stream, which comes with all that the Login and Configuration phases wrote (src/network/listener.rs:404-728), under any partial writes and stalls, the bytes taken decrypt to those earlier bytes followed by frames that read as the packets sent, and these display what is tracked; after a failure they decrypt to a beginning of that; and no write is left undone when the inner stream does not fail and is ready often enough |
| ClientStream.Transmit | src/network/codec.rs:270-279 | behind whatever the stream carried before, the packets are written one by one, each framed at the client's threshold, all of them when the inner stream does not fail and is ready often enough |
| SessionTheorems.FailoverIsBounded | src/routing/state_machine.rs:2676-2702 | in every run and version, failovers number at most one plus the requested switches, a backend is present while the loop runs, and the server stays a configured one |
| PlayStateMachines.PlayStateMachine.TeardownTransferredState | src/routing/state_machine.rs:2737-2796 | the draining loops perform the specified teardown |
| PlayStateMachines.PlayStateMachine.ConfigureTarget | src/routing/state_machine.rs:2107-2284 | the configuration loop computes the specified handshake, updating the session's cache |
| PlayStateMachines.PlayStateMachine.SwitchServer | src/routing/state_machine.rs:2051-2310 | the method is the specified switch, in state and result |
| PlayStateMachines.PlayStateMachine.HandleClientPacket | src/routing/state_machine.rs:2314-2464 | the method is the specified step for a client packet |
| PlayStateMachines.PlayStateMachine.HandleBackendPacket | src/routing/state_machine.rs:2468-2672 | the method is the specified step for a backend packet |
| PlayStateMachines.PlayStateMachine.HandleBackendEof | src/routing/state_machine.rs:2676-2702 | the method is the specified step for a lost backend |
| PlayStateMachines.PlayStateMachine.RunSession | src/routing/state_machine.rs:2799-2880 | the routing loop is the specified run |
| PlayStateMachines.PlaySession | src/network/listener.rs:852-871 | the object that was run mirrors its client, is readable at the client's threshold, and ends on a configured server |

## Where code and documentation differ

- The command injection takes the trailing root index to be recognizable from the end of the packet alone.
  `ScanIsExactIff` and `InjectionGraftsTheTreeIff` give the exact condition. It fails on an index spelled with
  padding (`MisreadPadding`) and on an ambiguous one (`MisreadTree`); the latter needs more than 128 nodes
  (`SmallTreesAreScannedExactly`).
- A Login (Play) is never to reach a client in mid-session; the code drops only the first one of each new
  backend (`LaterLoginReachesTheClientIff`, `SecondLoginIsRelayed`).
- The tracked audio flag is to follow the client; at 759 and 760 StopSound has the id of a sound, and at 761
  SystemChat has one (`MirrorsInEveryRunIff`).
- LoginSuccess is documented as one wire format from protocol 707 on; `LoginSuccessDecodes` shows that the
  reader refuses every packet the writer makes for 707 to 758.
- In protocols before 766 a configuration packet 0x05 is handed to the registry cache, which ignores it, so it
  is not answered (`PingIsAnsweredIff`).

## Left out

- Sockets, timeouts and task scheduling: each packet read is one atomic step, a timeout is a failed read, and nothing is claimed about reads dropped halfway.
- AES rounds, RSA, SHA-1, HMAC-SHA256 and zlib internals: library code behind the stated laws; the bits a VarInt decoder collects are summed instead of or-ed, since the groups do not overlap.
- Stream contents after the direct inner write of an `EncryptedStream` failed, or after a write to the client or a backend failed: modelled as poisoned or not intact, without claims.
- Equality between the client's open window and the tracked container: a serverbound close clears the tracker without comparing ids, so only its clearing by the teardown is claimed.
- Script evaluation, command normalization and the built-in completion list: arbitrary results are fed into the steps; the payload of a completion response is an arbitrary input.
- ClientStream.EncryptedSession: ends at the first write the inner stream does not complete; the code would ignore a failed teardown packet and go on with a broken stream.
- The tables of packet ids: taken from the code as they are; which ids of a version coincide is proved, not which ones the game uses.
- SystemChat, Disconnect, status and BungeeCord payloads: their text and JSON are an arbitrary function, only their packet ids matter here.
- The connector's own Handshake and Login exchange with a backend, LoginStart, encryption requests, plugin request and response packets, SetCompression: short codecs that would add easier round trips.
- `RegistryDataPacket::from_entries` and the lookup helpers of the cache: nothing in the modelled flow uses them.
- `sanitize_screen`, `stop_audio` and `clear_display_objective`: single writes that no modelled flow calls.
