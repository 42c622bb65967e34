# ProjectAce server core in Dafny

This project models the authoritative server of ProjectAce, a small networked flight game. It covers three parts.

- **The binary wire codec** (`AceServer/src/include/Protocol.h`).
  - It appends `u8`, `u16`, `u32`, their signed casts, `f32` bit patterns and length-prefixed strings to a growable byte vector, in network (big-endian) order.
  - It writes the same values at an explicit offset.
  - It reads them back at an advancing offset.
  - It composes them into the four packets: `PlayerInputPacket`, `GameDataPacket`, `PlayerListPacket` and `PlayersPositionPacket`.
  - `BuildPacket` prefixes each packet with its one-byte opcode.
- **The roster and tick logic** (`AceServer/src/AceServer.cpp`).
  - The CONNECT, DISCONNECT/TIMEOUT and RECEIVE branches of the event loop, and `HandleMessage`.
  - `ServerTick`: the adaptive input playout, the physics step and the per-player position packets.
  - The roster packet and the position packet builders.
- **The math helpers.** `Max`, `Min`, `Clamp` and `SmoothLerp` from the server's `utils.hpp`, and the sample server's `Clamp`.

Files:

| file | module | contents |
|---|---|---|
| `wrappers.dfy` | `Wrappers` | `Option` (the source's `std::optional` and its null peer pointers) |
| `wire.dfy` | `Wire` | fixed-width types, network-order layouts, two's-complement casts, offset and appending writers, readers, round trips |
| `protocol.dfy` | `Protocol` | opcodes, packet records, packet layouts, serializers, decoders, packet round trips, `BuildPacket` |
| `server.dfy` | `Server` | players, game data, connect, disconnect, receive, playout, tick, the event loop and its invariants |
| `math.dfy` | `AceMath`, `SampleMath` | the two `utils.hpp` headers |

How the model represents the source:

- **Buffers and offsets.** A byte buffer is a `seq<byte>`. A serializer takes the buffer and returns the new one. The source's `size_t& offset` becomes an argument plus the `next` field of a `Read` result.
- **Floats.** An `f32` is the 32-bit pattern that travels on the wire. The model never treats it as a number.
- **Events and sends.** Events arrive as values of `Server.Event`. Each `enet_peer_send` becomes a `Send(peer, packet)` in the returned list. `enet_packet_create` keeps the bytes and the reliable flag.
- **Physics.** `ComputePhysics` is a function parameter acting on the player's `Body`: its position and whatever other kinematic state the physics keeps.

Some behaviours of the code are easy to miss. The model follows the code in each case.

- **The input index never travels.** `PlayerInputPacket::Serialize` writes only pitch, yaw, roll and throttle, so every decoded input has index 0. As a result, every position packet reports 0 as the last input index (`Server.RunKeepsInputsUnindexed`).
- **The reported velocity is always zero.** The position packet's own-player velocity is never filled in, so it stays the zero vector.
- **Disconnected slots keep ticking.** `ServerTick` plays out the queue and runs the physics for every slot, whether or not it has a peer (`Server.ServerTick`).
- **Opcodes are not validated.** `HandleMessage` acts only on `C_PLAYERINPUT` and silently ignores every other byte, including values that name no opcode. An input message longer than 17 bytes is accepted, and the bytes after the 16 input bytes are ignored (`Server.HandleMessage`).

## Model

| member | source | states |
|---|---|---|
| `Wire.DecU16` | AceServer/src/include/Protocol.h:398-406 | reading two bytes as `ntohs` does gives the number whose network-order layout is exactly those bytes |
| `Wire.DecU32` | AceServer/src/include/Protocol.h:407-415 | reading four bytes as `ntohl` does gives the number whose network-order layout is exactly those bytes |
| `Wire.ReadU16Decodes` | AceServer/src/include/Protocol.h:398-406 | the u16 reader returns `DecU16` of the two bytes at the offset, the value whose network-order layout they are |
| `Wire.ReadU32Decodes` | AceServer/src/include/Protocol.h:407-415 | the u32 reader returns `DecU32` of the four bytes at the offset, the value whose network-order layout they are |
| `Wire.DecEncU32` | AceServer/src/include/Protocol.h:342-348 | decoding the four bytes written for `v` gives back `v`, so the u32 layout is injective |
| `Wire.I8ToU8` | AceServer/src/include/Protocol.h:281 | `static_cast<uint8_t>` gives the byte congruent to the signed value modulo 2^8, that is the value reduced modulo 2^8 |
| `Wire.I16ToU16` | AceServer/src/include/Protocol.h:291 | `static_cast<uint16_t>` gives the u16 congruent to the signed value modulo 2^16 |
| `Wire.I32ToU32` | AceServer/src/include/Protocol.h:301 | `static_cast<uint32_t>` gives the u32 congruent to the signed value modulo 2^32 |
| `Wire.U8ToI8` | AceServer/src/include/Protocol.h:376-380 | the signed reinterpretation of a byte is congruent to it modulo 2^8 and casts back to the same byte |
| `Wire.U16ToI16` | AceServer/src/include/Protocol.h:381-385 | the signed reinterpretation of a u16 is congruent to it modulo 2^16 and casts back to it |
| `Wire.U32ToI32` | AceServer/src/include/Protocol.h:386-390 | the signed reinterpretation of a u32 is congruent to it modulo 2^32 and casts back to it |
| `Wire.SignedCastsRoundTrip` | AceServer/src/include/Protocol.h:278-307 | every i8, i16 and i32 survives the cast to its unsigned width and back |
| `Wire.Grow` | AceServer/src/include/Protocol.h:308-314 | `resize` adds exactly `n` zero bytes and keeps every earlier byte |
| `Wire.Overwrite` | AceServer/src/include/Protocol.h:342-348 | `memcpy` puts the data in the window at `offset` and changes no byte outside it |
| `Wire.SerializeU8At` | AceServer/src/include/Protocol.h:315-320 | with `offset < size`, the byte at `offset` becomes `v` and no other byte changes |
| `Wire.SerializeU16At` | AceServer/src/include/Protocol.h:328-334 | with `offset + 2 <= size`, reading at `offset` gives `v` and the next offset is `offset + 2`; bytes outside the window are unchanged |
| `Wire.SerializeU32At` | AceServer/src/include/Protocol.h:342-348 | with `offset + 4 <= size`, reading at `offset` gives `v` and the next offset is `offset + 4`; bytes outside the window are unchanged |
| `Wire.SerializeF32At` | AceServer/src/include/Protocol.h:271-277 | the float's bit pattern is written like a u32 and reads back unchanged; bytes outside the window are unchanged |
| `Wire.SerializeI8At` | AceServer/src/include/Protocol.h:283-287 | a signed byte written at `offset` reads back as the same signed value; no other byte changes |
| `Wire.SerializeI16At` | AceServer/src/include/Protocol.h:293-297 | an i16 written at `offset` reads back as the same signed value; bytes outside the window are unchanged |
| `Wire.SerializeI32At` | AceServer/src/include/Protocol.h:303-307 | an i32 written at `offset` reads back as the same signed value; bytes outside the window are unchanged |
| `Wire.SerializeStrAt` | AceServer/src/include/Protocol.h:356-365 | the u32 length (reduced modulo 2^32) and then the raw bytes are placed at `offset`; nothing outside those `4 + len` bytes changes |
| `Wire.SerializeU8` | AceServer/src/include/Protocol.h:308-314 | appending a u8 grows the buffer by one byte, which is `v`, and keeps the old bytes as a prefix |
| `Wire.SerializeU16` | AceServer/src/include/Protocol.h:321-327 | appending a u16 adds exactly its two network-order bytes after the unchanged old buffer |
| `Wire.SerializeU32` | AceServer/src/include/Protocol.h:335-341 | appending a u32 adds exactly its four network-order bytes after the unchanged old buffer |
| `Wire.SerializeF32` | AceServer/src/include/Protocol.h:264-270 | appending a float adds its four pattern bytes, most significant first, after the unchanged old buffer |
| `Wire.SerializeI8` | AceServer/src/include/Protocol.h:278-282 | appending an i8 grows the buffer by one, keeps the prefix, and reads back as the same signed value |
| `Wire.SerializeI16` | AceServer/src/include/Protocol.h:288-292 | appending an i16 grows the buffer by two, keeps the prefix, and reads back as the same signed value |
| `Wire.SerializeI32` | AceServer/src/include/Protocol.h:298-302 | appending an i32 grows the buffer by four, keeps the prefix, and reads back as the same signed value |
| `Wire.SerializeStr` | AceServer/src/include/Protocol.h:349-355 | appending a string adds its u32 length and then its raw bytes, with no terminator: `4 + len` bytes in all |
| `Wire.ReadI8` | AceServer/src/include/Protocol.h:376-380 | the signed byte read casts back to the unsigned byte at that offset |
| `Wire.ReadI16` | AceServer/src/include/Protocol.h:381-385 | the i16 read casts back to the u16 at that offset |
| `Wire.ReadI32` | AceServer/src/include/Protocol.h:386-390 | the i32 read casts back to the u32 at that offset |
| `Wire.ReadStr` | AceServer/src/include/Protocol.h:416-424 | the string read has the length the u32 prefix says, consists of the bytes that follow it, and the offset ends just past them |
| `Wire.ReadU8Exact` | AceServer/src/include/Protocol.h:391-397 | where byte `v` lies at `offset`, the read gives `v` and advances by 1 |
| `Wire.ReadU16Exact` | AceServer/src/include/Protocol.h:398-406 | where the network-order layout of `v` lies at `offset`, the read gives `v` and advances by 2 |
| `Wire.ReadU32Exact` | AceServer/src/include/Protocol.h:407-415 | where the network-order layout of `v` lies at `offset`, the read gives `v` and advances by 4 |
| `Wire.ReadStrExact` | AceServer/src/include/Protocol.h:416-424 | where a string's length prefix and bytes lie at `offset`, the read fits in the buffer, gives the string and advances by `4 + len` |
| `Wire.U8RoundTrip` | AceServer/src/include/Protocol.h:391-397 | a u8 appended to any prefix, with anything after it, reads back at the prefix's end and advances by 1 |
| `Wire.U16RoundTrip` | AceServer/src/include/Protocol.h:398-406 | a u16 appended to any prefix, with anything after it, reads back and advances by 2 |
| `Wire.U32RoundTrip` | AceServer/src/include/Protocol.h:407-415 | a u32 appended to any prefix, with anything after it, reads back and advances by 4 |
| `Wire.F32RoundTrip` | AceServer/src/include/Protocol.h:367-375 | a float's bit pattern appended to any prefix reads back unchanged and advances by 4 |
| `Wire.SignedRoundTrip` | AceServer/src/include/Protocol.h:376-390 | i8, i16 and i32 values appended to any prefix read back as the same signed values |
| `Wire.StrRoundTrip` | AceServer/src/include/Protocol.h:349-365 | a string shorter than 2^32 bytes appended to any prefix reads back whole and advances by `4 + len` |
| `Protocol.OpcodeByte` | AceServer/src/include/Protocol.h:30-36 | the opcodes are the bytes 0 to 3 in declaration order, and each byte names its opcode back |
| `Protocol.OpcodeBytesBijective` | AceServer/src/include/Protocol.h:30-36 | a byte names an opcode exactly when it is below 4, and then it is that opcode's byte |
| `Protocol.SerializeVec3` | AceServer/src/include/Protocol.h:217-222 | a vector is appended as x, y, z: its 12-byte layout after the unchanged buffer |
| `Protocol.SerializeInput` | AceServer/src/include/Protocol.h:108-115 | the input packet appends pitch, yaw, roll and throttle and nothing else: 16 bytes |
| `Protocol.SerializeGameData` | AceServer/src/include/Protocol.h:137-141 | the game data packet appends exactly the player index as a u16 |
| `Protocol.SerializeEntries` | AceServer/src/include/Protocol.h:169-172 | the loop over roster entries appends each entry's name, then its u16 index, in order |
| `Protocol.SerializeList` | AceServer/src/include/Protocol.h:165-173 | the roster packet appends the u16 count (reduced modulo 2^16), then every entry |
| `Protocol.SerializePlayerDatas` | AceServer/src/include/Protocol.h:217-222 | each position entry appends its u8 index and its vector, 13 bytes per entry, in order |
| `Protocol.SerializeCurrent` | AceServer/src/include/Protocol.h:224-232 | the presence flag is 1 or 0, followed by position and velocity only when present |
| `Protocol.SerializePosition` | AceServer/src/include/Protocol.h:211-233 | the position packet appends last input index, tick, count, entries and the optional own data: exactly `11 + 13n` bytes, plus 24 when the own data is present |
| `Protocol.SerializePacket` | AceServer/src/include/Protocol.h:426-432 | each packet type appends its own layout |
| `Protocol.BuildPacket` | AceServer/src/include/Protocol.h:426-434 | the built packet is the opcode byte of the packet's type followed by the payload, one byte longer than the payload, with the flag kept |
| `Protocol.UnserializeInput` | AceServer/src/include/Protocol.h:116-126 | the input decoder consumes 16 bytes and never sets the index, which stays 0 |
| `Protocol.ReadEntries` | AceServer/src/include/Protocol.h:180-183 | reading `n` roster entries yields `n` entries and never moves the offset back |
| `Protocol.UnserializeList` | AceServer/src/include/Protocol.h:174-185 | the roster decoder yields as many entries as the u16 count says |
| `Protocol.ReadPlayerDatas` | AceServer/src/include/Protocol.h:243-248 | reading `n` position entries yields `n` entries from exactly `13n` bytes |
| `Protocol.UnserializePosition` | AceServer/src/include/Protocol.h:234-262 | the own data is present exactly when the flag byte is non-zero, the entry count is the u16 count, and the decoder ends 1 or 25 bytes after the flag |
| `Protocol.Vec3RoundTrip` | AceServer/src/include/Protocol.h:219-221 | a vector's layout reads back as the same vector |
| `Protocol.InputAtRoundTrip` | AceServer/src/include/Protocol.h:116-126 | an input packet's layout decodes to the same pitch, yaw, roll and throttle, with index 0, consuming 16 bytes |
| `Protocol.InputRoundTrip` | AceServer/src/include/Protocol.h:108-126 | an input packet appended to any prefix decodes to the same input with index 0 |
| `Protocol.GameDataAtRoundTrip` | AceServer/src/include/Protocol.h:142-149 | a game data layout decodes to the same player index |
| `Protocol.GameDataRoundTrip` | AceServer/src/include/Protocol.h:137-149 | a game data packet appended to any prefix decodes to the same player index |
| `Protocol.EntryRoundTrip` | AceServer/src/include/Protocol.h:180-183 | one roster entry decodes to the same name and index |
| `Protocol.EntriesRoundTrip` | AceServer/src/include/Protocol.h:166-185 | a sequence of roster entries with encodable names fits the buffer and decodes entry for entry |
| `Protocol.ListAtRoundTrip` | AceServer/src/include/Protocol.h:174-185 | a roster layout with at most 65535 entries, each name shorter than 2^32 bytes, decodes to the same roster |
| `Protocol.ListRoundTrip` | AceServer/src/include/Protocol.h:165-185 | a roster packet of at most 65535 entries appended to any prefix decodes to the same names and indices, in order |
| `Protocol.PlayerDatasRoundTrip` | AceServer/src/include/Protocol.h:243-248 | the position entries decode to the same indices and positions |
| `Protocol.CurrentRoundTrip` | AceServer/src/include/Protocol.h:250-259 | the flag byte is non-zero exactly when the own data is present, and then position and velocity decode unchanged |
| `Protocol.PositionSplit` | AceServer/src/include/Protocol.h:239-242 | the header of a position packet decodes to its last input index, tick and entry count |
| `Protocol.PositionAtRoundTrip` | AceServer/src/include/Protocol.h:234-262 | a position packet layout with at most 65535 entries decodes to the same packet |
| `Protocol.PositionRoundTrip` | AceServer/src/include/Protocol.h:211-262 | a position packet appended to any prefix decodes to the same packet, the flag carrying the presence of the own data |
| `Protocol.BuildPacketRoundTrip` | AceServer/src/include/Protocol.h:426-434 | a built packet starts with its type's opcode, and that type's decoder, run from offset 1, consumes the rest and returns the packet (with input index 0) |
| `Server.FindPeer` | AceServer/src/AceServer.cpp:102-105 | the lookup returns the first slot with that peer, or the roster size when there is none |
| `Server.Connected` | AceServer/src/AceServer.cpp:202-203 | the connected players are exactly the players with a peer, drawn from the roster |
| `Server.ConnectedAppend` | AceServer/src/AceServer.cpp:202-207 | keeping the connected players commutes with splitting the roster, so roster order is kept |
| `Server.SendToConnected` | AceServer/src/AceServer.cpp:111-113 | there is one send per connected player, in roster order, to that player's peer |
| `Server.RosterEntries` | AceServer/src/AceServer.cpp:202-207 | the roster lists the connected players, in order, each with its index (as u16) and its name |
| `Server.BuildPlayerListPacket` | AceServer/src/AceServer.cpp:198-209 | the roster packet is reliable and carries the player list opcode |
| `Server.PlayerListPacketDecodes` | AceServer/src/AceServer.cpp:198-209 | a client decoding the roster packet gets exactly the connected players, in roster order, with index and name |
| `Server.Others` | AceServer/src/AceServer.cpp:221-229 | the loop lists at most one entry per connected player; which entries, and in what order, is stated by `Server.OthersMembers` and `Server.OthersAppend` |
| `Server.OthersMembers` | AceServer/src/AceServer.cpp:221-229 | the position entries are exactly the connected players whose index is not the recipient's |
| `Server.OthersAppend` | AceServer/src/AceServer.cpp:221-229 | the position entries keep roster order |
| `Server.RecipientNotListed` | AceServer/src/AceServer.cpp:222-223 | with indices equal to positions, skipping the recipient's index skips exactly its own slot and lists every other connected slot |
| `Server.PositionPacketFor` | AceServer/src/AceServer.cpp:211-229 | the packet copies the tick index and the last input's index, always carries the recipient's position with a zero velocity, and lists the others |
| `Server.BuildPlayerPositionPacket` | AceServer/src/AceServer.cpp:211-231 | the position packet is unreliable and carries the position opcode |
| `Server.PositionPacketDecodes` | AceServer/src/AceServer.cpp:211-231 | the recipient decodes the tick, its last input index, its own position and the other connected players |
| `Server.TakeSlot` | AceServer/src/AceServer.cpp:63-75 | connect takes the first slot without a peer, or appends one whose index is the old size; it sets the peer, clears the name and moves the slot to the start position; other slots are unchanged and a reused slot keeps its queue |
| `Server.OnConnect` | AceServer/src/AceServer.cpp:60-91 | the connecting peer is welcomed first with its slot's index (as u16), reliably; then every connected player, the new one included, gets the new roster |
| `Server.WelcomeCarriesIndex` | AceServer/src/AceServer.cpp:76-83 | the welcome packet goes to the new peer, reliably, and decodes to its slot index |
| `Server.OnDisconnect` | AceServer/src/AceServer.cpp:93-114 | only the first slot of the peer loses its peer; the roster length, every other field and every other slot are unchanged; the remaining connected players get the new roster |
| `Server.HandleMessage` | AceServer/src/AceServer.cpp:182-196 | an input message appends exactly the input decoded from the 16 bytes after the opcode, with index 0, to the end of the queue, whatever follows those bytes, and changes nothing else; any other opcode leaves the player unchanged |
| `Server.HandleInputPacket` | AceServer/src/AceServer.cpp:188-194 | a client's input packet, once handled, queues that input's pitch, yaw, roll and throttle with index 0 |
| `Server.OnReceive` | AceServer/src/AceServer.cpp:116-134 | a received message changes only the first slot of the sending peer, as `HandleMessage` does |
| `Server.PlayoutIncrement` | AceServer/src/AceServer.cpp:153-158 | the increment is `0.75 + 0.05n` for a queue of `n`, positive and below `n` for a non-empty queue |
| `Server.PlayoutIncrementBranches` | AceServer/src/AceServer.cpp:154-158 | the increment is 5% lower per input below 5, 5% higher per input above 5, and 1 at 5, rising with the queue |
| `Server.Drain` | AceServer/src/AceServer.cpp:160-170 | the loop pops from the front, never from an empty queue; the last popped input becomes the last input; the accumulator drops by the pop count and ends in [0, 1) |
| `Server.TickPlayer` | AceServer/src/AceServer.cpp:152-173 | an empty queue leaves accumulator and last input untouched; otherwise the queue loses a prefix and the accumulator gains the increment minus the pops; the physics runs with the last input; identity and peer are unchanged |
| `Server.TwoTicksPop` | AceServer/src/AceServer.cpp:153-170 | within two ticks a non-empty queue loses at least one input |
| `Server.ServerTick` | AceServer/src/AceServer.cpp:147-180 | the u32 tick index goes up by exactly one, wrapping; every slot, connected or not, plays out and moves; then each connected player gets its position packet, in roster order |
| `Server.ConnectKeepsValid` | AceServer/src/AceServer.cpp:67-71 | a connect keeps every slot's index equal to its position, every accumulator in [0, 1) and every name empty, and never shrinks the roster |
| `Server.DisconnectKeepsValid` | AceServer/src/AceServer.cpp:102-108 | a disconnect keeps the roster's length and its invariants |
| `Server.ReceiveKeepsValid` | AceServer/src/AceServer.cpp:120-131 | a received message keeps the roster's length and its invariants |
| `Server.TickKeepsValid` | AceServer/src/AceServer.cpp:152-173 | a tick keeps the roster and its indices and brings every accumulator back into [0, 1) |
| `Server.Step` | AceServer/src/AceServer.cpp:57-141 | every event the source can handle keeps the invariants, and no event removes a slot |
| `Server.TimeoutIsDisconnect` | AceServer/src/AceServer.cpp:93-114 | the TIMEOUT case falls through into DISCONNECT: both events give the same game state and the same sends |
| `Server.Run` | AceServer/src/AceServer.cpp:54-142 | after any sequence of handled events, every slot's index is still its position and every accumulator lies in [0, 1) |
| `Server.StepKeepsInputsUnindexed` | AceServer/src/AceServer.cpp:160-167 | no event puts an input with a non-zero index in a queue or in a last input |
| `Server.RunKeepsInputsUnindexed` | AceServer/src/AceServer.cpp:211-216 | after any sequence of events, every position packet reports 0 as the last input index |
| `Server.InitialInvariants` | AceServer/src/AceServer.cpp:8-12 | the initial game data, tick 0 and no players, satisfies both invariants |
| `AceMath.Max` | AceServer/src/include/math/utils.hpp:8-12 | the result is at least both arguments and is one of them, and it is the first exactly when the second is not larger |
| `AceMath.Min` | AceServer/src/include/math/utils.hpp:15-19 | the result is at most both arguments and is one of them, and it is the first exactly when the first is not larger |
| `AceMath.Clamp` | AceServer/src/include/math/utils.hpp:24-28 | with a non-empty range the result lies in it, and a value already in range is returned unchanged; with an empty range the lower bound wins |
| `AceMath.ClampIdempotent` | AceServer/src/include/math/utils.hpp:24-28 | clamping twice equals clamping once, whatever the bounds |
| `AceMath.SmoothLerp` | AceServer/src/include/math/utils.hpp:36-60 | no speed, a squared distance below 1e-8, or a step of at least 1 gives the target; the result never leaves the interval between current and target |
| `AceMath.StepBetween` | AceServer/src/include/math/utils.hpp:56-59 | a move by a clamped fraction of the distance stays between current and target |
| `AceMath.SmoothLerpProgress` | AceServer/src/include/math/utils.hpp:56-59 | a non-positive step leaves the value where it is; a step strictly between 0 and 1 moves it strictly inside the interval |
| `SampleMath.Clamp` | Samples/NetworkServer/src/math/utils.hpp:8-16 | a value above `max` gives `max`; otherwise a value below `min` gives `min`; otherwise the value itself; with `min <= max` the result lies in range |
| `SampleMath.ClampIdempotent` | Samples/NetworkServer/src/math/utils.hpp:8-16 | with `min <= max`, clamping twice equals clamping once |
| `SampleMath.ClampNotIdempotentOnEmptyRange` | Samples/NetworkServer/src/math/utils.hpp:10-13 | with an empty range clamping twice can differ from clamping once |
| `SampleMath.ClampsAgree` | Samples/NetworkServer/src/math/utils.hpp:8-16 | with a non-empty range the sample's clamp and the server's clamp agree; with an empty range and a value above `max` they differ |

## Left out

- **ENet I/O and timing** (`AceServer.cpp`, the set-up and the busy tick loop of `main`). This covers `enet_initialize`, `enet_host_service`, `enet_time_get`, the `nextTick` schedule and the console logging. Events and ticks are inputs to `Server.Step`; sends are returned values.
- **Definitions outside this model.** `ComputePhysics`, `StartPos` and the server's `Player` struct are not part of this model.
  - Physics is a function parameter that can change only the player's `Body`.
  - `StartPos` is a parameter of connect.
  - The player's fields are taken from their uses. A fresh slot is assumed to be value-initialised: empty name, zero position, empty queue, accumulator 0, zero last input.
- **Width of `Player::Index`.** The width is not shown, so the index is a `nat`. It is reduced explicitly where the packets narrow it: modulo 2^16 in the welcome and roster packets, modulo 2^8 in the position packet.
- **Float arithmetic.** The playout increment and `SmoothLerp` are computed over exact reals. `0.05f` and `1e-8f` are taken as the decimal values they approximate, and rounding is not modelled.
- **Byte order of floats.** `htonf`/`ntohf` are taken as the server build's bit-pattern byte swap. The client build defines both as nothing, which turns them into numeric conversions; that build is not modelled.
- **Out-of-range reads and unknown peers.** The decoders do no bounds checks, and the disconnect and receive branches dereference the peer lookup unchecked. These are preconditions: the `...Fits` predicates, `Server.Readable` and `Server.HasPeer`. `Server.Run` returns `None` when an event would break one of them.
- **Peer identity.** ENet's guarantee that a connected peer is not connected twice is not modelled. Disconnect clears the first matching slot, as the source does.
- **Generic template parameters.** The math helpers are modelled over `real` only. The unused `Epsilon` constants are left out.
- **Client and sample code.** The Unreal client code, the sample geometry library (vectors, quaternions, rays, boxes, spheres, capsules, angles), the sample `main.cpp` and the build scripts are not part of this model.
- `Server.Others`: its contract bounds only the number of entries. The entries are pinned down by `Server.OthersMembers` (exactly the connected players with another index) and `Server.OthersAppend` (roster order). They are kept as separate lemmas so that every proof mentioning a position packet does not carry those quantifiers.
- `Wire.ReadU8`: its contract gives only the next offset; the value read is pinned down by `Wire.ReadU8Exact` and the round-trip lemmas. The same holds for `Wire.ReadU16` and `Wire.ReadU32`.
- `Wire.ReadF32`, `Protocol.ReadVec3`, `Protocol.UnserializeGameData`: their contracts give only the next offset. The values read are pinned down by `Wire.F32RoundTrip`, `Protocol.Vec3RoundTrip` and `Protocol.GameDataAtRoundTrip`.
