/** The four packet types of the game protocol, their byte layouts, and
    `BuildPacket`, which prefixes a packet's payload with its one-byte
    opcode. */
module Protocol {

  import opened Wire
  import opened Wrappers

  // ---------------------------------------------------------------------
  // Opcodes

  /** `C_PLAYERINPUT`, `S_GAMEDATA`, `S_PLAYERLIST`, `S_PLAYERPOSITION`. */
  datatype Opcode = ClientPlayerInput | ServerGameData | ServerPlayerList | ServerPlayerPosition

  /** The enumerators take the byte values 0 to 3 in declaration order. */
  function OpcodeByte(op: Opcode): (b: u8)
    ensures b < 4
    ensures OpcodeFromByte(b) == Some(op)
  {
    match op
    case ClientPlayerInput => 0
    case ServerGameData => 1
    case ServerPlayerList => 2
    case ServerPlayerPosition => 3
  }

  /** The opcode a byte names, if any. */
  function OpcodeFromByte(b: u8): Option<Opcode>
  {
    if b == 0 then Some(ClientPlayerInput)
    else if b == 1 then Some(ServerGameData)
    else if b == 2 then Some(ServerPlayerList)
    else if b == 3 then Some(ServerPlayerPosition)
    else None
  }

  /** Every byte that names an opcode is that opcode's byte: the table is a
      bijection between the four opcodes and 0..3. */
  lemma OpcodeBytesBijective(b: u8)
    ensures OpcodeFromByte(b).Some? <==> b < 4
    ensures OpcodeFromByte(b).Some? ==> OpcodeByte(OpcodeFromByte(b).value) == b
  {
  }

  // ---------------------------------------------------------------------
  // Packet records

  datatype Vec3 = Vec3(x: f32, y: f32, z: f32)

  /** `Vector3()`: all three components +0.0, whose bit pattern is zero. */
  const Origin := Vec3(0, 0, 0)

  datatype PlayerInput = PlayerInput(index: u32, pitch: f32, yaw: f32, roll: f32, throttle: f32)

  /** `PlayerInput{}`. */
  const NoInput := PlayerInput(0, 0, 0, 0, 0)

  datatype PlayerInputPacket = PlayerInputPacket(input: PlayerInput)

  datatype GameDataPacket = GameDataPacket(playerIndex: u16)

  datatype ListEntry = ListEntry(index: u16, name: Bytes)

  datatype PlayerListPacket = PlayerListPacket(players: seq<ListEntry>)

  datatype PlayerData = PlayerData(playerIndex: u8, position: Vec3)

  datatype CurrentPlayerData = CurrentPlayerData(position: Vec3, velocity: Vec3)

  datatype PlayersPositionPacket = PlayersPositionPacket(
    current: Option<CurrentPlayerData>,
    lastInputIndex: u32,
    tickIndex: u32,
    players: seq<PlayerData>)

  datatype Packet =
    | InputPacket(input: PlayerInputPacket)
    | GameDataMessage(gameData: GameDataPacket)
    | PlayerList(list: PlayerListPacket)
    | PlayersPosition(position: PlayersPositionPacket)

  /** `T::Opcode` of each packet type. */
  function OpcodeOf(p: Packet): Opcode
  {
    match p
    case InputPacket(_) => ClientPlayerInput
    case GameDataMessage(_) => ServerGameData
    case PlayerList(_) => ServerPlayerList
    case PlayersPosition(_) => ServerPlayerPosition
  }

  // ---------------------------------------------------------------------
  // Wire layouts (the reference the serializers are proved against)

  function EncVec3(v: Vec3): (r: Bytes)
    ensures |r| == 12
  {
    EncU32(v.x) + EncU32(v.y) + EncU32(v.z)
  }

  /** Pitch, yaw, roll, throttle; the input's index is not on the wire. */
  function EncInput(p: PlayerInputPacket): (r: Bytes)
    ensures |r| == 16
  {
    EncU32(p.input.pitch) + EncU32(p.input.yaw) + EncU32(p.input.roll) + EncU32(p.input.throttle)
  }

  /** One roster entry: the name as a string, then the index. */
  function EncEntry(e: ListEntry): (r: Bytes)
    ensures |r| == 6 + |e.name|
  {
    EncU32(|e.name| % 0x1_0000_0000) + e.name + EncU16(e.index)
  }

  function EncEntries(es: seq<ListEntry>): Bytes
  {
    if es == [] then [] else EncEntry(es[0]) + EncEntries(es[1..])
  }

  /** A u16 count (the list's size reduced modulo 2^16), then name and index
      of every entry. */
  function EncList(p: PlayerListPacket): Bytes
  {
    EncU16(|p.players| % 0x1_0000) + EncEntries(p.players)
  }

  function EncPlayerDatas(ds: seq<PlayerData>): (r: Bytes)
    ensures |r| == 13 * |ds|
  {
    if ds == [] then [] else [ds[0].playerIndex] + EncVec3(ds[0].position) + EncPlayerDatas(ds[1..])
  }

  /** The presence flag, then position and velocity when present. */
  function EncCurrent(c: Option<CurrentPlayerData>): (r: Bytes)
    ensures |r| == if c.Some? then 25 else 1
  {
    match c
    case None => [0]
    case Some(d) => [1] + EncVec3(d.position) + EncVec3(d.velocity)
  }

  function EncPosition(p: PlayersPositionPacket): Bytes
  {
    EncU32(p.lastInputIndex) + EncU32(p.tickIndex) + EncU16(|p.players| % 0x1_0000)
      + EncPlayerDatas(p.players) + EncCurrent(p.current)
  }

  // ---------------------------------------------------------------------
  // Serializers, written as the source appends field by field

  function SerializeVec3(buf: Bytes, v: Vec3): (r: Bytes)
    ensures r == buf + EncVec3(v)
  {
    var x, y, z := EncU32(v.x), EncU32(v.y), EncU32(v.z);
    var r := SerializeF32(SerializeF32(SerializeF32(buf, v.x), v.y), v.z);
    assert r == buf + EncVec3(v) by {
      AppendAssoc(buf, x, y);
      AppendAssoc(buf, x + y, z);
    }
    r
  }

  function SerializeInput(buf: Bytes, p: PlayerInputPacket): (r: Bytes)
    ensures r == buf + EncInput(p)
  {
    var b := SerializeF32(buf, p.input.pitch);
    var b := SerializeF32(b, p.input.yaw);
    var b := SerializeF32(b, p.input.roll);
    SerializeF32(b, p.input.throttle)
  }

  function SerializeGameData(buf: Bytes, p: GameDataPacket): (r: Bytes)
    ensures r == buf + EncU16(p.playerIndex)
  {
    SerializeU16(buf, p.playerIndex)
  }

  function SerializeEntries(buf: Bytes, es: seq<ListEntry>): (r: Bytes)
    ensures r == buf + EncEntries(es)
    decreases |es|
  {
    if es == [] then buf
    else
      var head := EncEntry(es[0]);
      var b := SerializeU16(SerializeStr(buf, es[0].name), es[0].index);
      assert b == buf + head by {
        var len := EncU32(|es[0].name| % 0x1_0000_0000);
        AppendAssoc(buf, len, es[0].name);
        AppendAssoc(buf, len + es[0].name, EncU16(es[0].index));
      }
      var r := SerializeEntries(b, es[1..]);
      assert r == buf + EncEntries(es) by {
        assert EncEntries(es) == head + EncEntries(es[1..]);
        AppendAssoc(buf, head, EncEntries(es[1..]));
      }
      r
  }

  function SerializeList(buf: Bytes, p: PlayerListPacket): (r: Bytes)
    ensures r == buf + EncList(p)
  {
    var count := EncU16(|p.players| % 0x1_0000);
    var r := SerializeEntries(SerializeU16(buf, |p.players| % 0x1_0000), p.players);
    assert r == buf + EncList(p) by {
      AppendAssoc(buf, count, EncEntries(p.players));
    }
    r
  }

  function SerializePlayerDatas(buf: Bytes, ds: seq<PlayerData>): (r: Bytes)
    ensures r == buf + EncPlayerDatas(ds)
    decreases |ds|
  {
    if ds == [] then buf
    else
      var head := [ds[0].playerIndex] + EncVec3(ds[0].position);
      var b := SerializeVec3(SerializeU8(buf, ds[0].playerIndex), ds[0].position);
      assert b == buf + head by {
        AppendAssoc(buf, [ds[0].playerIndex], EncVec3(ds[0].position));
      }
      var r := SerializePlayerDatas(b, ds[1..]);
      assert r == buf + EncPlayerDatas(ds) by {
        assert EncPlayerDatas(ds) == head + EncPlayerDatas(ds[1..]);
        AppendAssoc(buf, head, EncPlayerDatas(ds[1..]));
      }
      r
  }

  /** `Serialize_u8(has_value())`: the flag is 1 or 0. */
  function SerializeCurrent(buf: Bytes, c: Option<CurrentPlayerData>): (r: Bytes)
    ensures r == buf + EncCurrent(c)
  {
    var b := SerializeU8(buf, if c.Some? then 1 else 0);
    match c
    case None => b
    case Some(d) =>
      var position, velocity := EncVec3(d.position), EncVec3(d.velocity);
      var r := SerializeVec3(SerializeVec3(b, d.position), d.velocity);
      assert r == buf + EncCurrent(c) by {
        AppendAssoc(buf, [1], position);
        AppendAssoc(buf, [1] + position, velocity);
      }
      r
  }

  /** The encoded packet is 11 + 13·n bytes, plus 24 when the recipient's own
      data is present. */
  function SerializePosition(buf: Bytes, p: PlayersPositionPacket): (r: Bytes)
    ensures r == buf + EncPosition(p)
    ensures |r| == |buf| + 11 + 13 * |p.players| + (if p.current.Some? then 24 else 0)
  {
    var e1, e2, e3 := EncU32(p.lastInputIndex), EncU32(p.tickIndex), EncU16(|p.players| % 0x1_0000);
    var e4, e5 := EncPlayerDatas(p.players), EncCurrent(p.current);
    var b1 := SerializeU32(buf, p.lastInputIndex);
    var b2 := SerializeU32(b1, p.tickIndex);
    var b3 := SerializeU16(b2, |p.players| % 0x1_0000);
    var b4 := SerializePlayerDatas(b3, p.players);
    var r := SerializeCurrent(b4, p.current);
    assert r == buf + EncPosition(p) by {
      assert r == buf + e1 + e2 + e3 + e4 + e5;
      assert EncPosition(p) == e1 + e2 + e3 + e4 + e5;
      AppendAssoc(buf, e1 + e2 + e3 + e4, e5);
      AppendAssoc(buf, e1 + e2 + e3, e4);
      AppendAssoc(buf, e1 + e2, e3);
      AppendAssoc(buf, e1, e2);
    }
    r
  }

  /** `packet.Serialize(byteArray)`, selected by the packet's type. */
  function SerializePacket(buf: Bytes, p: Packet): (r: Bytes)
    ensures r == buf + Payload(p)
  {
    match p
    case InputPacket(i) => SerializeInput(buf, i)
    case GameDataMessage(g) => SerializeGameData(buf, g)
    case PlayerList(l) => SerializeList(buf, l)
    case PlayersPosition(q) => SerializePosition(buf, q)
  }

  function Payload(p: Packet): Bytes
  {
    match p
    case InputPacket(i) => EncInput(i)
    case GameDataMessage(g) => EncU16(g.playerIndex)
    case PlayerList(l) => EncList(l)
    case PlayersPosition(q) => EncPosition(q)
  }

  /** What `enet_packet_create` receives: the bytes, and whether the
      reliable flag was passed. */
  datatype NetPacket = NetPacket(data: Bytes, reliable: bool)

  /** The opcode byte, then the payload exactly as `Serialize` writes it. */
  function BuildPacket(p: Packet, reliable: bool): (r: NetPacket)
    ensures r.reliable == reliable
    ensures |r.data| == 1 + |Payload(p)|
    ensures OpcodeFromByte(r.data[0]) == Some(OpcodeOf(p))
    ensures r.data[1..] == Payload(p)
  {
    var r := SerializePacket(SerializeU8([], OpcodeByte(OpcodeOf(p))), p);
    assert r[1..] == Payload(p);
    NetPacket(r, reliable)
  }

  // ---------------------------------------------------------------------
  // Decoders (the source does no bounds checks: the `...Fits` predicates
  // say exactly which reads stay inside the buffer)

  function ReadVec3(buf: Bytes, offset: nat): (r: Read<Vec3>)
    requires offset + 12 <= |buf|
    ensures r.next == offset + 12
  {
    var x := ReadF32(buf, offset);
    var y := ReadF32(buf, x.next);
    var z := ReadF32(buf, y.next);
    Read(Vec3(x.value, y.value, z.value), z.next)
  }

  /** The input's index is never read: it stays at its default of 0. */
  function UnserializeInput(buf: Bytes, offset: nat): (r: Read<PlayerInputPacket>)
    requires offset + 16 <= |buf|
    ensures r.next == offset + 16
    ensures r.value.input.index == 0
  {
    var pitch := ReadF32(buf, offset);
    var yaw := ReadF32(buf, pitch.next);
    var roll := ReadF32(buf, yaw.next);
    var throttle := ReadF32(buf, roll.next);
    Read(PlayerInputPacket(PlayerInput(0, pitch.value, yaw.value, roll.value, throttle.value)), throttle.next)
  }

  function UnserializeGameData(buf: Bytes, offset: nat): (r: Read<GameDataPacket>)
    requires offset + 2 <= |buf|
    ensures r.next == offset + 2
  {
    var i := ReadU16(buf, offset);
    Read(GameDataPacket(i.value), i.next)
  }

  /** `n` entries, each a string and a u16, lie inside the buffer. */
  predicate EntriesFit(buf: Bytes, offset: nat, n: nat)
    decreases n
  {
    n == 0
    || (StrFits(buf, offset)
        && ReadStr(buf, offset).next + 2 <= |buf|
        && EntriesFit(buf, ReadStr(buf, offset).next + 2, n - 1))
  }

  function ReadEntries(buf: Bytes, offset: nat, n: nat): (r: Read<seq<ListEntry>>)
    requires EntriesFit(buf, offset, n)
    ensures |r.value| == n && offset <= r.next
    decreases n
  {
    if n == 0 then Read([], offset)
    else
      var name := ReadStr(buf, offset);
      var index := ReadU16(buf, name.next);
      var rest := ReadEntries(buf, index.next, n - 1);
      Read([ListEntry(index.value, name.value)] + rest.value, rest.next)
  }

  predicate ListFits(buf: Bytes, offset: nat)
  {
    offset + 2 <= |buf| && EntriesFit(buf, offset + 2, ReadU16(buf, offset).value)
  }

  /** The list is resized to the u16 count, then each entry is read in turn. */
  function UnserializeList(buf: Bytes, offset: nat): (r: Read<PlayerListPacket>)
    requires ListFits(buf, offset)
    ensures |r.value.players| == ReadU16(buf, offset).value
  {
    var count := ReadU16(buf, offset);
    var entries := ReadEntries(buf, count.next, count.value);
    Read(PlayerListPacket(entries.value), entries.next)
  }

  function ReadPlayerDatas(buf: Bytes, offset: nat, n: nat): (r: Read<seq<PlayerData>>)
    requires offset + 13 * n <= |buf|
    ensures |r.value| == n && r.next == offset + 13 * n
    decreases n
  {
    if n == 0 then Read([], offset)
    else
      var index := ReadU8(buf, offset);
      var position := ReadVec3(buf, index.next);
      var rest := ReadPlayerDatas(buf, position.next, n - 1);
      Read([PlayerData(index.value, position.value)] + rest.value, rest.next)
  }

  /** Offset of the presence flag of a position packet starting at `offset`. */
  function FlagOffset(buf: Bytes, offset: nat): nat
    requires offset + 10 <= |buf|
  {
    offset + 10 + 13 * ReadU16(buf, offset + 8).value
  }

  predicate PositionFits(buf: Bytes, offset: nat)
  {
    && offset + 10 <= |buf|
    && FlagOffset(buf, offset) < |buf|
    && (buf[FlagOffset(buf, offset)] != 0 ==> FlagOffset(buf, offset) + 25 <= |buf|)
  }

  /** Any non-zero flag byte means the recipient's own data follows. */
  function UnserializePosition(buf: Bytes, offset: nat): (r: Read<PlayersPositionPacket>)
    requires PositionFits(buf, offset)
    ensures r.value.current.Some? <==> buf[FlagOffset(buf, offset)] != 0
    ensures |r.value.players| == ReadU16(buf, offset + 8).value
    ensures r.next == FlagOffset(buf, offset) + (if r.value.current.Some? then 25 else 1)
  {
    var last := ReadU32(buf, offset);
    var tick := ReadU32(buf, last.next);
    var count := ReadU16(buf, tick.next);
    var datas := ReadPlayerDatas(buf, count.next, count.value);
    var flag := ReadU8(buf, datas.next);
    if flag.value != 0 then
      var position := ReadVec3(buf, flag.next);
      var velocity := ReadVec3(buf, position.next);
      Read(PlayersPositionPacket(Some(CurrentPlayerData(position.value, velocity.value)),
                                 last.value, tick.value, datas.value), velocity.next)
    else
      Read(PlayersPositionPacket(None, last.value, tick.value, datas.value), flag.next)
  }

  /** The decoder a packet's opcode selects can read at `offset`. */
  predicate PayloadFits(op: Opcode, buf: Bytes, offset: nat)
  {
    match op
    case ClientPlayerInput => offset + 16 <= |buf|
    case ServerGameData => offset + 2 <= |buf|
    case ServerPlayerList => ListFits(buf, offset)
    case ServerPlayerPosition => PositionFits(buf, offset)
  }

  /** `T::Unserialize` for the packet type `T` whose opcode is `op`. */
  function UnserializePayload(op: Opcode, buf: Bytes, offset: nat): (r: Read<Packet>)
    requires PayloadFits(op, buf, offset)
    ensures OpcodeOf(r.value) == op
  {
    match op
    case ClientPlayerInput =>
      var i := UnserializeInput(buf, offset);
      Read(InputPacket(i.value), i.next)
    case ServerGameData =>
      var g := UnserializeGameData(buf, offset);
      Read(GameDataMessage(g.value), g.next)
    case ServerPlayerList =>
      var l := UnserializeList(buf, offset);
      Read(PlayerList(l.value), l.next)
    case ServerPlayerPosition =>
      var q := UnserializePosition(buf, offset);
      Read(PlayersPosition(q.value), q.next)
  }

  // ---------------------------------------------------------------------
  // Round trips

  lemma Vec3RoundTrip(buf: Bytes, offset: nat, v: Vec3)
    requires At(buf, offset, EncVec3(v))
    ensures ReadVec3(buf, offset) == Read(v, offset + 12)
  {
    var x, y, z := EncU32(v.x), EncU32(v.y), EncU32(v.z);
    AtSplit(buf, offset, x + y, z);
    AtSplit(buf, offset, x, y);
    ReadU32Exact(buf, offset, v.x);
    ReadU32Exact(buf, offset + 4, v.y);
    ReadU32Exact(buf, offset + 8, v.z);
  }

  /** Pitch, yaw, roll and throttle survive; the index comes back as 0. */
  lemma InputAtRoundTrip(buf: Bytes, offset: nat, p: PlayerInputPacket)
    requires At(buf, offset, EncInput(p))
    ensures offset + 16 <= |buf|
    ensures UnserializeInput(buf, offset) == Read(PlayerInputPacket(p.input.(index := 0)), offset + 16)
  {
    var a, b, c, d := EncU32(p.input.pitch), EncU32(p.input.yaw), EncU32(p.input.roll), EncU32(p.input.throttle);
    AtSplit(buf, offset, a + b + c, d);
    AtSplit(buf, offset, a + b, c);
    AtSplit(buf, offset, a, b);
    ReadU32Exact(buf, offset, p.input.pitch);
    ReadU32Exact(buf, offset + 4, p.input.yaw);
    ReadU32Exact(buf, offset + 8, p.input.roll);
    ReadU32Exact(buf, offset + 12, p.input.throttle);
  }

  lemma InputRoundTrip(pre: Bytes, p: PlayerInputPacket, post: Bytes)
    ensures var buf := SerializeInput(pre, p) + post;
            UnserializeInput(buf, |pre|) == Read(PlayerInputPacket(p.input.(index := 0)), |pre| + 16)
  {
    AtAppended(pre, EncInput(p), post);
    InputAtRoundTrip(SerializeInput(pre, p) + post, |pre|, p);
  }

  lemma GameDataAtRoundTrip(buf: Bytes, offset: nat, p: GameDataPacket)
    requires At(buf, offset, EncU16(p.playerIndex))
    ensures offset + 2 <= |buf|
    ensures UnserializeGameData(buf, offset) == Read(p, offset + 2)
  {
    ReadU16Exact(buf, offset, p.playerIndex);
  }

  lemma GameDataRoundTrip(pre: Bytes, p: GameDataPacket, post: Bytes)
    ensures UnserializeGameData(SerializeGameData(pre, p) + post, |pre|) == Read(p, |pre| + 2)
  {
    AtAppended(pre, EncU16(p.playerIndex), post);
    GameDataAtRoundTrip(SerializeGameData(pre, p) + post, |pre|, p);
  }

  /** Names shorter than 2^32 bytes can be carried by a string. */
  predicate NamesEncodable(es: seq<ListEntry>)
  {
    es == [] || (|es[0].name| < 0x1_0000_0000 && NamesEncodable(es[1..]))
  }

  /** One roster entry: its name, then its index. */
  lemma EntryRoundTrip(buf: Bytes, offset: nat, e: ListEntry)
    requires |e.name| < 0x1_0000_0000
    requires At(buf, offset, EncEntry(e))
    ensures StrFits(buf, offset)
    ensures ReadStr(buf, offset) == Read(e.name, offset + 4 + |e.name|)
    ensures offset + 6 + |e.name| <= |buf|
    ensures ReadU16(buf, offset + 4 + |e.name|) == Read(e.index, offset + 6 + |e.name|)
  {
    var len, idx := EncU32(|e.name|), EncU16(e.index);
    assert |e.name| % 0x1_0000_0000 == |e.name|;
    assert EncEntry(e) == len + e.name + idx;
    AtSplit(buf, offset, len + e.name, idx);
    ReadStrExact(buf, offset, e.name);
    ReadU16Exact(buf, offset + 4 + |e.name|, e.index);
  }

  lemma {:induction false} EntriesRoundTrip(buf: Bytes, offset: nat, es: seq<ListEntry>)
    requires NamesEncodable(es)
    requires At(buf, offset, EncEntries(es))
    ensures EntriesFit(buf, offset, |es|)
    ensures ReadEntries(buf, offset, |es|) == Read(es, offset + |EncEntries(es)|)
    decreases |es|
  {
    if es != [] {
      var e, next := es[0], offset + 6 + |es[0].name|;
      assert EncEntries(es) == EncEntry(e) + EncEntries(es[1..]);
      AtSplit(buf, offset, EncEntry(e), EncEntries(es[1..]));
      EntryRoundTrip(buf, offset, e);
      EntriesRoundTrip(buf, next, es[1..]);
      var rest := ReadEntries(buf, next, |es| - 1);
      assert ReadEntries(buf, offset, |es|) == Read([ListEntry(e.index, e.name)] + rest.value, rest.next);
      assert [ListEntry(e.index, e.name)] + es[1..] == es;
    }
  }

  /** A roster of at most 65535 entries with encodable names comes back
      entry for entry, name and index. */
  lemma ListAtRoundTrip(buf: Bytes, offset: nat, p: PlayerListPacket)
    requires |p.players| < 0x1_0000 && NamesEncodable(p.players)
    requires At(buf, offset, EncList(p))
    ensures ListFits(buf, offset)
    ensures UnserializeList(buf, offset) == Read(p, offset + |EncList(p)|)
  {
    AtSplit(buf, offset, EncU16(|p.players|), EncEntries(p.players));
    ReadU16Exact(buf, offset, |p.players|);
    EntriesRoundTrip(buf, offset + 2, p.players);
  }

  lemma ListRoundTrip(pre: Bytes, p: PlayerListPacket, post: Bytes)
    requires |p.players| < 0x1_0000 && NamesEncodable(p.players)
    ensures var buf := SerializeList(pre, p) + post;
            ListFits(buf, |pre|)
            && UnserializeList(buf, |pre|) == Read(p, |pre| + |EncList(p)|)
  {
    AtAppended(pre, EncList(p), post);
    ListAtRoundTrip(SerializeList(pre, p) + post, |pre|, p);
  }

  lemma {:induction false} PlayerDatasRoundTrip(buf: Bytes, offset: nat, ds: seq<PlayerData>)
    requires At(buf, offset, EncPlayerDatas(ds))
    ensures ReadPlayerDatas(buf, offset, |ds|) == Read(ds, offset + 13 * |ds|)
    decreases |ds|
  {
    if ds != [] {
      var d := ds[0];
      var index, position := [d.playerIndex], EncVec3(d.position);
      AtSplit(buf, offset, index + position, EncPlayerDatas(ds[1..]));
      AtSplit(buf, offset, index, position);
      ReadU8Exact(buf, offset, d.playerIndex);
      Vec3RoundTrip(buf, offset + 1, d.position);
      PlayerDatasRoundTrip(buf, offset + 13, ds[1..]);
      assert [PlayerData(d.playerIndex, d.position)] + ds[1..] == ds;
    }
  }

  /** The presence flag is non-zero exactly when the data follows it. */
  lemma CurrentRoundTrip(buf: Bytes, offset: nat, c: Option<CurrentPlayerData>)
    requires At(buf, offset, EncCurrent(c))
    ensures offset < |buf| && (buf[offset] != 0 <==> c.Some?)
    ensures c.Some? ==> offset + 25 <= |buf|
    ensures c.Some? ==> ReadVec3(buf, offset + 1) == Read(c.value.position, offset + 13)
    ensures c.Some? ==> ReadVec3(buf, offset + 13) == Read(c.value.velocity, offset + 25)
  {
    assert buf[offset + 0] == EncCurrent(c)[0];
    match c
    case None =>
    case Some(d) =>
      var pos, vel := EncVec3(d.position), EncVec3(d.velocity);
      AtSplit(buf, offset, [1] + pos, vel);
      AtSplit(buf, offset, [1], pos);
      Vec3RoundTrip(buf, offset + 1, d.position);
      Vec3RoundTrip(buf, offset + 13, d.velocity);
  }

  /** The fixed header and the two variable parts of a position packet. */
  lemma PositionSplit(buf: Bytes, offset: nat, p: PlayersPositionPacket)
    requires |p.players| < 0x1_0000
    requires At(buf, offset, EncPosition(p))
    ensures offset + 10 <= |buf|
    ensures ReadU32(buf, offset) == Read(p.lastInputIndex, offset + 4)
    ensures ReadU32(buf, offset + 4) == Read(p.tickIndex, offset + 8)
    ensures ReadU16(buf, offset + 8) == Read(|p.players|, offset + 10)
    ensures At(buf, offset + 10, EncPlayerDatas(p.players))
    ensures At(buf, offset + 10 + 13 * |p.players|, EncCurrent(p.current))
  {
    var last, tick, count := EncU32(p.lastInputIndex), EncU32(p.tickIndex), EncU16(|p.players|);
    var datas, cur := EncPlayerDatas(p.players), EncCurrent(p.current);
    AtSplit(buf, offset, last + tick + count + datas, cur);
    AtSplit(buf, offset, last + tick + count, datas);
    AtSplit(buf, offset, last + tick, count);
    AtSplit(buf, offset, last, tick);
    ReadU32Exact(buf, offset, p.lastInputIndex);
    ReadU32Exact(buf, offset + 4, p.tickIndex);
    ReadU16Exact(buf, offset + 8, |p.players|);
  }

  /** A position packet with at most 65535 entries comes back whole; the
      presence of the recipient's own data is carried by the flag byte. */
  lemma PositionAtRoundTrip(buf: Bytes, offset: nat, p: PlayersPositionPacket)
    requires |p.players| < 0x1_0000
    requires At(buf, offset, EncPosition(p))
    ensures PositionFits(buf, offset)
    ensures UnserializePosition(buf, offset) == Read(p, offset + |EncPosition(p)|)
  {
    PositionSplit(buf, offset, p);
    PlayerDatasRoundTrip(buf, offset + 10, p.players);
    var f := offset + 10 + 13 * |p.players|;
    assert FlagOffset(buf, offset) == f;
    CurrentRoundTrip(buf, f, p.current);
  }

  lemma PositionRoundTrip(pre: Bytes, p: PlayersPositionPacket, post: Bytes)
    requires |p.players| < 0x1_0000
    ensures var buf := SerializePosition(pre, p) + post;
            PositionFits(buf, |pre|)
            && UnserializePosition(buf, |pre|) == Read(p, |pre| + |EncPosition(p)|)
  {
    AtAppended(pre, EncPosition(p), post);
    PositionAtRoundTrip(SerializePosition(pre, p) + post, |pre|, p);
  }

  /** What the receiving side can recover from a packet: everything except
      the input index, which is never written. */
  function Decodable(p: Packet): Packet
  {
    match p
    case InputPacket(i) => InputPacket(PlayerInputPacket(i.input.(index := 0)))
    case _ => p
  }

  predicate Encodable(p: Packet)
  {
    match p
    case PlayerList(l) => |l.players| < 0x1_0000 && NamesEncodable(l.players)
    case PlayersPosition(q) => |q.players| < 0x1_0000
    case _ => true
  }

  /** A built packet starts with its opcode, and the decoder that opcode
      selects, run from offset 1, consumes the rest and returns the packet. */
  lemma BuildPacketRoundTrip(p: Packet, reliable: bool)
    requires Encodable(p)
    ensures var d := BuildPacket(p, reliable).data;
            && OpcodeFromByte(d[0]) == Some(OpcodeOf(p))
            && PayloadFits(OpcodeOf(p), d, 1)
            && UnserializePayload(OpcodeOf(p), d, 1) == Read(Decodable(p), |d|)
  {
    var d := BuildPacket(p, reliable).data;
    assert At(d, 1, Payload(p)) by {
      forall i | 0 <= i < |Payload(p)|
        ensures d[1 + i] == Payload(p)[i]
      {
        assert d[1..][i] == d[1 + i];
      }
    }
    match p
    case InputPacket(i) => InputAtRoundTrip(d, 1, i);
    case GameDataMessage(g) => GameDataAtRoundTrip(d, 1, g);
    case PlayerList(l) => ListAtRoundTrip(d, 1, l);
    case PlayersPosition(q) => PositionAtRoundTrip(d, 1, q);
  }
}
