/** The authoritative server's roster and tick logic: what a CONNECT, a
    DISCONNECT (or its TIMEOUT twin), a RECEIVE and a server tick do to the
    game data, and which packets each sends to whom. ENet itself is not
    modelled: events arrive as values and sends are returned as values. */
module Server {

  import opened Wire
  import opened Wrappers
  import opened Protocol

  // ---------------------------------------------------------------------
  // State

  /** ENet's peer handle, compared only for identity. */
  type PeerId = nat

  /** The part of a player that `ComputePhysics` advances: its position and
      whatever other kinematic state the physics keeps. */
  datatype Body = Body(position: Vec3, motion: seq<f32>)

  /** `ComputePhysics(player, input, NET_TICK)`, whose definition is not part
      of this model. */
  type Physics = (Body, PlayerInput, int) -> Body

  datatype Player = Player(
    index: nat,
    name: Bytes,
    peer: Option<PeerId>,
    body: Body,
    inputBuffer: seq<PlayerInput>,
    advancement: real,
    lastInput: PlayerInput)

  datatype GameData = GameData(tickIndex: u32, players: seq<Player>)

  /** `1000 / TICK_RATE` with `TICK_RATE = 60`, in integer division. */
  const NetTick: int := 1000 / 60

  /** The queue length the playout rate steers towards. */
  const TargetInputBufferSize: nat := 5

  /** `GameData()`: tick 0 and no players. */
  const Initial := GameData(0, [])

  /** A slot as `emplace_back()` creates it, before connect fills it in. */
  function NewPlayer(index: nat): Player
  {
    Player(index, [], None, Body(Origin, []), [], 0.0, NoInput)
  }

  /** Every slot knows its own position in the roster, its playout
      accumulator lies in [0, 1), and its name is empty (nothing ever sets
      it after connect clears it). */
  predicate Valid(g: GameData)
  {
    forall i | 0 <= i < |g.players| ::
      && g.players[i].index == i
      && 0.0 <= g.players[i].advancement < 1.0
      && g.players[i].name == []
  }

  // ---------------------------------------------------------------------
  // Looking slots up

  /** `find_if(..., p.Peer == peer)`: the first slot whose peer is `peer`, or
      the roster size when there is none. */
  function FindPeer(ps: seq<Player>, peer: Option<PeerId>): (k: nat)
    ensures k <= |ps|
    ensures k < |ps| ==> ps[k].peer == peer
    ensures forall j | 0 <= j < k :: ps[j].peer != peer
    decreases |ps|
  {
    if ps == [] then 0
    else if ps[0].peer == peer then 0
    else 1 + FindPeer(ps[1..], peer)
  }

  predicate HasPeer(ps: seq<Player>, peer: PeerId)
  {
    exists j | 0 <= j < |ps| :: ps[j].peer == Some(peer)
  }

  /** The connected players (non-null peer), in roster order. */
  function Connected(ps: seq<Player>): (r: seq<Player>)
    ensures |r| <= |ps|
    ensures forall p | p in r :: p in ps && p.peer.Some?
    ensures forall p | p in ps && p.peer.Some? :: p in r
    decreases |ps|
  {
    if ps == [] then []
    else if ps[0].peer.Some? then [ps[0]] + Connected(ps[1..])
    else Connected(ps[1..])
  }

  /** Keeping the connected players commutes with splitting the roster: the
      order of the roster is the order of the result. */
  lemma {:induction false} ConnectedAppend(a: seq<Player>, b: seq<Player>)
    ensures Connected(a + b) == Connected(a) + Connected(b)
    decreases |a|
  {
    if a != [] {
      assert (a + b)[0] == a[0];
      assert (a + b)[1..] == a[1..] + b;
      ConnectedAppend(a[1..], b);
      var head := if a[0].peer.Some? then [a[0]] else [];
      assert Connected(a + b) == head + Connected(a[1..] + b);
      assert Connected(a) == head + Connected(a[1..]);
    } else {
      assert a + b == b;
    }
  }

  // ---------------------------------------------------------------------
  // Outgoing packets

  /** One `enet_peer_send` to a peer. */
  datatype Send = Send(peer: PeerId, packet: NetPacket)

  /** The state after an event and the packets it sends, in order. */
  datatype Outcome = Outcome(game: GameData, sends: seq<Send>)

  /** `for (player : Players) if (player.Peer) enet_peer_send(player.Peer, ...)`:
      one send per connected player, in roster order. */
  function SendToConnected(ps: seq<Player>, packetFor: Player -> NetPacket): (r: seq<Send>)
    ensures |r| == |Connected(ps)|
    ensures forall i | 0 <= i < |r| ::
              Connected(ps)[i].peer.Some?
              && r[i] == Send(Connected(ps)[i].peer.value, packetFor(Connected(ps)[i]))
    decreases |ps|
  {
    if ps == [] then []
    else if ps[0].peer.Some? then [Send(ps[0].peer.value, packetFor(ps[0]))] + SendToConnected(ps[1..], packetFor)
    else SendToConnected(ps[1..], packetFor)
  }

  /** The roster entries of the connected players: index (truncated to the
      packet's u16) and name. */
  function RosterEntries(ps: seq<Player>): (r: seq<ListEntry>)
    ensures |r| == |Connected(ps)|
    ensures forall i | 0 <= i < |r| ::
              r[i] == ListEntry(Connected(ps)[i].index % 0x1_0000, Connected(ps)[i].name)
    decreases |ps|
  {
    if ps == [] then []
    else if ps[0].peer.Some? then [ListEntry(ps[0].index % 0x1_0000, ps[0].name)] + RosterEntries(ps[1..])
    else RosterEntries(ps[1..])
  }

  /** `BuidPlayerListPacket`: the roster, sent reliably. */
  function BuildPlayerListPacket(g: GameData): (r: NetPacket)
    ensures r.reliable
    ensures |r.data| >= 1 && OpcodeFromByte(r.data[0]) == Some(ServerPlayerList)
  {
    BuildPacket(PlayerList(PlayerListPacket(RosterEntries(g.players))), true)
  }

  /** A client reading the roster packet recovers exactly the connected
      players, in roster order, each with its index and name. */
  lemma PlayerListPacketDecodes(g: GameData)
    requires Valid(g) && |Connected(g.players)| < 0x1_0000
    ensures var d := BuildPlayerListPacket(g).data;
            && PayloadFits(ServerPlayerList, d, 1)
            && var l := UnserializePayload(ServerPlayerList, d, 1).value.list.players;
            && |l| == |Connected(g.players)|
            && forall i | 0 <= i < |l| ::
                 l[i].index == Connected(g.players)[i].index % 0x1_0000
                 && l[i].name == Connected(g.players)[i].name
  {
    RosterNamesEncodable(g);
    RosterPacketDecodes(g);
  }

  /** The roster packet decodes to exactly the roster entries it was built
      from. */
  lemma RosterPacketDecodes(g: GameData)
    requires |Connected(g.players)| < 0x1_0000 && NamesEncodable(RosterEntries(g.players))
    ensures var d := BuildPlayerListPacket(g).data;
            && PayloadFits(ServerPlayerList, d, 1)
            && UnserializePayload(ServerPlayerList, d, 1).value.list.players == RosterEntries(g.players)
  {
    BuildPacketRoundTrip(PlayerList(PlayerListPacket(RosterEntries(g.players))), true);
  }

  /** Under `Valid` every name is empty, so every roster name fits a
      string's u32 length. */
  lemma RosterNamesEncodable(g: GameData)
    requires Valid(g)
    ensures NamesEncodable(RosterEntries(g.players))
  {
    var es := RosterEntries(g.players);
    forall i | 0 <= i < |es|
      ensures |es[i].name| < 0x1_0000_0000
    {
      var c := Connected(g.players)[i];
      assert c in Connected(g.players);
      var j :| 0 <= j < |g.players| && g.players[j] == c;
    }
    ShortNamesEncodable(es);
  }

  lemma {:induction false} ShortNamesEncodable(es: seq<ListEntry>)
    requires forall i | 0 <= i < |es| :: |es[i].name| < 0x1_0000_0000
    ensures NamesEncodable(es)
    decreases |es|
  {
    if es != [] {
      assert |es[0].name| < 0x1_0000_0000;
      ShortNamesEncodable(es[1..]);
    }
  }

  /** The position entries for `recipient`: every connected player whose
      index differs from the recipient's, in roster order, with its index
      truncated to the packet's u8. */
  function Others(ps: seq<Player>, recipient: nat): (r: seq<PlayerData>)
    ensures |r| <= |Connected(ps)|
    decreases |ps|
  {
    if ps == [] then []
    else if ps[0].index != recipient && ps[0].peer.Some? then
      [DataOf(ps[0])] + Others(ps[1..], recipient)
    else Others(ps[1..], recipient)
  }

  /** The entry of a player in a position packet. */
  function DataOf(p: Player): PlayerData
  {
    PlayerData(p.index % 0x100, p.body.position)
  }

  /** Exactly the connected players with another index are listed. */
  lemma {:induction false} OthersMembers(ps: seq<Player>, recipient: nat)
    ensures forall j | 0 <= j < |ps| && ps[j].peer.Some? && ps[j].index != recipient ::
              DataOf(ps[j]) in Others(ps, recipient)
    ensures forall d | d in Others(ps, recipient) :: exists p | p in ps ::
              p.peer.Some? && p.index != recipient && d == DataOf(p)
    decreases |ps|
  {
    if ps != [] {
      OthersMembers(ps[1..], recipient);
      assert forall j | 1 <= j < |ps| :: ps[j] == ps[1..][j - 1];
    }
  }

  /** The position entries keep roster order. */
  lemma {:induction false} OthersAppend(a: seq<Player>, b: seq<Player>, recipient: nat)
    ensures Others(a + b, recipient) == Others(a, recipient) + Others(b, recipient)
    decreases |a|
  {
    if a != [] {
      var t := a[1..];
      assert a == [a[0]] + t;
      assert a + b == [a[0]] + (t + b) by {
        AppendAssoc([a[0]], t, b);
      }
      OthersAppend(t, b, recipient);
      OthersCons(a[0], t + b, recipient);
      OthersCons(a[0], t, recipient);
      var head := if a[0].index != recipient && a[0].peer.Some? then [DataOf(a[0])] else [];
      AppendAssoc(head, Others(t, recipient), Others(b, recipient));
    } else {
      assert a + b == b;
    }
  }

  /** The first player contributes its entry exactly when it is connected
      and is not the recipient. */
  lemma OthersCons(p: Player, rest: seq<Player>, recipient: nat)
    ensures Others([p] + rest, recipient)
            == (if p.index != recipient && p.peer.Some? then [DataOf(p)] else []) + Others(rest, recipient)
  {
    assert ([p] + rest)[0] == p;
    assert ([p] + rest)[1..] == rest;
  }

  /** What `BuildPlayerPositionPacket` fills in for one recipient. */
  function PositionPacketFor(g: GameData, p: Player): (r: PlayersPositionPacket)
    ensures r.tickIndex == g.tickIndex
    ensures r.lastInputIndex == p.lastInput.index
    ensures r.current == Some(CurrentPlayerData(p.body.position, Origin))
    ensures r.players == Others(g.players, p.index)
  {
    PlayersPositionPacket(
      Some(CurrentPlayerData(p.body.position, Origin)),
      p.lastInput.index,
      g.tickIndex,
      Others(g.players, p.index))
  }

  /** `BuildPlayerPositionPacket`: sent unreliably. */
  function BuildPlayerPositionPacket(g: GameData, p: Player): (r: NetPacket)
    ensures !r.reliable
    ensures |r.data| >= 1 && OpcodeFromByte(r.data[0]) == Some(ServerPlayerPosition)
  {
    BuildPacket(PlayersPosition(PositionPacketFor(g, p)), false)
  }

  /** The recipient decodes the tick, its last input's index, its own
      position (with a zero velocity), and the other connected players. */
  lemma PositionPacketDecodes(g: GameData, p: Player)
    requires |Others(g.players, p.index)| < 0x1_0000
    ensures var d := BuildPlayerPositionPacket(g, p).data;
            && PayloadFits(ServerPlayerPosition, d, 1)
            && var q := UnserializePayload(ServerPlayerPosition, d, 1).value.position;
            && q.tickIndex == g.tickIndex
            && q.lastInputIndex == p.lastInput.index
            && q.current == Some(CurrentPlayerData(p.body.position, Origin))
            && q.players == Others(g.players, p.index)
  {
    BuildPacketRoundTrip(PlayersPosition(PositionPacketFor(g, p)), false);
  }

  /** Under `Valid` the recipient never appears among the others: indices
      are distinct, so skipping equal indices skips exactly the recipient's
      own slot. */
  lemma RecipientNotListed(g: GameData, k: nat)
    requires Valid(g) && k < |g.players|
    ensures forall p | p in g.players && p.index == k :: p == g.players[k]
    ensures forall j | 0 <= j < |g.players| && j != k && g.players[j].peer.Some? ::
              DataOf(g.players[j]) in Others(g.players, g.players[k].index)
  {
    OthersMembers(g.players, g.players[k].index);
  }

  // ---------------------------------------------------------------------
  // Events

  /** The roster side of the CONNECT branch: take the first free slot, or
      append one whose index is the old roster size; set its peer, clear its
      name and move it to `startPos`. A reused slot keeps its queue, its
      accumulator and its last input. */
  function TakeSlot(ps: seq<Player>, peer: PeerId, startPos: Vec3): (r: seq<Player>)
    ensures var k := FindPeer(ps, None);
            && |r| == (if k < |ps| then |ps| else |ps| + 1)
            && (forall j | 0 <= j < |ps| && j != k :: r[j] == ps[j])
            && (k < |ps| ==> r[k] == ps[k].(peer := Some(peer), name := [], body := ps[k].body.(position := startPos)))
            && (k == |ps| ==> r[k] == NewPlayer(k).(peer := Some(peer), body := Body(startPos, [])))
  {
    var k := FindPeer(ps, None);
    var grown := if k < |ps| then ps else ps + [NewPlayer(|ps|)];
    grown[k := grown[k].(peer := Some(peer), name := [], body := grown[k].body.(position := startPos))]
  }

  /** The CONNECT branch: the slot is taken, the peer is welcomed with the
      slot's index (truncated to the packet's u16), then the new roster goes
      to every connected player, the new one included. */
  function OnConnect(g: GameData, peer: PeerId, startPos: Vec3): (r: Outcome)
    ensures r.game == g.(players := TakeSlot(g.players, peer, startPos))
    ensures var k := FindPeer(g.players, None);
            && k < |r.game.players|
            && |r.sends| == 1 + |Connected(r.game.players)|
            && r.sends[0] == Send(peer, BuildPacket(GameDataMessage(GameDataPacket(r.game.players[k].index % 0x1_0000)), true))
            && r.sends[1..] == SendToConnected(r.game.players, _ => BuildPlayerListPacket(r.game))
  {
    var k := FindPeer(g.players, None);
    var game := g.(players := TakeSlot(g.players, peer, startPos));
    var welcome := Send(peer, BuildPacket(GameDataMessage(GameDataPacket(game.players[k].index % 0x1_0000)), true));
    var roster := BuildPlayerListPacket(game);
    Outcome(game, [welcome] + SendToConnected(game.players, _ => roster))
  }

  /** The welcome packet tells the new peer its slot index. */
  lemma WelcomeCarriesIndex(g: GameData, peer: PeerId, startPos: Vec3)
    requires Valid(g)
    ensures var r := OnConnect(g, peer, startPos);
            var k := FindPeer(g.players, None);
            var d := r.sends[0].packet.data;
            && r.sends[0].peer == peer
            && r.sends[0].packet.reliable
            && PayloadFits(ServerGameData, d, 1)
            && UnserializePayload(ServerGameData, d, 1).value.gameData.playerIndex == k % 0x1_0000
  {
    var r := OnConnect(g, peer, startPos);
    var k := FindPeer(g.players, None);
    assert r.game.players[k].index == k;
    BuildPacketRoundTrip(GameDataMessage(GameDataPacket(k % 0x1_0000)), true);
  }

  /** The DISCONNECT branch (TIMEOUT falls through into it): the first slot
      of that peer loses its peer; the new roster goes to everyone still
      connected. The source dereferences the lookup unchecked, so a slot of
      that peer must exist. */
  function OnDisconnect(g: GameData, peer: PeerId): (r: Outcome)
    requires HasPeer(g.players, peer)
    ensures var k := FindPeer(g.players, Some(peer));
            && k < |g.players|
            && |r.game.players| == |g.players|
            && r.game.tickIndex == g.tickIndex
            && r.game.players[k] == g.players[k].(peer := None)
            && (forall j | 0 <= j < |g.players| && j != k :: r.game.players[j] == g.players[j])
            && r.sends == SendToConnected(r.game.players, _ => BuildPlayerListPacket(r.game))
  {
    var k := FindPeer(g.players, Some(peer));
    var game := g.(players := g.players[k := g.players[k].(peer := None)]);
    var roster := BuildPlayerListPacket(game);
    Outcome(game, SendToConnected(game.players, _ => roster))
  }

  /** What `HandleMessage` can read without running off the message: the
      opcode byte, and the 16 input bytes after it when the opcode is
      `C_PLAYERINPUT`. */
  predicate Readable(msg: Bytes)
  {
    |msg| >= 1 && (msg[0] == OpcodeByte(ClientPlayerInput) ==> |msg| >= 17)
  }

  /** `HandleMessage`: an input message appends its input to the end of the
      queue; any other opcode leaves the player as it was. */
  function HandleMessage(p: Player, msg: Bytes): (r: Player)
    requires Readable(msg)
    ensures msg[0] != OpcodeByte(ClientPlayerInput) ==> r == p
    ensures msg[0] == OpcodeByte(ClientPlayerInput) ==>
              && r == p.(inputBuffer := r.inputBuffer)
              && |r.inputBuffer| == |p.inputBuffer| + 1
              && r.inputBuffer[..|p.inputBuffer|] == p.inputBuffer
              && r.inputBuffer[|p.inputBuffer|].index == 0
    ensures msg[0] == OpcodeByte(ClientPlayerInput) ==>
              r.inputBuffer == p.inputBuffer + [UnserializeInput(msg, 1).value.input]
  {
    var opcode := ReadU8(msg, 0);
    if opcode.value == OpcodeByte(ClientPlayerInput) then
      var input := UnserializeInput(msg, opcode.next);
      p.(inputBuffer := p.inputBuffer + [input.value.input])
    else p
  }

  /** A client's input packet, handled by the server, queues the input's
      pitch, yaw, roll and throttle, with index 0. */
  lemma HandleInputPacket(p: Player, input: PlayerInput)
    ensures var msg := BuildPacket(InputPacket(PlayerInputPacket(input)), false).data;
            Readable(msg) && HandleMessage(p, msg).inputBuffer == p.inputBuffer + [input.(index := 0)]
  {
    BuildPacketRoundTrip(InputPacket(PlayerInputPacket(input)), false);
  }

  /** The RECEIVE branch: the message goes to the first slot of the sending
      peer, which must exist. */
  function OnReceive(g: GameData, peer: PeerId, msg: Bytes): (r: GameData)
    requires HasPeer(g.players, peer) && Readable(msg)
    ensures var k := FindPeer(g.players, Some(peer));
            && k < |g.players|
            && r.tickIndex == g.tickIndex
            && |r.players| == |g.players|
            && r.players[k] == HandleMessage(g.players[k], msg)
            && (forall j | 0 <= j < |g.players| && j != k :: r.players[j] == g.players[j])
  {
    var k := FindPeer(g.players, Some(peer));
    g.(players := g.players[k := HandleMessage(g.players[k], msg)])
  }

  // ---------------------------------------------------------------------
  // The tick

  /** The per-tick playout rate for a queue of `n` inputs: 5% slower per
      missing input below the target of 5, 5% faster per input above it. */
  function PlayoutIncrement(n: nat): (r: real)
    ensures r == 0.75 + 0.05 * n as real
    ensures n >= 1 ==> 0.0 < r < n as real
  {
    var inc := 1.0;
    if n < TargetInputBufferSize then inc * (1.0 - (TargetInputBufferSize - n) as real * 0.05)
    else if n > TargetInputBufferSize then inc * (1.0 + (n - TargetInputBufferSize) as real * 0.05)
    else inc
  }

  /** The three branches of the increment, as the source writes them. */
  lemma PlayoutIncrementBranches(n: nat)
    ensures n < 5 ==> PlayoutIncrement(n) == 1.0 - 0.05 * (5 - n) as real
    ensures n > 5 ==> PlayoutIncrement(n) == 1.0 + 0.05 * (n - 5) as real
    ensures n == 5 ==> PlayoutIncrement(n) == 1.0
    ensures PlayoutIncrement(n) < PlayoutIncrement(n + 1)
  {
  }

  datatype Playout = Playout(popped: nat, rest: seq<PlayerInput>, advancement: real, last: PlayerInput)

  /** `while (advancement >= 1) { last = front; pop_front; advancement -= 1 }`:
      the pops come off the front, the last one becomes the last input, the
      accumulator ends in [0, 1), and the queue is never empty at a pop. */
  function Drain(q: seq<PlayerInput>, advancement: real, last: PlayerInput): (r: Playout)
    requires 0.0 <= advancement < |q| as real + 1.0
    ensures r.popped <= |q| && r.rest == q[r.popped..]
    ensures r.advancement == advancement - r.popped as real
    ensures 0.0 <= r.advancement < 1.0
    ensures r.last == if r.popped == 0 then last else q[r.popped - 1]
    decreases |q|
  {
    if advancement < 1.0 then Playout(0, q, advancement, last)
    else
      var r := Drain(q[1..], advancement - 1.0, q[0]);
      Playout(r.popped + 1, r.rest, r.advancement, r.last)
  }

  /** One slot's turn in `ServerTick`: play out its queue when the queue is
      not empty, then run the physics with the last input. */
  function TickPlayer(p: Player, physics: Physics): (r: Player)
    requires 0.0 <= p.advancement < 1.0
    ensures r.index == p.index && r.name == p.name && r.peer == p.peer
    ensures 0.0 <= r.advancement < 1.0
    ensures r.body == physics(p.body, r.lastInput, NetTick)
    ensures p.inputBuffer == [] ==>
              r.inputBuffer == [] && r.advancement == p.advancement && r.lastInput == p.lastInput
    ensures var k := |p.inputBuffer| - |r.inputBuffer|;
            p.inputBuffer != [] ==>
              && 0 <= k
              && r.inputBuffer == p.inputBuffer[k..]
              && r.advancement == p.advancement + PlayoutIncrement(|p.inputBuffer|) - k as real
              && r.lastInput == if k == 0 then p.lastInput else p.inputBuffer[k - 1]
  {
    var played :=
      if p.inputBuffer == [] then p
      else
        var d := Drain(p.inputBuffer, p.advancement + PlayoutIncrement(|p.inputBuffer|), p.lastInput);
        p.(inputBuffer := d.rest, advancement := d.advancement, lastInput := d.last);
    played.(body := physics(played.body, played.lastInput, NetTick))
  }

  /** The playout never stalls: within two ticks a non-empty queue loses
      at least one input, since every increment is at least 0.8. */
  lemma TwoTicksPop(p: Player, physics: Physics)
    requires 0.0 <= p.advancement < 1.0 && p.inputBuffer != []
    ensures |TickPlayer(TickPlayer(p, physics), physics).inputBuffer| < |p.inputBuffer|
  {
    var q := TickPlayer(p, physics);
    if |q.inputBuffer| == |p.inputBuffer| {
      assert q.inputBuffer == p.inputBuffer;
      assert 0.8 <= PlayoutIncrement(|p.inputBuffer|);
      assert 0.8 <= q.advancement;
      var r := TickPlayer(q, physics);
      assert |r.inputBuffer| < |q.inputBuffer|;
    }
  }

  /** Every slot's accumulator lies in [0, 1). */
  predicate Playable(g: GameData)
  {
    forall i | 0 <= i < |g.players| :: 0.0 <= g.players[i].advancement < 1.0
  }

  /** `ServerTick`: the u32 tick index goes up by one (wrapping), every slot
      (connected or not) plays out and moves, then every connected player
      gets its position packet, in roster order. */
  function ServerTick(g: GameData, physics: Physics): (r: Outcome)
    requires Playable(g)
    ensures r.game.tickIndex == (g.tickIndex + 1) % 0x1_0000_0000
    ensures |r.game.players| == |g.players|
    ensures forall i | 0 <= i < |g.players| :: r.game.players[i] == TickPlayer(g.players[i], physics)
    ensures r.sends == SendToConnected(r.game.players, p => BuildPlayerPositionPacket(r.game, p))
  {
    var tick := (g.tickIndex + 1) % 0x1_0000_0000;
    var players := seq(|g.players|, i requires 0 <= i < |g.players| => TickPlayer(g.players[i], physics));
    var game := GameData(tick, players);
    Outcome(game, SendToConnected(players, p => BuildPlayerPositionPacket(game, p)))
  }

  // ---------------------------------------------------------------------
  // The event loop

  datatype Event =
    | PeerConnect(peer: PeerId)
    | PeerDisconnect(peer: PeerId)
    | PeerTimeout(peer: PeerId)
    | PacketReceive(peer: PeerId, msg: Bytes)
    | TickDue

  /** The events the source handles without dereferencing a missing slot
      or reading past a message. */
  predicate Enabled(g: GameData, e: Event)
  {
    match e
    case PeerConnect(_) => true
    case PeerDisconnect(peer) => HasPeer(g.players, peer)
    case PeerTimeout(peer) => HasPeer(g.players, peer)
    case PacketReceive(peer, msg) => HasPeer(g.players, peer) && Readable(msg)
    case TickDue => true
  }

  /** Connecting keeps every slot's index equal to its position: a new
      slot is appended at the end with the old size as its index. */
  lemma ConnectKeepsValid(g: GameData, peer: PeerId, startPos: Vec3)
    requires Valid(g)
    ensures Valid(OnConnect(g, peer, startPos).game)
    ensures |g.players| <= |OnConnect(g, peer, startPos).game.players|
  {
    var ps := TakeSlot(g.players, peer, startPos);
    var k := FindPeer(g.players, None);
    forall i | 0 <= i < |ps|
      ensures ps[i].index == i && 0.0 <= ps[i].advancement < 1.0 && ps[i].name == []
    {
      if i != k {
        assert ps[i] == g.players[i];
      }
    }
    assert Valid(g.(players := ps));
  }

  lemma DisconnectKeepsValid(g: GameData, peer: PeerId)
    requires Valid(g) && HasPeer(g.players, peer)
    ensures Valid(OnDisconnect(g, peer).game)
    ensures |OnDisconnect(g, peer).game.players| == |g.players|
  {
    var ps := OnDisconnect(g, peer).game.players;
    var k := FindPeer(g.players, Some(peer));
    assert forall i | 0 <= i < |ps| && i != k :: ps[i] == g.players[i];
  }

  lemma ReceiveKeepsValid(g: GameData, peer: PeerId, msg: Bytes)
    requires Valid(g) && HasPeer(g.players, peer) && Readable(msg)
    ensures Valid(OnReceive(g, peer, msg))
    ensures |OnReceive(g, peer, msg).players| == |g.players|
  {
  }

  /** A tick keeps the roster and its indices, and brings every
      accumulator back into [0, 1). */
  lemma TickKeepsValid(g: GameData, physics: Physics)
    requires Valid(g)
    ensures Playable(g)
    ensures Valid(ServerTick(g, physics).game)
    ensures |ServerTick(g, physics).game.players| == |g.players|
  {
  }

  /** One event: TIMEOUT is handled exactly as DISCONNECT. */
  function Step(g: GameData, e: Event, startPos: Vec3, physics: Physics): (r: Outcome)
    requires Valid(g) && Enabled(g, e)
    ensures Valid(r.game)
    ensures |g.players| <= |r.game.players|
  {
    match e
    case PeerConnect(peer) =>
      ConnectKeepsValid(g, peer, startPos);
      OnConnect(g, peer, startPos)
    case PeerDisconnect(peer) =>
      DisconnectKeepsValid(g, peer);
      OnDisconnect(g, peer)
    case PeerTimeout(peer) =>
      DisconnectKeepsValid(g, peer);
      OnDisconnect(g, peer)
    case PacketReceive(peer, msg) =>
      ReceiveKeepsValid(g, peer, msg);
      Outcome(OnReceive(g, peer, msg), [])
    case TickDue =>
      TickKeepsValid(g, physics);
      ServerTick(g, physics)
  }

  /** The TIMEOUT case falls through into the DISCONNECT case: both
      events have the same effect and the same sends. */
  lemma TimeoutIsDisconnect(g: GameData, peer: PeerId, startPos: Vec3, physics: Physics)
    requires Valid(g) && HasPeer(g.players, peer)
    ensures Step(g, PeerTimeout(peer), startPos, physics) == Step(g, PeerDisconnect(peer), startPos, physics)
  {
  }

  /** The state after a sequence of events, or `None` when one of them
      would make the source dereference a missing slot or read past a
      message. */
  function Run(g: GameData, es: seq<Event>, startPos: Vec3, physics: Physics): (r: Option<GameData>)
    requires Valid(g)
    ensures r.Some? ==> Valid(r.value) && |g.players| <= |r.value.players|
    decreases |es|
  {
    if es == [] then Some(g)
    else if !Enabled(g, es[0]) then None
    else Run(Step(g, es[0], startPos, physics).game, es[1..], startPos, physics)
  }

  // ---------------------------------------------------------------------
  // Input indices

  /** No queued input and no last input carries a non-zero index. */
  predicate InputsUnindexed(g: GameData)
  {
    forall i | 0 <= i < |g.players| ::
      && g.players[i].lastInput.index == 0
      && forall j | 0 <= j < |g.players[i].inputBuffer| :: g.players[i].inputBuffer[j].index == 0
  }

  lemma ConnectKeepsUnindexed(g: GameData, peer: PeerId, startPos: Vec3)
    requires InputsUnindexed(g)
    ensures InputsUnindexed(OnConnect(g, peer, startPos).game)
  {
    var ps := TakeSlot(g.players, peer, startPos);
    var k := FindPeer(g.players, None);
    forall i | 0 <= i < |ps| && i != k
      ensures ps[i] == g.players[i]
    {
    }
    assert InputsUnindexed(g.(players := ps));
  }

  lemma DisconnectKeepsUnindexed(g: GameData, peer: PeerId)
    requires HasPeer(g.players, peer) && InputsUnindexed(g)
    ensures InputsUnindexed(OnDisconnect(g, peer).game)
  {
    var ps := OnDisconnect(g, peer).game.players;
    var k := FindPeer(g.players, Some(peer));
    assert forall i | 0 <= i < |ps| && i != k :: ps[i] == g.players[i];
  }

  /** A received input is queued with the index 0 the decoder gives it. */
  lemma ReceiveKeepsUnindexed(g: GameData, peer: PeerId, msg: Bytes)
    requires HasPeer(g.players, peer) && Readable(msg) && InputsUnindexed(g)
    ensures InputsUnindexed(OnReceive(g, peer, msg))
  {
    var ps := OnReceive(g, peer, msg).players;
    var k := FindPeer(g.players, Some(peer));
    assert forall i | 0 <= i < |ps| && i != k :: ps[i] == g.players[i];
    var p := g.players[k];
    forall j | 0 <= j < |ps[k].inputBuffer|
      ensures ps[k].inputBuffer[j].index == 0
    {
      if j < |p.inputBuffer| {
        assert ps[k].inputBuffer[j] == ps[k].inputBuffer[..|p.inputBuffer|][j];
      }
    }
  }

  /** A tick only moves inputs from the queue into the last input. */
  lemma TickKeepsUnindexed(g: GameData, physics: Physics)
    requires Valid(g) && InputsUnindexed(g)
    ensures InputsUnindexed(ServerTick(g, physics).game)
  {
    TickKeepsValid(g, physics);
    var r := ServerTick(g, physics).game;
    forall i | 0 <= i < |r.players|
      ensures r.players[i].lastInput.index == 0
      ensures forall j | 0 <= j < |r.players[i].inputBuffer| :: r.players[i].inputBuffer[j].index == 0
    {
      TickPlayerKeepsUnindexed(g.players[i], physics);
    }
  }

  /** One slot's playout keeps a suffix of its queue and takes its last
      input from that queue, so no index other than 0 appears. */
  lemma TickPlayerKeepsUnindexed(p: Player, physics: Physics)
    requires 0.0 <= p.advancement < 1.0
    requires p.lastInput.index == 0
    requires forall j | 0 <= j < |p.inputBuffer| :: p.inputBuffer[j].index == 0
    ensures TickPlayer(p, physics).lastInput.index == 0
    ensures forall j | 0 <= j < |TickPlayer(p, physics).inputBuffer| :: TickPlayer(p, physics).inputBuffer[j].index == 0
  {
    var r := TickPlayer(p, physics);
    var k := |p.inputBuffer| - |r.inputBuffer|;
    forall j | 0 <= j < |r.inputBuffer|
      ensures r.inputBuffer[j].index == 0
    {
      if p.inputBuffer != [] {
        assert r.inputBuffer[j] == p.inputBuffer[k + j];
      }
    }
  }

  /** The input packet never carries the index, so every input the server
      queues has index 0, and so does every last input. */
  lemma StepKeepsInputsUnindexed(g: GameData, e: Event, startPos: Vec3, physics: Physics)
    requires Valid(g) && Enabled(g, e) && InputsUnindexed(g)
    ensures InputsUnindexed(Step(g, e, startPos, physics).game)
  {
    match e
    case PeerConnect(peer) => ConnectKeepsUnindexed(g, peer, startPos);
    case PeerDisconnect(peer) => DisconnectKeepsUnindexed(g, peer);
    case PeerTimeout(peer) => DisconnectKeepsUnindexed(g, peer);
    case PacketReceive(peer, msg) => ReceiveKeepsUnindexed(g, peer, msg);
    case TickDue => TickKeepsUnindexed(g, physics);
  }

  /** From the initial state, whatever the events, no input index other
      than 0 ever reaches a player, so every position packet reports 0 as
      the last input index. */
  lemma {:induction false} RunKeepsInputsUnindexed(g: GameData, es: seq<Event>, startPos: Vec3, physics: Physics)
    requires Valid(g) && InputsUnindexed(g)
    ensures var r := Run(g, es, startPos, physics);
            r.Some? ==> (InputsUnindexed(r.value)
                         && forall i | 0 <= i < |r.value.players| ::
                              PositionPacketFor(r.value, r.value.players[i]).lastInputIndex == 0)
    decreases |es|
  {
    if es != [] && Enabled(g, es[0]) {
      StepKeepsInputsUnindexed(g, es[0], startPos, physics);
      RunKeepsInputsUnindexed(Step(g, es[0], startPos, physics).game, es[1..], startPos, physics);
    }
  }

  /** The initial state satisfies both invariants. */
  lemma InitialInvariants()
    ensures Valid(Initial) && InputsUnindexed(Initial)
  {
  }
}
