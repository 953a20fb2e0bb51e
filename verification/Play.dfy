/** The shared player registry and what its broadcasts put into each client's channel
    (`loadstone-net/src/play.rs`).

    The pure definitions say what each operation does to the registry; class
    `ServerState` performs them with the loops of the source and is proved to agree. */
module Play {
  import opened Options

  type Uuid = nat

  const VIEW_DISTANCE: int := 1

  datatype Pos = Pos(x: real, y: real, z: real)

  datatype Facing = Facing(yaw: real, pitch: real)

  const LEVEL: Facing := Facing(0.0, 0.0)

  /** The packets that concern the tab list or an entity; `Other` stands for all the rest
      (login, chunks, chat, block changes, keep-alives). */
  datatype Packet =
    | Delimiter
    | PlayerInfo(uuid: Uuid)
    | SpawnPlayer(id: int, uuid: Uuid, pos: Pos)
    | SpawnMob(id: int, pos: Pos)
    | Metadata(id: int)
    | SyncPosition(id: int, pos: Pos)
    | Look(id: int)
    | HeadRotation(id: int)
    | PlayerRemove(uuid: Uuid)
    | RemoveEntities(ids: set<int>)
    | Other

  /** `SharedPlayer`; `out` is the content of the channel it sends into. */
  datatype SharedPlayer = SharedPlayer(entityId: int, pos: Pos, facing: Facing, visible: set<int>, out: seq<Packet>)

  type Players = map<Uuid, SharedPlayer>

  /** A mob as the tick saw it after stepping the simulation. */
  datatype Mob = Mob(id: int, pos: Pos, moved: bool)

  /** A snapshot of a player who was there when a newcomer joined. */
  datatype Existing = Existing(uuid: Uuid, entityId: int, pos: Pos)

  // ------------------------------------------------------------ definitions

  function ChunkOf(pos: Pos): (int, int) { ((pos.x / 16.0).Floor, (pos.z / 16.0).Floor) }

  function Abs(n: int): int { if n < 0 then -n else n }

  /** Whether a mob's chunk is inside the loaded view of a player at `at`. */
  predicate InView(mob: Mob, at: Pos) {
    var (cx, cz), (mx, mz) := ChunkOf(at), ChunkOf(mob.pos);
    Abs(mx - cx) <= VIEW_DISTANCE && Abs(mz - cz) <= VIEW_DISTANCE
  }

  /** Every player but `except` gets `packets` appended to its channel. */
  function Sent(players: Players, except: Option<Uuid>, packets: seq<Packet>): (r: Players)
    ensures r.Keys == players.Keys
  {
    map u | u in players :: if except == Some(u) then players[u] else players[u].(out := players[u].out + packets)
  }

  function IntroducePlayer(e: Existing): seq<Packet> {
    [PlayerInfo(e.uuid), SpawnPlayer(e.entityId, e.uuid, e.pos), Metadata(e.entityId)]
  }

  function IntroduceAll(existing: seq<Existing>): seq<Packet> {
    if |existing| == 0 then [] else IntroducePlayer(existing[0]) + IntroduceAll(existing[1..])
  }

  /** The direct writes of `send_existing_players`. */
  function Introduction(existing: seq<Existing>): seq<Packet> {
    if |existing| == 0 then [] else [Delimiter] + IntroduceAll(existing) + [Delimiter]
  }

  function JoinFrames(uuid: Uuid, id: int, spawn: Pos): seq<Packet> {
    [Delimiter, PlayerInfo(uuid), SpawnPlayer(id, uuid, spawn), Metadata(id), Delimiter]
  }

  function LeaveFrames(uuid: Uuid, id: int): seq<Packet> { [PlayerRemove(uuid), RemoveEntities({id})] }

  function VisibleIds(mobs: seq<Mob>, at: Pos): (ids: set<int>)
    ensures forall id :: id in ids <==> exists m :: m in mobs && m.id == id && InView(m, at)
  {
    set m | m in mobs && InView(m, at) :: m.id
  }

  /** What the tick sends one player about one mob. */
  function MobFrames(mob: Mob, before: set<int>, at: Pos): seq<Packet> {
    if !InView(mob, at) then [] else
      (if mob.id in before then [] else [SpawnMob(mob.id, mob.pos)]) +
      (if mob.moved then [SyncPosition(mob.id, mob.pos)] else [])
  }

  function AllMobFrames(mobs: seq<Mob>, before: set<int>, at: Pos): seq<Packet> {
    if |mobs| == 0 then [] else MobFrames(mobs[0], before, at) + AllMobFrames(mobs[1..], before, at)
  }

  function TickFrames(mobs: seq<Mob>, before: set<int>, at: Pos): seq<Packet> {
    var removed := before - VisibleIds(mobs, at);
    (if removed == {} then [] else [RemoveEntities(removed)]) + AllMobFrames(mobs, before, at)
  }

  function TickPlayer(p: SharedPlayer, mobs: seq<Mob>): SharedPlayer {
    p.(visible := VisibleIds(mobs, p.pos), out := p.out + TickFrames(mobs, p.visible, p.pos))
  }

  /** A tick without mobs returns before it touches the registry. */
  function Ticked(players: Players, mobs: seq<Mob>): (r: Players)
    ensures r.Keys == players.Keys
  {
    if |mobs| == 0 then players else map u | u in players :: TickPlayer(players[u], mobs)
  }

  /** A movement with a new position, a new look, or both; identity, visible mobs and channel stay. */
  function Moved(p: SharedPlayer, pos: Option<Pos>, look: Option<Facing>): SharedPlayer {
    p.(pos := if pos.Some? then pos.value else p.pos, facing := if look.Some? then look.value else p.facing)
  }

  predicate DistinctMobs(mobs: seq<Mob>) {
    forall i, j :: 0 <= i < j < |mobs| ==> mobs[i].id != mobs[j].id
  }

  /** `existing` lists every other player once, as registered. */
  ghost predicate IsSnapshot(existing: seq<Existing>, players: Players, uuid: Uuid) {
    && (forall i :: 0 <= i < |existing| ==>
          var e := existing[i];
          e.uuid != uuid && e.uuid in players && e.entityId == players[e.uuid].entityId && e.pos == players[e.uuid].pos)
    && (forall i, j :: 0 <= i < j < |existing| ==> existing[i].uuid != existing[j].uuid)
    && (forall u :: u in players && u != uuid ==> exists i :: 0 <= i < |existing| && existing[i].uuid == u)
  }

  // ------------------------------------------------------------- the registry

  class ServerState {
    var nextEntityId: int
    var players: Players

    constructor ()
      ensures nextEntityId == 0 && players == map[]
    {
      nextEntityId := 0;
      players := map[];
    }

    /** The locked block of `play_phase`: register, then snapshot everyone else. */
    method Register(uuid: Uuid, spawn: Pos) returns (entityId: int, existing: seq<Existing>)
      modifies this
      ensures entityId == old(nextEntityId) && nextEntityId == old(nextEntityId) + 1
      ensures players == old(players)[uuid := SharedPlayer(entityId, spawn, LEVEL, {}, [])]
      ensures IsSnapshot(existing, players, uuid)
    {
      entityId := nextEntityId;
      nextEntityId := nextEntityId + 1;
      players := players[uuid := SharedPlayer(entityId, spawn, LEVEL, {}, [])];
      existing := [];
      var todo := players.Keys - {uuid};
      while todo != {}
        invariant todo <= players.Keys - {uuid}
        invariant forall i :: 0 <= i < |existing| ==>
          var e := existing[i];
          e.uuid != uuid && e.uuid in players && e.uuid !in todo
          && e.entityId == players[e.uuid].entityId && e.pos == players[e.uuid].pos
        invariant forall i, j :: 0 <= i < j < |existing| ==> existing[i].uuid != existing[j].uuid
        invariant forall u :: u in players && u != uuid && u !in todo ==>
          exists i :: 0 <= i < |existing| && existing[i].uuid == u
        decreases todo
      {
        var u :| u in todo;
        todo := todo - {u};
        ghost var before := existing;
        existing := existing + [Existing(u, players[u].entityId, players[u].pos)];
        assert existing[|before|].uuid == u;
        forall v | v in players && v != uuid && v !in todo
          ensures exists i :: 0 <= i < |existing| && existing[i].uuid == v
        {
          if v != u {
            var i :| 0 <= i < |before| && before[i].uuid == v;
            assert existing[i].uuid == v;
          }
        }
      }
    }

    /** One player's channel takes the frames one by one. */
    method SendAll(uuid: Uuid, frames: seq<Packet>)
      requires uuid in players
      modifies this`players
      ensures players == old(players)[uuid := old(players)[uuid].(out := old(players)[uuid].out + frames)]
    {
      ghost var before := players;
      for k := 0 to |frames|
        invariant players.Keys == before.Keys && players[uuid] == before[uuid].(out := before[uuid].out + frames[..k])
        invariant forall u :: u in players && u != uuid ==> players[u] == before[u]
      {
        assert frames[..k + 1] == frames[..k] + [frames[k]];
        players := players[uuid := players[uuid].(out := players[uuid].out + [frames[k]])];
      }
      assert frames[..|frames|] == frames;
    }

    method BroadcastJoin(uuid: Uuid, id: int, spawn: Pos)
      modifies this`players
      ensures players == Sent(old(players), Some(uuid), JoinFrames(uuid, id, spawn))
    {
      hide JoinFrames;
      var frames := JoinFrames(uuid, id, spawn);
      var todo := players.Keys;
      ghost var before := players;
      while todo != {}
        invariant todo <= before.Keys == players.Keys
        invariant forall u :: u in players ==>
          players[u] == if u in todo || u == uuid then before[u] else before[u].(out := before[u].out + frames)
        decreases todo
      {
        var u :| u in todo;
        todo := todo - {u};
        if u != uuid {
          SendAll(u, frames);
        }
      }
      assert players == Sent(before, Some(uuid), frames);
    }

    method LeaveWorld(uuid: Uuid, id: int)
      modifies this`players
      ensures players == Sent(old(players) - {uuid}, None, LeaveFrames(uuid, id))
    {
      players := players - {uuid};
      var todo := players.Keys;
      ghost var before := players;
      while todo != {}
        invariant todo <= before.Keys == players.Keys
        invariant forall u :: u in players ==>
          players[u] == if u in todo then before[u] else before[u].(out := before[u].out + LeaveFrames(uuid, id))
        decreases todo
      {
        var u :| u in todo;
        todo := todo - {u};
        var out := players[u].out + [PlayerRemove(uuid)];
        out := out + [RemoveEntities({id})];
        assert out == before[u].out + LeaveFrames(uuid, id);
        players := players[u := players[u].(out := out)];
      }
      assert players == Sent(before, None, LeaveFrames(uuid, id));
    }

    method BroadcastExcept(source: Uuid, packet: Packet)
      modifies this`players
      ensures players == Sent(old(players), Some(source), [packet])
    {
      var todo := players.Keys;
      ghost var before := players;
      while todo != {}
        invariant todo <= before.Keys == players.Keys
        invariant forall u :: u in players ==>
          players[u] == if u in todo || u == source then before[u] else before[u].(out := before[u].out + [packet])
        decreases todo
      {
        var u :| u in todo;
        todo := todo - {u};
        if u != source {
          players := players[u := players[u].(out := players[u].out + [packet])];
        }
      }
      assert players == Sent(before, Some(source), [packet]);
    }

    method RecordMovement(uuid: Uuid, pos: Option<Pos>, look: Option<Facing>) returns (r: Option<(int, Pos, Facing)>)
      modifies this`players
      ensures uuid !in old(players) ==> r == None && players == old(players)
      ensures uuid in old(players) ==>
        && players == old(players)[uuid := Moved(old(players)[uuid], pos, look)]
        && r == Some((players[uuid].entityId, players[uuid].pos, players[uuid].facing))
        && players[uuid].pos == (if pos.Some? then pos.value else old(players)[uuid].pos)
        && players[uuid].facing == (if look.Some? then look.value else old(players)[uuid].facing)
    {
      if uuid !in players {
        return None;
      }
      var player := players[uuid];
      if pos.Some? {
        player := player.(pos := pos.value);
      }
      if look.Some? {
        player := player.(facing := look.value);
      }
      players := players[uuid := player];
      r := Some((player.entityId, player.pos, player.facing));
    }

    /** The streaming half of `tick_entities`, with the mobs the simulation step produced. */
    method TickEntities(mobs: seq<Mob>)
      modifies this`players
      ensures players == Ticked(old(players), mobs)
    {
      if |mobs| == 0 {
        return;
      }
      var todo := players.Keys;
      ghost var before := players;
      while todo != {}
        invariant todo <= before.Keys == players.Keys
        invariant forall u :: u in players ==>
          players[u] == if u in todo then before[u] else TickPlayer(before[u], mobs)
        decreases todo
      {
        var u :| u in todo;
        todo := todo - {u};
        var ticked := StreamMobs(players[u], mobs);
        players := players[u := ticked];
      }
      assert players == Ticked(before, mobs);
    }
  }

  lemma {:induction false} AllMobFramesSnoc(mobs: seq<Mob>, before: set<int>, at: Pos, k: nat)
    requires k < |mobs|
    ensures AllMobFrames(mobs[..k + 1], before, at)
      == AllMobFrames(mobs[..k], before, at) + MobFrames(mobs[k], before, at)
    decreases k
  {
    hide InView, MobFrames;
    if k == 0 {
      assert mobs[..1][1..] == [];
    } else {
      AllMobFramesSnoc(mobs[1..], before, at, k - 1);
      assert mobs[..k + 1][1..] == mobs[1..][..k];
      assert mobs[..k][1..] == mobs[1..][..k - 1];
    }
  }

  /** What one player is sent about one mob. */
  method StreamMob(out: seq<Packet>, mob: Mob, before: set<int>, at: Pos) returns (out': seq<Packet>)
    ensures out' == out + MobFrames(mob, before, at)
  {
    hide InView;
    out' := out;
    if InView(mob, at) {
      if mob.id !in before {
        out' := out' + [SpawnMob(mob.id, mob.pos)];
      }
      if mob.moved {
        out' := out' + [SyncPosition(mob.id, mob.pos)];
      }
    }
  }

  /** The body of the player loop in `tick_entities`. */
  method StreamMobs(player: SharedPlayer, mobs: seq<Mob>) returns (r: SharedPlayer)
    ensures r == TickPlayer(player, mobs)
  {
    hide InView, MobFrames, VisibleIds;
    var visible := VisibleIds(mobs, player.pos);
    var removed := player.visible - visible;
    var out := player.out;
    if removed != {} {
      out := out + [RemoveEntities(removed)];
    }
    ghost var start := out;
    assert mobs[..0] == [];
    for k := 0 to |mobs|
      invariant out == start + AllMobFrames(mobs[..k], player.visible, player.pos)
    {
      AllMobFramesSnoc(mobs, player.visible, player.pos, k);
      out := StreamMob(out, mobs[k], player.visible, player.pos);
    }
    assert mobs[..|mobs|] == mobs;
    r := player.(visible := visible, out := out);
  }

  // --------------------------------------------------------- the direct writes

  /** One client's socket; it accepts `budget` more packets and then fails. */
  class Connection {
    var wire: seq<Packet>
    var budget: nat

    constructor (budget: nat)
      ensures wire == [] && this.budget == budget
    {
      wire := [];
      this.budget := budget;
    }

    method WritePacket(packet: Packet) returns (ok: bool)
      modifies this
      ensures ok <==> old(budget) > 0
      ensures wire == if ok then old(wire) + [packet] else old(wire)
    {
      ok := budget > 0;
      if ok {
        wire := wire + [packet];
        budget := budget - 1;
      }
    }

    method WriteIntroduction(e: Existing) returns (ok: bool)
      modifies this
      ensures ok ==> wire == old(wire) + IntroducePlayer(e)
      ensures !ok ==> old(wire) <= wire <= old(wire) + IntroducePlayer(e)
    {
      ok := WritePacket(PlayerInfo(e.uuid));
      if ok {
        ok := WritePacket(SpawnPlayer(e.entityId, e.uuid, e.pos));
        if ok {
          ok := WritePacket(Metadata(e.entityId));
        }
      }
    }

    method WriteIntroductions(existing: seq<Existing>) returns (ok: bool)
      modifies this
      ensures ok ==> wire == old(wire) + IntroduceAll(existing)
      ensures !ok ==> old(wire) <= wire <= old(wire) + IntroduceAll(existing)
    {
      hide IntroduceAll, IntroducePlayer;
      ghost var start := wire;
      assert existing[..0] == [];
      IntroduceNone();
      for k := 0 to |existing|
        invariant wire == start + IntroduceAll(existing[..k])
      {
        IntroduceNext(existing, k);
        Associative(start, IntroduceAll(existing[..k]), IntroducePlayer(existing[k]));
        ok := WriteIntroduction(existing[k]);
        if !ok {
          PrefixOfIntroduction(start, existing, k);
          PrefixTransitive(start, start + IntroduceAll(existing[..k]), wire);
          PrefixTransitive(wire, start + IntroduceAll(existing[..k + 1]), start + IntroduceAll(existing));
          return;
        }
      }
      assert existing[..|existing|] == existing;
      ok := true;
    }

    /** `send_existing_players`: on success the whole introduction, on failure a prefix of it. */
    method SendExistingPlayers(existing: seq<Existing>) returns (ok: bool)
      modifies this
      ensures ok ==> wire == old(wire) + Introduction(existing)
      ensures !ok ==> old(wire) <= wire <= old(wire) + Introduction(existing)
    {
      hide IntroduceAll, IntroducePlayer;
      if |existing| == 0 {
        return true;
      }
      ghost var start, all := wire, IntroduceAll(existing);
      assert start + Introduction(existing) == start + [Delimiter] + all + [Delimiter];
      ok := WritePacket(Delimiter);
      if ok {
        ok := WriteIntroductions(existing);
        if ok {
          ok := WritePacket(Delimiter);
        } else {
          PrefixTransitive(start, start + [Delimiter], wire);
          PrefixTransitive(wire, start + [Delimiter] + all, start + [Delimiter] + all + [Delimiter]);
        }
      }
    }
  }

  lemma IntroduceNone()
    ensures IntroduceAll([]) == []
  {}

  lemma {:induction false} IntroduceAllAppend(a: seq<Existing>, b: seq<Existing>)
    ensures IntroduceAll(a + b) == IntroduceAll(a) + IntroduceAll(b)
  {
    if |a| == 0 {
      assert a + b == b;
    } else {
      assert (a + b)[1..] == a[1..] + b;
      IntroduceAllAppend(a[1..], b);
    }
  }

  lemma IntroduceNext(existing: seq<Existing>, k: nat)
    requires k < |existing|
    ensures IntroduceAll(existing[..k + 1]) == IntroduceAll(existing[..k]) + IntroducePlayer(existing[k])
  {
    hide IntroducePlayer, IntroduceAll;
    assert existing[..k + 1] == existing[..k] + [existing[k]];
    IntroduceAllAppend(existing[..k], [existing[k]]);
    IntroduceSingle(existing[k]);
  }

  lemma PrefixOfIntroduction(start: seq<Packet>, existing: seq<Existing>, k: nat)
    requires k < |existing|
    ensures start + IntroduceAll(existing[..k + 1]) <= start + IntroduceAll(existing)
  {
    hide IntroducePlayer, IntroduceAll;
    assert existing == existing[..k + 1] + existing[k + 1..];
    IntroduceAllAppend(existing[..k + 1], existing[k + 1..]);
    Associative(start, IntroduceAll(existing[..k + 1]), IntroduceAll(existing[k + 1..]));
  }

  lemma PrefixTransitive<T>(a: seq<T>, b: seq<T>, c: seq<T>)
    requires a <= b <= c
    ensures a <= c
  {}

  lemma Associative<T>(a: seq<T>, b: seq<T>, c: seq<T>)
    ensures a + (b + c) == a + b + c
  {}

  lemma IntroduceSingle(e: Existing)
    ensures IntroduceAll([e]) == IntroducePlayer(e)
  {
    hide IntroducePlayer;
    assert IntroduceAll([e][1..]) == [];
  }
}
