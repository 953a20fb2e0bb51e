/** Every interleaving of joins, announcements, movements, mob ticks, failures and leaves
    over the shared registry (`loadstone-net/src/play.rs`), and what each client holds
    after replaying the packets it was sent.

    One step of the transition system is one critical section or one socket write of one
    connection, so any two connections may be interleaved at that grain. */
module PlayProtocol {
  import opened EntityIds
  import opened Options
  import opened Play

  // --------------------------------------------------------------- the client

  /** What a client knows about an entity: where it stands, and of a player also who it is and whether its
      skin layers came. */
  datatype Seen = PlayerSeen(uuid: Uuid, pos: Pos, skinned: bool) | MobSeen(pos: Pos)

  /** A client's tab list, its entity table, the ids of the players removed so far, and whether a
      bundle is open. */
  datatype Client = Client(tab: set<Uuid>, entities: map<int, Seen>, gone: set<int>, bundle: bool)

  const FRESH_CLIENT: Client := Client({}, map[], {}, false)

  /** A client receiving one packet. `None` when the packet breaks the protocol: a player spawn outside a
      bundle or without a tab entry, a mob spawned twice, a mention of an entity that is not there, the removal
      of a mob that is not there, and anything about a player's id once it was removed. (Removing a
      player the client never met is allowed; `PlaySafety.KnownIffTold` says when that happens.) */
  function Deliver(c: Client, p: Packet): Option<Client> {
    match p
    case Delimiter => Some(c.(bundle := !c.bundle))
    case PlayerInfo(u) => Some(c.(tab := c.tab + {u}))
    case SpawnPlayer(id, u, pos) =>
      if c.bundle && u in c.tab && id !in c.gone
      then Some(c.(entities := c.entities[id := PlayerSeen(u, pos, false)]))
      else None
    case SpawnMob(id, pos) =>
      if id in c.entities || id in c.gone then None else Some(c.(entities := c.entities[id := MobSeen(pos)]))
    case Metadata(id) =>
      if id !in c.entities then None
      else if c.entities[id].MobSeen? then Some(c)
      else Some(c.(entities := c.entities[id := c.entities[id].(skinned := true)]))
    case Look(id) => if id in c.entities then Some(c) else None
    case HeadRotation(id) => if id in c.entities then Some(c) else None
    case SyncPosition(id, pos) =>
      if id in c.entities then Some(c.(entities := c.entities[id := c.entities[id].(pos := pos)])) else None
    case PlayerRemove(u) => Some(c.(tab := c.tab - {u}))
    case RemoveEntities(ids) =>
      if forall id | id in ids :: id !in c.gone && (id in c.entities || id < MOB_ID_BASE)
      then Some(c.(entities := c.entities - ids, gone := c.gone + PlayerIds(ids)))
      else None
    case Other => Some(c)
  }

  function PlayerIds(ids: set<int>): set<int> { set id | id in ids && id < MOB_ID_BASE }

  function Replay(c: Client, packets: seq<Packet>): Option<Client>
    decreases |packets|
  {
    if |packets| == 0 then Some(c)
    else match Deliver(c, packets[0])
      case None => None
      case Some(c') => Replay(c', packets[1..])
  }

  lemma {:induction false} ReplayAppend(c: Client, a: seq<Packet>, b: seq<Packet>)
    ensures Replay(c, a).None? ==> Replay(c, a + b).None?
    ensures Replay(c, a).Some? ==> Replay(c, a + b) == Replay(Replay(c, a).value, b)
    decreases |a|
  {
    hide Deliver;
    if |a| == 0 {
      assert a + b == b;
    } else {
      assert (a + b)[1..] == a[1..] + b;
      if Deliver(c, a[0]).Some? {
        ReplayAppend(Deliver(c, a[0]).value, a[1..], b);
      }
    }
  }

  lemma ReplayCons(c: Client, p: Packet, rest: seq<Packet>)
    requires Deliver(c, p).Some?
    ensures Replay(c, [p] + rest) == Replay(Deliver(c, p).value, rest)
  {
    hide Deliver;
    assert ([p] + rest)[1..] == rest;
  }

  // --------------------------------------------------------------- the system

  /** A connection's own progress: what it has written to its socket, the direct writes still to
      make before it announces itself, the entity ids in its snapshot, a movement it has
      recorded in the registry but not yet broadcast, and where each mob it shows was when it was last told. */
  datatype Conn = Conn(wire: seq<Packet>, todo: seq<Packet>, snapshot: set<int>, announced: bool,
                       pending: Option<Pos>, mobs: map<int, Pos>)

  datatype System = System(nextId: int, players: Players, conns: map<Uuid, Conn>)

  const INITIAL: System := System(0, map[], map[])

  datatype Step =
    | Join(uuid: Uuid, existing: seq<Existing>)
    | WriteDirect(uuid: Uuid)
    | WriteOther(uuid: Uuid)
    | Announce(uuid: Uuid)
    | Drain(uuid: Uuid)
    | Record(uuid: Uuid, at: Pos, look: Option<Facing>)
    | Face(uuid: Uuid, facing: Facing)
    | Publish(uuid: Uuid)
    | Turn(uuid: Uuid, packet: Packet)
    | Tick(mobs: seq<Mob>)
    | Leave(uuid: Uuid)

  function SnapshotIds(existing: seq<Existing>): set<int> { set e | e in existing :: e.entityId }

  /** When a step can be taken. A uuid has one live connection at a time, mob ids start at
      `MOB_ID_BASE`, and fewer than `MOB_ID_BASE` players have joined. */
  ghost predicate Enabled(s: System, step: Step, spawn: Pos) {
    match step
    case Join(u, existing) =>
      u !in s.players && u !in s.conns && s.nextId < MOB_ID_BASE
      && IsSnapshot(existing, s.players[u := SharedPlayer(s.nextId, spawn, LEVEL, {}, [])], u)
    case WriteDirect(u) => Live(s, u) && |s.conns[u].todo| > 0
    case WriteOther(u) => Live(s, u)
    case Announce(u) => Live(s, u) && s.conns[u].todo == [] && !s.conns[u].announced
    case Drain(u) => Live(s, u) && s.conns[u].announced && |s.players[u].out| > 0
    case Record(u, _, _) => Live(s, u) && s.conns[u].announced && s.conns[u].pending.None?
    case Face(u, _) => Live(s, u) && s.conns[u].announced
    case Publish(u) => Live(s, u) && s.conns[u].pending.Some?
    case Turn(u, p) =>
      Live(s, u) && s.conns[u].announced
      && (p == Look(s.players[u].entityId) || p == HeadRotation(s.players[u].entityId) || p == Other)
    case Tick(mobs) =>
      s.conns.Keys == s.players.Keys && DistinctMobs(mobs) && forall m :: m in mobs ==> m.id >= MOB_ID_BASE
    case Leave(u) => Live(s, u)
  }

  ghost predicate Live(s: System, u: Uuid) { u in s.players && u in s.conns }

  ghost function AfterJoin(s: System, u: Uuid, existing: seq<Existing>, spawn: Pos): System {
    System(s.nextId + 1,
           s.players[u := SharedPlayer(s.nextId, spawn, LEVEL, {}, [])],
           s.conns[u := Conn([], [PlayerInfo(u)] + Introduction(existing), SnapshotIds(existing), false, None, map[])])
  }

  ghost function AfterWriteDirect(s: System, u: Uuid): System
    requires Live(s, u) && |s.conns[u].todo| > 0
  {
    var c := s.conns[u];
    s.(conns := s.conns[u := c.(wire := c.wire + [c.todo[0]], todo := c.todo[1..])])
  }

  ghost function AfterWriteOther(s: System, u: Uuid): System
    requires Live(s, u)
  {
    s.(conns := s.conns[u := s.conns[u].(wire := s.conns[u].wire + [Other])])
  }

  ghost function AfterAnnounce(s: System, u: Uuid, spawn: Pos): System
    requires Live(s, u)
  {
    s.(players := Sent(s.players, Some(u), JoinFrames(u, s.players[u].entityId, spawn)),
       conns := s.conns[u := s.conns[u].(announced := true)])
  }

  ghost function AfterDrain(s: System, u: Uuid): System
    requires Live(s, u) && |s.players[u].out| > 0
  {
    var c, p := s.conns[u], s.players[u];
    s.(conns := s.conns[u := c.(wire := c.wire + [p.out[0]])], players := s.players[u := p.(out := p.out[1..])])
  }

  ghost function AfterRecord(s: System, u: Uuid, at: Pos, look: Option<Facing>): System
    requires Live(s, u)
  {
    s.(players := s.players[u := Moved(s.players[u], Some(at), look)],
       conns := s.conns[u := s.conns[u].(pending := Some(at))])
  }

  ghost function AfterFace(s: System, u: Uuid, look: Facing): System
    requires Live(s, u)
  {
    s.(players := s.players[u := Moved(s.players[u], None, Some(look))])
  }

  ghost function AfterPublish(s: System, u: Uuid): System
    requires Live(s, u) && s.conns[u].pending.Some?
  {
    s.(players := Sent(s.players, Some(u), [SyncPosition(s.players[u].entityId, s.conns[u].pending.value)]),
       conns := s.conns[u := s.conns[u].(pending := None)])
  }

  ghost function AfterTurn(s: System, u: Uuid, p: Packet): System { s.(players := Sent(s.players, Some(u), [p])) }

  /** Where a client at `at` last saw each mob in view: a mob that is new to it or moved where it is now, any
      other where it was. */
  ghost function Shown(mobs: seq<Mob>, at: Pos, told: map<int, Pos>): map<int, Pos>
    requires DistinctMobs(mobs)
  {
    SameMob(mobs);
    map m | m in mobs && InView(m, at) :: m.id := if m.moved || m.id !in told then m.pos else told[m.id]
  }

  lemma SameMob(mobs: seq<Mob>)
    requires DistinctMobs(mobs)
    ensures forall m, n :: m in mobs && n in mobs && m.id == n.id ==> m == n
  {
    forall m, n | m in mobs && n in mobs && m.id == n.id
      ensures m == n
    {
      var i :| 0 <= i < |mobs| && mobs[i] == m;
      var j :| 0 <= j < |mobs| && mobs[j] == n;
    }
  }

  ghost function AfterTick(s: System, mobs: seq<Mob>): System
    requires DistinctMobs(mobs) && s.conns.Keys == s.players.Keys
  {
    if |mobs| == 0 then s
    else System(s.nextId, Ticked(s.players, mobs),
                map u | u in s.conns :: s.conns[u].(mobs := Shown(mobs, s.players[u].pos, s.conns[u].mobs)))
  }

  ghost function AfterLeave(s: System, u: Uuid): System
    requires Live(s, u)
  {
    s.(players := Sent(s.players - {u}, None, LeaveFrames(u, s.players[u].entityId)), conns := s.conns - {u})
  }

  ghost function Next(s: System, step: Step, spawn: Pos): System
    requires Enabled(s, step, spawn)
  {
    match step
    case Join(u, existing) => AfterJoin(s, u, existing, spawn)
    case WriteDirect(u) => AfterWriteDirect(s, u)
    case WriteOther(u) => AfterWriteOther(s, u)
    case Announce(u) => AfterAnnounce(s, u, spawn)
    case Drain(u) => AfterDrain(s, u)
    case Record(u, at, look) => AfterRecord(s, u, at, look)
    case Face(u, look) => AfterFace(s, u, look)
    case Publish(u) => AfterPublish(s, u)
    case Turn(u, p) => AfterTurn(s, u, p)
    case Tick(mobs) => AfterTick(s, mobs)
    case Leave(u) => AfterLeave(s, u)
  }

  /** The state after a run from `INITIAL`; `None` if some step was not enabled. */
  ghost function Run(steps: seq<Step>, spawn: Pos): Option<System>
    decreases |steps|
  {
    if |steps| == 0 then Some(INITIAL)
    else
      var before, step := Run(steps[..|steps| - 1], spawn), steps[|steps| - 1];
      if before.Some? && Enabled(before.value, step, spawn) then Some(Next(before.value, step, spawn)) else None
  }

  // ------------------------------------------------------------- the invariant

  /** Everything client `c` is going to receive: written, still to be written, and queued. */
  ghost function Stream(s: System, c: Uuid): seq<Packet>
    requires Live(s, c)
  {
    s.conns[c].wire + s.conns[c].todo + s.players[c].out
  }

  /** Client `c` is told of player `p`: by its own snapshot or by `p`'s announcement. */
  ghost predicate ToldOf(s: System, c: Uuid, p: Uuid)
    requires Live(s, c)
  {
    && p != c
    && Live(s, p)
    && (s.conns[p].announced || s.players[p].entityId in s.conns[c].snapshot)
  }

  ghost predicate SeesPlayer(s: System, k: Client, p: Uuid)
    requires Live(s, p)
  {
    var id := s.players[p].entityId;
    && id in k.entities
    && k.entities[id].PlayerSeen?
    && k.entities[id].uuid == p && k.entities[id].skinned
    && (s.conns[p].pending.None? ==> k.entities[id].pos == s.players[p].pos)
  }

  /** The client `k` holds exactly the players `c` was told of, with their skins and at their published
      positions, and exactly the mobs the server has on record for it, where it was last told they are. */
  ghost predicate Mirrors(s: System, c: Uuid, k: Client)
    requires Live(s, c)
  {
    && !k.bundle
    && (forall p :: p in k.tab <==> p == c || ToldOf(s, c, p))
    && (forall p :: ToldOf(s, c, p) ==> SeesPlayer(s, k, p))
    && (forall id :: id in k.entities ==>
          match k.entities[id]
          case MobSeen(_) => id in s.players[c].visible
          case PlayerSeen(u, _, _) => ToldOf(s, c, u) && s.players[u].entityId == id)
    && s.conns[c].mobs.Keys == s.players[c].visible
    && (forall id :: id in s.players[c].visible ==> id in k.entities && k.entities[id] == MobSeen(s.conns[c].mobs[id]))
  }

  /** A removed player's id belongs to nobody, and never will again. */
  ghost predicate StayGone(s: System, k: Client) {
    forall id :: id in k.gone ==> id < s.nextId && forall p :: p in s.players ==> s.players[p].entityId != id
  }

  ghost predicate ClientInv(s: System, c: Uuid)
    requires Live(s, c)
  {
    && Replay(FRESH_CLIENT, Stream(s, c)).Some?
    && Mirrors(s, c, Replay(FRESH_CLIENT, Stream(s, c)).value)
    && StayGone(s, Replay(FRESH_CLIENT, Stream(s, c)).value)
  }

  /** One player's registry entry and connection are consistent. */
  ghost predicate Sound(p: SharedPlayer, c: Conn, nextId: int, spawn: Pos) {
    && 0 <= p.entityId < nextId
    && (forall id :: id in p.visible ==> id >= MOB_ID_BASE)
    && (forall id :: id in c.snapshot ==> id < nextId)
    && (c.announced ==> c.todo == [])
    && (!c.announced ==> p.pos == spawn && c.pending.None?)
    && (c.pending.Some? ==> c.pending.value == p.pos)
  }

  ghost predicate DistinctIds(players: Players) {
    forall u, v :: u in players && v in players && u != v ==> players[u].entityId != players[v].entityId
  }

  ghost predicate Bookkeeping(s: System, spawn: Pos) {
    && s.conns.Keys == s.players.Keys
    && 0 <= s.nextId <= MOB_ID_BASE
    && (forall u :: u in s.players ==> Sound(s.players[u], s.conns[u], s.nextId, spawn))
    && DistinctIds(s.players)
  }

  ghost predicate Inv(s: System, spawn: Pos) {
    && Bookkeeping(s, spawn)
    && (forall c :: c in s.players ==> ClientInv(s, c))
  }

  // ------------------------------------------------------------ small streams

  /** Introducing players the client does not hold yet, one after the other. */
  lemma {:induction false} ReplayIntroduceAll(k: Client, existing: seq<Existing>)
    requires forall i, j :: 0 <= i < j < |existing| ==> existing[i].entityId != existing[j].entityId
    requires forall i :: 0 <= i < |existing| ==> existing[i].entityId !in k.entities && existing[i].entityId !in k.gone
    requires k.bundle
    ensures Replay(k, IntroduceAll(existing)).Some?
    ensures var k' := Replay(k, IntroduceAll(existing)).value;
            && k'.bundle == k.bundle && k'.gone == k.gone
            && (forall u :: u in k'.tab <==> u in k.tab || exists i :: 0 <= i < |existing| && existing[i].uuid == u)
            && (forall i :: 0 <= i < |existing| ==>
                  existing[i].entityId in k'.entities
                  && k'.entities[existing[i].entityId] == PlayerSeen(existing[i].uuid, existing[i].pos, true))
            && (forall id :: id in k.entities ==> id in k'.entities && k'.entities[id] == k.entities[id])
            && (forall id :: id in k'.entities ==>
                  id in k.entities || exists i :: 0 <= i < |existing| && existing[i].entityId == id)
    decreases |existing|
  {
    if |existing| > 0 {
      var e := existing[0];
      var k1 := k.(tab := k.tab + {e.uuid}, entities := k.entities[e.entityId := PlayerSeen(e.uuid, e.pos, true)]);
      IntroduceOne(k, e, IntroduceAll(existing[1..]));
      ReplayIntroduceAll(k1, existing[1..]);
      var k' := Replay(k1, IntroduceAll(existing[1..])).value;
      forall u
        ensures u in k'.tab <==> u in k.tab || exists i :: 0 <= i < |existing| && existing[i].uuid == u
      {
        if i :| 0 <= i < |existing| && existing[i].uuid == u {
          assert i > 0 ==> existing[1..][i - 1].uuid == u;
        }
        if u in k'.tab && u !in k1.tab {
          var i :| 0 <= i < |existing[1..]| && existing[1..][i].uuid == u;
          assert existing[i + 1].uuid == u;
        }
      }
      forall i | 0 <= i < |existing|
        ensures existing[i].entityId in k'.entities
             && k'.entities[existing[i].entityId] == PlayerSeen(existing[i].uuid, existing[i].pos, true)
      {
        assert i > 0 ==> existing[1..][i - 1] == existing[i];
      }
      forall id | id in k'.entities && id !in k.entities
        ensures exists i :: 0 <= i < |existing| && existing[i].entityId == id
      {
        if id != e.entityId {
          var i :| 0 <= i < |existing[1..]| && existing[1..][i].entityId == id;
          assert existing[i + 1].entityId == id;
        }
      }
    }
  }

  lemma IntroduceOne(k: Client, e: Existing, rest: seq<Packet>)
    requires k.bundle && e.entityId !in k.gone
    ensures Replay(k, IntroducePlayer(e) + rest)
         == Replay(k.(tab := k.tab + {e.uuid}, entities := k.entities[e.entityId := PlayerSeen(e.uuid, e.pos, true)]),
                   rest)
  {
    hide Replay, Deliver;
    var k1 := k.(tab := k.tab + {e.uuid});
    var k2 := k1.(entities := k1.entities[e.entityId := PlayerSeen(e.uuid, e.pos, false)]);
    DeliverIntroduction(k, e);
    assert IntroducePlayer(e) + rest
      == [PlayerInfo(e.uuid)] + ([SpawnPlayer(e.entityId, e.uuid, e.pos)] + ([Metadata(e.entityId)] + rest));
    ReplayCons(k, PlayerInfo(e.uuid), [SpawnPlayer(e.entityId, e.uuid, e.pos)] + ([Metadata(e.entityId)] + rest));
    ReplayCons(k1, SpawnPlayer(e.entityId, e.uuid, e.pos), [Metadata(e.entityId)] + rest);
    ReplayCons(k2, Metadata(e.entityId), rest);
  }

  lemma DeliverIntroduction(k: Client, e: Existing)
    requires k.bundle && e.entityId !in k.gone
    ensures var k1 := k.(tab := k.tab + {e.uuid});
            var k2 := k1.(entities := k1.entities[e.entityId := PlayerSeen(e.uuid, e.pos, false)]);
            var k3 := k1.(entities := k1.entities[e.entityId := PlayerSeen(e.uuid, e.pos, true)]);
            && Deliver(k, PlayerInfo(e.uuid)) == Some(k1)
            && Deliver(k1, SpawnPlayer(e.entityId, e.uuid, e.pos)) == Some(k2)
            && Deliver(k2, Metadata(e.entityId)) == Some(k3)
  {
    var spawned := k.entities[e.entityId := PlayerSeen(e.uuid, e.pos, false)];
    assert spawned[e.entityId := PlayerSeen(e.uuid, e.pos, true)]
      == k.entities[e.entityId := PlayerSeen(e.uuid, e.pos, true)];
  }

  lemma ReplayOne(k: Client, p: Packet)
    ensures Replay(k, [p]) == Deliver(k, p)
  {
    hide Deliver;
    assert [p][1..] == [];
  }

  /** A broadcast join adds the player to the tab list and to the entity table. */
  lemma ReplayJoin(k: Client, u: Uuid, id: int, spawn: Pos)
    requires !k.bundle && id !in k.gone
    ensures Replay(k, JoinFrames(u, id, spawn))
         == Some(k.(tab := k.tab + {u}, entities := k.entities[id := PlayerSeen(u, spawn, true)]))
  {
    var k0 := k.(bundle := !k.bundle);
    var k1 := k0.(tab := k.tab + {u}, entities := k.entities[id := PlayerSeen(u, spawn, true)]);
    assert JoinFrames(u, id, spawn) == [Delimiter] + (IntroducePlayer(Existing(u, id, spawn)) + [Delimiter]);
    ReplayCons(k, Delimiter, IntroducePlayer(Existing(u, id, spawn)) + [Delimiter]);
    IntroduceOne(k0, Existing(u, id, spawn), [Delimiter]);
    ReplayOne(k1, Delimiter);
  }

  lemma ReplayLeave(k: Client, u: Uuid, id: int)
    requires id < MOB_ID_BASE && id !in k.gone
    ensures Replay(k, LeaveFrames(u, id))
         == Some(k.(tab := k.tab - {u}, entities := k.entities - {id}, gone := k.gone + {id}))
  {
    hide Replay;
    var k1 := k.(tab := k.tab - {u});
    assert LeaveFrames(u, id) == [PlayerRemove(u)] + [RemoveEntities({id})];
    ReplayCons(k, PlayerRemove(u), [RemoveEntities({id})]);
    ReplayOne(k1, RemoveEntities({id}));
    assert PlayerIds({id}) == {id};
  }

  /** What a client knows of a mob in view once it is told. */
  function SeenNow(m: Mob, before: set<int>, k: Client): Seen
    requires m.id in before ==> m.id in k.entities
  {
    MobSeen(if m.moved || m.id !in before then m.pos else k.entities[m.id].pos)
  }

  lemma {:induction false} ReplayMobFrames(k: Client, mobs: seq<Mob>, before: set<int>, at: Pos)
    requires DistinctMobs(mobs)
    requires forall m :: m in mobs && m.id in before ==> m.id in k.entities && k.entities[m.id].MobSeen?
    requires forall m :: m in mobs && InView(m, at) && m.id !in before ==> m.id !in k.entities && m.id !in k.gone
    ensures Replay(k, AllMobFrames(mobs, before, at)).Some?
    ensures var k' := Replay(k, AllMobFrames(mobs, before, at)).value;
            && k'.tab == k.tab && k'.bundle == k.bundle && k'.gone == k.gone
            && (forall m :: m in mobs && InView(m, at) ==>
                  m.id in k'.entities && k'.entities[m.id] == SeenNow(m, before, k))
            && (forall id :: id in k.entities && id !in VisibleIds(mobs, at) ==>
                  id in k'.entities && k'.entities[id] == k.entities[id])
            && (forall id :: id in k'.entities ==> id in k.entities || id in VisibleIds(mobs, at))
    decreases |mobs|
  {
    hide InView, VisibleIds;
    if |mobs| == 0 {
      NoneVisible(at);
    } else {
      var m := mobs[0];
      var k1 := AfterMob(k, m, before, at);
      ReplayMob(k, m, before, at, AllMobFrames(mobs[1..], before, at));
      forall n | n in mobs[1..]
        ensures n in mobs && n.id != m.id
      {
        var i :| 0 <= i < |mobs[1..]| && mobs[1..][i] == n;
        assert mobs[i + 1] == n;
      }
      ReplayMobFrames(k1, mobs[1..], before, at);
      VisibleCons(mobs, at);
      assert forall n :: n in mobs <==> n == m || n in mobs[1..];
    }
  }

  lemma NoneVisible(at: Pos)
    ensures VisibleIds([], at) == {}
  {}

  lemma VisibleCons(mobs: seq<Mob>, at: Pos)
    requires |mobs| > 0
    ensures VisibleIds(mobs, at) == (if InView(mobs[0], at) then {mobs[0].id} else {}) + VisibleIds(mobs[1..], at)
  {
    hide InView;
    assert forall n :: n in mobs <==> n == mobs[0] || n in mobs[1..];
  }

  /** A client after it was told of one mob. */
  function AfterMob(k: Client, m: Mob, before: set<int>, at: Pos): Client
    requires m.id in before ==> m.id in k.entities
  {
    if InView(m, at) then k.(entities := k.entities[m.id := SeenNow(m, before, k)]) else k
  }

  lemma ReplayMob(k: Client, m: Mob, before: set<int>, at: Pos, rest: seq<Packet>)
    requires m.id in before ==> m.id in k.entities && k.entities[m.id].MobSeen?
    requires InView(m, at) && m.id !in before ==> m.id !in k.entities && m.id !in k.gone
    ensures Replay(k, MobFrames(m, before, at) + rest) == Replay(AfterMob(k, m, before, at), rest)
  {
    hide InView, Replay;
    var spawn, sync := [SpawnMob(m.id, m.pos)], [SyncPosition(m.id, m.pos)];
    if !InView(m, at) {
      assert [] + rest == rest;
    } else {
      var tail := if m.moved then sync + rest else rest;
      var k1 := if m.id in before then k else k.(entities := k.entities[m.id := MobSeen(m.pos)]);
      assert MobFrames(m, before, at) + rest == if m.id in before then tail else spawn + tail;
      if m.id !in before {
        ReplayCons(k, SpawnMob(m.id, m.pos), tail);
      }
      if m.moved {
        ReplayCons(k1, SyncPosition(m.id, m.pos), rest);
        assert k1.entities[m.id := MobSeen(m.pos)] == k.entities[m.id := MobSeen(m.pos)];
      } else if m.id in before {
        assert k.entities[m.id := k.entities[m.id]] == k.entities;
      }
    }
  }

  /** A tick takes a client that holds exactly the mobs `before` to one that holds exactly the visible ones: those
      that are new to it or moved where they are now, the others where they were. */
  lemma ReplayTick(k: Client, mobs: seq<Mob>, before: set<int>, at: Pos)
    requires DistinctMobs(mobs) && forall m :: m in mobs ==> m.id >= MOB_ID_BASE
    requires forall id :: id in before ==> id >= MOB_ID_BASE && id in k.entities && k.entities[id].MobSeen?
    requires forall id :: id in k.entities && id >= MOB_ID_BASE ==> id in before
    requires forall id :: id in k.gone ==> id < MOB_ID_BASE
    ensures Replay(k, TickFrames(mobs, before, at)).Some?
    ensures var k', now := Replay(k, TickFrames(mobs, before, at)).value, VisibleIds(mobs, at);
            && k'.tab == k.tab && k'.bundle == k.bundle && k'.gone == k.gone
            && (forall m :: m in mobs && InView(m, at) ==>
                  && m.id in k'.entities
                  && k'.entities[m.id] == MobSeen(if m.moved || m.id !in before then m.pos else k.entities[m.id].pos))
            && (forall id :: id in k.entities && id !in before ==>
                  id in k'.entities && k'.entities[id] == k.entities[id])
            && (forall id :: id in k'.entities ==>
                  id in now || (id in k.entities && id !in before && k'.entities[id] == k.entities[id]))
  {
    hide InView, AllMobFrames, Replay;
    var now := VisibleIds(mobs, at);
    var removed := before - now;
    var rest := AllMobFrames(mobs, before, at);
    var k1 := k.(entities := k.entities - removed);
    if removed == {} {
      assert k1.entities == k.entities;
      assert [] + rest == rest;
    } else {
      assert PlayerIds(removed) == {} && k.gone + {} == k.gone;
      ReplayCons(k, RemoveEntities(removed), rest);
    }
    var shown := before * now;
    OnlyVisibleMatter(mobs, before, shown, at);
    SameMob(mobs);
    forall m | m in mobs && m.id in shown
      ensures m.id in k1.entities && k1.entities[m.id].MobSeen?
    {}
    ReplayMobFrames(k1, mobs, shown, at);
  }

  /** Which mobs out of view a client knew before makes no difference to its frames. */
  lemma {:induction false} OnlyVisibleMatter(mobs: seq<Mob>, before: set<int>, shown: set<int>, at: Pos)
    requires forall m :: m in mobs && InView(m, at) ==> (m.id in before <==> m.id in shown)
    ensures AllMobFrames(mobs, before, at) == AllMobFrames(mobs, shown, at)
    decreases |mobs|
  {
    hide InView;
    if |mobs| > 0 {
      assert mobs[0] in mobs && forall m :: m in mobs[1..] ==> m in mobs;
      OnlyVisibleMatter(mobs[1..], before, shown, at);
    }
  }
}
