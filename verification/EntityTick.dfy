/** `tick_entities` of `loadstone-net/src/play.rs` as a whole: player positions in, one simulation step,
    and the stepped mobs streamed to every player. */
module EntityTick {
  import opened EntityIds
  import Play
  import Mobs
  import MobStore

  function Target(pos: Play.Pos): Mobs.Vec2 { Mobs.Vec2(pos.x, pos.z) }

  /** What the streaming half sees of a mob. */
  function Seen(id: int, m: Mobs.Mob): Play.Mob { Play.Mob(id, Play.Pos(m.x, m.y, m.z), m.moved) }

  /** `order` lists every player once. */
  ghost predicate Enumerates(order: seq<Play.Uuid>, players: set<Play.Uuid>) {
    && (forall i, j :: 0 <= i < j < |order| ==> order[i] != order[j])
    && (forall u :: u in order <==> u in players)
  }

  /** `targets` are the positions of the players, one for each, in that order. */
  ghost predicate Locates(targets: seq<Mobs.Vec2>, players: Play.Players, order: seq<Play.Uuid>) {
    && Enumerates(order, players.Keys)
    && |targets| == |order|
    && (forall i :: 0 <= i < |order| ==> order[i] in players && targets[i] == Target(players[order[i]].pos))
  }

  method Targets(players: Play.Players) returns (targets: seq<Mobs.Vec2>, ghost order: seq<Play.Uuid>)
    ensures Locates(targets, players, order)
    ensures forall i :: 0 <= i < |order| ==>
      targets[i].x == players[order[i]].pos.x && targets[i].z == players[order[i]].pos.z
  {
    targets, order := [], [];
    var todo := players.Keys;
    while todo != {}
      invariant todo <= players.Keys && Enumerates(order, players.Keys - todo)
      invariant |targets| == |order|
      invariant forall i :: 0 <= i < |order| ==> order[i] in players && targets[i] == Target(players[order[i]].pos)
      decreases todo
    {
      var u :| u in todo;
      todo := todo - {u};
      targets := targets + [Target(players[u].pos)];
      order := order + [u];
    }
    assert players.Keys - todo == players.Keys;
  }

  /** The mobs of a store, each once: what the simulation hands over meets what a tick of the shared
      world asks for, distinct ids from `MOB_ID_BASE` up. */
  ghost predicate Lists(mobs: seq<Play.Mob>, store: MobStore.EntityStore)
    reads store, store.mobs.Values
  {
    && Play.DistinctMobs(mobs)
    && (forall m :: m in mobs ==>
          m.id >= MOB_ID_BASE && m.id in store.mobs && m == Seen(m.id, store.mobs[m.id].Value()))
    && (forall id :: id in store.mobs ==> Seen(id, store.mobs[id].Value()) in mobs)
  }

  method Snapshot(store: MobStore.EntityStore) returns (mobs: seq<Play.Mob>)
    requires store.Valid()
    ensures Lists(mobs, store)
    ensures forall m :: m in mobs ==>
      var mob := store.mobs[m.id];
      m.pos.x == mob.x && m.pos.y == mob.y && m.pos.z == mob.z && m.moved == mob.moved
  {
    mobs := [];
    var todo := store.mobs.Keys;
    while todo != {}
      invariant todo <= store.mobs.Keys && Play.DistinctMobs(mobs)
      invariant forall m :: m in mobs ==>
        m.id >= MOB_ID_BASE && m.id in store.mobs && m.id !in todo && m == Seen(m.id, store.mobs[m.id].Value())
      invariant forall id :: id in store.mobs && id !in todo ==> Seen(id, store.mobs[id].Value()) in mobs
      decreases todo
    {
      var id := MobStore.Pick(todo);
      todo := todo - {id};
      mobs := mobs + [Seen(id, store.mobs[id].Value())];
    }
  }

  method TickEntities(state: Play.ServerState, store: MobStore.EntityStore, solid: Mobs.Solid, t: Mobs.Trig)
    returns (ghost targets: seq<Mobs.Vec2>, ghost order: seq<Play.Uuid>, ghost mobs: seq<Play.Mob>)
    requires store.Valid()
    modifies state`players, store.mobs.Values
    ensures store.Valid() && store.mobs == old(store.mobs)
    ensures old(state.players) == map[] ==>
      state.players == map[] && forall id :: id in store.mobs ==> store.mobs[id].Value() == old(store.mobs[id].Value())
    ensures old(state.players) != map[] ==>
      && Locates(targets, old(state.players), order)
      && (forall id :: id in store.mobs ==>
            store.mobs[id].Value() == Mobs.Step(old(store.mobs[id].Value()), solid, targets, t))
      && Lists(mobs, store)
      && state.players == Play.Ticked(old(state.players), mobs)
  {
    hide Mobs.Step, Play.Ticked, Locates, Seen;
    targets, order, mobs := [], [], [];
    if state.players == map[] {
      return;
    }
    var positions, listed := Targets(state.players);
    store.Tick(solid, positions, t);
    var stepped := Snapshot(store);
    state.TickEntities(stepped);
    targets, order, mobs := positions, listed, stepped;
  }
}
