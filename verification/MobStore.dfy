/** The shared set of simulated mobs (`EntityStore` of `loadstone-world/src/entity.rs`). */
module MobStore {
  import opened EntityIds
  import opened Mobs
  import opened MobSeed

  method Pick<T(!new)>(ids: set<T>) returns (id: T)
    requires ids != {}
    ensures id in ids
  {
    id :| id in ids;
  }

  class EntityStore {
    var nextId: int
    var mobs: map<int, Entity>

    /** Ids count up from `MOB_ID_BASE`, none is handed out twice, and every mob is its own object. */
    ghost predicate Valid()
      reads this, mobs.Values
    {
      && nextId >= MOB_ID_BASE
      && (forall id :: id in mobs ==> MOB_ID_BASE <= id < nextId && mobs[id].id == id)
      && (forall i, j :: i in mobs && j in mobs && i != j ==> mobs[i] != mobs[j])
    }

    constructor ()
      ensures Valid() && nextId == MOB_ID_BASE && mobs == map[]
    {
      nextId, mobs := MOB_ID_BASE, map[];
    }

    /** `spawn`: a new mob under the next id, its uuid and its generator drawn from the world seed. */
    method Spawn(kind: Kind, x: real, y: real, z: real, seed: bv64) returns (id: int)
      requires Valid()
      modifies this
      ensures Valid() && id == old(nextId) && id !in old(mobs)
      ensures mobs.Keys == old(mobs).Keys + {id} && (forall i :: i in old(mobs) ==> mobs[i] == old(mobs)[i])
      ensures fresh(mobs[id]) && mobs[id].uuid == UuidOf(seed, id)
      ensures mobs[id].Value() == Spawned(kind, x, y, z, FirstRng(seed, id))
    {
      hide UuidOf, FirstRng;
      id := nextId;
      nextId := nextId + 1;
      var mob := new Entity(id, kind, x, y, z, seed);
      mobs := mobs[id := mob];
    }

    /** Every mob takes one step; no id appears or disappears. */
    method Tick(solid: Solid, targets: seq<Vec2>, t: Trig)
      requires Valid()
      modifies mobs.Values
      ensures Valid() && mobs == old(mobs)
      ensures forall id :: id in mobs ==> mobs[id].Value() == Step(old(mobs[id].Value()), solid, targets, t)
    {
      hide Step;
      var todo := mobs.Keys;
      while todo != {}
        invariant todo <= mobs.Keys && Valid()
        invariant forall id :: id in mobs ==>
          mobs[id].Value()
            == if id in todo then old(mobs[id].Value()) else Step(old(mobs[id].Value()), solid, targets, t)
        decreases todo
      {
        var id := Pick(todo);
        todo := todo - {id};
        mobs[id].Tick(solid, targets, t);
      }
    }
  }
}
