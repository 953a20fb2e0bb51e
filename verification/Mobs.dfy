/** Mob motion (`loadstone-world/src/entity.rs`) in exact reals. Yaw is in degrees; `sqrt`, `sin`,
    `cos` and `atan2` are parameters with their laws. */
module Mobs {
  import opened Options
  import opened Reals
  import opened MobSeed

  const GRAVITY: real := 0.08
  const MAX_FALL: real := 3.0
  const WALK_SPEED: real := 0.12
  const LEASH_RADIUS: real := 12.0
  const CHASE_RADIUS: real := 16.0

  datatype Kind = Pig | Cow | Sheep | Chicken | Zombie {
    function Width(): (w: real)
      ensures w > 0.0
    {
      if Chicken? then 0.4 else if Zombie? then 0.6 else 0.9
    }

    function Height(): (h: real)
      ensures h > 0.5
    {
      match this
      case Chicken => 0.7
      case Pig => 0.9
      case Sheep => 1.3
      case Cow => 1.4
      case Zombie => 1.95
    }

    function WalkSpeed(): (s: real)
      ensures 0.0 < s < LEASH_RADIUS
    {
      if Zombie? then 0.14 else WALK_SPEED
    }

    predicate Hostile() { Zombie? }
  }

  datatype Vec2 = Vec2(x: real, z: real)

  function Dot(a: Vec2, b: Vec2): real { a.x * b.x + a.z * b.z }

  /** Which blocks are solid (not air). */
  type Solid = (int, int, int) -> bool

  /** The foreign arithmetic; angles are in degrees. */
  datatype Trig = Trig(sqrt: real -> real, sin: real -> real, cos: real -> real, atan2: (real, real) -> real)

  ghost predicate IsTrig(t: Trig) {
    && (forall r: real :: r >= 0.0 ==> t.sqrt(r) >= 0.0 && t.sqrt(r) * t.sqrt(r) == r)
    && (forall a: real :: t.sin(a) * t.sin(a) + t.cos(a) * t.cos(a) == 1.0)
    && (forall s: real, c: real :: s * s + c * c == 1.0 ==> t.sin(t.atan2(s, c)) == s && t.cos(t.atan2(s, c)) == c)
  }

  /** Where a yaw points: 0 looks along +Z. */
  function Direction(yaw: real, t: Trig): Vec2 { Vec2(-t.sin(yaw), t.cos(yaw)) }

  datatype Mob = Mob(
    kind: Kind,
    x: real, y: real, z: real,
    vx: real, vy: real, vz: real,
    yaw: real,
    onGround: bool,
    moved: bool,
    home: Vec2,
    walking: bool,
    wanderTicks: nat,
    rng: bv64)

  // ------------------------------------------------------------------ collision

  /** Some solid block lies in the integer ranges the box spans. */
  ghost predicate Collides(solid: Solid, kind: Kind, x: real, y: real, z: real) {
    var half := kind.Width() / 2.0;
    exists bx, bh, bz ::
      && (x - half).Floor <= bx <= (x + half).Floor
      && y.Floor <= bh <= (y + kind.Height() - 0.000001).Floor
      && (z - half).Floor <= bz <= (z + half).Floor
      && solid(bx, bh, bz)
  }

  /** The unit cell of a block meets the closed interval from `lo` to `hi`. */
  predicate Meets(b: int, lo: real, hi: real) { b as real <= hi && lo < b as real + 1.0 }

  /** The geometric meaning: the mob's box meets the cell of some solid block. */
  ghost predicate Overlaps(solid: Solid, kind: Kind, x: real, y: real, z: real) {
    var half := kind.Width() / 2.0;
    exists bx, bh, bz ::
      && solid(bx, bh, bz)
      && Meets(bx, x - half, x + half)
      && Meets(bh, y, y + kind.Height() - 0.000001)
      && Meets(bz, z - half, z + half)
  }

  lemma MeetsIsRange(b: int, lo: real, hi: real)
    ensures Meets(b, lo, hi) <==> lo.Floor <= b <= hi.Floor
  {}

  lemma CollidesIsOverlap(solid: Solid, kind: Kind, x: real, y: real, z: real)
    ensures Collides(solid, kind, x, y, z) <==> Overlaps(solid, kind, x, y, z)
  {
    hide Meets, Kind.Width, Kind.Height;
    var half, top := kind.Width() / 2.0, y + kind.Height() - 0.000001;
    forall bx: int, bh: int, bz: int
      ensures solid(bx, bh, bz) ==>
        (Meets(bx, x - half, x + half) <==> (x - half).Floor <= bx <= (x + half).Floor)
        && (Meets(bh, y, top) <==> y.Floor <= bh <= top.Floor)
        && (Meets(bz, z - half, z + half) <==> (z - half).Floor <= bz <= (z + half).Floor)
    {
      MeetsIsRange(bx, x - half, x + half);
      MeetsIsRange(bh, y, top);
      MeetsIsRange(bz, z - half, z + half);
    }
  }

  ghost predicate Blocked(m: Mob, solid: Solid) { Collides(solid, m.kind, m.x, m.y, m.z) }

  // ------------------------------------------------------------ what a step does

  /** Turns toward `d`, unless it is too short to have a direction. */
  function Face(m: Mob, d: Vec2, t: Trig): Mob {
    var length := t.sqrt(Dot(d, d));
    if length > 0.000001 then m.(yaw := t.atan2(-d.x / length, d.z / length)) else m
  }

  /** The first nearest target strictly inside the chase radius, among the first `n`. */
  function Nearest(m: Mob, targets: seq<Vec2>, n: nat): (r: (real, Option<Vec2>))
    requires n <= |targets|
  {
    if n == 0 then (CHASE_RADIUS * CHASE_RADIUS, None)
    else
      var (best, found) := Nearest(m, targets, n - 1);
      var d := Offset(m, targets[n - 1]);
      if Dot(d, d) < best then (Dot(d, d), Some(d)) else (best, found)
  }

  /** Where a target stands from a mob. */
  function Offset(m: Mob, target: Vec2): Vec2 { Vec2(target.x - m.x, target.z - m.z) }

  /** The fold picks the first target at the smallest distance strictly inside the chase radius, or none
      when all of them are at least that far. */
  lemma {:induction false} NearestIsFirstNearest(m: Mob, targets: seq<Vec2>, n: nat)
    requires n <= |targets|
    ensures var (best, found) := Nearest(m, targets, n);
      && best <= CHASE_RADIUS * CHASE_RADIUS
      && (forall k :: 0 <= k < n ==> best <= Dot(Offset(m, targets[k]), Offset(m, targets[k])))
      && (found.None? <==> best == CHASE_RADIUS * CHASE_RADIUS)
      && (found.Some? ==> exists k :: 0 <= k < n && IsFirstAt(m, targets, k, best, found.value))
  {
    hide Dot;
    if n > 0 {
      NearestIsFirstNearest(m, targets, n - 1);
      var (best0, found0) := Nearest(m, targets, n - 1);
      var d := Offset(m, targets[n - 1]);
      if Dot(d, d) < best0 {
        assert IsFirstAt(m, targets, n - 1, Dot(d, d), d);
      }
    }
  }

  /** Target `k` is the first at squared distance `best`, at offset `d`. */
  ghost predicate IsFirstAt(m: Mob, targets: seq<Vec2>, k: nat, best: real, d: Vec2)
    requires k < |targets|
  {
    && d == Offset(m, targets[k]) && Dot(d, d) == best
    && forall j :: 0 <= j < k ==> Dot(Offset(m, targets[j]), Offset(m, targets[j])) > best
  }

  function Chase(m: Mob, targets: seq<Vec2>): Option<Vec2> {
    if m.kind.Hostile() then Nearest(m, targets, |targets|).1 else None
  }

  function Roll(r: bv64): nat { ((r >> 16) & 0xFFFF_FFFF) as nat }

  /** A new roll of the dice when the countdown is over. */
  function Countdown(m: Mob): Mob {
    var m1 := if m.wanderTicks > 0 then m else
      var rng := NextRng(m.rng);
      var roll := Roll(rng);
      var turned := if roll % 4 == 0 then m.(walking := false)
                    else m.(walking := true, yaw := (roll / 256 % 360) as real);
      turned.(rng := rng, wanderTicks := 40 + roll / 65536 % 80);
    m1.(wanderTicks := m1.wanderTicks - 1)
  }

  /** Wandering, and home again when too far out. */
  function Wander(m: Mob, t: Trig): Mob {
    var m2 := Countdown(m);
    var d := Vec2(m.home.x - m.x, m.home.z - m.z);
    if Dot(d, d) > LEASH_RADIUS * LEASH_RADIUS then Face(m2.(walking := true), d, t) else m2
  }

  ghost function MoveX(m: Mob, solid: Solid, dx: real): Mob {
    if dx == 0.0 then m
    else if Collides(solid, m.kind, m.x + dx, m.y, m.z) then m.(vx := 0.0)
    else m.(x := m.x + dx)
  }

  ghost function MoveZ(m: Mob, solid: Solid, dz: real): Mob {
    if dz == 0.0 then m
    else if Collides(solid, m.kind, m.x, m.y, m.z + dz) then m.(vz := 0.0)
    else m.(z := m.z + dz)
  }

  ghost function MoveHorizontal(m: Mob, solid: Solid, dx: real, dz: real): Mob { MoveZ(MoveX(m, solid, dx), solid, dz) }

  ghost function MoveVertical(m: Mob, solid: Solid, dy: real): Mob {
    if dy == 0.0 then m
    else if Collides(solid, m.kind, m.x, m.y + dy, m.z) then
      m.(onGround := m.onGround || dy < 0.0, vy := 0.0)
    else m.(y := m.y + dy, onGround := false)
  }

  function Fall(vy: real): real { if vy - GRAVITY < -MAX_FALL then -MAX_FALL else vy - GRAVITY }

  /** The velocity of one tick: along the yaw or none, and falling. */
  function Strode(m: Mob, chasing: bool, t: Trig): Mob {
    var speed, ahead := m.kind.WalkSpeed(), Direction(m.yaw, t);
    if m.walking || chasing then m.(vx := ahead.x * speed, vz := ahead.z * speed, vy := Fall(m.vy))
    else m.(vx := 0.0, vz := 0.0, vy := Fall(m.vy))
  }

  /** Chooses where to go and how fast, before anything moves. */
  function Steer(m: Mob, targets: seq<Vec2>, t: Trig): Mob {
    var chase := Chase(m, targets);
    var m1 := if chase.Some? then Face(m, chase.value, t) else Wander(m, t);
    Strode(m1, chase.Some?, t)
  }

  /** Steering and motion, without the broadcast flag. */
  ghost function Advance(m: Mob, solid: Solid, targets: seq<Vec2>, t: Trig): Mob {
    var m1 := Steer(m, targets, t);
    var m2 := MoveHorizontal(m1, solid, m1.vx, m1.vz);
    MoveVertical(m2, solid, m2.vy)
  }

  /** Whether position or yaw changed enough to broadcast. */
  predicate HasMoved(before: Mob, after: Mob) {
    || Abs(after.x - before.x) > 0.0001
    || Abs(after.y - before.y) > 0.0001
    || Abs(after.z - before.z) > 0.0001
    || Abs(after.yaw - before.yaw) > 0.5
  }

  /** One tick of one mob. */
  ghost function Step(m: Mob, solid: Solid, targets: seq<Vec2>, t: Trig): Mob {
    var m' := Advance(m, solid, targets, t);
    m'.(moved := HasMoved(m, m'))
  }

  // ------------------------------------------------------------------ the code

  class Entity {
    const id: int
    const uuid: seq<bv8>
    const kind: Kind
    const home: Vec2
    var x: real
    var y: real
    var z: real
    var vx: real
    var vy: real
    var vz: real
    var yaw: real
    var onGround: bool
    var moved: bool
    var walking: bool
    var wanderTicks: nat
    var rng: bv64

    function Value(): Mob
      reads this
    {
      Mob(kind, x, y, z, vx, vy, vz, yaw, onGround, moved, home, walking, wanderTicks, rng)
    }

    constructor (id: int, kind: Kind, x: real, y: real, z: real, seed: bv64)
      ensures this.id == id && uuid == UuidOf(seed, id)
      ensures Value() == Spawned(kind, x, y, z, FirstRng(seed, id))
    {
      hide UuidOf, FirstRng;
      var drawn, rest := Identity(seed, id);
      this.id, this.kind, uuid := id, kind, drawn;
      this.x, this.y, this.z := x, y, z;
      vx, vy, vz := 0.0, 0.0, 0.0;
      yaw := 0.0;
      onGround, moved, walking, wanderTicks := false, false, false, 0;
      home := Vec2(x, z);
      rng := rest;
    }

    method NextU32() returns (roll: nat)
      modifies this`rng
      ensures rng == NextRng(old(rng)) && roll == Roll(rng)
    {
      hide XorLeft13, XorRight7, XorLeft17, Roll;
      var r := rng;
      r := XorLeft13(r);
      r := XorRight7(r);
      r := XorLeft17(r);
      rng := r;
      roll := Roll(r);
    }

    method TurnTo(d: Vec2, t: Trig)
      modifies this`yaw
      ensures Value() == Face(old(Value()), d, t)
    {
      var length := t.sqrt(Dot(d, d));
      if length > 0.000001 {
        yaw := t.atan2(-d.x / length, d.z / length);
      }
    }

    method NearestTarget(targets: seq<Vec2>) returns (found: Option<Vec2>)
      ensures found == Nearest(Value(), targets, |targets|).1
    {
      var best := CHASE_RADIUS * CHASE_RADIUS;
      found := None;
      for n := 0 to |targets|
        invariant (best, found) == Nearest(Value(), targets, n)
      {
        var d := Vec2(targets[n].x - x, targets[n].z - z);
        var distance := Dot(d, d);
        if distance < best {
          best := distance;
          found := Some(d);
        }
      }
    }

    /** Three nested loops over the blocks the box spans. */
    method CollidesAt(solid: Solid, x: real, y: real, z: real) returns (hit: bool)
      ensures hit <==> Collides(solid, kind, x, y, z)
    {
      var half := kind.Width() / 2.0;
      var minX, maxX := (x - half).Floor, (x + half).Floor;
      var minY, maxY := y.Floor, (y + kind.Height() - 0.000001).Floor;
      var minZ, maxZ := (z - half).Floor, (z + half).Floor;
      var bx := minX;
      while bx <= maxX
        invariant forall i, j, k :: minX <= i < bx && i <= maxX && minY <= j <= maxY && minZ <= k <= maxZ ==>
          !solid(i, j, k)
      {
        var bh := minY;
        while bh <= maxY
          invariant forall j, k :: minY <= j < bh && j <= maxY && minZ <= k <= maxZ ==> !solid(bx, j, k)
        {
          var bz := minZ;
          while bz <= maxZ
            invariant forall k :: minZ <= k < bz && k <= maxZ ==> !solid(bx, bh, k)
          {
            if solid(bx, bh, bz) {
              return true;
            }
            bz := bz + 1;
          }
          bh := bh + 1;
        }
        bx := bx + 1;
      }
      hit := false;
    }

    method Move(solid: Solid, dx: real, dz: real)
      modifies this`x, this`z, this`vx, this`vz
      ensures Value() == MoveHorizontal(old(Value()), solid, dx, dz)
    {
      hide Collides;
      if dx != 0.0 {
        var hit := CollidesAt(solid, x + dx, y, z);
        if hit {
          vx := 0.0;
        } else {
          x := x + dx;
        }
      }
      assert Value() == MoveX(old(Value()), solid, dx);
      if dz != 0.0 {
        var hit := CollidesAt(solid, x, y, z + dz);
        if hit {
          vz := 0.0;
        } else {
          z := z + dz;
        }
      }
    }

    method Drop(solid: Solid, dy: real)
      modifies this`y, this`vy, this`onGround
      ensures Value() == MoveVertical(old(Value()), solid, dy)
    {
      hide Collides;
      if dy == 0.0 {
        return;
      }
      var hit := CollidesAt(solid, x, y + dy, z);
      if hit {
        if dy < 0.0 {
          onGround := true;
        }
        vy := 0.0;
      } else {
        y := y + dy;
        onGround := false;
      }
    }

    /** The dice, when the countdown is over. */
    method CountDown()
      modifies this`walking, this`yaw, this`wanderTicks, this`rng
      ensures Value() == Countdown(old(Value()))
    {
      hide NextRng, Roll;
      if wanderTicks == 0 {
        var roll := NextU32();
        if roll % 4 == 0 {
          walking := false;
        } else {
          walking := true;
          yaw := (roll / 256 % 360) as real;
        }
        wanderTicks := 40 + roll / 65536 % 80;
      }
      wanderTicks := wanderTicks - 1;
    }

    method WanderOn(t: Trig)
      modifies this`walking, this`yaw, this`wanderTicks, this`rng
      ensures Value() == Wander(old(Value()), t)
    {
      hide Countdown, Face, Dot;
      CountDown();
      var d := Vec2(home.x - x, home.z - z);
      if Dot(d, d) > LEASH_RADIUS * LEASH_RADIUS {
        walking := true;
        TurnTo(d, t);
      }
    }

    /** The first half of `step`: turns and sets the velocity. */
    method SteerOn(targets: seq<Vec2>, t: Trig)
      modifies this`walking, this`yaw, this`wanderTicks, this`rng, this`vx, this`vy, this`vz
      ensures Value() == Steer(old(Value()), targets, t)
    {
      hide Wander, Face, Nearest, Dot, Kind.WalkSpeed;
      var chase: Option<Vec2> := None;
      if kind.Hostile() {
        chase := NearestTarget(targets);
      }
      if chase.Some? {
        TurnTo(chase.value, t);
      } else {
        WanderOn(t);
      }
      Stride(chase.Some?, t);
    }

    method Stride(chasing: bool, t: Trig)
      modifies this`vx, this`vy, this`vz
      ensures Value() == Strode(old(Value()), chasing, t)
    {
      var speed := kind.WalkSpeed();
      if walking || chasing {
        vx := -t.sin(yaw) * speed;
        vz := t.cos(yaw) * speed;
      } else {
        vx := 0.0;
        vz := 0.0;
      }
      vy := Fall(vy);
    }

    /** `step`: one server tick. */
    method Tick(solid: Solid, targets: seq<Vec2>, t: Trig)
      modifies this
      ensures Value() == Step(old(Value()), solid, targets, t)
    {
      hide Steer, MoveHorizontal, MoveVertical;
      ghost var before := Value();
      var beforeX, beforeY, beforeZ, beforeYaw := x, y, z, yaw;
      SteerOn(targets, t);
      Move(solid, vx, vz);
      Drop(solid, vy);
      assert Value() == Advance(before, solid, targets, t);
      moved := Abs(x - beforeX) > 0.0001 || Abs(y - beforeY) > 0.0001 || Abs(z - beforeZ) > 0.0001
        || Abs(yaw - beforeYaw) > 0.5;
    }
  }

  function Spawned(kind: Kind, x: real, y: real, z: real, rng: bv64): Mob {
    Mob(kind, x, y, z, 0.0, 0.0, 0.0, 0.0, false, false, Vec2(x, z), false, 0, rng)
  }
}
