/** What one step of a mob does, said of the step as a whole: where it turns, what it chases and how it moves. */
module MobMotion {
  import opened Options
  import opened Reals
  import opened Mobs
  import opened MobSeed
  import opened MobProofs

  // --------------------------------------------------------------------- motion

  function Scaled(v: Vec2, s: real): Vec2 { Vec2(v.x * s, v.z * s) }

  /** The horizontal way a mob wants to go: along its yaw at walk speed, or none. */
  function Wanted(m: Mob, going: bool, t: Trig): Vec2 {
    if going then Scaled(Vec2(-t.sin(m.yaw), t.cos(m.yaw)), m.kind.WalkSpeed()) else Vec2(0.0, 0.0)
  }

  /** A motion along one axis: the whole way where the box stays free, and nothing where it would not. */
  ghost predicate Axis(before: real, after: real, way: real, speed: real, free: bool) {
    && after == (if free then before + way else before)
    && speed == (if way == 0.0 || free then way else 0.0)
  }

  ghost predicate Grounded(before: Mob, after: Mob, way: real, free: bool) {
    after.onGround <==> if way == 0.0 then before.onGround else if free then false else before.onGround || way < 0.0
  }

  /** A step moves a mob along its new yaw when it walks or chases, axis by axis, and lets it fall by gravity up to
      the terminal speed; each motion happens in full or, when the box would meet a solid block, not at all and the
      speed is gone. The flag says whether it got anywhere or turned. */
  lemma StepMoves(m: Mob, solid: Solid, targets: seq<Vec2>, t: Trig)
    ensures var m' := Step(m, solid, targets, t);
      var w := Wanted(m', m'.walking || Chase(m, targets).Some?, t);
      var fall := if m.vy - GRAVITY < -MAX_FALL then -MAX_FALL else m.vy - GRAVITY;
      && Axis(m.x, m'.x, w.x, m'.vx, !Overlaps(solid, m.kind, m.x + w.x, m.y, m.z))
      && Axis(m.z, m'.z, w.z, m'.vz, !Overlaps(solid, m.kind, m'.x, m.y, m.z + w.z))
      && Axis(m.y, m'.y, fall, m'.vy, !Overlaps(solid, m.kind, m'.x, m.y + fall, m'.z))
      && Grounded(m, m', fall, !Overlaps(solid, m.kind, m'.x, m.y + fall, m'.z))
      && m'.kind == m.kind && m'.home == m.home
      && (m'.moved <==> Abs(m'.x - m.x) > 0.0001 || Abs(m'.y - m.y) > 0.0001 || Abs(m'.z - m.z) > 0.0001
                        || Abs(m'.yaw - m.yaw) > 0.5)
  {
    hide Chase, Overlaps, Collides, Kind.WalkSpeed, MoveX, MoveZ, MoveVertical, Face, Wander;
    var m1 := Steer(m, targets, t);
    SteerStrides(m, targets, t);
    var m2 := MoveX(m1, solid, m1.vx);
    XMoves(m1, solid, m1.vx);
    var m3 := MoveZ(m2, solid, m1.vz);
    ZMoves(m2, solid, m1.vz);
    YMoves(m3, solid, m3.vy);
  }

  /** Turning moves nothing. */
  predicate SameBody(a: Mob, b: Mob) {
    && SamePlace(a, b) && a.home == b.home && a.onGround == b.onGround
    && a.vx == b.vx && a.vy == b.vy && a.vz == b.vz
  }

  /** Where a mob turns before it sets off. */
  function Turned(m: Mob, targets: seq<Vec2>, t: Trig): Mob {
    var chase := Chase(m, targets);
    if chase.Some? then Face(m, chase.value, t) else Wander(m, t)
  }

  lemma FaceKeepsBody(m: Mob, d: Vec2, t: Trig)
    ensures SameBody(Face(m, d, t), m)
  {
    hide Dot;
  }

  lemma CountdownKeepsBody(m: Mob)
    ensures SameBody(Countdown(m), m)
  {
    hide NextRng, Roll;
  }

  lemma TurnedKeepsBody(m: Mob, targets: seq<Vec2>, t: Trig)
    ensures SameBody(Turned(m, targets, t), m)
  {
    hide Chase, Face, Countdown, Dot;
    var chase := Chase(m, targets);
    if chase.Some? {
      FaceKeepsBody(m, chase.value, t);
    } else {
      CountdownKeepsBody(m);
      FaceKeepsBody(Countdown(m).(walking := true), Vec2(m.home.x - m.x, m.home.z - m.z), t);
    }
  }

  lemma SteerIsTurnedStrode(m: Mob, targets: seq<Vec2>, t: Trig)
    ensures Steer(m, targets, t) == Strode(Turned(m, targets, t), Chase(m, targets).Some?, t)
  {
    hide Chase, Face, Wander, Strode;
  }

  lemma StrodeWants(m: Mob, chasing: bool, t: Trig)
    ensures var m1 := Strode(m, chasing, t);
      && m1 == m.(vx := m1.vx, vy := m1.vy, vz := m1.vz)
      && Vec2(m1.vx, m1.vz) == Wanted(m1, m1.walking || chasing, t)
      && m1.vy == if m.vy - GRAVITY < -MAX_FALL then -MAX_FALL else m.vy - GRAVITY
  {
    hide Kind.WalkSpeed;
  }

  lemma SteerStrides(m: Mob, targets: seq<Vec2>, t: Trig)
    ensures var m1 := Steer(m, targets, t);
      && SamePlace(m1, m) && m1.home == m.home && m1.onGround == m.onGround
      && Vec2(m1.vx, m1.vz) == Wanted(m1, m1.walking || Chase(m, targets).Some?, t)
      && m1.vy == if m.vy - GRAVITY < -MAX_FALL then -MAX_FALL else m.vy - GRAVITY
  {
    hide Chase, Steer, Strode, Turned, Wanted;
    SteerIsTurnedStrode(m, targets, t);
    TurnedKeepsBody(m, targets, t);
    StrodeWants(Turned(m, targets, t), Chase(m, targets).Some?, t);
  }

  lemma XMoves(m: Mob, solid: Solid, dx: real)
    requires m.vx == dx
    ensures var m' := MoveX(m, solid, dx);
      && m' == m.(x := m'.x, vx := m'.vx)
      && Axis(m.x, m'.x, dx, m'.vx, !Overlaps(solid, m.kind, m.x + dx, m.y, m.z))
  {
    hide Collides, Overlaps;
    CollidesIsOverlap(solid, m.kind, m.x + dx, m.y, m.z);
  }

  lemma ZMoves(m: Mob, solid: Solid, dz: real)
    requires m.vz == dz
    ensures var m' := MoveZ(m, solid, dz);
      && m' == m.(z := m'.z, vz := m'.vz)
      && Axis(m.z, m'.z, dz, m'.vz, !Overlaps(solid, m.kind, m.x, m.y, m.z + dz))
  {
    hide Collides, Overlaps;
    CollidesIsOverlap(solid, m.kind, m.x, m.y, m.z + dz);
  }

  lemma YMoves(m: Mob, solid: Solid, dy: real)
    requires m.vy == dy
    ensures var m' := MoveVertical(m, solid, dy);
      && m' == m.(y := m'.y, vy := m'.vy, onGround := m'.onGround)
      && Axis(m.y, m'.y, dy, m'.vy, !Overlaps(solid, m.kind, m.x, m.y + dy, m.z))
      && Grounded(m, m', dy, !Overlaps(solid, m.kind, m.x, m.y + dy, m.z))
  {
    hide Collides, Overlaps;
    CollidesIsOverlap(solid, m.kind, m.x, m.y + dy, m.z);
  }

  // --------------------------------------------------------------------- turning

  /** What motion leaves alone. */
  lemma MotionKeepsMind(m: Mob, solid: Solid, targets: seq<Vec2>, t: Trig)
    ensures var m', m1 := Step(m, solid, targets, t), Turned(m, targets, t);
      && (m'.yaw, m'.walking, m'.wanderTicks, m'.rng) == (m1.yaw, m1.walking, m1.wanderTicks, m1.rng)
  {
    hide Steer, Collides, Chase, Turned, Strode, MoveX, MoveZ, MoveVertical, HasMoved;
    SteerIsTurnedStrode(m, targets, t);
    StrodeWants(Turned(m, targets, t), Chase(m, targets).Some?, t);
    var m1 := Steer(m, targets, t);
    XMoves(m1, solid, m1.vx);
    ZMoves(MoveX(m1, solid, m1.vx), solid, m1.vz);
    var m3 := MoveHorizontal(m1, solid, m1.vx, m1.vz);
    YMoves(m3, solid, m3.vy);
  }

  function Way(m: Mob, target: Vec2): Vec2 { Vec2(target.x - m.x, target.z - m.z) }

  /** The first of the nearest targets, strictly inside the chase radius, stands at offset `d`. */
  ghost predicate Hunts(m: Mob, targets: seq<Vec2>, d: Vec2) {
    && m.kind.Hostile()
    && Dot(d, d) < CHASE_RADIUS * CHASE_RADIUS
    && exists k :: FirstNearest(m, targets, d, k)
  }

  ghost predicate FirstNearest(m: Mob, targets: seq<Vec2>, d: Vec2, k: int) {
    && 0 <= k < |targets| && d == Way(m, targets[k])
    && (forall j :: 0 <= j < |targets| ==> Dot(Way(m, targets[j]), Way(m, targets[j])) >= Dot(d, d))
    && (forall j :: 0 <= j < k ==> Dot(Way(m, targets[j]), Way(m, targets[j])) > Dot(d, d))
  }

  lemma WayIsOffset(m: Mob, target: Vec2)
    ensures Way(m, target) == Offset(m, target)
  {}

  lemma HuntsIsChase(m: Mob, targets: seq<Vec2>, d: Vec2)
    requires Hunts(m, targets, d)
    ensures Chase(m, targets) == Some(d)
  {
    hide Dot, Way, Offset, Nearest;
    forall j | 0 <= j < |targets|
      ensures Way(m, targets[j]) == Offset(m, targets[j])
    {
      WayIsOffset(m, targets[j]);
    }
    var k :| FirstNearest(m, targets, d, k);
    NearestIsFirstNearest(m, targets, |targets|);
    var (best, found) := Nearest(m, targets, |targets|);
    assert best <= Dot(Offset(m, targets[k]), Offset(m, targets[k])) < CHASE_RADIUS * CHASE_RADIUS;
    var i: nat :| i < |targets| && IsFirstAt(m, targets, i, best, found.value);
    assert Dot(Way(m, targets[i]), Way(m, targets[i])) == best;
    assert i == k;
  }

  /** A hostile mob turns to the first nearest target inside its radius, if it is not on the spot, and changes
      nothing else of its mind. */
  lemma ChaseTurns(m: Mob, solid: Solid, targets: seq<Vec2>, t: Trig, d: Vec2)
    requires IsTrig(t) && Hunts(m, targets, d)
    ensures var m', length := Step(m, solid, targets, t), t.sqrt(Dot(d, d));
      && length >= 0.0 && length * length == Dot(d, d)
      && (length > 0.000001 ==> Vec2(-t.sin(m'.yaw), t.cos(m'.yaw)) == Vec2(d.x / length, d.z / length))
      && (length <= 0.000001 ==> m'.yaw == m.yaw)
      && (m'.walking, m'.wanderTicks, m'.rng) == (m.walking, m.wanderTicks, m.rng)
  {
    hide Chase, IsTrig, Step, Dot, Hunts, Wander, Face;
    HuntsIsChase(m, targets, d);
    MotionKeepsMind(m, solid, targets, t);
    FacePoints(m, d, t);
    FaceTurnsOnly(m, d, t);
  }

  lemma FaceTurnsOnly(m: Mob, d: Vec2, t: Trig)
    ensures Face(m, d, t) == m.(yaw := Face(m, d, t).yaw)
  {
    hide Dot;
  }

  /** One axis of a chase: its share of the way, unless blocked; up to twice the distance to the target that does
      not lead farther from it. */
  ghost predicate Nears(before: real, after: real, d: real, way: real, length: real, speed: real, free: bool) {
    && after == (if free then before + way else before)
    && (2.0 * length >= speed ==> Squared(d - (after - before)) <= Squared(d))
    && (2.0 * length > speed && free && d != 0.0 ==> Squared(d - (after - before)) < Squared(d))
  }

  /** So it moves toward its target at walk speed, in full along every axis that is not blocked, and an unblocked
      step shortens the way whenever that is more than half a step. */
  lemma ChaseApproaches(m: Mob, solid: Solid, targets: seq<Vec2>, t: Trig, d: Vec2)
    requires IsTrig(t) && Hunts(m, targets, d) && t.sqrt(Dot(d, d)) > 0.000001
    ensures var m', length, s := Step(m, solid, targets, t), t.sqrt(Dot(d, d)), m.kind.WalkSpeed();
      var w := Scaled(Vec2(d.x / length, d.z / length), s);
      var freeX := !Overlaps(solid, m.kind, m.x + w.x, m.y, m.z);
      var freeZ := !Overlaps(solid, m.kind, m'.x, m.y, m.z + w.z);
      && Nears(m.x, m'.x, d.x, w.x, length, s, freeX) && Nears(m.z, m'.z, d.z, w.z, length, s, freeZ)
      && (freeX && freeZ && 2.0 * length > s ==>
            Squared(d.x - (m'.x - m.x)) + Squared(d.z - (m'.z - m.z)) < Squared(d.x) + Squared(d.z))
  {
    hide IsTrig, Step, Overlaps, Chase, Hunts, Squared, Dot, Scaled, Kind.WalkSpeed;
    var m', length, s := Step(m, solid, targets, t), t.sqrt(Dot(d, d)), m.kind.WalkSpeed();
    StepMoves(m, solid, targets, t);
    ChaseTurns(m, solid, targets, t, d);
    HuntsIsChase(m, targets, d);
    var w := Scaled(Vec2(d.x / length, d.z / length), s);
    var freeX := !Overlaps(solid, m.kind, m.x + w.x, m.y, m.z);
    var freeZ := !Overlaps(solid, m.kind, m'.x, m.y, m.z + w.z);
    hide Wanted, Axis, Grounded;
    AxisNears(m.x, m'.x, d.x, w.x, length, s, m'.vx, freeX) by {
      Along(d, length, s);
    }
    AxisNears(m.z, m'.z, d.z, w.z, length, s, m'.vz, freeZ) by {
      Along(d, length, s);
    }
    NotBoth(d, length);
  }

  lemma Along(d: Vec2, length: real, s: real)
    requires length > 0.0
    ensures Scaled(Vec2(d.x / length, d.z / length), s).x == d.x / length * s
    ensures Scaled(Vec2(d.x / length, d.z / length), s).z == d.z / length * s
  {}

  lemma AxisNears(before: real, after: real, d: real, way: real, length: real, s: real, speed: real, free: bool)
    requires 0.0 < s && 0.0 < length && way == d / length * s && Axis(before, after, way, speed, free)
    ensures Nears(before, after, d, way, length, s, free)
  {
    hide Squared;
    Approach(d, length, s);
    assert free ==> after - before == way;
    assert !free ==> d - (after - before) == d;
  }

  /** Going `s` along a way of length `length` does not take an axis farther from its goal, up to twice the way. */
  lemma Approach(d: real, length: real, s: real)
    requires 0.0 < s && 0.0 < length
    ensures 2.0 * length >= s ==> Squared(d - d / length * s) <= Squared(d)
    ensures 2.0 * length > s && d != 0.0 ==> Squared(d - d / length * s) < Squared(d)
  {
    hide Squared;
    var r := s / length;
    Quotient(s, length);
    Quotient(d, length);
    Exchange(d / length, s, d, r, length);
    RatioBounds(r, length, s);
    Difference(d, r);
    Gain(r, 2.0 - r, d, d * d);
  }

  lemma RatioBounds(r: real, length: real, s: real)
    requires r * length == s && 0.0 < s && 0.0 < length
    ensures r > 0.0
    ensures 2.0 * length >= s ==> 2.0 - r >= 0.0
    ensures 2.0 * length > s ==> 2.0 - r > 0.0
  {
    var e := 2.0 - r;
    assert e * length == 2.0 * length - s;
    if r <= 0.0 {
      ProductNonNegative(-r, length);
    }
    if e < 0.0 {
      ProductPositive(-e, length);
    }
  }

  lemma Gain(r: real, e: real, d: real, q: real)
    requires r > 0.0 && q == d * d
    ensures e >= 0.0 ==> r * e * q >= 0.0
    ensures e > 0.0 && d != 0.0 ==> r * e * q > 0.0
  {
    SquareNonNegative(d);
    if e >= 0.0 {
      ProductNonNegative(r, e);
      ProductNonNegative(r * e, q);
    }
    if e > 0.0 && d != 0.0 {
      SquareOfNonZero(d, q);
      ProductOfThree(r, e, q);
    }
  }

  lemma ProductOfThree(a: real, b: real, c: real)
    requires a > 0.0 && b > 0.0 && c > 0.0
    ensures a * b * c > 0.0
  {
    var p := a * b;
    ProductPositive(a, b);
    ProductPositive(p, c);
  }

  lemma Exchange(q: real, s: real, d: real, r: real, length: real)
    requires q * length == d && r * length == s
    ensures q * s == d * r
  {
    assert q * (r * length) == (q * length) * r;
  }

  lemma Difference(d: real, r: real)
    ensures Squared(d) - Squared(d - d * r) == r * (2.0 - r) * (d * d)
  {}

  lemma SquareOfNonZero(d: real, q: real)
    requires d != 0.0 && q == d * d
    ensures q > 0.0
  {
    if d > 0.0 {
      SquarePositive(d, q);
    } else {
      NegSquare(d);
      SquarePositive(-d, q);
    }
  }

  lemma NotBoth(d: Vec2, length: real)
    requires length > 0.0 && length * length == Dot(d, d)
    ensures d.x != 0.0 || d.z != 0.0
  {
    hide Dot;
    SquarePositive(length, Dot(d, d));
    NoWay();
    assert d == Vec2(0.0, 0.0) || d.x != 0.0 || d.z != 0.0;
  }

  lemma NoWay()
    ensures Dot(Vec2(0.0, 0.0), Vec2(0.0, 0.0)) == 0.0
  {}

  /** A heading straight home over a way beyond the leash radius. */
  ghost predicate HeadsHome(heading: Vec2, d: Vec2) { exists length: real :: PointsAlong(heading, d, length) }

  /** Out too far, a mob that does not chase turns home and walks. */
  lemma StraysHome(m: Mob, solid: Solid, targets: seq<Vec2>, t: Trig)
    requires IsTrig(t) && Chase(m, targets).None?
    ensures var m', d := Step(m, solid, targets, t), Vec2(m.home.x - m.x, m.home.z - m.z);
      Dot(d, d) > LEASH_RADIUS * LEASH_RADIUS ==> m'.walking && HeadsHome(Vec2(-t.sin(m'.yaw), t.cos(m'.yaw)), d)
  {
    hide Chase, IsTrig, Step, Wander, Dot, Face;
    MotionKeepsMind(m, solid, targets, t);
    WanderTurns(m, t);
  }

  /** Otherwise it keeps going as it was until its countdown is over; then a roll decides whether it walks, which
      way, and for how long. */
  lemma Wanders(m: Mob, solid: Solid, targets: seq<Vec2>, t: Trig)
    requires Chase(m, targets).None?
    ensures var m', d := Step(m, solid, targets, t), Vec2(m.home.x - m.x, m.home.z - m.z);
      Dot(d, d) <= LEASH_RADIUS * LEASH_RADIUS ==>
        if m.wanderTicks > 0 then (m'.walking, m'.yaw) == (m.walking, m.yaw)
        else
          var roll := Roll(NextRng(m.rng));
          && (m'.walking <==> roll % 4 != 0)
          && m'.yaw == if roll % 4 != 0 then (roll / 256 % 360) as real else m.yaw
    ensures var m' := Step(m, solid, targets, t);
      if m.wanderTicks > 0 then (m'.wanderTicks, m'.rng) == (m.wanderTicks - 1, m.rng)
      else (m'.wanderTicks, m'.rng) == (39 + Roll(NextRng(m.rng)) / 65536 % 80, NextRng(m.rng))
  {
    hide Chase, Step, NextRng, Roll, Dot, Face, Wander, Countdown;
    MotionKeepsMind(m, solid, targets, t);
    WanderMind(m, t);
    CountdownMind(m);
  }

  lemma WanderMind(m: Mob, t: Trig)
    ensures var w, c, d := Wander(m, t), Countdown(m), Vec2(m.home.x - m.x, m.home.z - m.z);
      && (w.wanderTicks, w.rng) == (c.wanderTicks, c.rng)
      && (Dot(d, d) <= LEASH_RADIUS * LEASH_RADIUS ==> w == c)
  {
    hide Dot, Countdown, Face;
    var d := Vec2(m.home.x - m.x, m.home.z - m.z);
    FaceTurnsOnly(Countdown(m).(walking := true), d, t);
  }

  lemma CountdownMind(m: Mob)
    ensures var c, roll := Countdown(m), Roll(NextRng(m.rng));
      if m.wanderTicks > 0 then (c.walking, c.yaw, c.wanderTicks, c.rng) == (m.walking, m.yaw, m.wanderTicks - 1, m.rng)
      else
        && (c.walking <==> roll % 4 != 0)
        && c.yaw == (if roll % 4 != 0 then (roll / 256 % 360) as real else m.yaw)
        && (c.wanderTicks, c.rng) == (39 + roll / 65536 % 80, NextRng(m.rng))
  {
    hide NextRng, Roll;
  }

  /** The boxes and speeds of the five kinds. */
  lemma Kinds()
    ensures Pig.Width() == 0.9 && Pig.Height() == 0.9 && Pig.WalkSpeed() == 0.12 && !Pig.Hostile()
    ensures Cow.Width() == 0.9 && Cow.Height() == 1.4 && Cow.WalkSpeed() == 0.12 && !Cow.Hostile()
    ensures Sheep.Width() == 0.9 && Sheep.Height() == 1.3 && Sheep.WalkSpeed() == 0.12 && !Sheep.Hostile()
    ensures Chicken.Width() == 0.4 && Chicken.Height() == 0.7 && Chicken.WalkSpeed() == 0.12 && !Chicken.Hostile()
    ensures Zombie.Width() == 0.6 && Zombie.Height() == 1.95 && Zombie.WalkSpeed() == 0.14 && Zombie.Hostile()
  {}

  /** A new mob stands still where it was put, which is its home, looks along +Z and rolls at its first step. */
  lemma SpawnedAtRest(kind: Kind, x: real, y: real, z: real, rng: bv64)
    ensures var m := Spawned(kind, x, y, z, rng);
      && m.kind == kind && (m.x, m.y, m.z) == (x, y, z) && m.home == Vec2(x, z)
      && (m.vx, m.vy, m.vz) == (0.0, 0.0, 0.0) && m.yaw == 0.0
      && !m.onGround && !m.moved && !m.walking && m.wanderTicks == 0 && m.rng == rng
  {}
}
