/** The geometry of mob motion: the leash and the free box, over all ticks. */
module MobProofs {
  import opened Mobs
  import opened MobSeed

  function Squared(r: real): real { r * r }

  /** How far the mob is from home, squared. */
  function Distance2(m: Mob): real { Squared(m.home.x - m.x) + Squared(m.home.z - m.z) }

  /** Within the leash plus one step of home. */
  predicate NearHome(m: Mob) { Distance2(m) <= Squared(LEASH_RADIUS + m.kind.WalkSpeed()) }

  ghost predicate IsUnit(v: Vec2) { Dot(v, v) == 1.0 }

  // ---------------------------------------------------------------- real algebra

  lemma SquareNonNegative(a: real)
    ensures a * a >= 0.0
  {}

  /** For non-negative numbers, squares keep order. */
  lemma SquareMonotone(a: real, b: real)
    requires 0.0 <= b && a * a <= b * b
    ensures -b <= a <= b
  {
    if a > b {
      LargerSquare(a, b);
    } else if a < -b {
      LargerSquare(-a, b);
      NegSquare(a);
    }
  }

  lemma LargerSquare(a: real, b: real)
    requires 0.0 <= b < a
    ensures b * b < a * a
  {
    assert a * a - b * b == (a - b) * (a + b);
    ProductPositive(a - b, a + b);
  }

  lemma ProductPositive(a: real, b: real)
    requires a > 0.0 && b > 0.0
    ensures a * b > 0.0
  {}

  lemma NegSquare(a: real)
    ensures (-a) * (-a) == a * a
  {}

  lemma ProductMono(a: real, b: real, c: real, d: real)
    requires 0.0 <= a <= b && 0.0 <= c <= d
    ensures a * c <= b * d
  {
    assert b * d - a * c == (b - a) * d + a * (d - c);
    ProductNonNegative(b - a, d);
    ProductNonNegative(a, d - c);
  }

  lemma ProductNonNegative(a: real, b: real)
    requires a >= 0.0 && b >= 0.0
    ensures a * b >= 0.0
  {}

  /** Cauchy and Schwarz in the plane. */
  lemma CauchySchwarz(a: Vec2, b: Vec2)
    ensures Dot(a, b) * Dot(a, b) <= Dot(a, a) * Dot(b, b)
  {
    SquareNonNegative(a.x * b.z - a.z * b.x);
    Lagrange(a.x, a.z, b.x, b.z);
  }

  lemma Lagrange(p: real, q: real, r: real, s: real)
    ensures (p * p + q * q) * (r * r + s * s) == (p * r + q * s) * (p * r + q * s) + (p * s - q * r) * (p * s - q * r)
  {
    assert (p * p + q * q) * (r * r + s * s) == p * p * r * r + p * p * s * s + q * q * r * r + q * q * s * s;
    assert (p * r + q * s) * (p * r + q * s) == p * p * r * r + 2.0 * (p * q * r * s) + q * q * s * s;
    assert (p * s - q * r) * (p * s - q * r) == p * p * s * s - 2.0 * (p * q * r * s) + q * q * r * r;
  }

  /** The triangle inequality, in squares. */
  lemma Triangle(d: Vec2, w: Vec2, radius: real, step: real)
    requires radius >= 0.0 && step >= 0.0
    requires Dot(d, d) <= radius * radius && Dot(w, w) <= step * step
    ensures Squared(d.x - w.x) + Squared(d.z - w.z) <= Squared(radius + step)
  {
    CauchySchwarz(d, w);
    SquareNonNegative(d.x);
    SquareNonNegative(d.z);
    SquareNonNegative(w.x);
    SquareNonNegative(w.z);
    ProductMono(Dot(d, d), radius * radius, Dot(w, w), step * step);
    SquareOfProduct(radius, step);
    ProductNonNegative(radius, step);
    SquareMonotone(Dot(d, w), radius * step);
    Expand(d.x, w.x);
    Expand(d.z, w.z);
    ExpandSum(radius, step);
  }

  lemma SquareOfProduct(a: real, b: real)
    ensures (a * b) * (a * b) == (a * a) * (b * b)
  {}

  lemma Expand(a: real, b: real)
    ensures Squared(a - b) == a * a - 2.0 * (a * b) + b * b
  {}

  lemma ExpandSum(a: real, b: real)
    ensures Squared(a + b) == a * a + 2.0 * (a * b) + b * b
  {}

  /** Shrinking a coordinate by a factor between 0 and 1 shrinks its square. */
  lemma Shrinks(a: real, t: real)
    requires 0.0 <= t <= 1.0
    ensures Squared(a - a * t) <= Squared(a)
  {
    var k := 1.0 - t;
    assert a - a * t == a * k;
    SquareOfProduct(a, k);
    ProductMono(k, 1.0, k, 1.0);
    SquareNonNegative(a);
    SquareNonNegative(k);
    ProductMono(a * a, a * a, k * k, 1.0);
  }

  // ------------------------------------------------------------------- the leash

  /** A velocity actually travelled: each axis in full or, when blocked, not at all. */
  ghost predicate Partial(w: Vec2, v: Vec2) { (w.x == v.x || w.x == 0.0) && (w.z == v.z || w.z == 0.0) }

  lemma PartialIsShorter(w: Vec2, v: Vec2)
    requires Partial(w, v)
    ensures Dot(w, w) <= Dot(v, v)
  {
    SquareNonNegative(v.x);
    SquareNonNegative(v.z);
  }

  lemma DirectionIsUnit(yaw: real, t: Trig)
    requires IsTrig(t)
    ensures IsUnit(Direction(yaw, t))
  {
    var s, c := t.sin(yaw), t.cos(yaw);
    assert s * s + c * c == 1.0;
    NegSquare(s);
  }

  /** Facing turns exactly along a vector that is long enough, and otherwise not at all. */
  lemma FacePoints(m: Mob, d: Vec2, t: Trig)
    requires IsTrig(t)
    ensures var length := t.sqrt(Dot(d, d));
      && length >= 0.0 && length * length == Dot(d, d)
      && if length > 0.000001 then Direction(Face(m, d, t).yaw, t) == Vec2(d.x / length, d.z / length)
         else Face(m, d, t) == m
  {
    SquareNonNegative(d.x);
    SquareNonNegative(d.z);
    var length := t.sqrt(Dot(d, d));
    assert length >= 0.0 && length * length == Dot(d, d);
    if length > 0.000001 {
      Normalised(d.x, d.z, length);
      NegQuotient(d.x, length);
      var s, c := -d.x / length, d.z / length;
      NegSquare(d.x / length);
      assert s * s + c * c == 1.0;
    }
  }

  lemma NegQuotient(a: real, b: real)
    requires b > 0.0
    ensures -a / b == -(a / b)
  {}

  lemma Normalised(a: real, b: real, length: real)
    requires length > 0.0 && length * length == a * a + b * b
    ensures (a / length) * (a / length) + (b / length) * (b / length) == 1.0
  {
    Quotient(a, length);
    Quotient(b, length);
    UnitSum(a, b, length, a / length, b / length);
  }

  lemma UnitSum(a: real, b: real, length: real, p: real, q: real)
    requires length > 0.0 && length * length == a * a + b * b && p * length == a && q * length == b
    ensures p * p + q * q == 1.0
  {
    var l2 := length * length;
    SquarePositive(length, l2);
    var p2, q2, a2, b2 := p * p, q * q, a * a, b * b;
    ScaledSquare(p, length, a, p2, l2, a2);
    ScaledSquare(q, length, b, q2, l2, b2);
    assert p2 * l2 == a2;
    assert q2 * l2 == b2;
    assert l2 == a2 + b2;
    UnitFromScaled(p2, q2, l2, a2, b2);
  }

  lemma SquarePositive(r: real, r2: real)
    requires r > 0.0 && r2 == r * r
    ensures r2 > 0.0
  {
    LargerSquare(r, 0.0);
  }

  lemma UnitFromScaled(p2: real, q2: real, l2: real, a2: real, b2: real)
    requires l2 > 0.0 && l2 == a2 + b2 && p2 * l2 == a2 && q2 * l2 == b2
    ensures p2 + q2 == 1.0
  {
    var n := p2 + q2;
    SumOfProducts(p2, q2, l2, a2, b2);
    assert n * l2 == a2 + b2;
    assert n * l2 == l2;
  }

  lemma SumOfProducts(a: real, b: real, c: real, x: real, y: real)
    requires a * c == x && b * c == y
    ensures (a + b) * c == x + y
  {}

  lemma ScaledSquare(p: real, length: real, a: real, p2: real, l2: real, a2: real)
    requires p * length == a && p2 == p * p && l2 == length * length && a2 == a * a
    ensures p2 * l2 == a2
  {
    SquareOfProduct(p, length);
  }

  lemma Quotient(a: real, b: real)
    requires b > 0.0
    ensures (a / b) * b == a
  {}

  lemma Distribute(a: real, b: real, c: real)
    ensures (a + b) * c == a * c + b * c
  {}

  /** The heading is `d` divided by a length beyond the leash radius. */
  ghost predicate PointsAlong(heading: Vec2, d: Vec2, length: real) {
    length > LEASH_RADIUS && heading == Vec2(d.x / length, d.z / length)
  }

  /** Wandering turns home when out too far, and moves nothing. */
  lemma WanderTurns(m: Mob, t: Trig)
    requires IsTrig(t)
    ensures var w := Wander(m, t); SamePlace(w, m) && w.home == m.home
    ensures var w, d := Wander(m, t), Vec2(m.home.x - m.x, m.home.z - m.z);
      Dot(d, d) > LEASH_RADIUS * LEASH_RADIUS ==>
        w.walking && exists length: real :: PointsAlong(Direction(w.yaw, t), d, length)
  {
    hide Dot, Countdown, IsTrig, Face, Direction;
    var d := Vec2(m.home.x - m.x, m.home.z - m.z);
    CountdownKeepsPlace(m);
    var m2 := Countdown(m).(walking := true);
    FaceKeepsPlace(m2, d, t);
    if Dot(d, d) > LEASH_RADIUS * LEASH_RADIUS {
      FacePoints(m2, d, t);
      var length := t.sqrt(Dot(d, d));
      if length <= LEASH_RADIUS {
        ProductMono(length, LEASH_RADIUS, length, LEASH_RADIUS);
      }
      assert PointsAlong(Direction(Wander(m, t).yaw, t), d, length);
    }
  }

  /** Blocked or not, a mob travels its velocity in full or not at all along each axis. */
  lemma MoveIsPartial(m: Mob, solid: Solid)
    ensures var m' := MoveHorizontal(m, solid, m.vx, m.vz);
            && Partial(Vec2(m'.x - m.x, m'.z - m.z), Vec2(m.vx, m.vz))
            && (m'.kind, m'.home, m'.y) == (m.kind, m.home, m.y)
  {
    hide MoveX, MoveZ;
    MoveXIsPartial(m, solid, m.vx);
    MoveZIsPartial(MoveX(m, solid, m.vx), solid, m.vz);
  }

  lemma MoveXIsPartial(m: Mob, solid: Solid, dx: real)
    ensures var m' := MoveX(m, solid, dx);
            (m'.x - m.x == dx || m'.x == m.x) && (m'.kind, m'.home, m'.y, m'.z) == (m.kind, m.home, m.y, m.z)
  {
    hide Collides;
  }

  lemma MoveZIsPartial(m: Mob, solid: Solid, dz: real)
    ensures var m' := MoveZ(m, solid, dz);
            (m'.z - m.z == dz || m'.z == m.z) && (m'.kind, m'.home, m'.y, m'.x) == (m.kind, m.home, m.y, m.x)
  {
    hide Collides;
  }

  lemma LeashStep(m: Mob, solid: Solid, targets: seq<Vec2>, t: Trig)
    requires IsTrig(t) && NearHome(m) && Chase(m, targets).None?
    ensures var m' := Step(m, solid, targets, t); NearHome(m') && m'.kind == m.kind && m'.home == m.home
  {
    hide Steer, MoveHorizontal, Dot, NearHome, MoveVertical, Chase;
    WanderSteers(m, targets, t);
    var m1 := Steer(m, targets, t);
    MoveIsPartial(m1, solid);
    var m2 := MoveHorizontal(m1, solid, m1.vx, m1.vz);
    DropKeepsPlace(m2, solid, m2.vy);
    FlagKeepsPlace(Advance(m, solid, targets, t), Step(m, solid, targets, t).moved);
    var d, v, w := Vec2(m.home.x - m.x, m.home.z - m.z), Vec2(m1.vx, m1.vz), Vec2(m2.x - m.x, m2.z - m.z);
    PartialIsShorter(w, v);
    ShorterWayKeepsNear(m, m2, d, v, w, Direction(m1.yaw, t));
  }

  /** What steering does to a mob that is not chasing. */
  lemma WanderSteers(m: Mob, targets: seq<Vec2>, t: Trig)
    requires IsTrig(t) && Chase(m, targets).None?
    ensures var m1 := Steer(m, targets, t);
      SamePlace(m1, m) && m1.home == m.home && Strides(m, Vec2(m1.vx, m1.vz), Direction(m1.yaw, t))
  {
    hide Dot, Wander, Chase, Direction, Kind.WalkSpeed, IsTrig;
    WanderTurns(m, t);
    DirectionIsUnit(Wander(m, t).yaw, t);
  }

  /** A velocity along a unit direction or none, and homeward when out too far. */
  ghost predicate Strides(m: Mob, v: Vec2, ahead: Vec2) {
    var s, d := m.kind.WalkSpeed(), Vec2(m.home.x - m.x, m.home.z - m.z);
    && IsUnit(ahead)
    && (v == Vec2(ahead.x * s, ahead.z * s) || v == Vec2(0.0, 0.0))
    && (Dot(d, d) > LEASH_RADIUS * LEASH_RADIUS ==>
          v == Vec2(ahead.x * s, ahead.z * s) && exists length: real :: PointsAlong(ahead, d, length))
  }

  lemma ShorterWayKeepsNear(m: Mob, m2: Mob, d: Vec2, v: Vec2, w: Vec2, ahead: Vec2)
    requires NearHome(m) && m2.kind == m.kind && m2.home == m.home && Strides(m, v, ahead) && Partial(w, v)
    requires d == Vec2(m.home.x - m.x, m.home.z - m.z) && w == Vec2(m2.x - m.x, m2.z - m.z) && Dot(w, w) <= Dot(v, v)
    ensures NearHome(m2)
  {
    hide Dot, NearHome, IsUnit;
    var s := m.kind.WalkSpeed();
    assert m2.home.x - m2.x == d.x - w.x && m2.home.z - m2.z == d.z - w.z;
    NearHomeUnfold(m, m2);
    if Dot(d, d) > LEASH_RADIUS * LEASH_RADIUS {
      var length: real :| PointsAlong(ahead, d, length);
      Homeward(d.x, length, s, v.x, w.x);
      Homeward(d.z, length, s, v.z, w.z);
    } else {
      SpeedSquared(ahead, v, s);
      Triangle(d, w, LEASH_RADIUS, s);
    }
  }

  lemma FlagKeepsPlace(m: Mob, moved: bool)
    ensures NearHome(m) <==> NearHome(m.(moved := moved))
  {}

  lemma NearHomeUnfold(m: Mob, m': Mob)
    requires m'.kind == m.kind && m'.home == m.home
    ensures NearHome(m) <==>
      Squared(m.home.x - m.x) + Squared(m.home.z - m.z) <= Squared(LEASH_RADIUS + m.kind.WalkSpeed())
    ensures NearHome(m') <==>
      Squared(m'.home.x - m'.x) + Squared(m'.home.z - m'.z) <= Squared(LEASH_RADIUS + m.kind.WalkSpeed())
  {}

  lemma DropKeepsPlace(m: Mob, solid: Solid, dy: real)
    ensures var m' := MoveVertical(m, solid, dy);
            (m'.x, m'.z, m'.kind, m'.home) == (m.x, m.z, m.kind, m.home)
    ensures NearHome(m) <==> NearHome(MoveVertical(m, solid, dy))
  {
    hide Collides;
  }

  /** A velocity along a unit heading, or none, has at most the walk speed. */
  lemma SpeedSquared(heading: Vec2, v: Vec2, s: real)
    requires IsUnit(heading) && s >= 0.0
    requires v == Vec2(heading.x * s, heading.z * s) || v == Vec2(0.0, 0.0)
    ensures Dot(v, v) <= s * s
  {
    SquareNonNegative(s);
    SquareOfProduct(heading.x, s);
    SquareOfProduct(heading.z, s);
    Distribute(heading.x * heading.x, heading.z * heading.z, s * s);
  }

  /** Along each axis, a homeward step shortens the way home or leaves it. */
  lemma Homeward(d: real, length: real, s: real, v: real, w: real)
    requires 0.0 < s < length && v == d / length * s && (w == v || w == 0.0)
    ensures Squared(d - w) <= Squared(d)
  {
    var t := s / length;
    Quotient(s, length);
    Quotient(d, length);
    assert t > 0.0 by {
      if t <= 0.0 {
        ProductNonNegative(-t, length);
      }
    }
    assert t <= 1.0 by {
      if t > 1.0 {
        ProductPositive(t - 1.0, length);
      }
    }
    assert v == d * t;
    Shrinks(d, t);
  }

  /** One tick's surroundings: the solid blocks and the player positions. */
  datatype Surroundings = Surroundings(solid: Solid, targets: seq<Vec2>)

  ghost function Run(m: Mob, ticks: seq<Surroundings>, t: Trig): Mob
    decreases |ticks|
  {
    if |ticks| == 0 then m
    else var before := Run(m, ticks[..|ticks| - 1], t);
         Step(before, ticks[|ticks| - 1].solid, ticks[|ticks| - 1].targets, t)
  }

  /** No tick of the run chases anyone. */
  ghost predicate NeverChases(m: Mob, ticks: seq<Surroundings>, t: Trig) {
    forall k :: 0 <= k < |ticks| ==> Chase(Run(m, ticks[..k], t), ticks[k].targets).None?
  }

  lemma {:induction false} LeashHolds(m: Mob, ticks: seq<Surroundings>, t: Trig)
    requires IsTrig(t) && NearHome(m) && NeverChases(m, ticks, t)
    ensures NearHome(Run(m, ticks, t))
    decreases |ticks|
  {
    hide Chase, Step, NearHome;
    if |ticks| > 0 {
      var init, last := ticks[..|ticks| - 1], ticks[|ticks| - 1];
      forall k | 0 <= k < |init|
        ensures Chase(Run(m, init[..k], t), init[k].targets).None?
      {
        assert init[..k] == ticks[..k];
        assert Chase(Run(m, ticks[..k], t), ticks[k].targets).None?;
      }
      LeashHolds(m, init, t);
      assert Chase(Run(m, ticks[..|init|], t), ticks[|init|].targets).None?;
      LeashStep(Run(m, init, t), last.solid, last.targets, t);
    }
  }

  /** From the moment it is spawned, a mob that never chases is within the leash radius plus its walk
      speed of home after every tick, whatever blocks its way. */
  lemma SpawnedStaysHome(kind: Kind, x: real, y: real, z: real, rng: bv64, ticks: seq<Surroundings>, t: Trig)
    requires IsTrig(t) && NeverChases(Spawned(kind, x, y, z, rng), ticks, t)
    ensures NearHome(Run(Spawned(kind, x, y, z, rng), ticks, t))
  {
    hide Chase, Step;
    SquareNonNegative(LEASH_RADIUS + kind.WalkSpeed());
    LeashHolds(Spawned(kind, x, y, z, rng), ticks, t);
  }

  /** Mobs that are not hostile never chase, so for them the leash holds unconditionally. */
  lemma PeacefulNeverChases(m: Mob, ticks: seq<Surroundings>, t: Trig)
    requires !m.kind.Hostile()
    ensures NeverChases(m, ticks, t)
  {
    hide Step;
    forall k | 0 <= k < |ticks|
      ensures Chase(Run(m, ticks[..k], t), ticks[k].targets).None?
    {
      RunKeepsKind(m, ticks[..k], t);
    }
  }

  lemma {:induction false} RunKeepsKind(m: Mob, ticks: seq<Surroundings>, t: Trig)
    ensures Run(m, ticks, t).kind == m.kind
    decreases |ticks|
  {
    hide Step;
    if |ticks| > 0 {
      var init, last := ticks[..|ticks| - 1], ticks[|ticks| - 1];
      RunKeepsKind(m, init, t);
      StepKeepsKind(Run(m, init, t), last.solid, last.targets, t);
    }
  }

  lemma StepKeepsKind(m: Mob, solid: Solid, targets: seq<Vec2>, t: Trig)
    ensures Step(m, solid, targets, t).kind == m.kind
  {
    hide Steer, MoveHorizontal, MoveVertical, Collides;
    SteerKeepsPlace(m, targets, t);
    var m1 := Steer(m, targets, t);
    MoveIsPartial(m1, solid);
    DropKeepsPlace(MoveHorizontal(m1, solid, m1.vx, m1.vz), solid, MoveHorizontal(m1, solid, m1.vx, m1.vz).vy);
  }

  // ---------------------------------------------------------------- the free box

  /** Same kind, same place. */
  predicate SamePlace(a: Mob, b: Mob) { a.kind == b.kind && a.x == b.x && a.y == b.y && a.z == b.z }

  lemma FaceKeepsPlace(m: Mob, d: Vec2, t: Trig)
    ensures SamePlace(Face(m, d, t), m) && Face(m, d, t).home == m.home && Face(m, d, t).walking == m.walking
  {
    hide Dot;
  }

  lemma CountdownKeepsPlace(m: Mob)
    ensures SamePlace(Countdown(m), m) && Countdown(m).home == m.home
  {
    hide NextRng, Roll;
  }

  lemma SteerKeepsPlace(m: Mob, targets: seq<Vec2>, t: Trig)
    ensures SamePlace(Steer(m, targets, t), m)
  {
    hide Dot, Chase, Face, Countdown, Fall, Kind.WalkSpeed;
    var chase := Chase(m, targets);
    if chase.Some? {
      FaceKeepsPlace(m, chase.value, t);
    } else {
      CountdownKeepsPlace(m);
      FaceKeepsPlace(Countdown(m).(walking := true), Vec2(m.home.x - m.x, m.home.z - m.z), t);
    }
  }

  /** A mob whose box meets no solid block before a tick meets none after it. */
  lemma FreeStaysFree(m: Mob, solid: Solid, targets: seq<Vec2>, t: Trig)
    requires !Overlaps(solid, m.kind, m.x, m.y, m.z)
    ensures var m' := Step(m, solid, targets, t); !Overlaps(solid, m'.kind, m'.x, m'.y, m'.z)
  {
    hide Collides, Overlaps, Steer;
    SteerKeepsPlace(m, targets, t);
    CollidesIsOverlap(solid, m.kind, m.x, m.y, m.z);
    var m1 := Steer(m, targets, t);
    assert !Blocked(m1, solid);
    var m2 := MoveHorizontal(m1, solid, m1.vx, m1.vz);
    MoveKeepsFree(m1, solid, m1.vx, m1.vz);
    var m' := MoveVertical(m2, solid, m2.vy);
    assert !Blocked(m', solid);
    CollidesIsOverlap(solid, m'.kind, m'.x, m'.y, m'.z);
  }

  lemma MoveKeepsFree(m: Mob, solid: Solid, dx: real, dz: real)
    requires !Blocked(m, solid)
    ensures !Blocked(MoveHorizontal(m, solid, dx, dz), solid)
  {
    hide Collides;
  }

  /** A mob that starts free in a world that does not change is free after any number of ticks. */
  lemma {:induction false} AlwaysFree(m: Mob, solid: Solid, ticks: seq<Surroundings>, t: Trig)
    requires !Overlaps(solid, m.kind, m.x, m.y, m.z)
    requires forall k :: 0 <= k < |ticks| ==> ticks[k].solid == solid
    ensures var m' := Run(m, ticks, t); !Overlaps(solid, m'.kind, m'.x, m'.y, m'.z)
    decreases |ticks|
  {
    hide Overlaps, Step;
    if |ticks| > 0 {
      var init, last := ticks[..|ticks| - 1], ticks[|ticks| - 1];
      AlwaysFree(m, solid, init, t);
      FreeStaysFree(Run(m, init, t), solid, last.targets, t);
    }
  }

  // ----------------------------------------------------------------- the dice

  lemma SteerKeepsDice(m: Mob, targets: seq<Vec2>, t: Trig)
    ensures Steer(m, targets, t).rng == m.rng || Steer(m, targets, t).rng == NextRng(m.rng)
  {
    hide Dot, Chase, NextRng, Roll, Fall, Kind.WalkSpeed;
  }

  /** A generator that is not stuck never gets stuck. */
  lemma {:induction false} DiceKeepRolling(m: Mob, ticks: seq<Surroundings>, t: Trig)
    requires m.rng != 0
    ensures Run(m, ticks, t).rng != 0
    decreases |ticks|
  {
    hide Step, NextRng;
    if |ticks| > 0 {
      var init, last := ticks[..|ticks| - 1], ticks[|ticks| - 1];
      DiceKeepRolling(m, init, t);
      StepKeepsDice(Run(m, init, t), last.solid, last.targets, t);
      NeverTrapped(Run(m, init, t).rng);
    }
  }

  lemma StepKeepsDice(m: Mob, solid: Solid, targets: seq<Vec2>, t: Trig)
    ensures Step(m, solid, targets, t).rng == m.rng || Step(m, solid, targets, t).rng == NextRng(m.rng)
  {
    hide Steer, MoveHorizontal, MoveVertical, NextRng, HasMoved;
    SteerKeepsDice(m, targets, t);
    var m1 := Steer(m, targets, t);
    MovingKeepsDice(m1, solid, m1.vx, m1.vz);
    var m2 := MoveHorizontal(m1, solid, m1.vx, m1.vz);
    DroppingKeepsDice(m2, solid, m2.vy);
  }

  lemma MovingKeepsDice(m: Mob, solid: Solid, dx: real, dz: real)
    ensures MoveHorizontal(m, solid, dx, dz).rng == m.rng
  {
    hide Collides;
  }

  lemma DroppingKeepsDice(m: Mob, solid: Solid, dy: real)
    ensures MoveVertical(m, solid, dy).rng == m.rng
  {
    hide Collides;
  }

  /** So whatever the seed and the id, a spawned mob's generator never sticks at zero, where every roll would be
      zero and a mob would stand still for good. */
  lemma SpawnedKeepsRolling(kind: Kind, x: real, y: real, z: real, seed: bv64, id: int, ticks: seq<Surroundings>,
      t: Trig)
    ensures Run(Spawned(kind, x, y, z, FirstRng(seed, id)), ticks, t).rng != 0
    ensures NextRng(0) == 0 && Roll(0) == 0
  {
    hide FirstRng, Run;
    StartsOutside(seed, id);
    DiceKeepRolling(Spawned(kind, x, y, z, FirstRng(seed, id)), ticks, t);
  }
}
