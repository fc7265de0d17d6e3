/** The kinematic systems: moving every entity by its velocity, and the
    constant-acceleration update that gravity uses. Every entity that has a
    transform and a velocity is a body of the `World`. */
module Physics {
  import opened Structs

  // ---------------------------------------------------------------------
  // Moving by velocity

  /** A body after one move step: its translation advances by velocity * dt. */
  function Moved(b: Body, dt: real): Body
  {
    Body(Add(b.translation, Scale(b.velocity, dt)), b.velocity)
  }

  /** Every body after one move step. */
  function MovedAll(bodies: map<nat, Body>, dt: real): (r: map<nat, Body>)
    ensures r.Keys == bodies.Keys
  {
    map id | id in bodies :: Moved(bodies[id], dt)
  }

  /** One move step adds velocity * dt to every translation, keeps every
      velocity, adds and removes no body. */
  lemma MoveByVelocityEffect(bodies: map<nat, Body>, dt: real)
    ensures var r := MovedAll(bodies, dt);
      r.Keys == bodies.Keys &&
      forall id :: id in bodies ==>
        r[id].velocity == bodies[id].velocity &&
        Sub(r[id].translation, bodies[id].translation) == Scale(bodies[id].velocity, dt)
  {
  }

  /** A step of length zero changes nothing. */
  lemma MoveZero(bodies: map<nat, Body>)
    ensures MovedAll(bodies, 0.0) == bodies
  {
    forall id | id in bodies ensures Moved(bodies[id], 0.0) == bodies[id] {
      var b := bodies[id];
      assert Add(b.translation, Scale(b.velocity, 0.0)) == b.translation;
    }
  }

  lemma ScaleDistributes(v: Vec3, d1: real, d2: real)
    ensures Add(Scale(v, d1), Scale(v, d2)) == Scale(v, d1 + d2)
  {
    assert v.x * d1 + v.x * d2 == v.x * (d1 + d2);
    assert v.y * d1 + v.y * d2 == v.y * (d1 + d2);
    assert v.z * d1 + v.z * d2 == v.z * (d1 + d2);
  }

  /** Two steps are one step of the summed length, since velocities do not
      change while moving. */
  lemma {:induction false} MoveAdditive(bodies: map<nat, Body>, d1: real, d2: real)
    ensures MovedAll(MovedAll(bodies, d1), d2) == MovedAll(bodies, d1 + d2)
  {
    forall id | id in bodies ensures Moved(Moved(bodies[id], d1), d2) == Moved(bodies[id], d1 + d2) {
      ScaleDistributes(bodies[id].velocity, d1, d2);
    }
  }

  /** Adds velocity * dt to the translation of every body, one body at a
      time, in whatever order the entities are visited. */
  method MoveByVelocity(world: World, dt: real)
    requires world.Valid()
    modifies world`bodies
    ensures world.Valid()
    ensures world.bodies == MovedAll(old(world.bodies), dt)
  {
    var remaining := world.bodies.Keys;
    while remaining != {}
      invariant world.Valid()
      invariant remaining <= old(world.bodies).Keys
      invariant world.bodies.Keys == old(world.bodies).Keys
      invariant forall id :: id in world.bodies ==>
        world.bodies[id] == if id in remaining then old(world.bodies)[id] else Moved(old(world.bodies)[id], dt)
      decreases |remaining|
    {
      var id :| id in remaining;
      var b := world.bodies[id];
      world.bodies := world.bodies[id := b.(translation := Add(b.translation, Scale(b.velocity, dt)))];
      remaining := remaining - {id};
    }
  }

  // ---------------------------------------------------------------------
  // Constant acceleration

  /** A body after `accelerate`: velocity gains a * dt and the translation
      gains a * dt * dt / 2; the current velocity plays no part in the
      translation. */
  function Accelerated(b: Body, a: Vec3, dt: real): Body
  {
    Body(Add(b.translation, Scale(a, dt * dt / 2.0)), Add(b.velocity, Scale(a, dt)))
  }

  /** Acceleration updates one body in place. */
  method Accelerate(world: World, id: nat, a: Vec3, dt: real)
    requires world.Valid()
    requires id in world.bodies
    modifies world`bodies
    ensures world.Valid()
    ensures world.bodies == old(world.bodies)[id := Accelerated(old(world.bodies)[id], a, dt)]
  {
    var b := world.bodies[id];
    var velocity := Add(b.velocity, Scale(a, dt));
    var translation := Add(b.translation, Scale(a, dt * dt / 2.0));
    world.bodies := world.bodies[id := Body(translation, velocity)];
  }

  /** With zero acceleration or a zero time step, nothing changes. */
  lemma AccelerateIdentity(b: Body, a: Vec3, dt: real)
    requires a == Zero || dt == 0.0
    ensures Accelerated(b, a, dt) == b
  {
    assert Scale(a, dt) == Zero;
    assert Scale(a, dt * dt / 2.0) == Zero;
  }

  /** The velocity change is a * dt and the translation change a * dt * dt / 2,
      whatever the body's velocity was: the `velocity * dt` term is left to
      the move step. */
  lemma AccelerateDisplacement(b: Body, a: Vec3, dt: real)
    ensures Sub(Accelerated(b, a, dt).velocity, b.velocity) == Scale(a, dt)
    ensures Sub(Accelerated(b, a, dt).translation, b.translation) == Scale(Scale(a, dt), dt / 2.0)
    ensures forall v :: Accelerated(b.(velocity := v), a, dt).translation == Accelerated(b, a, dt).translation
  {
    assert a.x * dt * dt / 2.0 == a.x * dt * (dt / 2.0);
    assert a.y * dt * dt / 2.0 == a.y * dt * (dt / 2.0);
    assert a.z * dt * dt / 2.0 == a.z * dt * (dt / 2.0);
  }

  /** Velocity changes compose: accelerating for d1 and then for d2 gives the
      velocity of accelerating for d1 + d2. Translations do not compose for
      any non-zero acceleration, since d1 * d1 / 2 + d2 * d2 / 2 differs from
      (d1 + d2) * (d1 + d2) / 2 unless d1 * d2 == 0. */
  lemma AccelerateVelocityAdditive(b: Body, a: Vec3, d1: real, d2: real)
    ensures Accelerated(Accelerated(b, a, d1), a, d2).velocity == Accelerated(b, a, d1 + d2).velocity
    ensures a != Zero && d1 * d2 != 0.0 ==>
      Accelerated(Accelerated(b, a, d1), a, d2).translation != Accelerated(b, a, d1 + d2).translation
  {
    ScaleDistributes(a, d1, d2);
    assert Add(Add(b.velocity, Scale(a, d1)), Scale(a, d2)) == Add(b.velocity, Add(Scale(a, d1), Scale(a, d2)));
    if a != Zero && d1 * d2 != 0.0 {
      if a.x != 0.0 {
        SquareGap(a.x, d1, d2);
      } else if a.y != 0.0 {
        SquareGap(a.y, d1, d2);
      } else {
        SquareGap(a.z, d1, d2);
      }
    }
  }

  /** The component-wise gap between two successive half-squares and the
      half-square of the sum: c * d1 * d2, non-zero when c and d1 * d2 are. */
  lemma SquareGap(c: real, d1: real, d2: real)
    requires c != 0.0 && d1 * d2 != 0.0
    ensures c * ((d1 + d2) * (d1 + d2) / 2.0) != c * (d1 * d1 / 2.0) + c * (d2 * d2 / 2.0)
  {
    assert (d1 + d2) * (d1 + d2) / 2.0 == d1 * d1 / 2.0 + d2 * d2 / 2.0 + d1 * d2;
    assert c * ((d1 + d2) * (d1 + d2) / 2.0) - (c * (d1 * d1 / 2.0) + c * (d2 * d2 / 2.0)) == c * (d1 * d2);
    assert c * (d1 * d2) != 0.0;
  }

  /** A move step followed by an acceleration step over the same dt gives
      the closed form of uniformly accelerated motion:
      x + v * dt + a * dt * dt / 2 and v + a * dt. */
  lemma MoveThenAccelerate(b: Body, a: Vec3, dt: real)
    ensures Accelerated(Moved(b, dt), a, dt) ==
      Body(Add(Add(b.translation, Scale(b.velocity, dt)), Scale(a, dt * dt / 2.0)), Add(b.velocity, Scale(a, dt)))
  {
  }

  // ---------------------------------------------------------------------
  // Gravity

  /** The gravitational acceleration, along -y. */
  const Gravity: Vec3 := Vec3(0.0, -9.81, 0.0)

  /** Every body after the gravity step. */
  function GravitatedAll(bodies: map<nat, Body>, dt: real): (r: map<nat, Body>)
    ensures r.Keys == bodies.Keys
  {
    map id | id in bodies :: Accelerated(bodies[id], Gravity, dt)
  }

  /** Gravity changes only the y components: the y velocity drops by
      9.81 * dt and the y translation by 9.81 * dt * dt / 2; no body is added
      or removed. */
  lemma GravityEffect(bodies: map<nat, Body>, dt: real)
    ensures var r := GravitatedAll(bodies, dt);
      r.Keys == bodies.Keys &&
      forall id :: id in bodies ==>
        r[id].velocity == Vec3(bodies[id].velocity.x, bodies[id].velocity.y - 9.81 * dt, bodies[id].velocity.z) &&
        r[id].translation == Vec3(bodies[id].translation.x, bodies[id].translation.y - 9.81 * (dt * dt / 2.0), bodies[id].translation.z)
  {
  }

  /** Applies `Accelerate` with the gravitational acceleration to every body,
      one body at a time. */
  method ApplyGravity(world: World, dt: real)
    requires world.Valid()
    modifies world`bodies
    ensures world.Valid()
    ensures world.bodies == GravitatedAll(old(world.bodies), dt)
  {
    var remaining := world.bodies.Keys;
    while remaining != {}
      invariant world.Valid()
      invariant remaining <= old(world.bodies).Keys
      invariant world.bodies.Keys == old(world.bodies).Keys
      invariant forall id :: id in world.bodies ==>
        world.bodies[id] == if id in remaining then old(world.bodies)[id] else Accelerated(old(world.bodies)[id], Gravity, dt)
      decreases |remaining|
    {
      var id :| id in remaining;
      Accelerate(world, id, Gravity, dt);
      remaining := remaining - {id};
    }
  }
}
