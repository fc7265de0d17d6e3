/** The systems driven by the plates: absorbing plates remove the electrons
    inside their box, cathode plates emit electrons when the spawn timer
    fires, and the cathodes' field strength follows the user interface. */
module Controls {
  import opened Structs

  function Abs(r: real): (a: real)
    ensures a >= 0.0 && (a == r || a == -r)
  {
    if r < 0.0 then -r else r
  }

  // ---------------------------------------------------------------------
  // Absorbing plates

  /** An absorbing plate: its position, its shape and its field. */
  datatype DestructionPlate = DestructionPlate(translation: Vec3, plate: Plate, field: PlateDestructionField)

  /** Whether a plate-local position is inside the absorbing box: a position
      is kept only when it is strictly outside along some axis. */
  predicate Absorbs(d: DestructionPlate, rel: Vec3)
  {
    !(Abs(rel.x) > d.plate.width / 2.0 || Abs(rel.y) > d.plate.height / 2.0 || Abs(rel.z) > d.field.depth)
  }

  /** The box is closed: a position on its faces is absorbed, and any
      position strictly beyond a face is not. */
  lemma AbsorbsBox(d: DestructionPlate, rel: Vec3)
    ensures Absorbs(d, rel) <==>
      -d.plate.width / 2.0 <= rel.x <= d.plate.width / 2.0 &&
      -d.plate.height / 2.0 <= rel.y <= d.plate.height / 2.0 &&
      -d.field.depth <= rel.z <= d.field.depth
  {
  }

  /** The position of `pos` in the frame of plate number `p`: relative to the
      plate's translation, then turned by the inverse of the plate's rotation
      (`unrotate`). */
  function LocalPosition(plates: seq<DestructionPlate>, p: nat, pos: Vec3, unrotate: (nat, Vec3) -> Vec3): Vec3
    requires p < |plates|
  {
    unrotate(p, Sub(pos, plates[p].translation))
  }

  /** The ids that plate number `p` absorbs. */
  function AbsorbedByPlate(bodies: map<nat, Body>, plates: seq<DestructionPlate>, p: nat, unrotate: (nat, Vec3) -> Vec3): set<nat>
    requires p < |plates|
  {
    set id | id in bodies && Absorbs(plates[p], LocalPosition(plates, p, bodies[id].translation, unrotate))
  }

  /** The ids that the plates absorb, plate after plate. */
  function Absorbed(bodies: map<nat, Body>, plates: seq<DestructionPlate>, unrotate: (nat, Vec3) -> Vec3): set<nat>
    decreases |plates|
  {
    if plates == [] then {}
    else
      var n := |plates| - 1;
      Absorbed(bodies, plates[..n], unrotate) + AbsorbedByPlate(bodies, plates, n, unrotate)
  }

  /** An electron is removed if and only if it lies inside the box of at
      least one absorbing plate. */
  lemma {:induction false} AbsorbedMembership(bodies: map<nat, Body>, plates: seq<DestructionPlate>, unrotate: (nat, Vec3) -> Vec3, id: nat)
    ensures id in Absorbed(bodies, plates, unrotate) <==>
      id in bodies && exists p :: 0 <= p < |plates| && Absorbs(plates[p], LocalPosition(plates, p, bodies[id].translation, unrotate))
    decreases |plates|
  {
    if plates != [] {
      var n := |plates| - 1;
      var q := plates[..n];
      AbsorbedMembership(bodies, q, unrotate, id);
      if id in bodies {
        forall p | 0 <= p < n
          ensures LocalPosition(q, p, bodies[id].translation, unrotate) == LocalPosition(plates, p, bodies[id].translation, unrotate)
          ensures q[p] == plates[p]
        {
        }
      }
    }
  }

  /** The despawn commands that the nested loops issue: for every plate, for
      every electron, the electron's id when the plate absorbs it. Nothing is
      removed here. */
  method CollectDespawns(bodies: map<nat, Body>, plates: seq<DestructionPlate>, unrotate: (nat, Vec3) -> Vec3) returns (doomed: set<nat>)
    ensures doomed == Absorbed(bodies, plates, unrotate)
  {
    doomed := {};
    for p := 0 to |plates|
      invariant doomed == Absorbed(bodies, plates[..p], unrotate)
    {
      var found := CollectForPlate(bodies, plates, p, unrotate);
      doomed := doomed + found;
      assert plates[..p + 1][..p] == plates[..p];
      assert AbsorbedByPlate(bodies, plates[..p + 1], p, unrotate) == AbsorbedByPlate(bodies, plates, p, unrotate);
    }
    assert plates[..|plates|] == plates;
  }

  /** The inner loop for plate number `p`: every electron is compared with
      the plate's box. */
  method CollectForPlate(bodies: map<nat, Body>, plates: seq<DestructionPlate>, p: nat, unrotate: (nat, Vec3) -> Vec3) returns (found: set<nat>)
    requires p < |plates|
    ensures found == AbsorbedByPlate(bodies, plates, p, unrotate)
  {
    var d := plates[p];
    found := {};
    var remaining := bodies.Keys;
    while remaining != {}
      invariant remaining <= bodies.Keys
      invariant forall id :: id in found <==>
        id in bodies && id !in remaining && Absorbs(d, LocalPosition(plates, p, bodies[id].translation, unrotate))
      decreases |remaining|
    {
      var id :| id in remaining;
      var rel := unrotate(p, Sub(bodies[id].translation, d.translation));
      if !(Abs(rel.x) > d.plate.width / 2.0 || Abs(rel.y) > d.plate.height / 2.0 || Abs(rel.z) > d.field.depth) {
        found := found + {id};
      }
      remaining := remaining - {id};
    }
  }

  /** Runs the absorption: the despawn commands are collected and then
      applied together. Every other body keeps its state. */
  method ApplyDestructionField(world: World, plates: seq<DestructionPlate>, unrotate: (nat, Vec3) -> Vec3)
    requires world.Valid()
    modifies world`bodies
    ensures world.Valid()
    ensures world.bodies.Keys == old(world.bodies).Keys - Absorbed(old(world.bodies), plates, unrotate)
    ensures forall id :: id in world.bodies ==> world.bodies[id] == old(world.bodies)[id]
  {
    var doomed := CollectDespawns(world.bodies, plates, unrotate);
    world.Despawn(doomed);
  }

  // ---------------------------------------------------------------------
  // Cathode emission

  /** A cathode plate: its position, its shape and its cathode payload. */
  datatype CathodeEntity = CathodeEntity(translation: Vec3, plate: Plate, cathode: PlateCathode)

  /** One electron to create: the cathode that emits it, its offset in the
      plate's frame, its world position and its velocity. */
  datatype SpawnRequest = SpawnRequest(cathode: nat, offset: Vec3, position: Vec3, velocity: Vec3)

  /** The number of draws from the random source per electron: three for the
      offset, then three for the velocity. */
  const DrawsPerSpawn: nat := 6

  /** A draw `r` in [0, 1) turned into a coordinate centred on 0 that spans
      `extent`. */
  function Centered(r: real, extent: real): real
  {
    (r - 0.5) * extent
  }

  /** Spawn number `n` of the tick, emitted by cathode number `c`; it uses
      draws 6n .. 6n+5 of the tick, each drawn value turned by `Centered`.
      `rotate` turns a plate-local vector by the
      rotation of cathode `c`. */
  function SpawnFrom(ce: CathodeEntity, c: nat, n: nat, rng: nat -> real, rotate: (nat, Vec3) -> Vec3): SpawnRequest
  {
    var k := DrawsPerSpawn * n;
    var offset := Vec3(Centered(rng(k), ce.plate.width), Centered(rng(k + 1), ce.plate.height), Centered(rng(k + 2), ce.plate.depth));
    var velocity := Vec3(Centered(rng(k + 3), 10.0), Centered(rng(k + 4), 10.0), Centered(rng(k + 5), 10.0));
    SpawnRequest(c, offset, Add(ce.translation, rotate(c, offset)), velocity)
  }

  /** The first `count` spawns of cathode number `c`, the first of them
      being spawn number `start` of the tick. */
  function Block(ce: CathodeEntity, c: nat, start: nat, count: nat, rng: nat -> real, rotate: (nat, Vec3) -> Vec3): (r: seq<SpawnRequest>)
    ensures |r| == count
    decreases count
  {
    if count == 0 then []
    else Block(ce, c, start, count - 1, rng, rotate) + [SpawnFrom(ce, c, start + count - 1, rng, rotate)]
  }

  /** Everything the cathodes emit on a tick when the timer fires, cathode
      after cathode. */
  function Emission(cs: seq<CathodeEntity>, rng: nat -> real, rotate: (nat, Vec3) -> Vec3): seq<SpawnRequest>
    decreases |cs|
  {
    if cs == [] then []
    else
      var n := |cs| - 1;
      var prior := Emission(cs[..n], rng, rotate);
      prior + Block(cs[n], n, |prior|, cs[n].cathode.emissivity, rng, rotate)
  }

  /** The emission system: nothing unless the spawn timer finished on this
      tick; otherwise `emissivity` electrons from each cathode, each taking
      its six draws from the random source in turn. */
  method CathodesSpawnElectrons(justFinished: bool, cathodes: seq<CathodeEntity>, rng: nat -> real, rotate: (nat, Vec3) -> Vec3)
    returns (spawns: seq<SpawnRequest>)
    ensures spawns == if justFinished then Emission(cathodes, rng, rotate) else []
  {
    spawns := [];
    if !justFinished {
      return;
    }
    for i := 0 to |cathodes|
      invariant spawns == Emission(cathodes[..i], rng, rotate)
    {
      var block := EmitFrom(cathodes[i], i, |spawns|, rng, rotate);
      spawns := spawns + block;
      assert cathodes[..i + 1][..i] == cathodes[..i];
    }
    assert cathodes[..|cathodes|] == cathodes;
  }

  /** The inner loop for cathode number `c`: `emissivity` electrons, the
      first being spawn number `start` of the tick, so that the draws taken
      so far number six per earlier spawn. */
  method EmitFrom(ce: CathodeEntity, c: nat, start: nat, rng: nat -> real, rotate: (nat, Vec3) -> Vec3) returns (block: seq<SpawnRequest>)
    ensures block == Block(ce, c, start, ce.cathode.emissivity, rng, rotate)
  {
    block := [];
    var draws: nat := DrawsPerSpawn * start;
    for k := 0 to ce.cathode.emissivity
      invariant block == Block(ce, c, start, k, rng, rotate)
      invariant draws == DrawsPerSpawn * (start + k)
    {
      var offset := Vec3(Centered(rng(draws), ce.plate.width), Centered(rng(draws + 1), ce.plate.height), Centered(rng(draws + 2), ce.plate.depth));
      var velocity := Vec3(Centered(rng(draws + 3), 10.0), Centered(rng(draws + 4), 10.0), Centered(rng(draws + 5), 10.0));
      assert SpawnFrom(ce, c, start + k, rng, rotate) == SpawnRequest(c, offset, Add(ce.translation, rotate(c, offset)), velocity);
      draws := draws + DrawsPerSpawn;
      block := block + [SpawnRequest(c, offset, Add(ce.translation, rotate(c, offset)), velocity)];
    }
  }

  /** The sum of the cathodes' emissivities. */
  function TotalEmission(cs: seq<CathodeEntity>): nat
    decreases |cs|
  {
    if cs == [] then 0 else TotalEmission(cs[..|cs| - 1]) + cs[|cs| - 1].cathode.emissivity
  }

  /** A firing emits exactly the sum of the emissivities. */
  lemma {:induction false} EmissionLength(cs: seq<CathodeEntity>, rng: nat -> real, rotate: (nat, Vec3) -> Vec3)
    ensures |Emission(cs, rng, rotate)| == TotalEmission(cs)
    decreases |cs|
  {
    if cs != [] {
      EmissionLength(cs[..|cs| - 1], rng, rotate);
    }
  }

  lemma {:induction false} BlockAt(ce: CathodeEntity, c: nat, start: nat, count: nat, rng: nat -> real, rotate: (nat, Vec3) -> Vec3, j: nat)
    requires j < count
    ensures Block(ce, c, start, count, rng, rotate)[j] == SpawnFrom(ce, c, start + j, rng, rotate)
    decreases count
  {
    if j < count - 1 {
      BlockAt(ce, c, start, count - 1, rng, rotate, j);
    }
  }

  /** Spawn number `j` of a firing comes from an existing cathode and is
      built from draws 6j .. 6j+5. */
  lemma {:induction false} EmissionAt(cs: seq<CathodeEntity>, rng: nat -> real, rotate: (nat, Vec3) -> Vec3, j: nat)
    requires j < |Emission(cs, rng, rotate)|
    ensures var s := Emission(cs, rng, rotate)[j];
      s.cathode < |cs| && s == SpawnFrom(cs[s.cathode], s.cathode, j, rng, rotate)
    decreases |cs|
  {
    var n := |cs| - 1;
    var prior := Emission(cs[..n], rng, rotate);
    var block := Block(cs[n], n, |prior|, cs[n].cathode.emissivity, rng, rotate);
    var all := Emission(cs, rng, rotate);
    assert all == prior + block;
    if j < |prior| {
      EmissionAt(cs[..n], rng, rotate, j);
      var k := prior[j].cathode;
      assert all[j] == prior[j];
      assert cs[..n][k] == cs[k];
    } else {
      BlockAt(cs[n], n, |prior|, cs[n].cathode.emissivity, rng, rotate, j - |prior|);
      assert all[j] == block[j - |prior|];
    }
  }

  /** The number of spawns emitted by cathode number `c`. */
  function CountFor(spawns: seq<SpawnRequest>, c: nat): nat
    decreases |spawns|
  {
    if spawns == [] then 0
    else CountFor(spawns[..|spawns| - 1], c) + (if spawns[|spawns| - 1].cathode == c then 1 else 0)
  }

  lemma {:induction false} CountForAppend(a: seq<SpawnRequest>, b: seq<SpawnRequest>, c: nat)
    ensures CountFor(a + b, c) == CountFor(a, c) + CountFor(b, c)
    decreases |b|
  {
    if b != [] {
      var n := |b| - 1;
      assert (a + b)[..|a + b| - 1] == a + b[..n];
      assert (a + b)[|a + b| - 1] == b[n];
      CountForAppend(a, b[..n], c);
    } else {
      assert a + b == a;
    }
  }

  lemma {:induction false} BlockCount(ce: CathodeEntity, c: nat, start: nat, count: nat, rng: nat -> real, rotate: (nat, Vec3) -> Vec3, c': nat)
    ensures CountFor(Block(ce, c, start, count, rng, rotate), c') == if c == c' then count else 0
    decreases count
  {
    if count != 0 {
      var b := Block(ce, c, start, count, rng, rotate);
      assert b[..|b| - 1] == Block(ce, c, start, count - 1, rng, rotate);
      BlockCount(ce, c, start, count - 1, rng, rotate, c');
    }
  }

  /** When the timer fires, each cathode emits exactly its emissivity, and no
      spawn names a cathode that does not exist. */
  lemma {:induction false} EmissionPerCathode(cs: seq<CathodeEntity>, rng: nat -> real, rotate: (nat, Vec3) -> Vec3, c: nat)
    ensures CountFor(Emission(cs, rng, rotate), c) == if c < |cs| then cs[c].cathode.emissivity else 0
    decreases |cs|
  {
    if cs != [] {
      var n := |cs| - 1;
      var prior := Emission(cs[..n], rng, rotate);
      EmissionPerCathode(cs[..n], rng, rotate, c);
      CountForAppend(prior, Block(cs[n], n, |prior|, cs[n].cathode.emissivity, rng, rotate), c);
      BlockCount(cs[n], n, |prior|, cs[n].cathode.emissivity, rng, rotate, c);
    }
  }

  /** Whether every draw of the random source lies in [0, 1). */
  ghost predicate UnitDraws(rng: nat -> real)
  {
    forall k: nat :: 0.0 <= rng(k) < 1.0
  }

  /** `(r - 0.5) * extent` for a draw in [0, 1) lies in [-extent/2, extent/2),
      and is 0 when the extent is 0. */
  lemma CenteredBounds(r: real, extent: real)
    requires 0.0 <= r < 1.0 && extent >= 0.0
    ensures -extent / 2.0 <= Centered(r, extent) <= extent / 2.0
    ensures extent > 0.0 ==> Centered(r, extent) < extent / 2.0
    ensures extent == 0.0 ==> Centered(r, extent) == 0.0
  {
    CenteredSplit(r, extent);
    ProductNonNegative(r, extent);
    ProductNonNegative(1.0 - r, extent);
    if extent > 0.0 {
      ProductPositive(1.0 - r, extent);
    }
  }

  lemma CenteredSplit(r: real, extent: real)
    ensures Centered(r, extent) + extent / 2.0 == r * extent
    ensures extent / 2.0 - Centered(r, extent) == (1.0 - r) * extent
  {
  }

  lemma ProductNonNegative(a: real, b: real)
    requires a >= 0.0 && b >= 0.0
    ensures a * b >= 0.0
  {
  }

  lemma ProductPositive(a: real, b: real)
    requires a > 0.0 && b > 0.0
    ensures a * b > 0.0
  {
  }

  /** Whether `v` lies in the half-open box [-e/2, e/2) on every axis, with a
      zero extent pinning that axis to 0. */
  predicate InHalfOpenBox(v: Vec3, e: Vec3)
  {
    -e.x / 2.0 <= v.x <= e.x / 2.0 && (e.x > 0.0 ==> v.x < e.x / 2.0) && (e.x == 0.0 ==> v.x == 0.0) &&
    -e.y / 2.0 <= v.y <= e.y / 2.0 && (e.y > 0.0 ==> v.y < e.y / 2.0) && (e.y == 0.0 ==> v.y == 0.0) &&
    -e.z / 2.0 <= v.z <= e.z / 2.0 && (e.z > 0.0 ==> v.z < e.z / 2.0) && (e.z == 0.0 ==> v.z == 0.0)
  }

  /** Whether a spawn of cathode `ce` starts inside the plate's box (width,
      height, depth), centred on the plate, at the plate's position moved by
      the rotated offset, with every velocity component in [-5, 5). */
  predicate SpawnWithin(s: SpawnRequest, ce: CathodeEntity, rotate: (nat, Vec3) -> Vec3)
  {
    InHalfOpenBox(s.offset, Vec3(ce.plate.width, ce.plate.height, ce.plate.depth)) &&
    s.position == Add(ce.translation, rotate(s.cathode, s.offset)) &&
    -5.0 <= s.velocity.x < 5.0 && -5.0 <= s.velocity.y < 5.0 && -5.0 <= s.velocity.z < 5.0
  }

  lemma SpawnFromBounds(ce: CathodeEntity, c: nat, n: nat, rng: nat -> real, rotate: (nat, Vec3) -> Vec3)
    requires UnitDraws(rng)
    requires ce.plate.width >= 0.0 && ce.plate.height >= 0.0 && ce.plate.depth >= 0.0
    ensures SpawnWithin(SpawnFrom(ce, c, n, rng, rotate), ce, rotate)
  {
    var k := DrawsPerSpawn * n;
    var s := SpawnFrom(ce, c, n, rng, rotate);
    assert s.offset == Vec3(Centered(rng(k), ce.plate.width), Centered(rng(k + 1), ce.plate.height), Centered(rng(k + 2), ce.plate.depth));
    assert s.velocity == Vec3(Centered(rng(k + 3), 10.0), Centered(rng(k + 4), 10.0), Centered(rng(k + 5), 10.0));
    CenteredBounds(rng(k), ce.plate.width);
    CenteredBounds(rng(k + 1), ce.plate.height);
    CenteredBounds(rng(k + 2), ce.plate.depth);
    CenteredBounds(rng(k + 3), 10.0);
    CenteredBounds(rng(k + 4), 10.0);
    CenteredBounds(rng(k + 5), 10.0);
  }

  /** With draws in [0, 1) and plates of non-negative extents, every spawn of
      a firing comes from an existing cathode and satisfies `SpawnWithin`. */
  lemma EmissionBounds(cs: seq<CathodeEntity>, rng: nat -> real, rotate: (nat, Vec3) -> Vec3, j: nat)
    requires UnitDraws(rng)
    requires forall c :: 0 <= c < |cs| ==> cs[c].plate.width >= 0.0 && cs[c].plate.height >= 0.0 && cs[c].plate.depth >= 0.0
    requires j < |Emission(cs, rng, rotate)|
    ensures var s := Emission(cs, rng, rotate)[j];
      s.cathode < |cs| && SpawnWithin(s, cs[s.cathode], rotate)
  {
    EmissionAt(cs, rng, rotate, j);
    var s := Emission(cs, rng, rotate)[j];
    SpawnFromBounds(cs[s.cathode], s.cathode, j, rng, rotate);
  }

  /** Applies the spawn commands: each request becomes a new body with a
      fresh id, in order. */
  method ApplySpawns(world: World, spawns: seq<SpawnRequest>)
    requires world.Valid()
    modifies world
    ensures world.Valid()
    ensures world.nextId == old(world.nextId) + |spawns|
    ensures forall id :: id in world.bodies <==> id in old(world.bodies) || old(world.nextId) <= id < world.nextId
    ensures forall id :: id in old(world.bodies) ==> world.bodies[id] == old(world.bodies)[id]
    ensures forall j :: 0 <= j < |spawns| ==>
      world.bodies[old(world.nextId) + j] == Body(spawns[j].position, spawns[j].velocity)
  {
    for j := 0 to |spawns|
      invariant world.Valid()
      invariant world.nextId == old(world.nextId) + j
      invariant forall id :: id in world.bodies <==> id in old(world.bodies) || old(world.nextId) <= id < world.nextId
      invariant forall id :: id in old(world.bodies) ==> world.bodies[id] == old(world.bodies)[id]
      invariant forall i :: 0 <= i < j ==> world.bodies[old(world.nextId) + i] == Body(spawns[i].position, spawns[i].velocity)
    {
      var _ := world.Spawn(spawns[j].position, spawns[j].velocity);
    }
  }

  // ---------------------------------------------------------------------
  // Electric field

  /** The cathodes with their field strength set to `e`. */
  function WithElectricField(cs: seq<CathodeEntity>, e: real): seq<CathodeEntity>
  {
    seq(|cs|, i requires 0 <= i < |cs| => cs[i].(cathode := cs[i].cathode.(eField := e)))
  }

  /** Every cathode ends with field `e` and keeps its emissivity, its plate
      and its position; no cathode is added or removed. */
  lemma ElectricFieldEffect(cs: seq<CathodeEntity>, e: real)
    ensures var r := WithElectricField(cs, e);
      |r| == |cs| &&
      forall i :: 0 <= i < |cs| ==>
        r[i].cathode.eField == e && r[i].cathode.emissivity == cs[i].cathode.emissivity &&
        r[i].plate == cs[i].plate && r[i].translation == cs[i].translation
  {
  }

  /** The field strength plays no part in emission. */
  lemma {:induction false} EmissionIgnoresField(cs: seq<CathodeEntity>, e: real, rng: nat -> real, rotate: (nat, Vec3) -> Vec3)
    ensures Emission(WithElectricField(cs, e), rng, rotate) == Emission(cs, rng, rotate)
    decreases |cs|
  {
    if cs != [] {
      var n := |cs| - 1;
      var ws := WithElectricField(cs, e);
      assert ws[..n] == WithElectricField(cs[..n], e);
      EmissionIgnoresField(cs[..n], e, rng, rotate);
      BlockIgnoresField(cs[n], ws[n], n, |Emission(cs[..n], rng, rotate)|, cs[n].cathode.emissivity, rng, rotate);
    }
  }

  lemma {:induction false} BlockIgnoresField(ce: CathodeEntity, ce': CathodeEntity, c: nat, start: nat, count: nat, rng: nat -> real, rotate: (nat, Vec3) -> Vec3)
    requires ce'.plate == ce.plate && ce'.translation == ce.translation
    ensures Block(ce', c, start, count, rng, rotate) == Block(ce, c, start, count, rng, rotate)
    decreases count
  {
    if count != 0 {
      BlockIgnoresField(ce, ce', c, start, count - 1, rng, rotate);
      assert SpawnFrom(ce', c, start + count - 1, rng, rotate) == SpawnFrom(ce, c, start + count - 1, rng, rotate);
    }
  }

  /** Sets every cathode's field strength to the value chosen in the user
      interface, in place. */
  method UpdateElectricField(cathodes: array<CathodeEntity>, ui: UiState)
    modifies cathodes
    ensures cathodes[..] == WithElectricField(old(cathodes[..]), ui.eValue)
  {
    var e := ui.eValue;
    for i := 0 to cathodes.Length
      invariant forall j :: 0 <= j < i ==> cathodes[j] == old(cathodes[j]).(cathode := old(cathodes[j]).cathode.(eField := e))
      invariant forall j :: i <= j < cathodes.Length ==> cathodes[j] == old(cathodes[j])
    {
      cathodes[i] := cathodes[i].(cathode := cathodes[i].cathode.(eField := e));
    }
  }
}
