/** Plain data of the electron simulator: 3D vectors, the components that
    entities carry, and the store of entities that have a transform and a
    velocity (the electrons). */
module Structs {

  /** A 3D vector. The simulator uses 32-bit floats; the model uses reals. */
  datatype Vec3 = Vec3(x: real, y: real, z: real)

  const Zero: Vec3 := Vec3(0.0, 0.0, 0.0)

  function Add(u: Vec3, v: Vec3): Vec3
  {
    Vec3(u.x + v.x, u.y + v.y, u.z + v.z)
  }

  function Sub(u: Vec3, v: Vec3): Vec3
  {
    Vec3(u.x - v.x, u.y - v.y, u.z - v.z)
  }

  function Scale(v: Vec3, k: real): Vec3
  {
    Vec3(v.x * k, v.y * k, v.z * k)
  }

  /** The two components of an entity that the physics systems touch: the
      translation of its Transform and its Velocity. */
  datatype Body = Body(translation: Vec3, velocity: Vec3)

  /** Shape of a rectangular plate. */
  datatype Plate = Plate(height: real, width: real, depth: real)

  /** Cathode payload: field strength and the number of electrons emitted per
      timer period (an unsigned 32-bit count in the simulator). */
  datatype PlateCathode = PlateCathode(eField: real, emissivity: nat)

  /** Absorbing plate payload: the absorption depth along the plate normal. */
  datatype PlateDestructionField = PlateDestructionField(depth: real)

  /** Control values written by the user interface. */
  datatype UiState = UiState(phiValue: real, thetaValue: real, eValue: real, bValue: real, isWindowFocused: bool)

  /** The entities that carry a Transform and a Velocity, keyed by entity id.
      Ids are handed out by a counter and never reused. */
  class World {
    var bodies: map<nat, Body>
    var nextId: nat

    ghost predicate Valid()
      reads this
    {
      forall id :: id in bodies ==> id < nextId
    }

    constructor ()
      ensures Valid() && bodies == map[] && nextId == 0
    {
      bodies := map[];
      nextId := 0;
    }

    /** Creates a new entity with a fresh id. */
    method Spawn(translation: Vec3, velocity: Vec3) returns (id: nat)
      requires Valid()
      modifies this
      ensures Valid()
      ensures id == old(nextId) && id !in old(bodies)
      ensures bodies == old(bodies)[id := Body(translation, velocity)]
      ensures nextId == old(nextId) + 1
    {
      id := nextId;
      bodies := bodies[id := Body(translation, velocity)];
      nextId := nextId + 1;
    }

    /** Removes every entity whose id is in `ids`; ids that do not resolve are ignored. */
    method Despawn(ids: set<nat>)
      requires Valid()
      modifies this`bodies
      ensures Valid()
      ensures bodies.Keys == old(bodies).Keys - ids
      ensures forall id :: id in bodies ==> bodies[id] == old(bodies)[id]
    {
      bodies := bodies - ids;
    }
  }
}
