# Electron simulator: grid, plates and kinematics in Dafny

This project models the discrete bookkeeping at the heart of a Bevy-based
electron simulator (a teaching tool for diode and magnetron electron
dynamics), and proves properties of it:

- **Spatial hash grid** (`src/physics/electrons.rs`). A position maps to an
  integer cell by Euclidean floor division by the cell size 10.0. Every tick
  the grid (`ElectronChunks`) is cleared and each electron is appended to the
  bucket of its cell.
- **Repulsion neighbourhood** (`src/physics/electrons.rs`). The repulsion
  system walks the grid bucket by bucket. For each electron whose id still
  resolves, it picks the partners: every entry of the existing buckets among
  the 26 neighbouring cells, then the entries of the electron's own bucket
  with another id. It adds each partner's impulse to that electron's
  velocity only. The force itself is a parameter of the model.
- **Plates** (`src/controls.rs`):
  - Absorbing plates remove every electron whose plate-local position lies in
    a closed box: half-width, half-height, and the field depth.
  - Cathode plates emit `emissivity` electrons each when the spawn timer
    fires. Each electron takes six random draws: three for the position
    offset in the plate's frame, three for the velocity.
  - The cathodes' field strength is overwritten with the value chosen in the
    user interface.
- **Kinematics** (`src/physics.rs`). `move_by_velocity` adds `velocity * dt`
  to each translation. `accelerate` adds `a * dt` to the velocity and
  `a * dt * dt / 2` to the translation. `apply_gravity` applies `accelerate`
  with `(0, -9.81, 0)` to every body. `apply_gravity` is modelled, but the
  app does not currently schedule it: it is commented out of the
  `FixedUpdate` systems (src/main.rs:48).

## Modelling choices

- **Entity store.** The entities that carry a transform and a velocity are the
  class `Structs.World`, a map from entity id to `Body(translation,
  velocity)`. Ids come from a counter and are never reused. The world's id
  invariant, `World.Valid()`, says every live id is below the counter. Every
  method that changes the world requires it and keeps it.
- **Systems as methods.** The imperative systems are methods that update the
  world or the grid in place. They keep the loops of the source, and each is
  proved equal to a specification function:
  - `Bucketed` for the grid rebuild;
  - `RepelAll` for the repulsion;
  - `MovedAll` for moving by velocity;
  - `GravitatedAll` for gravity;
  - `Absorbed` for absorption;
  - `Emission` for spawning;
  - `WithElectricField` for the field update.

  The lemmas are stated about those functions.
- **Engine inputs as parameters.** Everything the engine supplies is an
  explicit parameter:
  - the hash map's iteration order: a sequence that lists every key once;
  - the ECS query order of the electrons: a sequence for the rebuild, and any
    order (a nondeterministic pick) for the per-body loops;
  - the random source: `rng`, the k-th draw of the tick;
  - the spawn timer: `justFinished`;
  - the plate rotations: `unrotate` and `rotate`;
  - the repulsion force: `force`.
- **Deferred commands.** Bevy's deferred `Commands` are modelled as work
  applied after the loop:
  - despawns become a set of ids, removed by `World.Despawn` once the loops
    end;
  - spawns become a sequence of requests, applied in order by `ApplySpawns`.
- **Behaviour of the code worth noting.**
  - The repulsion does not apply equal and opposite impulses. Each electron
    adds its partners' impulses to its own velocity only. Its partner
    obtains the mirrored impulse only when its own turn comes.
  - The code has no guard for two distinct electrons at the same position.
  - Emission happens once per timer period, not on every tick.

## Model

| member | source | states |
|---|---|---|
| Electrons.DivEuclid | src/physics/electrons.rs:19-21 | the cell index of one coordinate: `div_euclid` by the cell size 10, rounding towards minus infinity |
| Electrons.WorldPosToChunkPos | src/physics/electrons.rs:17-23 | the cell of a position, one `DivEuclid` per axis |
| Electrons.DivEuclidBounds | src/physics/electrons.rs:19-21 | the cell index `c` of a coordinate `p` satisfies `c*10 <= p < (c+1)*10`, for negative `p` too |
| Electrons.DivEuclidUnique | src/physics/electrons.rs:19-21 | the cell index is the only integer whose interval contains `p` |
| Electrons.ChunkPosBounds | src/physics/electrons.rs:17-23 | a position lies inside the cube of its cell on all three axes |
| Electrons.Bucketed | src/physics/electrons.rs:32-39 | the grid after clearing and pushing each electron, in query order, to the bucket of its cell |
| Electrons.BucketedContents | src/physics/electrons.rs:32-39 | after a rebuild the bucket of a cell is exactly the electrons of that cell in iteration order (the order `push` gives) and is non-empty; a cell without electrons has no bucket |
| Electrons.BucketedKeyAt | src/physics/electrons.rs:30-35 | a cell has a bucket iff some current electron lies in it, so no key of the previous grid survives the clear |
| Electrons.BucketedMemberAt | src/physics/electrons.rs:35-38 | an entry of a bucket is exactly a current electron whose cell is that bucket's cell |
| Electrons.RebuildPartition | src/physics/electrons.rs:29-39 | keys are exactly the occupied cells, no bucket is empty, and every entry is an electron of the query lying in the bucket's cell |
| Electrons.BucketedHas | src/physics/electrons.rs:32-39 | every electron of the query is in the bucket of its own cell |
| Electrons.BucketedTotal | src/physics/electrons.rs:32-39 | the bucket lengths add up to the number of electrons |
| Electrons.BucketedWellFormed | src/physics/electrons.rs:32-39 | with distinct entity ids, every entry is keyed by its own cell and each id occurs once in the whole grid |
| Electrons.ElectronChunks.constructor | src/physics/electrons.rs:9-10 | the default grid is empty |
| Electrons.ElectronChunks.Update | src/physics/electrons.rs:25-40 | clearing and then pushing every electron leaves the grid equal to `Bucketed` of the query |
| Electrons.NeighborOffsets | src/physics/electrons.rs:49-51 | the offsets in the order the nested `flat_map` gives them, with (0,0,0) filtered out |
| Electrons.NeighborBuckets | src/physics/electrons.rs:52-54 | the buckets at `c + o` for each offset `o`, in offset order, skipping cells without a bucket |
| Electrons.Flatten | src/physics/electrons.rs:63-65 | the neighbour buckets' entries concatenated in order, as `flat_map` yields them |
| Electrons.OthersInBucket | src/physics/electrons.rs:66 | the own bucket's entries whose id differs from the electron's, in order |
| Electrons.Candidates | src/physics/electrons.rs:63-67 | the partner sequence: the flattened neighbour buckets, then the own bucket without the electron's own id |
| Electrons.NeighborOffsetsLength | src/physics/electrons.rs:49-51 | the offset comprehension yields 26 offsets |
| Electrons.NeighborOffsetAt | src/physics/electrons.rs:49-51 | an offset is generated iff every component is in {-1,0,1} and it is not (0,0,0) |
| Electrons.NeighborOffsetsExact | src/physics/electrons.rs:49-51 | the offsets are exactly the 26 non-zero triples over {-1,0,1} and are closed under negation |
| Electrons.NeighborBucketsExisting | src/physics/electrons.rs:52-54 | the neighbour list holds exactly the buckets of the neighbour cells that exist in the map |
| Electrons.CandidateAt | src/physics/electrons.rs:63-67 | a partner is an entry of an existing neighbour bucket or an own-bucket entry with another id, and nothing else |
| Electrons.CandidatesMembership | src/physics/electrons.rs:63-67 | the same characterisation for all partners at once |
| Electrons.CandidateSound | src/physics/electrons.rs:63-67 | on a rebuilt grid every partner is another electron (never the electron itself) in an adjacent or the same cell |
| Electrons.CandidateComplete | src/physics/electrons.rs:63-67 | on a rebuilt grid every other electron in an adjacent or the same cell is a partner |
| Electrons.CandidatesExact | src/physics/electrons.rs:49-67 | partners are exactly the other electrons whose cell is the same as, or adjacent on every axis to, its own |
| Electrons.NeighborEntrySound | src/physics/electrons.rs:49-65 | an entry of a neighbour bucket of a rebuilt grid is another electron of the query in an adjacent cell |
| Electrons.CloseAdjacentAxis | src/physics/electrons.rs:17-23 | coordinates at most one cell width apart have cell indices that differ by at most one |
| Electrons.AdjacentCloseAxis | src/physics/electrons.rs:17-23 | coordinates whose cell indices differ by at most one are less than two cell widths apart |
| Electrons.CloseIsPartner | src/physics/electrons.rs:32-67 | on a rebuilt grid every other electron at most one cell width away on every axis is a partner |
| Electrons.PartnerIsNear | src/physics/electrons.rs:32-67 | on a rebuilt grid every partner is less than two cell widths away on every axis |
| Electrons.NeighborBack | src/physics/electrons.rs:49-53 | if cell `c + o` is a neighbour of `c` then `c` is a neighbour of `c + o` |
| Electrons.NeighborOffsetsDistinct | src/physics/electrons.rs:49-51 | no offset is generated twice |
| Electrons.CandidatesUniqueIds | src/physics/electrons.rs:49-67 | on a grid whose ids are unique, no id occurs twice among an electron's partners |
| Electrons.RebuiltCandidatesOnce | src/physics/electrons.rs:32-67 | on a rebuilt grid of electrons with distinct ids, each partner is visited once, so no impulse is added twice |
| Electrons.CandidateSymmetry | src/physics/electrons.rs:49-66 | if B is a partner of A then A is a partner of B |
| Electrons.Accumulate | src/physics/electrons.rs:63-72 | the velocity after adding `force(other - pos) * dt` for each partner in turn |
| Electrons.Repelled | src/physics/electrons.rs:63-72 | one live electron's body: its velocity accumulates the impulses of its partners and its translation is kept |
| Electrons.RepelElectron | src/physics/electrons.rs:55-72 | one electron's update: skipped if its id has no body, else its velocity accumulates its partners' impulses |
| Electrons.RepelBucket | src/physics/electrons.rs:55-73 | the electrons of one bucket updated in bucket order |
| Electrons.RepelAll | src/physics/electrons.rs:48-74 | the buckets updated in the map's iteration order |
| Electrons.RepelBucketFrame | src/physics/electrons.rs:55-72 | visiting a bucket adds and removes no body and changes no translation |
| Electrons.RepelAllFrame | src/physics/electrons.rs:48-72 | the repulsion pass adds and removes no body and changes no translation |
| Electrons.RepelBucketUntouched | src/physics/electrons.rs:55-62 | a body whose id is not in the visited bucket is unchanged; a dead id is skipped without effect |
| Electrons.RepelAllUntouched | src/physics/electrons.rs:48-62 | a body whose id is in no visited bucket is unchanged |
| Electrons.RepelBucketAt | src/physics/electrons.rs:55-72 | within a bucket of distinct ids each live entry gets exactly its own impulse sum, applied to its body as it was before the bucket |
| Electrons.RepelAllAt | src/physics/electrons.rs:48-72 | over the whole pass each live entry gets exactly its own impulse sum, applied to its body as it was before the pass |
| Electrons.RepulsionEffect | src/physics/electrons.rs:42-75 | on a rebuilt grid each live electron's velocity grows by the impulses of exactly its partners; every other body and every translation is unchanged |
| Electrons.AddImpulses | src/physics/electrons.rs:63-72 | the inner loop adds the impulse of every partner, in order |
| Electrons.RepelBucketInPlace | src/physics/electrons.rs:55-73 | the loop over a bucket updates the world as `RepelBucket` says, skipping dead ids; it adds and removes no body and keeps the world's id invariant |
| Electrons.ElectronRepulsion | src/physics/electrons.rs:42-75 | the system updates only velocities, as `RepelAll` says, and does not modify the grid; it adds and removes no body and keeps the world's id invariant |
| Physics.Moved | src/physics.rs:10 | one body after a move: translation plus `velocity * dt` |
| Physics.MovedAll | src/physics.rs:8-12 | every body moved, with no body added or removed |
| Physics.MoveByVelocityEffect | src/physics.rs:8-12 | every translation advances by `velocity * dt`, velocities are unchanged, no body is added or removed |
| Physics.MoveZero | src/physics.rs:9-11 | with `dt = 0` nothing changes |
| Physics.MoveAdditive | src/physics.rs:8-12 | two moves of `d1` and `d2` equal one move of `d1 + d2` |
| Physics.MoveByVelocity | src/physics.rs:8-12 | the loop leaves the store equal to `MovedAll` of the old store and keeps the world's id invariant |
| Physics.Accelerated | src/physics.rs:26-34 | one body after `accelerate`: velocity plus `a*dt`, translation plus `a*dt*dt/2` |
| Physics.Accelerate | src/physics.rs:26-34 | only the given body changes, to `Accelerated` of its old state, and the world's id invariant is kept |
| Physics.AccelerateIdentity | src/physics.rs:32-33 | with zero acceleration or zero `dt` the body is unchanged |
| Physics.AccelerateDisplacement | src/physics.rs:32-33 | the velocity gains `a*dt` and the translation `a*dt*dt/2`, whatever the velocity was (no `velocity*dt` term) |
| Physics.AccelerateVelocityAdditive | src/physics.rs:32-33 | velocity changes compose over `d1 + d2`; for any non-zero acceleration, translation changes do not compose when `d1*d2 != 0` |
| Physics.MoveThenAccelerate | src/physics.rs:8-34 | a move followed by an acceleration over the same `dt` is the closed form `x + v dt + a dt²/2`, `v + a dt` |
| Physics.GravitatedAll | src/physics.rs:15-24 | every body accelerated by `(0, -9.81, 0)`, with no body added or removed |
| Physics.GravityEffect | src/physics.rs:15-24 | gravity lowers the y velocity by `9.81 dt` and the y translation by `9.81 dt²/2`, leaving x and z alone |
| Physics.ApplyGravity | src/physics.rs:15-24 | the loop applies `accelerate` with `(0, -9.81, 0)` to every body and keeps the world's id invariant |
| Controls.Abs | src/controls.rs:15-17 | the absolute value is non-negative and equals `r` or `-r` |
| Controls.Absorbs | src/controls.rs:15-19 | a plate-local position is absorbed unless one of the three `abs` comparisons exceeds its bound |
| Controls.AbsorbsBox | src/controls.rs:15-19 | absorption iff the local position is in the closed box `[-w/2,w/2] x [-h/2,h/2] x [-depth,depth]`; a position on a face is absorbed, one beyond it is not |
| Controls.LocalPosition | src/controls.rs:13-14 | an electron's position relative to the plate's translation, turned by the inverse of the plate's rotation |
| Controls.AbsorbedByPlate | src/controls.rs:11-24 | the ids of the electrons whose plate-local position one plate absorbs |
| Controls.Absorbed | src/controls.rs:10-24 | the ids of the electrons absorbed by at least one plate |
| Controls.AbsorbedMembership | src/controls.rs:10-24 | an electron is removed iff it lies in the box of at least one absorbing plate |
| Controls.CollectForPlate | src/controls.rs:11-24 | the inner loop collects exactly the electrons in the plate's box |
| Controls.CollectDespawns | src/controls.rs:10-25 | the nested loops issue despawns for exactly the absorbed electrons and remove nothing themselves |
| Controls.ApplyDestructionField | src/controls.rs:5-26 | absorbed electrons are removed and every other body keeps its state |
| Structs.World.Despawn | src/controls.rs:23 | removes exactly the given ids and leaves the other bodies alone |
| Controls.CathodesSpawnElectrons | src/controls.rs:51-72 | nothing is spawned unless the timer just finished; otherwise the spawns are `Emission` of the cathodes |
| Controls.Centered | src/controls.rs:60-67 | a draw turned into `(r - 0.5) * extent` |
| Controls.SpawnFrom | src/controls.rs:57-68 | spawn number `n`: the plate position plus the rotated offset built from three centred draws, and a velocity from three more |
| Controls.Emission | src/controls.rs:55-71 | the spawns of one firing: each cathode's block of `emissivity` spawns, cathode after cathode |
| Controls.Block | src/controls.rs:56-71 | the `emissivity` spawns of one cathode, numbered on from the spawns already made this tick, one per iteration |
| Controls.EmitFrom | src/controls.rs:56-71 | the inner loop emits `emissivity` electrons, each taking the next six draws |
| Controls.EmissionLength | src/controls.rs:55-56 | a firing spawns the sum of the emissivities |
| Controls.EmissionPerCathode | src/controls.rs:55-70 | each cathode contributes exactly its emissivity, and no spawn names a missing cathode |
| Controls.EmissionAt | src/controls.rs:57-68 | spawn number `j` comes from an existing cathode and uses draws `6j .. 6j+5` |
| Controls.CenteredBounds | src/controls.rs:60-67 | `(r - 0.5) * e` for `r` in `[0,1)` lies in `[-e/2, e/2)`, and is 0 when `e = 0` |
| Controls.SpawnFromBounds | src/controls.rs:57-68 | one spawn's offset is in the plate's half-open box and its velocity components are in `[-5, 5)` |
| Controls.EmissionBounds | src/controls.rs:57-68 | with draws in `[0,1)` every spawn of a firing starts in its plate's box around the plate position and has velocity components in `[-5, 5)` |
| Structs.World.Spawn | src/controls.rs:39-48 | a spawn creates one body with a fresh id and changes no other |
| Controls.ApplySpawns | src/controls.rs:70 | the spawn commands create one new body per request, in order, with fresh ids |
| Controls.WithElectricField | src/controls.rs:97-101 | every cathode with its field set to the UI value |
| Controls.ElectricFieldEffect | src/controls.rs:97-101 | every cathode ends with the UI field value and keeps its emissivity, plate and position |
| Controls.EmissionIgnoresField | src/controls.rs:93-102 | changing the field strength does not change what the cathodes emit |
| Controls.UpdateElectricField | src/controls.rs:93-102 | the loop overwrites every cathode's field in place, as `WithElectricField` says |

## Left out

- The repulsion force value (`-100 / |d|² * normalize(d)`) is left as a function parameter. Real-number division and normalisation by zero length have no counterpart in the model, so nothing is claimed about coincident electrons.
- `rotate` and `move_by_magnetic_fields` (src/physics.rs:36-80) are left out: they are trigonometry and normalisation on 32-bit floats.
- `update_magnetic_field` (src/controls.rs:76-91) is left out: it is spherical-to-Cartesian trigonometry.
- All arithmetic is on reals. f32 rounding is not modelled.
- The `as i32` cast of a cell index saturates in the source (src/physics/electrons.rs:19-21), and the i32 add `v + *chunk.0` (src/physics/electrons.rs:52) overflows for the outermost cells. The model keeps cell indices unbounded integers. It therefore assumes that every cell index and its ±1 neighbours fit in i32, i.e. |coordinate| < (2^31 - 1) * 10.
- Quaternion rotations of plates enter only as the parameters `unrotate` (world to plate-local) and `rotate` (plate-local to world).
- The random source and the Bevy `Timer` enter only as inputs: the draws `rng` and the flag `justFinished`.
- Mesh and material creation in the spawn closure is not modelled. A spawned electron is just a body with a position and a velocity.
- The `warn!("Dead electron: …")` log on the `get_mut` error path (src/physics/electrons.rs:56-61) is not modelled. The `continue` that follows it is: `RepelElectron` leaves the store unchanged for an id without a body.
- The order in which Bevy runs the systems within a tick is not modelled. It is wiring in src/main.rs, which is not part of this model.
- src/ui.rs, src/main.rs and src/scenes.rs are not part of this model. They contain UI, app wiring and scene construction.
- `apply_plate_cathode_electric_field` is imported at src/main.rs:17 and defined in a file outside this model. No cylindrical cathode is modelled.
- Entity ids are assumed distinct (`UniqueIds`) only in the lemmas that need it. The methods work for any query.
