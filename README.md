# Lennard-Jones gas engine in Dafny

A model of `LennardJonesGasManager`, the engine of a two-dimensional gas
simulator. The gas sits in a rectangular box. A partition at `x = split` divides
the box into two chambers, and a hole in the partition between `holePos` and
`holePos + holeSize` lets particles pass. The engine answers one question: how
long it takes the particles, which start concentrated in one chamber, to
balance between the two chambers (the *balance time*).

The engine holds four things:

- the live particle list (the grid's particles);
- a *shadow* list (`previousParticles`) of one previous-state clone per live
  particle, in the same order;
- a *memory* (`positionMap`) of each particle's last legal position;
- `balanceTime`, which persists across runs.

One run (`execute`) has two phases.

- **Prologue.** The shadow list is bootstrapped by a backward Taylor
  expansion, and the memory is seeded with the shadow positions.
- **Loop.** While the elapsed time is within the time limit, each iteration:
  1. in gas mode, writes an animation frame once at least 0.1 time units
     have passed since the last one;
  2. while no balance time is recorded (it is 0.0), stops and stores the
     elapsed time as the balance time once the chambers are balanced; once a
     balance time is recorded, the loop goes on whether or not they are;
  3. otherwise adds `dt`, performs one Verlet step that updates the live and
     shadow lists in place, index by index, and then a boundary pass that
     corrects wall violations and undoes crossings of the solid part of the
     partition.

The time limit is a mode:

- `-1` runs until the balance time;
- `-2` runs until twice the balance time;
- any other value is the bound itself.

While the balance time is unknown, both sentinel modes stand at `Integer.MAX_VALUE`.

## Files

- `gas.dfy`: vectors, particles, the configuration and the engine constants.
- `chambers.dfy`: chamber membership, the balance predicate and the time limit.
- `forces.dfy`: neighbour selection, wall proxies, force summation and
  division by mass. The pairwise force law is the parameter `law`.
- `integrator.dfy`: the bootstrap and the Verlet step as functions on
  particle lists.
- `boundary.dfy`: the per-particle boundary rule.
- `engine.dfy`: a run as a sequence of states, the frame schedule, and the
  class `LennardJonesGasManager`. The class has arrays `live`, `shadow` and
  `memory`, all indexed alike.

`execute` is modelled by `Execute` together with two helper methods:

- `Setup` is the prologue (`initPreviousParticles` and the memory seed);
- `Iterate` is the last two statements of a loop iteration.

Each helper keeps its own reasoning out of the loop's proof. `Execute`
returns two ghost values:

- the sequence of visited states;
- the times at which frames are written.

Lemmas then relate these to the functions `Run` and `FrameTimes`.

Particle identity follows the Java code. A clone compares equal to its
original, so `positionMap.get` and the "not myself" test of the neighbour
filter find a particle's clone. Here both become "the entry at the same index".

In modes -1 and -2, a run that never balances stops once the elapsed time
passes `Integer.MAX_VALUE` (`LennardJonesGasManager.java:47`, `:51`, `:54`),
so `Execute` always terminates.

The code also has two quirks, kept as written:

- The bootstrap derives the previous y-velocity from the x-velocity.
  `Integrator.BootstrapVelocityQuirkIsUnobservable` shows that the first
  Verlet step is the same either way, for a force field that reads only
  shadow positions. `Forces.FieldOfReadsOnlyPositions` proves that the
  engine's field is such a field. After that first step, the Verlet step
  has overwritten every shadow velocity. A run that stops before any step
  (balanced at time 0, or a negative limit) leaves the quirky shadow list
  in place. That list only feeds the next run's bootstrap, which reads
  shadow positions only.
- A system balanced at time 0 stores a balance time of 0.0, which is the same
  value as "not yet discovered". `Execute` states this in its `discovered`
  clause.

## Model

| member | source | states |
|---|---|---|
| Chambers.InFirstChamber | src/main/java/ar/edu/itba/ss/tpe4/LennardJonesGasManager.java:63-65 | a particle is in the first chamber exactly when its x is strictly less than the partition's; `ChambersPartition` states its consequences |
| Chambers.FirstChamberCount | src/main/java/ar/edu/itba/ss/tpe4/LennardJonesGasManager.java:31-41 | the counting loop never counts more particles than the list holds |
| Chambers.IsBalanced | src/main/java/ar/edu/itba/ss/tpe4/LennardJonesGasManager.java:31-43 | the balance test on the first-chamber count; `BalancedIffEqualChambers` states what it means |
| Chambers.ChambersPartition | src/main/java/ar/edu/itba/ss/tpe4/LennardJonesGasManager.java:63-65 | every particle is in exactly one chamber: the first-chamber count (x < split) plus the second-chamber count is the list length |
| Chambers.BalancedIffEqualChambers | src/main/java/ar/edu/itba/ss/tpe4/LennardJonesGasManager.java:31-43 | balanced exactly when the chambers hold equal numbers, or for an odd total the second holds one more (first count == n / 2) |
| Chambers.BalanceExamples | src/main/java/ar/edu/itba/ss/tpe4/LennardJonesGasManager.java:31-43 | with 10 particles balanced iff 5 are on the left; with 11 particles balanced iff 5 are on the left |
| Chambers.TimeLimit | src/main/java/ar/edu/itba/ss/tpe4/LennardJonesGasManager.java:45-61 | sentinel modes give a positive bound, `Integer.MAX_VALUE` while the balance time is not positive; any other mode is its own bound |
| Chambers.ExtendIsTwiceDiscover | src/main/java/ar/edu/itba/ss/tpe4/LennardJonesGasManager.java:49-55 | once the balance time T is positive, mode -1 gives T and mode -2 gives 2T |
| Forces.WithinRange | src/main/java/ar/edu/itba/ss/tpe4/LennardJonesGasManager.java:98-107 | `distance(a, b) <= GAS_RANGE` (also the wall filter at :159), compared on squared distances |
| Forces.IsNeighbour | src/main/java/ar/edu/itba/ss/tpe4/LennardJonesGasManager.java:107 | the neighbour filter: another particle (another index), within range, in the same chamber as the query particle |
| Forces.NeighbourIndices | src/main/java/ar/edu/itba/ss/tpe4/LennardJonesGasManager.java:103-108 | selected indices are strictly increasing and are exactly the shadow indices that pass the filter (not self, in range, same chamber) |
| Forces.Neighbours | src/main/java/ar/edu/itba/ss/tpe4/LennardJonesGasManager.java:103-108 | the neighbour list is the shadow entries at `NeighbourIndices`, in order; `NeighboursAreNearAndSameChamber` states its contents |
| Forces.NeighboursAreNearAndSameChamber | src/main/java/ar/edu/itba/ss/tpe4/LennardJonesGasManager.java:103-108 | every returned neighbour is another particle, in range and in the same chamber, and every shadow particle passing the filter is returned |
| Forces.NeighbourIndicesReadOnlyPositions | src/main/java/ar/edu/itba/ss/tpe4/LennardJonesGasManager.java:103-108 | neighbour selection depends only on the shadow particles' positions |
| Forces.WallCandidates | src/main/java/ar/edu/itba/ss/tpe4/LennardJonesGasManager.java:143-156 | the candidate wall points; `WallCandidateCount` and `WallProxies` state their layout and membership |
| Forces.InRangeOf | src/main/java/ar/edu/itba/ss/tpe4/LennardJonesGasManager.java:158-159 | the range filter keeps exactly the points within `GAS_RANGE`, never more points than it is given, and each kept point as many times as it was given |
| Forces.WallProxies | src/main/java/ar/edu/itba/ss/tpe4/LennardJonesGasManager.java:141-160 | at most 6 proxies, exactly the wall points of the position that lie within range, each as many times as it is a candidate |
| Forces.WallCandidateCount | src/main/java/ar/edu/itba/ss/tpe4/LennardJonesGasManager.java:143-156 | the four wall feet come first; then the partition point at the particle's height when it is outside the hole, or the two hole corners when it is within it (edges included) |
| Forces.SumForces | src/main/java/ar/edu/itba/ss/tpe4/LennardJonesGasManager.java:114-138 | the component-wise sum of the law over a point list; `SumForcesOfConcat` states its additivity |
| Forces.SumForcesOfConcat | src/main/java/ar/edu/itba/ss/tpe4/LennardJonesGasManager.java:110-139 | the sum over two concatenated lists is the sum of the two sums, so neighbour and wall contributions add up |
| Forces.AppliedForce | src/main/java/ar/edu/itba/ss/tpe4/LennardJonesGasManager.java:110-139 | neighbour forces plus wall-proxy forces; `IsolatedParticleFeelsNoForce` and `AppliedForceReadsOnlyPositions` state its properties |
| Forces.PerMass | src/main/java/ar/edu/itba/ss/tpe4/LennardJonesGasManager.java:162-166 | a zero force gives a zero acceleration |
| Forces.IsolatedParticleFeelsNoForce | src/main/java/ar/edu/itba/ss/tpe4/LennardJonesGasManager.java:110-139 | with no neighbour and no wall point in range, the applied force is zero for any force law |
| Forces.AppliedForceReadsOnlyPositions | src/main/java/ar/edu/itba/ss/tpe4/LennardJonesGasManager.java:110-139 | the applied force depends on the shadow list only through its positions |
| Forces.FieldOfReadsOnlyPositions | src/main/java/ar/edu/itba/ss/tpe4/LennardJonesGasManager.java:110-139 | the engine's force field reads only shadow positions |
| Forces.EmptyShadowMeansWallsOnly | src/main/java/ar/edu/itba/ss/tpe4/LennardJonesGasManager.java:110-139 | against an empty shadow list, as in the first run's bootstrap, only the wall proxies contribute |
| Integrator.Bootstrap | src/main/java/ar/edu/itba/ss/tpe4/LennardJonesGasManager.java:197-217 | one clone per live particle, same order, each keeping its original's mass and radius; `BootstrapIsBackwardExpansion` states the clone's position and velocity for any force |
| Integrator.BackwardStep | src/main/java/ar/edu/itba/ss/tpe4/LennardJonesGasManager.java:203-212 | the backward Taylor expansion, with the previous y-velocity taken from the x-velocity |
| Integrator.PreviousClone | src/main/java/ar/edu/itba/ss/tpe4/LennardJonesGasManager.java:197-212 | the clone of one live particle, with the force computed against the old shadow list |
| Integrator.BootstrapIsBackwardExpansion | src/main/java/ar/edu/itba/ss/tpe4/LennardJonesGasManager.java:197-217 | for any force, each clone's velocity is the backward Euler velocity (both components from the x-velocity), and a Verlet step from the clone lands at the forward expansion pos + dt·vel + dt²F/(2m) |
| Integrator.BackwardThenVerlet | src/main/java/ar/edu/itba/ss/tpe4/LennardJonesGasManager.java:205-208 | a Verlet move whose previous position is the backward expansion reaches the forward expansion of the same particle |
| Integrator.ForceFreeBackwardStep | src/main/java/ar/edu/itba/ss/tpe4/LennardJonesGasManager.java:205-210 | without force the clone sits one step back along the velocity, and both previous velocity components are the x-velocity |
| Integrator.Snapshot | src/main/java/ar/edu/itba/ss/tpe4/LennardJonesGasManager.java:185-186 | the shadow entry takes over the live particle's position and velocity and keeps its own mass and radius |
| Integrator.MidShadow | src/main/java/ar/edu/itba/ss/tpe4/LennardJonesGasManager.java:174-192 | the shadow list as the loop sees it at index i: entries below i already hold their live particle's pre-update state |
| Integrator.VerletMove | src/main/java/ar/edu/itba/ss/tpe4/LennardJonesGasManager.java:178-190 | the Verlet position and velocity update; `VerletIsCentralDifference` states what it computes |
| Integrator.Advance | src/main/java/ar/edu/itba/ss/tpe4/LennardJonesGasManager.java:174-192 | the Verlet update of particle i against the shadow list at that point of the loop |
| Integrator.VerletLive | src/main/java/ar/edu/itba/ss/tpe4/LennardJonesGasManager.java:168-194 | the Verlet step keeps the list length and every particle's mass and radius |
| Integrator.VerletShadow | src/main/java/ar/edu/itba/ss/tpe4/LennardJonesGasManager.java:185-186 | shadow entry i ends with live particle i's pre-update position and velocity and keeps its own mass and radius |
| Integrator.VerletIsCentralDifference | src/main/java/ar/edu/itba/ss/tpe4/LennardJonesGasManager.java:178-190 | the second difference of positions is dt² times the acceleration; the velocity is the central difference over 2dt, or the old velocity when that difference is zero |
| Integrator.UniformMotionIsExact | src/main/java/ar/edu/itba/ss/tpe4/LennardJonesGasManager.java:178-192 | force-free motion with a previous position one step back moves exactly one step forward and keeps the velocity |
| Integrator.ForceFreeStep | src/main/java/ar/edu/itba/ss/tpe4/LennardJonesGasManager.java:174-193 | the same, for entry i of the whole-list Verlet step |
| Integrator.ForceFreeBootstrapThenStep | src/main/java/ar/edu/itba/ss/tpe4/LennardJonesGasManager.java:197-217 | bootstrap followed by one step moves a force-free particle exactly one step along its velocity |
| Integrator.ForceFreeClonePos | src/main/java/ar/edu/itba/ss/tpe4/LennardJonesGasManager.java:197-212 | without force, the bootstrap clone sits one step back along the velocity |
| Integrator.RestIsAFixedPoint | src/main/java/ar/edu/itba/ss/tpe4/LennardJonesGasManager.java:197-217 | particles at rest and without force are their own clones, and a Verlet step leaves both lists unchanged |
| Integrator.ShadowVelocityIsNeverRead | src/main/java/ar/edu/itba/ss/tpe4/LennardJonesGasManager.java:174-186 | shadow lists that differ only in velocities give the same Verlet result, for a field that reads positions only |
| Integrator.BootstrapVelocityQuirkIsUnobservable | src/main/java/ar/edu/itba/ss/tpe4/LennardJonesGasManager.java:209-210 | taking the previous y-velocity from the x- or from the y-component gives the same first Verlet step |
| Boundary.WallCorrected | src/main/java/ar/edu/itba/ss/tpe4/LennardJonesGasManager.java:71-81 | top, bottom, left and right corrections in that order, the last violated wall winning, the other coordinate reset to the last legal one; a position inside the box is unchanged |
| Boundary.WithinHole | src/main/java/ar/edu/itba/ss/tpe4/LennardJonesGasManager.java:75 | strictly between the hole's edges, tested on the position before correction |
| Boundary.ChangedChamber | src/main/java/ar/edu/itba/ss/tpe4/LennardJonesGasManager.java:85 | the chamber of x differs from that of the last legal x; a last legal x on the partition never counts |
| Boundary.Bounce | src/main/java/ar/edu/itba/ss/tpe4/LennardJonesGasManager.java:75-94 | the per-particle boundary rule; `PartitionBounce` and `RememberedPositionIsInBox` state its properties |
| Boundary.PartitionBounce | src/main/java/ar/edu/itba/ss/tpe4/LennardJonesGasManager.java:83-94 | the position is not remembered iff it is outside the hole and its chamber flipped; a bounced particle returns to its last legal chamber, delta further from the partition than the last legal x; otherwise the final position is the wall-corrected one |
| Boundary.RememberedPositionIsInBox | src/main/java/ar/edu/itba/ss/tpe4/LennardJonesGasManager.java:67-96 | in a box at least 0.7 wide and high, a remembered position lies inside the box when the last legal one did |
| Boundary.TopWallExample | src/main/java/ar/edu/itba/ss/tpe4/LennardJonesGasManager.java:76-78 | a particle above the top returns at its last legal x, between 0.2 and 0.7 below the top |
| Engine.Start | src/main/java/ar/edu/itba/ss/tpe4/LennardJonesGasManager.java:223-228 | the prologue keeps the live list, aligns the lists and seeds each memory entry with its shadow position |
| Engine.BouncedLive | src/main/java/ar/edu/itba/ss/tpe4/LennardJonesGasManager.java:245-253 | the live list after the boundary pass keeps its length |
| Engine.BouncedMemory | src/main/java/ar/edu/itba/ss/tpe4/LennardJonesGasManager.java:245-253 | the memory after the boundary pass keeps its length |
| Engine.BouncePreservesLegalMemory | src/main/java/ar/edu/itba/ss/tpe4/LennardJonesGasManager.java:67-96 | the boundary pass changes only positions (mass, radius and velocity are kept), each memory entry is kept or becomes the particle's final position, and remembered positions stay in the box |
| Engine.Draw | src/main/java/ar/edu/itba/ss/tpe4/LennardJonesGasManager.java:69-76 | one jitter per particle in a pass, the draw of particle i being `jitter(k, i)` |
| Engine.Step | src/main/java/ar/edu/itba/ss/tpe4/LennardJonesGasManager.java:245-253 | one Verlet step then one boundary pass keeps the three lists aligned and their length |
| Engine.Run | src/main/java/ar/edu/itba/ss/tpe4/LennardJonesGasManager.java:245-253 | k iterations keep the three lists aligned and their length; `RunIsDetermined` ties `Execute`'s trace to it |
| Engine.Elapsed | src/main/java/ar/edu/itba/ss/tpe4/LennardJonesGasManager.java:220-246 | the accumulated time after k iterations is non-negative, and at least dt once a step has been taken |
| Engine.ElapsedIsMultiple | src/main/java/ar/edu/itba/ss/tpe4/LennardJonesGasManager.java:246 | after k iterations the accumulated time is k·dt |
| Engine.ElapsedIsIncreasing | src/main/java/ar/edu/itba/ss/tpe4/LennardJonesGasManager.java:246 | the accumulated time grows strictly with each iteration |
| Engine.StepCountBound | src/main/java/ar/edu/itba/ss/tpe4/LennardJonesGasManager.java:230 | an iteration that starts within the limit has index at most floor(limit / dt), so the loop terminates |
| Engine.ExtendRun | src/main/java/ar/edu/itba/ss/tpe4/LennardJonesGasManager.java:245-253 | a run of states extended by one step is a run |
| Engine.RunIsDetermined | src/main/java/ar/edu/itba/ss/tpe4/LennardJonesGasManager.java:230-254 | state k of a run is `Run` applied k times to the first state with the drawn jitters |
| Engine.NeverBalancedAt | src/main/java/ar/edu/itba/ss/tpe4/LennardJonesGasManager.java:238-242 | no state of a never-balanced run prefix is balanced |
| Engine.AnimationClock | src/main/java/ar/edu/itba/ss/tpe4/LennardJonesGasManager.java:221-247 | the animation counter: it grows by dt per iteration and is reset when a frame is written; `ClockIsTimeSinceLastFrame` states what it measures |
| Engine.FrameTimes | src/main/java/ar/edu/itba/ss/tpe4/LennardJonesGasManager.java:231-234 | the frame-write schedule: iteration k writes a frame at the elapsed time when the counter has reached 0.1; `FramesAreSpaced` states its spacing |
| Engine.ClockIsTimeSinceLastFrame | src/main/java/ar/edu/itba/ss/tpe4/LennardJonesGasManager.java:231-234 | the animation counter equals the time elapsed since the last frame |
| Engine.FramesAreSpaced | src/main/java/ar/edu/itba/ss/tpe4/LennardJonesGasManager.java:221-234 | the first frame is at time 0.1 or later, and consecutive frames are at least 0.1 apart |
| Engine.LennardJonesGasManager.constructor | src/main/java/ar/edu/itba/ss/tpe4/LennardJonesGasManager.java:16-21 | balance time 0, empty shadow list and memory, the grid's particles as the live list |
| Engine.LennardJonesGasManager.VerletUpdate | src/main/java/ar/edu/itba/ss/tpe4/LennardJonesGasManager.java:168-194 | the in-place loop leaves the live and shadow arrays equal to `VerletLive` and `VerletShadow` of their old contents |
| Engine.LennardJonesGasManager.UpdatePositionByBouncing | src/main/java/ar/edu/itba/ss/tpe4/LennardJonesGasManager.java:67-96 | the in-place loop leaves the live and memory arrays equal to `BouncedLive` and `BouncedMemory` of their old contents |
| Engine.LennardJonesGasManager.Setup | src/main/java/ar/edu/itba/ss/tpe4/LennardJonesGasManager.java:223-228 | fresh shadow and memory arrays that hold the `Start` state, built against the old shadow list |
| Engine.LennardJonesGasManager.Iterate | src/main/java/ar/edu/itba/ss/tpe4/LennardJonesGasManager.java:249-253 | one Verlet step then one boundary pass extends the run by exactly one `Step` |
| Engine.LennardJonesGasManager.Execute | src/main/java/ar/edu/itba/ss/tpe4/LennardJonesGasManager.java:219-256 | the visited states form a run from `Start`; the result is k·dt after k steps; every step began within the limit; without a balance time no earlier state was balanced; discovery stores and returns the time, otherwise the result exceeds the limit and the balance time is kept; a negative limit runs no step and returns 0; frames follow `FrameTimes` |
| Engine.BalanceTimeProtocol | src/main/java/ar/edu/itba/ss/tpe4/LennardJonesGasManager.java:45-61 | a discover run that finds balance time T, then an extend run on the same engine, ends in (2T, 2T + dt] |

## Left out

- The Lennard-Jones magnitude `getParticleForce` (`LennardJonesGasManager.java:23-29`) and its resolution into components through `atan2`, `cos` and `sin` at the floored distance `max(d, 0.75)` (`:122-135`). This is floating-point work with powers and trigonometry. It is the parameter `law` of the force summation.
- `distance` (`:98-101`): the range tests compare squared distances with the squared range. This is equivalent for a non-negative range and needs no square root.
- `Math.random()` (`:76`): each draw is a `Jitter` in [0.2, 0.7). The draw of pass k for particle i is `jitter(k, i)`, where `jitter` is a parameter of `Execute`.
- `Configuration.writeGasOvitoOutputFile` and `System.out.println` (`:232`, `:240`): these are file and console output. Only the times at which frames are written are kept, as a ghost result of `Execute`.
- The `Grid`, `Particle` and `Configuration` classes are not part of this model. The configuration is the record `Config`, and the time-limit mode is a parameter of `Execute`. The particle list is a fixed-length array of particle records, and identity (`Particle.equals`, `hashCode`) is the array index.
- Wall proxies are points; their radius `GAS_PARTICLE_RADIUS` (`:145-155`) is never read by the force summation.
- A non-positive time step: `dt` is positive (`PosReal`). With `dt <= 0` the Java loop at `:230` never passes the limit and ends only if the system balances.
- IEEE double rounding: times, positions and velocities are exact reals.
- Execute: the accumulated time is exactly k·dt, and `Double.compare` is an ordinary comparison (no NaN).
- Execute: the frame log states when frames are written, not the particle positions written to them.
- Execute: update in place is modelled index by index on arrays. Aliasing between particles of the grid and objects outside the engine is not modelled.
