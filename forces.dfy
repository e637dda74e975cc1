/**
 * Neighbour selection, wall proxies and the summation of pairwise forces
 * into the force and acceleration acting on one particle.
 *
 * The pairwise force law (the Lennard-Jones magnitude at the floored
 * distance, resolved into components through the angle between the two
 * points) is a parameter `law`: `law(a, b)` is the force that a point at `b`
 * exerts on a particle at `a`. Distances are compared squared, so no square
 * root is needed.
 */
module Forces {
  import opened Gas
  import opened Chambers

  type ForceLaw = (Vec, Vec) -> Vec

  /** `distance(a, b) <= GAS_RANGE`, compared on squares. */
  predicate WithinRange(cfg: Config, a: Vec, b: Vec) {
    (b.x - a.x) * (b.x - a.x) + (b.y - a.y) * (b.y - a.y) <= cfg.range * cfg.range
  }

  /**
   * The filter of `getClosestParticles`: shadow entry `j` is a neighbour of
   * the live particle `p` at index `i` when it is not the same particle,
   * lies within range and is in the same chamber.
   */
  predicate IsNeighbour(cfg: Config, i: nat, p: Particle, shadow: seq<Particle>, j: nat)
    requires j < |shadow|
  {
    j != i && WithinRange(cfg, p.pos, shadow[j].pos) &&
    InFirstChamber(cfg, p) == InFirstChamber(cfg, shadow[j])
  }

  /**
   * Indices of the neighbours among the first `n` shadow entries, in list
   * order: strictly increasing, and containing exactly the indices below `n`
   * that pass the filter.
   */
  function NeighbourIndices(cfg: Config, i: nat, p: Particle, shadow: seq<Particle>, n: nat): (js: seq<nat>)
    requires n <= |shadow|
    ensures forall k :: 0 <= k < |js| ==> js[k] < n
    ensures forall k, l :: 0 <= k < l < |js| ==> js[k] < js[l]
    ensures forall j :: 0 <= j < n ==> (j in js <==> IsNeighbour(cfg, i, p, shadow, j))
  {
    if n == 0 then []
    else
      NeighbourIndices(cfg, i, p, shadow, n - 1) +
      (if IsNeighbour(cfg, i, p, shadow, n - 1) then [n - 1] else [])
  }

  /** `getClosestParticles`: the order-preserving sublist of the shadow list that passes the filter. */
  function Neighbours(cfg: Config, i: nat, p: Particle, shadow: seq<Particle>): seq<Particle> {
    var js := NeighbourIndices(cfg, i, p, shadow, |shadow|);
    seq(|js|, k requires 0 <= k < |js| => shadow[js[k]])
  }

  /**
   * Neighbour selection never returns the query particle itself, a particle
   * out of range or a particle of the other chamber; every shadow particle
   * that passes the filter is returned.
   */
  lemma NeighboursAreNearAndSameChamber(cfg: Config, i: nat, p: Particle, shadow: seq<Particle>)
    ensures var js := NeighbourIndices(cfg, i, p, shadow, |shadow|);
      forall k :: 0 <= k < |Neighbours(cfg, i, p, shadow)| ==>
        js[k] < |shadow| && Neighbours(cfg, i, p, shadow)[k] == shadow[js[k]] &&
        js[k] != i && WithinRange(cfg, p.pos, shadow[js[k]].pos) &&
        InFirstChamber(cfg, p) == InFirstChamber(cfg, shadow[js[k]])
    ensures forall j :: 0 <= j < |shadow| && IsNeighbour(cfg, i, p, shadow, j) ==>
      shadow[j] in Neighbours(cfg, i, p, shadow)
  {
    var js := NeighbourIndices(cfg, i, p, shadow, |shadow|);
    var r := Neighbours(cfg, i, p, shadow);
    forall k | 0 <= k < |r|
      ensures IsNeighbour(cfg, i, p, shadow, js[k])
    {
      assert js[k] in js;
    }
    forall j | 0 <= j < |shadow| && IsNeighbour(cfg, i, p, shadow, j)
      ensures shadow[j] in r
    {
      var k :| 0 <= k < |js| && js[k] == j;
      assert r[k] == shadow[j];
    }
  }

  /** The positions of a list of particles, in order. */
  function Positions(ps: seq<Particle>): seq<Vec> {
    seq(|ps|, k requires 0 <= k < |ps| => ps[k].pos)
  }

  /**
   * The points `getWallColiders` considers before filtering: the feet on the
   * bottom, top, left and right walls, then either one point on the solid
   * partition at the particle's height (outside the hole) or the two corners
   * of the hole (within it, edges included).
   */
  function WallCandidates(cfg: Config, pos: Vec): seq<Vec> {
    [Vec(pos.x, 0.0), Vec(pos.x, cfg.height), Vec(0.0, pos.y), Vec(cfg.width, pos.y)] +
    (if pos.y < cfg.holePos then [Vec(cfg.split, pos.y)]
     else if pos.y > cfg.holePos + cfg.holeSize then [Vec(cfg.split, pos.y)]
     else [Vec(cfg.split, cfg.holePos), Vec(cfg.split, cfg.holePos + cfg.holeSize)])
  }

  /** An independent description of the wall points a particle at `pos` can feel. */
  predicate IsWallPoint(cfg: Config, pos: Vec, w: Vec) {
    || w == Vec(pos.x, 0.0)
    || w == Vec(pos.x, cfg.height)
    || w == Vec(0.0, pos.y)
    || w == Vec(cfg.width, pos.y)
    || (w == Vec(cfg.split, pos.y) && (pos.y < cfg.holePos || pos.y > cfg.holePos + cfg.holeSize))
    || ((w == Vec(cfg.split, cfg.holePos) || w == Vec(cfg.split, cfg.holePos + cfg.holeSize)) &&
        cfg.holePos <= pos.y <= cfg.holePos + cfg.holeSize)
  }

  /** Keeps, in order, the points of `ws` within range of `pos`. */
  function InRangeOf(cfg: Config, pos: Vec, ws: seq<Vec>): (r: seq<Vec>)
    ensures |r| <= |ws|
    ensures forall w :: w in r <==> w in ws && WithinRange(cfg, pos, w)
    ensures forall w :: multiset(r)[w] == if WithinRange(cfg, pos, w) then multiset(ws)[w] else 0
  {
    if ws == [] then []
    else
      var rest := InRangeOf(cfg, pos, ws[1..]);
      assert ws == [ws[0]] + ws[1..];
      (if WithinRange(cfg, pos, ws[0]) then [ws[0]] else []) + rest
  }

  /**
   * `getWallColiders`: at most six proxies, exactly the wall points of the
   * particle's position that lie within range.
   */
  function WallProxies(cfg: Config, pos: Vec): (r: seq<Vec>)
    ensures |r| <= 6
    ensures forall w :: w in r <==> IsWallPoint(cfg, pos, w) && WithinRange(cfg, pos, w)
    ensures forall w :: multiset(r)[w] == if WithinRange(cfg, pos, w) then multiset(WallCandidates(cfg, pos))[w] else 0
  {
    var ws := WallCandidates(cfg, pos);
    CandidatesAreWallPoints(cfg, pos);
    WallPointsAreCandidates(cfg, pos);
    InRangeOf(cfg, pos, ws)
  }

  /**
   * Four wall candidates always, then one partition point outside the hole
   * and two hole corners within it.
   */
  lemma WallCandidateCount(cfg: Config, pos: Vec)
    ensures |WallCandidates(cfg, pos)| ==
      if pos.y < cfg.holePos || pos.y > cfg.holePos + cfg.holeSize then 5 else 6
    ensures WallCandidates(cfg, pos)[..4] ==
      [Vec(pos.x, 0.0), Vec(pos.x, cfg.height), Vec(0.0, pos.y), Vec(cfg.width, pos.y)]
    ensures pos.y < cfg.holePos || pos.y > cfg.holePos + cfg.holeSize ==>
      WallCandidates(cfg, pos)[4..] == [Vec(cfg.split, pos.y)]
    ensures cfg.holePos <= pos.y <= cfg.holePos + cfg.holeSize ==>
      WallCandidates(cfg, pos)[4..] == [Vec(cfg.split, cfg.holePos), Vec(cfg.split, cfg.holePos + cfg.holeSize)]
  {
  }

  /** Sum of the forces that the points `others` exert on a particle at `at`. */
  function SumForces(law: ForceLaw, at: Vec, others: seq<Vec>): Vec {
    if others == [] then Zero
    else
      var f := law(at, others[0]);
      var rest := SumForces(law, at, others[1..]);
      Vec(f.x + rest.x, f.y + rest.y)
  }

  /**
   * Summing over a list split in two is summing each part and adding: the
   * force on a particle is the sum of its neighbours' and its walls' shares.
   */
  lemma {:induction false} SumForcesOfConcat(law: ForceLaw, at: Vec, a: seq<Vec>, b: seq<Vec>)
    ensures var s, sa, sb := SumForces(law, at, a + b), SumForces(law, at, a), SumForces(law, at, b);
      s == Vec(sa.x + sb.x, sa.y + sb.y)
  {
    if a != [] {
      assert (a + b)[0] == a[0] && (a + b)[1..] == a[1..] + b;
      SumForcesOfConcat(law, at, a[1..], b);
    } else {
      assert a + b == b;
    }
  }

  /**
   * `getAppliedForce`: the forces of the neighbours in the shadow list and
   * of the wall proxies, summed per component.
   */
  function AppliedForce(cfg: Config, law: ForceLaw, i: nat, p: Particle, shadow: seq<Particle>): Vec {
    var fromParticles := SumForces(law, p.pos, Positions(Neighbours(cfg, i, p, shadow)));
    var fromWalls := SumForces(law, p.pos, WallProxies(cfg, p.pos));
    Vec(fromParticles.x + fromWalls.x, fromParticles.y + fromWalls.y)
  }

  /** `getAppliedAcceleration`: a force divided, per component, by the mass it acts on. */
  function PerMass(f: Vec, m: PosReal): (a: Vec)
    ensures f == Zero ==> a == Zero
  {
    assert 0.0 / m == 0.0;
    Vec(f.x / m, f.y / m)
  }

  /**
   * A force field over the particle list: the force on live particle `i`,
   * in state `p`, against a shadow list.
   */
  type Field = (nat, Particle, seq<Particle>) -> Vec

  /** The field of the engine: `getAppliedForce` for the given configuration and force law. */
  function FieldOf(cfg: Config, law: ForceLaw): Field {
    (i: nat, p: Particle, shadow: seq<Particle>) => AppliedForce(cfg, law, i, p, shadow)
  }

  /** A field that reads only the positions of the shadow particles. */
  ghost predicate ReadsOnlyPositions(force: Field) {
    forall i, p, s, t :: SamePositions(s, t) ==> force(i, p, s) == force(i, p, t)
  }

  /**
   * A particle with no shadow particle and no wall point within range feels
   * no force, whatever the force law.
   */
  lemma IsolatedParticleFeelsNoForce(cfg: Config, law: ForceLaw, i: nat, p: Particle, shadow: seq<Particle>)
    requires forall j :: 0 <= j < |shadow| ==> !IsNeighbour(cfg, i, p, shadow, j)
    requires forall w :: IsWallPoint(cfg, p.pos, w) ==> !WithinRange(cfg, p.pos, w)
    ensures AppliedForce(cfg, law, i, p, shadow) == Zero
  {
    assert Positions(Neighbours(cfg, i, p, shadow)) == [] by {
      NoNeighbourMeansNoIndex(cfg, i, p, shadow, |shadow|);
    }
    assert WallProxies(cfg, p.pos) == [] by {
      var ws := WallCandidates(cfg, p.pos);
      CandidatesAreWallPoints(cfg, p.pos);
      NothingInRange(cfg, p.pos, ws);
    }
  }

  lemma {:induction false} NoNeighbourMeansNoIndex(cfg: Config, i: nat, p: Particle, shadow: seq<Particle>, n: nat)
    requires n <= |shadow|
    requires forall j :: 0 <= j < n ==> !IsNeighbour(cfg, i, p, shadow, j)
    ensures NeighbourIndices(cfg, i, p, shadow, n) == []
  {
    if n > 0 {
      NoNeighbourMeansNoIndex(cfg, i, p, shadow, n - 1);
    }
  }

  lemma {:induction false} NothingInRange(cfg: Config, pos: Vec, ws: seq<Vec>)
    requires forall k :: 0 <= k < |ws| ==> !WithinRange(cfg, pos, ws[k])
    ensures InRangeOf(cfg, pos, ws) == []
  {
    if ws != [] {
      NothingInRange(cfg, pos, ws[1..]);
    }
  }

  lemma CandidatesAreWallPoints(cfg: Config, pos: Vec)
    ensures forall k :: 0 <= k < |WallCandidates(cfg, pos)| ==> IsWallPoint(cfg, pos, WallCandidates(cfg, pos)[k])
  {
    var ws := WallCandidates(cfg, pos);
    forall k | 0 <= k < |ws| ensures IsWallPoint(cfg, pos, ws[k]) {
      if k >= 4 {
        if pos.y < cfg.holePos || pos.y > cfg.holePos + cfg.holeSize {
          assert ws[k] == Vec(cfg.split, pos.y);
        }
      }
    }
  }

  lemma WallPointsAreCandidates(cfg: Config, pos: Vec)
    ensures forall w :: IsWallPoint(cfg, pos, w) ==> w in WallCandidates(cfg, pos)
  {
    var ws := WallCandidates(cfg, pos);
    assert ws[0] == Vec(pos.x, 0.0) && ws[1] == Vec(pos.x, cfg.height);
    assert ws[2] == Vec(0.0, pos.y) && ws[3] == Vec(cfg.width, pos.y);
    if pos.y < cfg.holePos || pos.y > cfg.holePos + cfg.holeSize {
      assert ws[4] == Vec(cfg.split, pos.y);
    } else {
      assert ws[4] == Vec(cfg.split, cfg.holePos) && ws[5] == Vec(cfg.split, cfg.holePos + cfg.holeSize);
    }
  }

  /** Particles whose shadows agree on positions are exactly alike for neighbour selection. */
  predicate SamePositions(s: seq<Particle>, t: seq<Particle>) {
    |s| == |t| && forall j :: 0 <= j < |s| ==> s[j].pos == t[j].pos
  }

  lemma {:induction false} NeighbourIndicesReadOnlyPositions(cfg: Config, i: nat, p: Particle, s: seq<Particle>, t: seq<Particle>, n: nat)
    requires SamePositions(s, t) && n <= |s|
    ensures NeighbourIndices(cfg, i, p, s, n) == NeighbourIndices(cfg, i, p, t, n)
  {
    if n > 0 {
      NeighbourIndicesReadOnlyPositions(cfg, i, p, s, t, n - 1);
    }
  }

  /**
   * The applied force reads only the positions of the shadow particles, never
   * their velocities, masses or radii.
   */
  lemma AppliedForceReadsOnlyPositions(cfg: Config, law: ForceLaw, i: nat, p: Particle, s: seq<Particle>, t: seq<Particle>)
    requires SamePositions(s, t)
    ensures AppliedForce(cfg, law, i, p, s) == AppliedForce(cfg, law, i, p, t)
  {
    NeighbourIndicesReadOnlyPositions(cfg, i, p, s, t, |s|);
    assert Positions(Neighbours(cfg, i, p, s)) == Positions(Neighbours(cfg, i, p, t));
  }

  /** The engine's force field reads only shadow positions. */
  lemma FieldOfReadsOnlyPositions(cfg: Config, law: ForceLaw)
    ensures ReadsOnlyPositions(FieldOf(cfg, law))
  {
    forall i, p, s, t | SamePositions(s, t)
      ensures FieldOf(cfg, law)(i, p, s) == FieldOf(cfg, law)(i, p, t)
    {
      AppliedForceReadsOnlyPositions(cfg, law, i, p, s, t);
    }
  }

  /**
   * With an empty shadow list (the first bootstrap of an engine) only the
   * walls contribute to the force.
   */
  lemma EmptyShadowMeansWallsOnly(cfg: Config, law: ForceLaw, i: nat, p: Particle)
    ensures AppliedForce(cfg, law, i, p, []) == SumForces(law, p.pos, WallProxies(cfg, p.pos))
  {
    NoNeighboursWithoutShadow(cfg, i, p);
    assert SumForces(law, p.pos, []) == Zero;
  }

  lemma NoNeighboursWithoutShadow(cfg: Config, i: nat, p: Particle)
    ensures Positions(Neighbours(cfg, i, p, [])) == []
  {
    assert NeighbourIndices(cfg, i, p, [], 0) == [];
  }
}
