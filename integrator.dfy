/**
 * The time integrator as functions on particle lists: the bootstrap that
 * builds the previous-state shadow list once, and the Verlet step that
 * advances the live list and the shadow list together, index by index.
 */
module Integrator {
  import opened Gas
  import opened Forces

  /**
   * The backward Taylor expansion of `p` by one step `dt` under force `f`.
   * As in the Java code, the previous y-velocity starts from the current
   * x-velocity.
   */
  function BackwardStep(p: Particle, f: Vec, dt: PosReal): Particle {
    p.(pos := Vec(p.pos.x - dt * p.vel.x + dt * dt * f.x / (2.0 * p.mass),
                  p.pos.y - dt * p.vel.y + dt * dt * f.y / (2.0 * p.mass)),
       vel := Vec(p.vel.x - (dt / p.mass) * f.x,
                  p.vel.x - (dt / p.mass) * f.y))
  }

  /** The clone of live particle `p` (index `i`), with the force computed against `oldShadow`. */
  function PreviousClone(cfg: Config, force: Field, i: nat, p: Particle, oldShadow: seq<Particle>): Particle {
    BackwardStep(p, force(i, p, oldShadow), cfg.dt)
  }

  /**
   * `initPreviousParticles`: one clone per live particle, in the same order;
   * each clone keeps its original's mass and radius.
   */
  function Bootstrap(cfg: Config, force: Field, live: seq<Particle>, oldShadow: seq<Particle>): (prev: seq<Particle>)
    ensures |prev| == |live|
    ensures forall i :: 0 <= i < |live| ==>
      prev[i] == live[i].(pos := prev[i].pos, vel := prev[i].vel)
  {
    seq(|live|, i requires 0 <= i < |live| => PreviousClone(cfg, force, i, live[i], oldShadow))
  }

  /**
   * With no force acting, the backward step goes exactly one step back along
   * the current velocity, and both previous velocity components equal the
   * current x-velocity.
   */
  lemma ForceFreeBackwardStep(p: Particle, dt: PosReal)
    ensures BackwardStep(p, Zero, dt) ==
      p.(pos := Vec(p.pos.x - dt * p.vel.x, p.pos.y - dt * p.vel.y), vel := Vec(p.vel.x, p.vel.x))
  {
    var b := BackwardStep(p, Zero, dt);
    assert dt * dt * 0.0 == 0.0 && 0.0 / (2.0 * p.mass) == 0.0;
    assert (dt / p.mass) * 0.0 == 0.0;
    assert b.pos == Vec(p.pos.x - dt * p.vel.x, p.pos.y - dt * p.vel.y);
    assert b.vel == Vec(p.vel.x, p.vel.x);
  }

  /** The shadow entry `prev` after it takes over `cur`'s position and velocity. */
  function Snapshot(prev: Particle, cur: Particle): Particle {
    prev.(pos := cur.pos, vel := cur.vel)
  }

  /**
   * The shadow list as the Verlet loop sees it when it reaches index `i`:
   * entries below `i` already hold their live particle's pre-update state.
   */
  function MidShadow(live: seq<Particle>, shadow: seq<Particle>, i: nat): (mid: seq<Particle>)
    requires |live| == |shadow|
    ensures |mid| == |shadow|
  {
    seq(|shadow|, j requires 0 <= j < |shadow| => if j < i then Snapshot(shadow[j], live[j]) else shadow[j])
  }

  /**
   * The Verlet position and velocity update of a particle `cur` whose
   * previous position is `prevPos`, under acceleration `a`.
   */
  function VerletMove(cur: Particle, prevPos: Vec, a: Vec, dt: PosReal): Particle {
    var nx := 2.0 * cur.pos.x - prevPos.x + dt * dt * a.x;
    var ny := 2.0 * cur.pos.y - prevPos.y + dt * dt * a.y;
    var vx := (nx - prevPos.x) / (2.0 * dt);
    var vy := (ny - prevPos.y) / (2.0 * dt);
    cur.(pos := Vec(nx, ny), vel := if vx == vy && vx == 0.0 then cur.vel else Vec(vx, vy))
  }

  /**
   * One Verlet update of the live particle `cur` at index `i`, against the
   * shadow list `mid` as it stands at that point of the loop.
   */
  function Advance(cfg: Config, force: Field, i: nat, cur: Particle, mid: seq<Particle>): Particle
    requires i < |mid|
  {
    VerletMove(cur, mid[i].pos, PerMass(force(i, cur, mid), cur.mass), cfg.dt)
  }

  /** The live list after one `verletUpdate`. */
  function VerletLive(cfg: Config, force: Field, live: seq<Particle>, shadow: seq<Particle>): (next: seq<Particle>)
    requires |live| == |shadow|
    ensures |next| == |live|
    ensures forall i :: 0 <= i < |live| ==> next[i].mass == live[i].mass && next[i].radius == live[i].radius
  {
    seq(|live|, i requires 0 <= i < |live| => Advance(cfg, force, i, live[i], MidShadow(live, shadow, i)))
  }

  /**
   * The shadow list after one `verletUpdate`: entry `i` holds the pre-update
   * position and velocity of live particle `i` and keeps its own mass and radius.
   */
  function VerletShadow(live: seq<Particle>, shadow: seq<Particle>): (next: seq<Particle>)
    requires |live| == |shadow|
    ensures |next| == |shadow|
    ensures forall i :: 0 <= i < |shadow| ==>
      next[i].pos == live[i].pos && next[i].vel == live[i].vel &&
      next[i].mass == shadow[i].mass && next[i].radius == shadow[i].radius
  {
    MidShadow(live, shadow, |shadow|)
  }

  /**
   * The Verlet update is a central difference: the second difference of the
   * positions is dt^2 times the acceleration, and the new velocity is the
   * central difference of the positions over 2 dt, except when that is zero
   * in both components, where the current velocity is kept.
   */
  lemma VerletIsCentralDifference(cur: Particle, prevPos: Vec, a: Vec, dt: PosReal)
    ensures var next := VerletMove(cur, prevPos, a, dt);
      && next.pos.x - 2.0 * cur.pos.x + prevPos.x == dt * dt * a.x
      && next.pos.y - 2.0 * cur.pos.y + prevPos.y == dt * dt * a.y
      && (if next.pos == prevPos
          then next.vel == cur.vel
          else 2.0 * dt * next.vel.x == next.pos.x - prevPos.x && 2.0 * dt * next.vel.y == next.pos.y - prevPos.y)
  {
    var next := VerletMove(cur, prevPos, a, dt);
    DividedDifference(next.pos.x - prevPos.x, dt);
    DividedDifference(next.pos.y - prevPos.y, dt);
  }

  /** `d / (2 dt)` is zero exactly when `d` is, and `2 dt` times it gives back `d`. */
  lemma DividedDifference(d: real, dt: PosReal)
    ensures (d / (2.0 * dt) == 0.0) <==> d == 0.0
    ensures 2.0 * dt * (d / (2.0 * dt)) == d
  {
  }

  /**
   * Force-free uniform motion is integrated exactly: if the previous position
   * is one step back along the current velocity and the acceleration is
   * zero, the particle moves one step forward and keeps its velocity.
   */
  lemma UniformMotionIsExact(cur: Particle, dt: PosReal)
    ensures VerletMove(cur, Vec(cur.pos.x - dt * cur.vel.x, cur.pos.y - dt * cur.vel.y), Zero, dt) ==
      cur.(pos := Vec(cur.pos.x + dt * cur.vel.x, cur.pos.y + dt * cur.vel.y))
  {
    var c, v := cur.pos, cur.vel;
    var prevPos := Vec(c.x - dt * v.x, c.y - dt * v.y);
    var next := VerletMove(cur, prevPos, Zero, dt);
    VerletIsCentralDifference(cur, prevPos, Zero, dt);
    assert next.pos == Vec(c.x + dt * v.x, c.y + dt * v.y);
    if next.pos != prevPos {
      HalvedDoubleStep(v.x, next.vel.x, dt);
      HalvedDoubleStep(v.y, next.vel.y, dt);
    }
  }

  lemma HalvedDoubleStep(v: real, w: real, dt: PosReal)
    requires 2.0 * dt * w == dt * v + dt * v
    ensures w == v
  {
    assert dt * (2.0 * w) == dt * (2.0 * v);
  }

  /**
   * One Verlet step of a force-free particle whose shadow entry sits one
   * step back along its velocity moves it one step forward along that velocity.
   */
  lemma ForceFreeStep(cfg: Config, force: Field, live: seq<Particle>, prev: seq<Particle>, i: nat)
    requires |live| == |prev| && i < |live|
    requires prev[i].pos == Vec(live[i].pos.x - cfg.dt * live[i].vel.x, live[i].pos.y - cfg.dt * live[i].vel.y)
    requires force(i, live[i], MidShadow(live, prev, i)) == Zero
    ensures var p := live[i];
      VerletLive(cfg, force, live, prev)[i] == p.(pos := Vec(p.pos.x + cfg.dt * p.vel.x, p.pos.y + cfg.dt * p.vel.y))
  {
    var p := live[i];
    var mid := MidShadow(live, prev, i);
    assert mid[i] == prev[i];
    UniformMotionIsExact(p, cfg.dt);
  }

  /**
   * Bootstrap followed by one step, for force-free particles: each particle
   * moves exactly one step along its velocity and keeps that velocity.
   */
  lemma ForceFreeBootstrapThenStep(cfg: Config, force: Field, live: seq<Particle>, oldShadow: seq<Particle>, i: nat)
    requires i < |live|
    requires force(i, live[i], oldShadow) == Zero
    requires force(i, live[i], MidShadow(live, Bootstrap(cfg, force, live, oldShadow), i)) == Zero
    ensures var p := live[i];
      VerletLive(cfg, force, live, Bootstrap(cfg, force, live, oldShadow))[i] ==
      p.(pos := Vec(p.pos.x + cfg.dt * p.vel.x, p.pos.y + cfg.dt * p.vel.y))
  {
    var prev := Bootstrap(cfg, force, live, oldShadow);
    ForceFreeClonePos(cfg, force, live, oldShadow, i);
    ForceFreeStep(cfg, force, live, prev, i);
  }

  lemma ForceFreeClonePos(cfg: Config, force: Field, live: seq<Particle>, oldShadow: seq<Particle>, i: nat)
    requires i < |live|
    requires force(i, live[i], oldShadow) == Zero
    ensures var p := live[i];
      Bootstrap(cfg, force, live, oldShadow)[i].pos == Vec(p.pos.x - cfg.dt * p.vel.x, p.pos.y - cfg.dt * p.vel.y)
  {
    assert Bootstrap(cfg, force, live, oldShadow)[i] == BackwardStep(live[i], Zero, cfg.dt);
    ForceFreeBackwardStep(live[i], cfg.dt);
  }

  /**
   * The bootstrap clone of particle `i`, for any force `F` on it: its
   * velocity is the backward Euler step of the current velocity (both
   * components starting from the x-velocity), and a Verlet move from its
   * position under the acceleration `F / m` lands where the second-order
   * forward expansion `pos + dt vel + dt^2 F / (2m)` puts the particle.
   */
  lemma BootstrapIsBackwardExpansion(cfg: Config, force: Field, live: seq<Particle>, oldShadow: seq<Particle>, i: nat)
    requires i < |live|
    ensures Bootstrap(cfg, force, live, oldShadow)[i].vel ==
      Vec(live[i].vel.x - (cfg.dt / live[i].mass) * force(i, live[i], oldShadow).x,
          live[i].vel.x - (cfg.dt / live[i].mass) * force(i, live[i], oldShadow).y)
    ensures ForwardFromClone(cfg.dt, force(i, live[i], oldShadow), live[i], Bootstrap(cfg, force, live, oldShadow)[i])
  {
    CloneThenVerlet(live[i], force(i, live[i], oldShadow), cfg.dt, Bootstrap(cfg, force, live, oldShadow)[i]);
  }

  /**
   * A Verlet move of `p` from the position of `q` under the acceleration
   * `f / m` lands at the second-order forward expansion of `p`.
   */
  predicate ForwardFromClone(dt: PosReal, f: Vec, p: Particle, q: Particle) {
    VerletMove(p, q.pos, PerMass(f, p.mass), dt).pos ==
    Vec(p.pos.x + dt * p.vel.x + dt * dt * f.x / (2.0 * p.mass),
        p.pos.y + dt * p.vel.y + dt * dt * f.y / (2.0 * p.mass))
  }

  lemma CloneThenVerlet(p: Particle, f: Vec, dt: PosReal, q: Particle)
    requires q == BackwardStep(p, f, dt)
    ensures q.vel == Vec(p.vel.x - (dt / p.mass) * f.x, p.vel.x - (dt / p.mass) * f.y)
    ensures ForwardFromClone(dt, f, p, q)
  {
    BackwardThenVerlet(p, f, dt);
  }

  /** `BootstrapIsBackwardExpansion` for one particle and any force `f`. */
  lemma BackwardThenVerlet(p: Particle, f: Vec, dt: PosReal)
    ensures VerletMove(p, BackwardStep(p, f, dt).pos, PerMass(f, p.mass), dt).pos ==
      Vec(p.pos.x + dt * p.vel.x + dt * dt * f.x / (2.0 * p.mass), p.pos.y + dt * p.vel.y + dt * dt * f.y / (2.0 * p.mass))
  {
    BackwardThenVerletX(p, f, dt);
    BackwardThenVerletY(p, f, dt);
  }

  /** The x-coordinate of `BackwardThenVerlet`. */
  lemma BackwardThenVerletX(p: Particle, f: Vec, dt: PosReal)
    ensures VerletMove(p, BackwardStep(p, f, dt).pos, PerMass(f, p.mass), dt).pos.x ==
      p.pos.x + dt * p.vel.x + dt * dt * f.x / (2.0 * p.mass)
  {
    var back := BackwardStep(p, f, dt).pos.x;
    assert back == p.pos.x - dt * p.vel.x + dt * dt * f.x / (2.0 * p.mass);
    BackThenForward(p.pos.x, p.vel.x, f.x, p.mass, dt, back, PerMass(f, p.mass).x);
  }

  /** The y-coordinate of `BackwardThenVerlet`. */
  lemma BackwardThenVerletY(p: Particle, f: Vec, dt: PosReal)
    ensures VerletMove(p, BackwardStep(p, f, dt).pos, PerMass(f, p.mass), dt).pos.y ==
      p.pos.y + dt * p.vel.y + dt * dt * f.y / (2.0 * p.mass)
  {
    var back := BackwardStep(p, f, dt).pos.y;
    assert back == p.pos.y - dt * p.vel.y + dt * dt * f.y / (2.0 * p.mass);
    BackThenForward(p.pos.y, p.vel.y, f.y, p.mass, dt, back, PerMass(f, p.mass).y);
  }

  /** One coordinate of `BootstrapIsBackwardExpansion`. */
  lemma BackThenForward(c: real, v: real, f: real, m: PosReal, dt: PosReal, back: real, a: real)
    requires back == c - dt * v + dt * dt * f / (2.0 * m)
    requires a == f / m
    ensures 2.0 * c - back + dt * dt * a == c + dt * v + dt * dt * f / (2.0 * m)
  {
    var h := f / (2.0 * m);
    assert a == 2.0 * h;
    assert dt * dt * f / (2.0 * m) == dt * dt * h;
    assert dt * dt * (2.0 * h) == 2.0 * (dt * dt * h);
  }

  /**
   * Bootstrap and step at rest: particles with zero velocity that feel no
   * force, neither against the old shadow list nor against each other, are
   * their own previous state, and one Verlet step leaves both lists unchanged.
   */
  lemma RestIsAFixedPoint(cfg: Config, force: Field, live: seq<Particle>, oldShadow: seq<Particle>)
    requires forall i :: 0 <= i < |live| ==> live[i].vel == Zero
    requires forall i :: 0 <= i < |live| ==> force(i, live[i], oldShadow) == Zero
    requires forall i :: 0 <= i < |live| ==> force(i, live[i], live) == Zero
    ensures Bootstrap(cfg, force, live, oldShadow) == live
    ensures VerletLive(cfg, force, live, live) == live
    ensures VerletShadow(live, live) == live
  {
    var prev := Bootstrap(cfg, force, live, oldShadow);
    forall i | 0 <= i < |live| ensures prev[i] == live[i] {
      assert prev[i] == BackwardStep(live[i], Zero, cfg.dt);
      ForceFreeBackwardStep(live[i], cfg.dt);
    }
    forall i | 0 <= i <= |live| ensures MidShadow(live, live, i) == live {
    }
    var next := VerletLive(cfg, force, live, live);
    forall i | 0 <= i < |live| ensures next[i] == live[i] {
      ForceFreeStep(cfg, force, live, live, i);
    }
  }

  /** Two shadow lists that differ at most in their particles' velocities. */
  predicate DifferInVelocityOnly(s: seq<Particle>, t: seq<Particle>) {
    |s| == |t| && forall j :: 0 <= j < |s| ==> t[j] == s[j].(vel := t[j].vel)
  }

  /**
   * For a field that reads only shadow positions, the Verlet step never
   * reads the velocities stored in the shadow list: two shadow lists that
   * differ only there give the same live list and the same shadow list.
   */
  lemma ShadowVelocityIsNeverRead(cfg: Config, force: Field, live: seq<Particle>, s: seq<Particle>, t: seq<Particle>)
    requires ReadsOnlyPositions(force)
    requires |live| == |s| && DifferInVelocityOnly(s, t)
    ensures VerletLive(cfg, force, live, s) == VerletLive(cfg, force, live, t)
    ensures VerletShadow(live, s) == VerletShadow(live, t)
  {
    forall i | 0 <= i < |live|
      ensures Advance(cfg, force, i, live[i], MidShadow(live, s, i)) == Advance(cfg, force, i, live[i], MidShadow(live, t, i))
    {
      var ms, mt := MidShadow(live, s, i), MidShadow(live, t, i);
      assert SamePositions(ms, mt);
      assert force(i, live[i], ms) == force(i, live[i], mt);
    }
    assert VerletShadow(live, s) == VerletShadow(live, t);
  }

  /**
   * The previous clone with the y-velocity taken from the y-component, the
   * symmetric form of the backward expansion.
   */
  function SymmetricPreviousClone(cfg: Config, force: Field, i: nat, p: Particle, oldShadow: seq<Particle>): Particle {
    var q := PreviousClone(cfg, force, i, p, oldShadow);
    var f := force(i, p, oldShadow);
    q.(vel := Vec(q.vel.x, p.vel.y - (cfg.dt / p.mass) * f.y))
  }

  /**
   * Whether the bootstrap takes the previous y-velocity from the x- or the
   * y-component makes no difference to the first Verlet step, and hence to
   * any later state: the shadow velocities are overwritten before they are read.
   */
  lemma BootstrapVelocityQuirkIsUnobservable(cfg: Config, force: Field, live: seq<Particle>, oldShadow: seq<Particle>)
    requires ReadsOnlyPositions(force)
    ensures var asWritten := Bootstrap(cfg, force, live, oldShadow);
      var symmetric := seq(|live|, i requires 0 <= i < |live| => SymmetricPreviousClone(cfg, force, i, live[i], oldShadow));
      VerletLive(cfg, force, live, asWritten) == VerletLive(cfg, force, live, symmetric) &&
      VerletShadow(live, asWritten) == VerletShadow(live, symmetric)
  {
    var asWritten := Bootstrap(cfg, force, live, oldShadow);
    var symmetric := seq(|live|, i requires 0 <= i < |live| => SymmetricPreviousClone(cfg, force, i, live[i], oldShadow));
    assert DifferInVelocityOnly(asWritten, symmetric);
    ShadowVelocityIsNeverRead(cfg, force, live, asWritten, symmetric);
  }
}
