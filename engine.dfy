/**
 * The gas engine: its state (the live particle list, the index-aligned
 * shadow list, the last-legal-position memory and the balance time), the
 * specification of one simulation step and of a run of steps, and the class
 * whose methods update that state in place.
 */
module Engine {
  import opened Gas
  import opened Chambers
  import opened Forces
  import opened Integrator
  import opened Boundary

  /** The engine's lists as values: live particles, shadow particles, last legal positions. */
  datatype SimState = SimState(live: seq<Particle>, shadow: seq<Particle>, memory: seq<Vec>)

  /** The three lists are indexed alike. */
  predicate Aligned(s: SimState) {
    |s.shadow| == |s.live| && |s.memory| == |s.live|
  }

  /**
   * The state at the top of the driver loop: the bootstrap shadow list
   * (forces against the shadow list the engine held before), and the memory
   * seeded with the shadow positions.
   */
  function Start(cfg: Config, force: Field, live: seq<Particle>, oldShadow: seq<Particle>): (s: SimState)
    ensures Aligned(s) && s.live == live
    ensures forall j :: 0 <= j < |live| ==> s.memory[j] == s.shadow[j].pos
  {
    var prev := Bootstrap(cfg, force, live, oldShadow);
    SimState(live, prev, Positions(prev))
  }

  /** Live particles after the boundary enforcer, one jitter per particle. */
  function BouncedLive(cfg: Config, live: seq<Particle>, memory: seq<Vec>, deltas: seq<Jitter>): (next: seq<Particle>)
    requires |memory| == |live| && |deltas| == |live|
    ensures |next| == |live|
  {
    seq(|live|, i requires 0 <= i < |live| => live[i].(pos := Bounce(cfg, live[i].pos, memory[i], deltas[i]).pos))
  }

  /** Last legal positions after the boundary enforcer: unchanged where the partition bounced the particle. */
  function BouncedMemory(cfg: Config, live: seq<Particle>, memory: seq<Vec>, deltas: seq<Jitter>): (next: seq<Vec>)
    requires |memory| == |live| && |deltas| == |live|
    ensures |next| == |live|
  {
    seq(|live|, i requires 0 <= i < |live| =>
      var b := Bounce(cfg, live[i].pos, memory[i], deltas[i]);
      if b.remember then b.pos else memory[i])
  }

  /**
   * The boundary enforcer changes only positions, remembers a particle's
   * final position unless the partition bounced it, and keeps every
   * remembered position inside a box at least 0.7 wide and high.
   */
  lemma {:induction false} BouncePreservesLegalMemory(cfg: Config, live: seq<Particle>, memory: seq<Vec>, deltas: seq<Jitter>)
    requires |memory| == |live| && |deltas| == |live|
    requires cfg.width >= 0.7 && cfg.height >= 0.7
    requires forall i :: 0 <= i < |memory| ==> InBox(cfg, memory[i])
    ensures forall i :: 0 <= i < |live| ==> InBox(cfg, BouncedMemory(cfg, live, memory, deltas)[i])
    ensures forall i :: 0 <= i < |live| ==>
      BouncedLive(cfg, live, memory, deltas)[i] == live[i].(pos := BouncedLive(cfg, live, memory, deltas)[i].pos) &&
      (BouncedMemory(cfg, live, memory, deltas)[i] == memory[i] ||
       BouncedMemory(cfg, live, memory, deltas)[i] == BouncedLive(cfg, live, memory, deltas)[i].pos)
  {
    forall i | 0 <= i < |live|
      ensures InBox(cfg, BouncedMemory(cfg, live, memory, deltas)[i])
    {
      RememberedPositionIsInBox(cfg, live[i].pos, memory[i], deltas[i]);
    }
  }

  /** The jitters drawn in pass `k`, one per particle. */
  function Draw(jitter: (nat, nat) -> Jitter, k: nat, n: nat): (deltas: seq<Jitter>)
    ensures |deltas| == n
  {
    seq(n, i requires 0 <= i < n => jitter(k, i))
  }

  /** One iteration of the driver after the time increment: Verlet step, then boundary enforcer. */
  function Step(cfg: Config, force: Field, s: SimState, deltas: seq<Jitter>): (next: SimState)
    requires Aligned(s) && |deltas| == |s.live|
    ensures Aligned(next) && |next.live| == |s.live|
  {
    var live := VerletLive(cfg, force, s.live, s.shadow);
    SimState(BouncedLive(cfg, live, s.memory, deltas),
             VerletShadow(s.live, s.shadow),
             BouncedMemory(cfg, live, s.memory, deltas))
  }

  /** The state after `k` iterations from `s0`, iteration `j` drawing the jitters of pass `j`. */
  function Run(cfg: Config, force: Field, jitter: (nat, nat) -> Jitter, s0: SimState, k: nat): (s: SimState)
    requires Aligned(s0)
    ensures Aligned(s) && |s.live| == |s0.live|
  {
    if k == 0 then s0
    else Step(cfg, force, Run(cfg, force, jitter, s0, k - 1), Draw(jitter, k - 1, |s0.live|))
  }

  /** The time accumulated after `k` iterations, `dt` added once per iteration. */
  function Elapsed(dt: PosReal, k: nat): (e: real)
    ensures 0.0 <= e && (k > 0 ==> dt <= e)
  {
    if k == 0 then 0.0 else Elapsed(dt, k - 1) + dt
  }

  /** Adding `dt` `k` times accumulates `k * dt` (the model's reals do not round). */
  lemma {:induction false} ElapsedIsMultiple(dt: PosReal, k: nat)
    ensures Elapsed(dt, k) == k as real * dt
  {
    if k > 0 {
      ElapsedIsMultiple(dt, k - 1);
    }
  }

  /** Accumulated time grows strictly with the number of iterations. */
  lemma {:induction false} ElapsedIsIncreasing(dt: PosReal, j: nat, k: nat)
    requires j < k
    ensures Elapsed(dt, j) < Elapsed(dt, k)
  {
    if j < k - 1 {
      ElapsedIsIncreasing(dt, j, k - 1);
    }
  }

  /** `Double.compare(t, limit) <= 0` for `t = Elapsed(dt, k)` bounds `k` by `floor(limit / dt)`. */
  lemma StepCountBound(k: nat, dt: PosReal, limit: real)
    requires Elapsed(dt, k) <= limit
    ensures k <= (limit / dt).Floor
  {
    ElapsedIsMultiple(dt, k);
    BelowQuotient(k as real, limit, dt);
  }

  /** `x * d <= l` with a positive `d` puts `x` at or below `l / d`. */
  lemma BelowQuotient(x: real, l: real, d: real)
    requires d > 0.0 && x * d <= l
    ensures x <= l / d
  {
    var q := l / d;
    assert q * d == l;
    if x > q {
      assert (x - q) * d > 0.0;
    }
  }

  /** The number of iterations from iteration `k` on that start within `limit`. */
  function Remaining(dt: PosReal, limit: real, k: nat): nat
    decreases (limit / dt).Floor - k
  {
    if Elapsed(dt, k) > limit then 0
    else
      StepCountBound(k, dt, limit);
      1 + Remaining(dt, limit, k + 1)
  }

  /** State `k + 1` of `trace` follows state `k` by one step drawing the jitters of pass `k`. */
  ghost predicate Linked(cfg: Config, force: Field, jitter: (nat, nat) -> Jitter, n: nat, trace: seq<SimState>, k: nat)
    requires k + 1 < |trace|
  {
    Aligned(trace[k]) && |trace[k].live| == n && trace[k + 1] == Step(cfg, force, trace[k], Draw(jitter, k, n))
  }

  /** `trace` lists the states of `n` particles visited by a run of steps. */
  ghost predicate IsRun(cfg: Config, force: Field, jitter: (nat, nat) -> Jitter, n: nat, trace: seq<SimState>) {
    && |trace| >= 1 && Aligned(trace[|trace| - 1]) && |trace[|trace| - 1].live| == n
    && forall k :: 0 <= k < |trace| - 1 ==> Linked(cfg, force, jitter, n, trace, k)
  }

  /** A run extended by one more step is a run. */
  lemma ExtendRun(cfg: Config, force: Field, jitter: (nat, nat) -> Jitter, n: nat, trace: seq<SimState>, s: SimState)
    requires IsRun(cfg, force, jitter, n, trace)
    requires s == Step(cfg, force, trace[|trace| - 1], Draw(jitter, |trace| - 1, n))
    ensures IsRun(cfg, force, jitter, n, trace + [s])
  {
    var t := trace + [s];
    forall k | 0 <= k < |t| - 1
      ensures Linked(cfg, force, jitter, n, t, k)
    {
      if k < |trace| - 1 {
        assert Linked(cfg, force, jitter, n, trace, k);
      }
    }
  }

  /** A run is determined by its first state and the jitters: state `k` is `Run(.., k)`. */
  lemma {:induction false} RunIsDetermined(cfg: Config, force: Field, jitter: (nat, nat) -> Jitter, n: nat, trace: seq<SimState>, k: nat)
    requires IsRun(cfg, force, jitter, n, trace) && k < |trace|
    ensures Aligned(trace[0]) && |trace[0].live| == n
    ensures trace[k] == Run(cfg, force, jitter, trace[0], k)
  {
    if |trace| > 1 {
      assert Linked(cfg, force, jitter, n, trace, 0);
    }
    if k > 0 {
      RunIsDetermined(cfg, force, jitter, n, trace, k - 1);
      assert Linked(cfg, force, jitter, n, trace, k - 1);
    }
  }

  /** No state of `trace` has its particles balanced between the chambers. */
  predicate NeverBalanced(cfg: Config, trace: seq<SimState>) {
    |trace| == 0 || (NeverBalanced(cfg, trace[..|trace| - 1]) && !IsBalanced(cfg, trace[|trace| - 1].live))
  }

  lemma {:induction false} NeverBalancedAt(cfg: Config, trace: seq<SimState>)
    requires NeverBalanced(cfg, trace)
    ensures forall j :: 0 <= j < |trace| ==> !IsBalanced(cfg, trace[j].live)
  {
    if |trace| > 0 {
      var prefix := trace[..|trace| - 1];
      NeverBalancedAt(cfg, prefix);
      assert forall j :: 0 <= j < |prefix| ==> prefix[j] == trace[j];
    }
  }

  /**
   * The animation counter at the top of iteration `k` of the driver when
   * frames are being written: it grows by `dt` per iteration and is reset
   * when a frame is written.
   */
  function AnimationClock(dt: PosReal, k: nat): real {
    if k == 0 then 0.0
    else
      var c := AnimationClock(dt, k - 1);
      (if c >= AnimationOutputTimeLimit then 0.0 else c) + dt
  }

  /** The times of the frames written in iterations `0 .. k-1`. */
  function FrameTimes(dt: PosReal, k: nat): seq<real> {
    if k == 0 then []
    else
      FrameTimes(dt, k - 1) +
      (if AnimationClock(dt, k - 1) >= AnimationOutputTimeLimit then [Elapsed(dt, k - 1)] else [])
  }

  /** The time of the last frame written before iteration `k`, or 0 if none was. */
  function LastFrame(dt: PosReal, k: nat): real {
    var f := FrameTimes(dt, k);
    if f == [] then 0.0 else f[|f| - 1]
  }

  /** The animation counter is the time elapsed since the last frame. */
  lemma {:induction false} ClockIsTimeSinceLastFrame(dt: PosReal, k: nat)
    ensures AnimationClock(dt, k) == Elapsed(dt, k) - LastFrame(dt, k)
  {
    if k > 0 {
      ClockIsTimeSinceLastFrame(dt, k - 1);
    }
  }

  /**
   * Frames are at least 0.1 time units apart, and the first one is written
   * no earlier than 0.1.
   */
  lemma {:induction false} FramesAreSpaced(dt: PosReal, k: nat)
    ensures var f := FrameTimes(dt, k);
      (|f| > 0 ==> f[0] >= AnimationOutputTimeLimit) &&
      forall m :: 0 < m < |f| ==> f[m] - f[m - 1] >= AnimationOutputTimeLimit
  {
    if k > 0 {
      FramesAreSpaced(dt, k - 1);
      ClockIsTimeSinceLastFrame(dt, k - 1);
    }
  }

  /** `LennardJonesGasManager`: the engine, holding the grid's particle list. */
  class LennardJonesGasManager {
    const cfg: Config
    const law: ForceLaw
    /** The force on a particle as a function of its index, itself and the shadow list (`getAppliedForce`). */
    const field: Field
    /** The grid's particles, updated in place. */
    const live: array<Particle>
    var balanceTime: real
    /** `previousParticles`: one previous-state clone per live particle, same order. */
    var shadow: array<Particle>
    /** `positionMap`: the last legal position of each particle, by index. */
    var memory: array<Vec>

    ghost predicate Valid()
      reads this
    {
      live != shadow
    }

    ghost function State(): SimState
      reads this, live, shadow, memory
    {
      SimState(live[..], shadow[..], memory[..])
    }

    constructor (cfg: Config, law: ForceLaw, live: array<Particle>)
      ensures Valid()
      ensures this.cfg == cfg && this.law == law && this.live == live && field == FieldOf(cfg, law)
      ensures balanceTime == 0.0 && shadow.Length == 0 && memory.Length == 0
    {
      this.cfg := cfg;
      this.law := law;
      this.live := live;
      this.field := FieldOf(cfg, law);
      balanceTime := 0.0;
      shadow := new Particle[0];
      memory := new Vec[0];
    }

    /**
     * `verletUpdate`: walks the particles by index; the acceleration of
     * particle `i` is computed against the shadow list in which entries below
     * `i` were already overwritten.
     */
    method VerletUpdate()
      requires Valid() && shadow.Length == live.Length
      modifies live, shadow
      ensures live[..] == VerletLive(cfg, field, old(live[..]), old(shadow[..]))
      ensures shadow[..] == VerletShadow(old(live[..]), old(shadow[..]))
    {
      ghost var L, S := live[..], shadow[..];
      var force := field;
      for i := 0 to live.Length
        invariant shadow[..] == MidShadow(L, S, i)
        invariant forall j :: 0 <= j < i ==> live[j] == Advance(cfg, force, j, L[j], MidShadow(L, S, j))
        invariant forall j :: i <= j < live.Length ==> live[j] == L[j]
      {
        var currParticle := live[i];
        var prevParticle := shadow[i];
        var acceleration := PerMass(force(i, currParticle, shadow[..]), currParticle.mass);
        shadow[i] := Snapshot(prevParticle, currParticle);
        live[i] := VerletMove(currParticle, prevParticle.pos, acceleration, cfg.dt);
        assert shadow[..] == MidShadow(L, S, i + 1);
      }
    }

    /**
     * `updatePositionByBouncing`: one jitter per particle; each particle's
     * position and memory entry depend only on its own old position and memory entry.
     */
    method UpdatePositionByBouncing(deltas: seq<Jitter>)
      requires memory.Length == live.Length && |deltas| == live.Length
      modifies live, memory
      ensures live[..] == BouncedLive(cfg, old(live[..]), old(memory[..]), deltas)
      ensures memory[..] == BouncedMemory(cfg, old(live[..]), old(memory[..]), deltas)
    {
      ghost var L, M := live[..], memory[..];
      for i := 0 to live.Length
        invariant forall j :: 0 <= j < i ==> live[j] == BouncedLive(cfg, L, M, deltas)[j]
        invariant forall j :: 0 <= j < i ==> memory[j] == BouncedMemory(cfg, L, M, deltas)[j]
        invariant forall j :: i <= j < live.Length ==> live[j] == L[j] && memory[j] == M[j]
      {
        var bounced := Bounce(cfg, live[i].pos, memory[i], deltas[i]);
        live[i] := live[i].(pos := bounced.pos);
        if bounced.remember {
          memory[i] := bounced.pos;
        }
      }
    }

    /**
     * The prologue of `execute`: `initPreviousParticles` replaces the shadow
     * list by fresh clones, and the memory is seeded with their positions.
     */
    method Setup()
      requires Valid()
      modifies this
      ensures Valid() && fresh(shadow) && fresh(memory) && shadow.Length == live.Length && memory.Length == live.Length
      ensures State() == Start(cfg, field, old(live[..]), old(shadow[..]))
      ensures balanceTime == old(balanceTime)
    {
      var previous := Bootstrap(cfg, field, live[..], shadow[..]);
      shadow := new Particle[|previous|](j requires 0 <= j < |previous| => previous[j]);
      memory := new Vec[|previous|](j requires 0 <= j < |previous| => previous[j].pos);
    }

    /**
     * The last two statements of an iteration of `execute`'s loop: one Verlet
     * step and one boundary pass with the given jitters; the visited states
     * grow by the new state.
     */
    method Iterate(ghost jitter: (nat, nat) -> Jitter, ghost trace: seq<SimState>, deltas: seq<Jitter>) returns (ghost next: seq<SimState>)
      requires Valid() && shadow.Length == live.Length && memory.Length == live.Length
      requires IsRun(cfg, field, jitter, live.Length, trace) && trace[|trace| - 1] == State()
      requires deltas == Draw(jitter, |trace| - 1, live.Length)
      modifies live, shadow, memory
      ensures next == trace + [State()] && IsRun(cfg, field, jitter, live.Length, next)
    {
      VerletUpdate();
      UpdatePositionByBouncing(deltas);
      ExtendRun(cfg, field, jitter, live.Length, trace, State());
      next := trace + [State()];
    }

    /**
     * `execute`: bootstraps the shadow list, seeds the memory, then iterates
     * while the elapsed time is within the time limit. An iteration writes a
     * frame when due, returns at once if the balance time is still 0 and the
     * system is balanced (recording the elapsed time as the balance time), and
     * otherwise adds `dt` and runs one Verlet step and one boundary pass.
     * `trace` lists the states the run visits, from the bootstrapped one to
     * the final one; `frames` the times at which frames are written.
     */
    method Execute(mode: int, jitter: (nat, nat) -> Jitter) returns (t: real, ghost trace: seq<SimState>, ghost frames: seq<real>)
      requires Valid()
      modifies this, live
      ensures Valid() && fresh(shadow) && fresh(memory)
      ensures shadow.Length == live.Length && memory.Length == live.Length
      ensures IsRun(cfg, field, jitter, live.Length, trace)
      ensures trace[0] == Start(cfg, field, old(live[..]), old(shadow[..])) && trace[|trace| - 1] == State()
      ensures t == Elapsed(cfg.dt, |trace| - 1)
      ensures |trace| > 1 ==> Elapsed(cfg.dt, |trace| - 2) <= TimeLimit(mode, old(balanceTime))
      ensures old(balanceTime) == 0.0 ==> NeverBalanced(cfg, trace[..|trace| - 1])
      ensures var discovered := old(balanceTime) == 0.0 && t <= TimeLimit(mode, old(balanceTime)) && IsBalanced(cfg, live[..]);
        && (discovered ==> balanceTime == t)
        && (!discovered ==> balanceTime == old(balanceTime) && t > TimeLimit(mode, old(balanceTime)))
        && frames == (if cfg.gasMode then FrameTimes(cfg.dt, if discovered then |trace| else |trace| - 1) else [])
      ensures TimeLimit(mode, old(balanceTime)) < 0.0 ==> |trace| == 1 && t == 0.0
    {
      var accumulatedTime := 0.0;
      var animationOutputTime := 0.0;
      frames := [];
      var force := field;
      Setup();
      trace := [State()];
      ghost var limit := TimeLimit(mode, balanceTime);
      var pass: nat := 0;
      while accumulatedTime <= TimeLimit(mode, balanceTime)
        invariant Valid() && fresh(shadow) && fresh(memory)
        invariant shadow.Length == live.Length && memory.Length == live.Length
        invariant balanceTime == old(balanceTime) && limit == TimeLimit(mode, balanceTime)
        invariant |trace| == pass + 1 && accumulatedTime == Elapsed(cfg.dt, pass)
        invariant IsRun(cfg, force, jitter, live.Length, trace)
        invariant trace[0] == Start(cfg, force, old(live[..]), old(shadow[..])) && trace[pass] == State()
        invariant pass > 0 ==> Elapsed(cfg.dt, pass - 1) <= limit
        invariant balanceTime == 0.0 ==> NeverBalanced(cfg, trace[..pass])
        invariant cfg.gasMode ==> animationOutputTime == AnimationClock(cfg.dt, pass)
        invariant frames == (if cfg.gasMode then FrameTimes(cfg.dt, pass) else [])
        decreases Remaining(cfg.dt, limit, pass)
      {
        if cfg.gasMode && animationOutputTime >= AnimationOutputTimeLimit {
          frames := frames + [accumulatedTime];
          animationOutputTime := 0.0;
        }
        ghost var framesNow := frames;
        assert cfg.gasMode ==> (FrameTimes(cfg.dt, pass + 1) == FrameTimes(cfg.dt, pass) +
          (if AnimationClock(cfg.dt, pass) >= AnimationOutputTimeLimit then [accumulatedTime] else []));
        assert framesNow == (if cfg.gasMode then FrameTimes(cfg.dt, pass + 1) else []);

        if balanceTime == 0.0 && IsBalanced(cfg, live[..]) {
          balanceTime := accumulatedTime;
          t := balanceTime;
          return;
        }

        accumulatedTime := accumulatedTime + cfg.dt;
        animationOutputTime := animationOutputTime + cfg.dt;
        ghost var prior := trace;
        trace := Iterate(jitter, trace, Draw(jitter, pass, live.Length));
        assert trace[..pass + 1] == prior[..pass] + [prior[pass]];
        pass := pass + 1;
      }
      t := accumulatedTime;
    }
  }

  /**
   * The two-phase protocol on a fresh engine: a run in discover mode, and,
   * when it found a positive balance time, a run in extend mode, which does
   * not rediscover balance and stops at the first multiple of `dt` past
   * twice the balance time.
   */
  method BalanceTimeProtocol(e: LennardJonesGasManager, jitter1: (nat, nat) -> Jitter, jitter2: (nat, nat) -> Jitter)
    returns (balance: real, end: real)
    requires e.Valid() && e.balanceTime == 0.0
    modifies e, e.live
    ensures e.balanceTime > 0.0 ==> balance == e.balanceTime && 2.0 * balance < end <= 2.0 * balance + e.cfg.dt
  {
    ghost var trace: seq<SimState>;
    ghost var frames: seq<real>;
    balance, trace, frames := e.Execute(DiscoverMode, jitter1);
    if e.balanceTime > 0.0 {
      end, trace, frames := e.Execute(ExtendMode, jitter2);
      assert |trace| > 1;
      assert Elapsed(e.cfg.dt, |trace| - 2) <= 2.0 * balance;
    } else {
      end := balance;
    }
  }
}
