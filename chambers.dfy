/**
 * Chamber membership, the balance predicate and the resolution of the
 * time limit that bounds one run of the engine.
 */
module Chambers {
  import opened Gas

  /** A particle is in the first chamber when it is strictly left of the partition. */
  predicate InFirstChamber(cfg: Config, p: Particle) {
    p.pos.x < cfg.split
  }

  /** Number of particles in the first chamber (the counting loop of `isBalanced`). */
  function FirstChamberCount(cfg: Config, ps: seq<Particle>): (c: nat)
    ensures c <= |ps|
  {
    if ps == [] then 0
    else FirstChamberCount(cfg, ps[..|ps| - 1]) + (if InFirstChamber(cfg, ps[|ps| - 1]) then 1 else 0)
  }

  /** Number of particles in the second chamber (at or right of the partition). */
  function SecondChamberCount(cfg: Config, ps: seq<Particle>): nat {
    if ps == [] then 0
    else SecondChamberCount(cfg, ps[..|ps| - 1]) + (if InFirstChamber(cfg, ps[|ps| - 1]) then 0 else 1)
  }

  /**
   * `Math.floor(initialChamberAmount - particles.size() / 2) == 0`: the operands
   * are Java ints, so the floor is the identity and the division truncates,
   * which for a non-negative size is Dafny's `/`.
   */
  predicate IsBalanced(cfg: Config, ps: seq<Particle>) {
    FirstChamberCount(cfg, ps) - |ps| / 2 == 0
  }

  /** Every particle is in exactly one of the two chambers. */
  lemma {:induction false} ChambersPartition(cfg: Config, ps: seq<Particle>)
    ensures FirstChamberCount(cfg, ps) + SecondChamberCount(cfg, ps) == |ps|
  {
    if ps != [] {
      ChambersPartition(cfg, ps[..|ps| - 1]);
    }
  }

  /**
   * The system is balanced exactly when the two chambers hold the same number
   * of particles, or, for an odd total, the second chamber holds one more.
   */
  lemma BalancedIffEqualChambers(cfg: Config, ps: seq<Particle>)
    ensures IsBalanced(cfg, ps) <==>
            SecondChamberCount(cfg, ps) - FirstChamberCount(cfg, ps) == |ps| % 2
  {
    ChambersPartition(cfg, ps);
  }

  /**
   * The two balance examples: of 10 particles, 5 on the left is balanced and
   * 6 is not; of 11 particles, 5 on the left is balanced.
   */
  lemma BalanceExamples(cfg: Config, ps: seq<Particle>)
    ensures |ps| == 10 ==> (IsBalanced(cfg, ps) <==> FirstChamberCount(cfg, ps) == 5)
    ensures |ps| == 11 ==> (IsBalanced(cfg, ps) <==> FirstChamberCount(cfg, ps) == 5)
  {
  }

  /**
   * The stopping bound of the driver loop. Mode -1 runs until the balance
   * time, mode -2 until twice the balance time; while the balance time is
   * not positive both stand at `Integer.MAX_VALUE`. Any other mode is the
   * configured bound itself.
   */
  function TimeLimit(mode: int, balanceTime: real): (limit: real)
    ensures mode == DiscoverMode || mode == ExtendMode ==> limit > 0.0
    ensures mode != DiscoverMode && mode != ExtendMode ==> limit == mode as real
    ensures balanceTime <= 0.0 && (mode == DiscoverMode || mode == ExtendMode) ==> limit == IntegerMaxValue
  {
    match mode
    case -1 => if balanceTime > 0.0 then balanceTime else IntegerMaxValue
    case -2 => if balanceTime > 0.0 then balanceTime * 2.0 else IntegerMaxValue
    case _ => mode as real
  }

  /** Once the balance time is known, the extend bound is twice the discover bound. */
  lemma ExtendIsTwiceDiscover(balanceTime: real)
    requires balanceTime > 0.0
    ensures TimeLimit(DiscoverMode, balanceTime) == balanceTime
    ensures TimeLimit(ExtendMode, balanceTime) == 2.0 * TimeLimit(DiscoverMode, balanceTime)
  {
  }
}
