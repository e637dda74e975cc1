/**
 * The boundary enforcer for one particle: wall violations are corrected with
 * a jitter `delta`, and a crossing of the solid part of the partition is
 * undone without accepting the new position as the last legal one.
 */
module Boundary {
  import opened Gas
  import opened Chambers

  /** The outcome for one particle: its new position, and whether that position is remembered as legal. */
  datatype Bounced = Bounced(pos: Vec, remember: bool)

  /**
   * The four wall checks, all decided on the position before correction and
   * applied in order top, bottom, left, right; each correction resets the
   * other coordinate to the last legal one, so the last violated wall wins.
   */
  function WallCorrected(cfg: Config, pos: Vec, last: Vec, delta: Jitter): (r: Vec)
    ensures pos.x > cfg.width ==> r == Vec(cfg.width - delta, last.y)
    ensures !(pos.x > cfg.width) && pos.x < 0.0 ==> r == Vec(delta, last.y)
    ensures !(pos.x > cfg.width) && !(pos.x < 0.0) && pos.y < 0.0 ==> r == Vec(last.x, delta)
    ensures !(pos.x > cfg.width) && !(pos.x < 0.0) && !(pos.y < 0.0) && pos.y > cfg.height ==>
      r == Vec(last.x, cfg.height - delta)
    ensures 0.0 <= pos.x <= cfg.width && 0.0 <= pos.y <= cfg.height ==> r == pos
  {
    var afterTop := if pos.y > cfg.height then Vec(last.x, cfg.height - delta) else pos;
    var afterBottom := if pos.y < 0.0 then Vec(last.x, delta) else afterTop;
    var afterLeft := if pos.x < 0.0 then Vec(delta, last.y) else afterBottom;
    if pos.x > cfg.width then Vec(cfg.width - delta, last.y) else afterLeft
  }

  /** Strictly between the hole's edges, on the position before correction. */
  predicate WithinHole(cfg: Config, pos: Vec) {
    pos.y > cfg.holePos && pos.y < cfg.holePos + cfg.holeSize
  }

  /**
   * The chamber of `x` differs from that of the last legal x-coordinate; a
   * last legal x exactly on the partition never counts as a change.
   */
  predicate ChangedChamber(cfg: Config, x: real, lastX: real) {
    (!(x < cfg.split) && lastX < cfg.split) || (x < cfg.split && lastX > cfg.split)
  }

  /** The per-particle body of `updatePositionByBouncing`, with one jitter `delta`. */
  function Bounce(cfg: Config, pos: Vec, last: Vec, delta: Jitter): Bounced {
    var corrected := WallCorrected(cfg, pos, last, delta);
    if !WithinHole(cfg, pos) && ChangedChamber(cfg, corrected.x, last.x) then
      Bounced(Vec(if last.x < cfg.split then last.x - delta else last.x + delta, corrected.y), false)
    else
      Bounced(corrected, true)
  }

  /**
   * The partition rule: a particle outside the hole whose corrected position
   * flipped chamber goes back to the chamber of its last legal x, `delta`
   * further from the partition than that x, and its last legal position is
   * kept; in every other case the final position is the wall-corrected one
   * and it is remembered.
   */
  lemma PartitionBounce(cfg: Config, pos: Vec, last: Vec, delta: Jitter)
    ensures var b := Bounce(cfg, pos, last, delta);
      var corrected := WallCorrected(cfg, pos, last, delta);
      && (!b.remember <==> !WithinHole(cfg, pos) && ChangedChamber(cfg, corrected.x, last.x))
      && (!b.remember ==> b.pos.y == corrected.y &&
                          (b.pos.x < cfg.split <==> last.x < cfg.split) &&
                          (last.x < cfg.split ==> b.pos.x == last.x - delta) &&
                          (last.x > cfg.split ==> b.pos.x == last.x + delta))
      && (b.remember ==> b.pos == corrected)
  {
  }

  /** The point is inside the closed box. */
  predicate InBox(cfg: Config, v: Vec) {
    0.0 <= v.x <= cfg.width && 0.0 <= v.y <= cfg.height
  }

  /**
   * In a box at least 0.7 wide and high, a particle whose last legal position
   * is inside the box, and whose position is remembered, ends inside the box:
   * remembered positions stay legal.
   */
  lemma RememberedPositionIsInBox(cfg: Config, pos: Vec, last: Vec, delta: Jitter)
    requires cfg.width >= 0.7 && cfg.height >= 0.7
    requires InBox(cfg, last)
    ensures Bounce(cfg, pos, last, delta).remember ==> InBox(cfg, Bounce(cfg, pos, last, delta).pos)
  {
  }

  /**
   * A particle just above the top of the box, and otherwise inside it, comes
   * back strictly between 0.2 and 0.7 below the top, at its last legal x.
   */
  lemma TopWallExample(cfg: Config, pos: Vec, last: Vec, delta: Jitter)
    requires cfg.height >= 0.0 && pos.y == cfg.height + 1.0 && 0.0 <= pos.x <= cfg.width
    ensures var r := WallCorrected(cfg, pos, last, delta);
      r.x == last.x && cfg.height - 0.7 < r.y <= cfg.height - 0.2
  {
  }
}
