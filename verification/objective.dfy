/** The score tuple of a single candidate; larger is better. */
module Objective {
  import opened Domain
  import opened Coeff

  /** `(placed-count delta, K, used floor area, policy term)`, compared lexicographically. */
  datatype Score = Score(count: int, k: real, area: real, policy: real)

  /** The base score: one unit, its K, the floor area it covers, and no policy term yet. */
  function ScoreCandidate(itemsById: map<string, Item>, c: Candidate, md: ModeDecision): (s: Score)
    requires c.itemId in itemsById
    ensures s.count == 1 && s.policy == 0.0
    ensures s.k == ComputeK(itemsById[c.itemId], md)
    ensures s.area == c.dx * c.dz
  {
    var it := itemsById[c.itemId];
    Score(1, ComputeK(it, md), c.dx * c.dz, 0.0)
  }

  /** Where a candidate sits plays no part in its base score. */
  lemma ScoreIgnoresPosition(itemsById: map<string, Item>, c: Candidate, md: ModeDecision,
                             x: real, y: real, z: real, box: Box)
    requires c.itemId in itemsById
    ensures ScoreCandidate(itemsById, c.(x := x, y := y, z := z, aabb := box), md) == ScoreCandidate(itemsById, c, md)
  {
  }
}
