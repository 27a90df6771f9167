/**
 * Search scores: the integers the evaluator returns plus the two infinities
 * minimax starts its maximum and minimum from, ordered as JavaScript orders
 * numbers.
 */
module Scores {
  datatype Score = NegInf | Fin(v: int) | PosInf

  /** `a <= b` on numbers extended with -Infinity and Infinity. */
  predicate Le(a: Score, b: Score) {
    a == NegInf || b == PosInf || (a.Fin? && b.Fin? && a.v <= b.v)
  }

  /** `a < b`. */
  predicate Less(a: Score, b: Score) {
    !Le(b, a)
  }

  /** `Math.max(a, b)`. */
  function Max(a: Score, b: Score): (m: Score)
    ensures Le(a, m) && Le(b, m)
    ensures m == a || m == b
  {
    if Le(a, b) then b else a
  }

  /** `Math.min(a, b)`. */
  function Min(a: Score, b: Score): (m: Score)
    ensures Le(m, a) && Le(m, b)
    ensures m == a || m == b
  {
    if Le(a, b) then a else b
  }

  /**
   * The value a maximizing (resp. minimizing) loop reaches after seeing
   * `scores` in order, starting from -Infinity (resp. Infinity).
   */
  function Best(isMax: bool, scores: seq<Score>): Score {
    if scores == [] then (if isMax then NegInf else PosInf)
    else if isMax then Max(Best(isMax, scores[..|scores| - 1]), scores[|scores| - 1])
    else Min(Best(isMax, scores[..|scores| - 1]), scores[|scores| - 1])
  }

  /**
   * The maximum of the scores seen is at least each of them and is one of
   * them (or -Infinity when there are none); dually for the minimum.
   */
  lemma {:induction false} BestIsExtreme(isMax: bool, scores: seq<Score>)
    ensures forall i :: 0 <= i < |scores| ==>
      if isMax then Le(scores[i], Best(isMax, scores)) else Le(Best(isMax, scores), scores[i])
    ensures scores == [] ==> Best(isMax, scores) == (if isMax then NegInf else PosInf)
    ensures scores != [] ==> Best(isMax, scores) in scores
  {
    if scores != [] {
      var init := scores[..|scores| - 1];
      BestIsExtreme(isMax, init);
      forall i | 0 <= i < |scores| - 1
        ensures if isMax then Le(scores[i], Best(isMax, scores)) else Le(Best(isMax, scores), scores[i])
      {
        assert scores[i] == init[i];
      }
      if init != [] {
        assert Best(isMax, init) in scores by {
          var k :| 0 <= k < |init| && init[k] == Best(isMax, init);
          assert scores[k] == init[k];
        }
      }
    }
  }
}
