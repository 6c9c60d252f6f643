/** Half-open time intervals `[start, start + length)`, the overlap test used for conflicts. */
module Intervals {

  /** `[s1, s1 + d1)` and `[s2, s2 + d2)` share an instant. */
  predicate Overlaps(s1: int, d1: int, s2: int, d2: int)
  {
    s1 < s2 + d2 && s2 < s1 + d1
  }

  /** Overlap is a property of the pair, not of the order in which it is asked. */
  lemma OverlapSymmetric(s1: int, d1: int, s2: int, d2: int)
    ensures Overlaps(s1, d1, s2, d2) <==> Overlaps(s2, d2, s1, d1)
  {
  }

  /** An interval that ends where the other starts does not overlap it. */
  lemma TouchingDoNotOverlap(s1: int, d1: int, d2: int)
    ensures !Overlaps(s1, d1, s1 + d1, d2)
    ensures !Overlaps(s1 + d1, d2, s1, d1)
  {
  }

  /** The instant `t` lies in `[s, s + d)`. */
  predicate Within(t: int, s: int, d: int)
  {
    s <= t < s + d
  }

  /** Two non-empty intervals overlap exactly when some instant lies in both. */
  lemma OverlapWitness(s1: int, d1: int, s2: int, d2: int)
    requires d1 > 0 && d2 > 0
    ensures Overlaps(s1, d1, s2, d2) <==> exists t :: Within(t, s1, d1) && Within(t, s2, d2)
  {
    if Overlaps(s1, d1, s2, d2) {
      var t := if s1 < s2 then s2 else s1;
      assert Within(t, s1, d1) && Within(t, s2, d2);
    }
  }

  /** Lengthening an interval keeps every overlap it had. */
  lemma OverlapMonotone(s1: int, d1: int, s2: int, d2: int, d2': int)
    requires d2 <= d2'
    ensures Overlaps(s1, d1, s2, d2) ==> Overlaps(s1, d1, s2, d2')
  {
  }
}
