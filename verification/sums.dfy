/** Totals over per-hub integer vectors, and the stock bound. */
module Sums {

  /** The total of a vector of counts (the number of bikes parked, for a stock vector). */
  function Sum(s: seq<int>): int
  {
    if s == [] then 0 else s[0] + Sum(s[1..])
  }

  /** Every hub holds between 0 and `maxBikes` bikes. */
  predicate InBounds(s: seq<int>, maxBikes: int)
  {
    forall h :: 0 <= h < |s| ==> 0 <= s[h] <= maxBikes
  }

  /** Changing one slot by `d` changes the total by exactly `d`. */
  lemma {:induction false} SumUpdate(s: seq<int>, i: nat, d: int)
    requires i < |s|
    ensures Sum(s[i := s[i] + d]) == Sum(s) + d
  {
    if i > 0 {
      assert s[i := s[i] + d][1..] == s[1..][i - 1 := s[1..][i - 1] + d];
      SumUpdate(s[1..], i - 1, d);
    } else {
      assert s[i := s[i] + d][1..] == s[1..];
    }
  }

  /** A vector of `n` hubs each holding `c` bikes holds `n * c` bikes in all. */
  lemma {:induction false} SumConstant(n: nat, c: int)
    ensures Sum(seq(n, _ => c)) == n * c
  {
    if n > 0 {
      assert seq(n, _ => c)[1..] == seq(n - 1, _ => c);
      SumConstant(n - 1, c);
    }
  }
}
