/** The popularity fallback's score of an item: the mean of its ratings. */
module Popularity {
  import opened Domain
  import opened RealArith

  function Sum(s: seq<real>): real
  {
    if |s| == 0 then 0.0 else Sum(s[..|s| - 1]) + s[|s| - 1]
  }

  /** `_popularity_score`: the mean score of the item's ratings, 0.0 when it has none. */
  function PopularityScore(item: Item): (r: real)
    ensures |item.ratingScores| == 0 ==> r == 0.0
    ensures |item.ratingScores| > 0 ==> r * (|item.ratingScores| as real) == Sum(item.ratingScores)
  {
    if |item.ratingScores| == 0 then 0.0
    else Sum(item.ratingScores) / (|item.ratingScores| as real)
  }

  /** A sum of scores in [lo, hi] lies between |s|·lo and |s|·hi. */
  lemma {:induction false} SumBounds(s: seq<real>, lo: real, hi: real)
    requires forall k :: 0 <= k < |s| ==> lo <= s[k] <= hi
    ensures (|s| as real) * lo <= Sum(s) <= (|s| as real) * hi
  {
    if |s| > 0 {
      var n := |s| - 1;
      SumBounds(s[..n], lo, hi);
      assert (n as real) * lo + lo == (|s| as real) * lo;
      assert (n as real) * hi + hi == (|s| as real) * hi;
    }
  }

  /** The mean of scores that all lie in [lo, hi] lies in [lo, hi] too (so a 0-5 scale stays 0-5). */
  lemma MeanBounds(item: Item, lo: real, hi: real)
    requires |item.ratingScores| > 0
    requires forall k :: 0 <= k < |item.ratingScores| ==> lo <= item.ratingScores[k] <= hi
    ensures lo <= PopularityScore(item) <= hi
  {
    var s := item.ratingScores;
    var n := |s| as real;
    var r := PopularityScore(item);
    SumBounds(s, lo, hi);
    assert (r - lo) * n == Sum(s) - n * lo;
    NonNegativeFactor(r - lo, n, Sum(s) - n * lo);
    assert (hi - r) * n == n * hi - Sum(s);
    NonNegativeFactor(hi - r, n, n * hi - Sum(s));
  }

  /** An item whose ratings all carry the same score has that score as its popularity. */
  lemma ConstantScores(item: Item, v: real)
    requires |item.ratingScores| > 0
    requires forall k :: 0 <= k < |item.ratingScores| ==> item.ratingScores[k] == v
    ensures PopularityScore(item) == v
  {
    MeanBounds(item, v, v);
  }
}
