/**
 Rating vectors and the cosine similarity between two users.

 A user's vector lists the user's scores ordered by ascending item id and is
 scaled to unit Euclidean length. Two vectors are compared position by
 position up to the shorter length: position j of one user is the user's j-th
 smallest rated item, whatever item sits at position j of the other user.
 */
module Similarity {
  import opened Domain
  import opened PyDict
  import opened Ranking
  import opened RealArith
  import opened Ratings

  type Vector = seq<real>

  /** The defining property of the square root the Euclidean norm is taken with. */
  ghost predicate IsSqrt(sqrt: real -> real)
  {
    forall x :: 0.0 <= x ==> 0.0 <= sqrt(x) && sqrt(x) * sqrt(x) == x
  }

  function SumSquares(v: Vector): (r: real)
    ensures r >= 0.0
  {
    if |v| == 0 then 0.0 else v[0] * v[0] + SumSquares(v[1..])
  }

  /** `np.linalg.norm(v)`: the square root of the sum of squares. */
  function Norm(v: Vector, sqrt: real -> real): real
  {
    sqrt(SumSquares(v))
  }

  function Dot(a: Vector, b: Vector): real
    requires |a| == |b|
  {
    if |a| == 0 then 0.0 else a[0] * b[0] + Dot(a[1..], b[1..])
  }

  /** `v / n`, element by element. */
  function Scale(v: Vector, n: real): (r: Vector)
    requires n != 0.0
    ensures |r| == |v|
  {
    seq(|v|, j requires 0 <= j < |v| => v[j] / n)
  }

  lemma ScaleAt(v: Vector, n: real, j: nat)
    requires n != 0.0 && j < |v|
    ensures Scale(v, n)[j] * n == v[j]
  {
  }

  /** `v / norm if norm else v`. */
  function Normalize(v: Vector, sqrt: real -> real): (r: Vector)
    ensures |r| == |v|
  {
    var norm := Norm(v, sqrt);
    if norm != 0.0 then Scale(v, norm) else v
  }

  /** The key that makes the descending sort put smaller ids first. */
  function NegatedId(id: ItemId): real
  {
    -(id as real)
  }

  /** `sorted(ids)`: ascending. */
  function SortedIds(ids: seq<ItemId>): (r: seq<ItemId>)
    ensures |r| == |ids|
  {
    SortDesc(ids, NegatedId)
  }

  lemma SortedIdsAscending(ids: seq<ItemId>)
    ensures multiset(SortedIds(ids)) == multiset(ids)
    ensures forall i, j :: 0 <= i < j < |ids| ==> SortedIds(ids)[i] <= SortedIds(ids)[j]
  {
    SortDescPermutes(ids, NegatedId);
    SortDescOrdered(ids, NegatedId);
    var r := SortedIds(ids);
    forall i, j | 0 <= i < j < |ids| ensures r[i] <= r[j] {
      assert NegatedId(r[i]) >= NegatedId(r[j]);
    }
  }

  /** The user's scores, ordered by ascending item id, before normalisation. */
  function RawVector(row: RatingRow): (raw: Vector)
    requires row.Valid()
    ensures |raw| == |row.keys|
    ensures forall j :: 0 <= j < |raw| ==>
      SortedIds(row.keys)[j] in row.values && raw[j] == row.values[SortedIds(row.keys)[j]]
  {
    var ids := SortedIds(row.keys);
    SortedIdsAscending(row.keys);
    assert forall j :: 0 <= j < |ids| ==> ids[j] in row.values by {
      forall j | 0 <= j < |ids| ensures ids[j] in row.values {
        assert ids[j] in multiset(row.keys);
      }
    }
    seq(|ids|, j requires 0 <= j < |ids| => row.values[ids[j]])
  }

  /** `_vector_from_ratings`: the raw vector divided by its norm, unless the norm is zero. */
  function VectorFromRatings(row: RatingRow, sqrt: real -> real): (v: Vector)
    requires row.Valid()
    ensures |v| == |row.keys|
  {
    if |row.keys| == 0 then [] else Normalize(RawVector(row), sqrt)
  }

  /** `_cosine_similarity`: truncate both vectors to the shorter length, then dot product over the product of norms. */
  function Cosine(a: Vector, b: Vector, sqrt: real -> real): (r: real)
    ensures |a| == 0 || |b| == 0 ==> r == 0.0
    ensures var m := if |a| < |b| then |a| else |b|;
      Norm(a[..m], sqrt) * Norm(b[..m], sqrt) == 0.0 ==> r == 0.0
  {
    if |a| == 0 || |b| == 0 then 0.0
    else
      var m := if |a| < |b| then |a| else |b|;
      var numerator := Dot(a[..m], b[..m]);
      var denominator := Norm(a[..m], sqrt) * Norm(b[..m], sqrt);
      if denominator != 0.0 then numerator / denominator else 0.0
  }

  lemma {:induction false} DotSymmetric(a: Vector, b: Vector)
    requires |a| == |b|
    ensures Dot(a, b) == Dot(b, a)
  {
    if |a| > 0 {
      DotSymmetric(a[1..], b[1..]);
    }
  }

  /** Similarity does not depend on which user is the target. */
  lemma CosineSymmetric(a: Vector, b: Vector, sqrt: real -> real)
    ensures Cosine(a, b, sqrt) == Cosine(b, a, sqrt)
  {
    if |a| > 0 && |b| > 0 {
      var m := if |a| < |b| then |a| else |b|;
      DotSymmetric(a[..m], b[..m]);
    }
  }

  predicate AllZero(v: Vector)
  {
    forall j :: 0 <= j < |v| ==> v[j] == 0.0
  }

  lemma {:induction false} SumSquaresZero(v: Vector)
    ensures SumSquares(v) == 0.0 <==> AllZero(v)
  {
    if |v| > 0 {
      SumSquaresZero(v[1..]);
      var x, rest := v[0], SumSquares(v[1..]);
      assert SumSquares(v) == x * x + rest;
      assert AllZero(v) <==> x == 0.0 && AllZero(v[1..]) by {
        assert forall j :: 1 <= j < |v| ==> v[j] == v[1..][j - 1];
      }
      var sq := x * x;
      assert sq >= 0.0 && rest >= 0.0;
      if sq + rest == 0.0 {
        assert sq == 0.0;
        SquareZero(x);
      }
    }
  }

  lemma SqrtZero(sqrt: real -> real, x: real)
    requires IsSqrt(sqrt) && 0.0 <= x
    ensures sqrt(x) >= 0.0
    ensures sqrt(x) == 0.0 <==> x == 0.0
  {
    var s := sqrt(x);
    assert 0.0 <= s && s * s == x;
    if x == 0.0 {
      SquareZero(s);
    }
  }

  lemma SqrtOne(sqrt: real -> real)
    requires IsSqrt(sqrt)
    ensures sqrt(1.0) == 1.0
  {
    var q := sqrt(1.0);
    assert 0.0 <= q && q * q == 1.0;
    assert (q - 1.0) * (q + 1.0) == 0.0;
    ZeroFactor(q - 1.0, q + 1.0);
  }

  /** The norm is zero exactly for the all-zero vector. */
  lemma NormZero(v: Vector, sqrt: real -> real)
    requires IsSqrt(sqrt)
    ensures Norm(v, sqrt) >= 0.0
    ensures Norm(v, sqrt) == 0.0 <==> AllZero(v)
  {
    SumSquaresZero(v);
    SqrtZero(sqrt, SumSquares(v));
  }

  /** A truncated vector that is all zeros makes the similarity zero. */
  lemma CosineOfZeroPrefix(a: Vector, b: Vector, sqrt: real -> real)
    requires IsSqrt(sqrt)
    requires var m := if |a| < |b| then |a| else |b|; AllZero(a[..m]) || AllZero(b[..m])
    ensures Cosine(a, b, sqrt) == 0.0
  {
    var m := if |a| < |b| then |a| else |b|;
    NormZero(a[..m], sqrt);
    NormZero(b[..m], sqrt);
  }

  lemma {:induction false} SumSquaresScaled(v: Vector, n: real)
    requires n != 0.0
    ensures SumSquares(Scale(v, n)) * (n * n) == SumSquares(v)
  {
    if |v| > 0 {
      var w := Scale(v, n);
      assert w[1..] == Scale(v[1..], n);
      SumSquaresScaled(v[1..], n);
      ScaleAt(v, n, 0);
      assert SumSquares(w) == w[0] * w[0] + SumSquares(w[1..]);
      assert SumSquares(v) == v[0] * v[0] + SumSquares(v[1..]);
      ScaledSquareSum(w[0], v[0], n, SumSquares(w[1..]), SumSquares(v[1..]), SumSquares(w), SumSquares(v));
    }
  }

  /** Normalising a vector that is not all zeros gives a unit vector. */
  lemma NormalizeUnit(v: Vector, sqrt: real -> real)
    requires IsSqrt(sqrt) && !AllZero(v)
    ensures Norm(Normalize(v, sqrt), sqrt) == 1.0
  {
    var n := Norm(v, sqrt);
    NormZero(v, sqrt);
    var x := SumSquares(v);
    var nn := n * n;
    assert nn == x;
    assert nn != 0.0 by {
      if nn == 0.0 { SquareZero(n); }
    }
    SumSquaresScaled(v, n);
    var s := SumSquares(Scale(v, n));
    assert s * nn == x;
    assert (s - 1.0) * nn == 0.0;
    ZeroFactor(s - 1.0, nn);
    SqrtOne(sqrt);
  }

  /** `r` has the sign of `v` at every position. */
  ghost predicate SameSigns(r: Vector, v: Vector)
  {
    |r| == |v| && forall j :: 0 <= j < |v| ==> (r[j] > 0.0 <==> v[j] > 0.0) && (r[j] < 0.0 <==> v[j] < 0.0)
  }

  /** `r` is `v` up to a common factor: any two positions stand in the same ratio. */
  ghost predicate Proportional(r: Vector, v: Vector)
  {
    |r| == |v| && forall i, j :: 0 <= i < |v| && 0 <= j < |v| ==> r[i] * v[j] == r[j] * v[i]
  }

  lemma SameSign(x: real, n: real, y: real)
    requires n > 0.0 && x * n == y
    ensures (x > 0.0 <==> y > 0.0) && (x < 0.0 <==> y < 0.0)
  {
    if x > 0.0 { assert x * n > 0.0; }
    if x < 0.0 { assert (-x) * n > 0.0; }
    if x == 0.0 { assert x * n == 0.0; }
  }

  /** Dividing by a positive number keeps every sign. */
  lemma ScaleSameSigns(v: Vector, n: real)
    requires n > 0.0
    ensures SameSigns(Scale(v, n), v)
  {
    var r := Scale(v, n);
    forall j | 0 <= j < |v| ensures (r[j] > 0.0 <==> v[j] > 0.0) && (r[j] < 0.0 <==> v[j] < 0.0) {
      ScaleAt(v, n, j);
      SameSign(r[j], n, v[j]);
    }
  }

  /** Dividing by a common number keeps every ratio between positions. */
  lemma ScaleProportional(v: Vector, n: real)
    requires n != 0.0
    ensures Proportional(Scale(v, n), v)
  {
    var r := Scale(v, n);
    forall i, j | 0 <= i < |v| && 0 <= j < |v| ensures r[i] * v[j] == r[j] * v[i] {
      ScaleAt(v, n, i);
      ScaleAt(v, n, j);
      CrossRatio(r[i], r[j], v[i], v[j], n);
    }
  }

  /** Normalisation only rescales: it keeps every sign and every ratio between positions. */
  lemma NormalizeRescales(v: Vector, sqrt: real -> real)
    requires IsSqrt(sqrt)
    ensures SameSigns(Normalize(v, sqrt), v) && Proportional(Normalize(v, sqrt), v)
  {
    var n := Norm(v, sqrt);
    if n != 0.0 {
      assert n >= 0.0;
      ScaleSameSigns(v, n);
      ScaleProportional(v, n);
    }
  }

  /** Normalising gives a unit vector, unless every score is zero. */
  lemma UnitVector(row: RatingRow, sqrt: real -> real)
    requires IsSqrt(sqrt) && row.Valid()
    requires !AllZero(RawVector(row))
    ensures Norm(VectorFromRatings(row, sqrt), sqrt) == 1.0
  {
    NormalizeUnit(RawVector(row), sqrt);
  }

  /**
   Position j of a user's vector has the sign of the score of the user's j-th
   smallest item id, and every ratio between two positions is that of the scores.
   */
  lemma VectorIsRescaled(row: RatingRow, sqrt: real -> real)
    requires IsSqrt(sqrt) && row.Valid()
    ensures SameSigns(VectorFromRatings(row, sqrt), RawVector(row))
    ensures Proportional(VectorFromRatings(row, sqrt), RawVector(row))
  {
    if |row.keys| > 0 {
      NormalizeRescales(RawVector(row), sqrt);
    }
  }

  predicate AllPositive(v: Vector)
  {
    forall j :: 0 <= j < |v| ==> v[j] > 0.0
  }

  lemma {:induction false} DotPositive(a: Vector, b: Vector)
    requires |a| == |b| > 0 && AllPositive(a) && AllPositive(b)
    ensures Dot(a, b) > 0.0
  {
    if |a| > 1 {
      DotPositive(a[1..], b[1..]);
    } else {
      assert Dot(a[1..], b[1..]) == 0.0;
    }
    assert a[0] * b[0] > 0.0;
  }

  lemma VectorPositive(row: RatingRow, sqrt: real -> real)
    requires IsSqrt(sqrt) && row.Valid()
    requires forall k :: k in row.values ==> row.values[k] > 0.0
    ensures AllPositive(VectorFromRatings(row, sqrt))
  {
    var raw := RawVector(row);
    var ids := SortedIds(row.keys);
    forall j | 0 <= j < |raw| ensures raw[j] > 0.0 {
      var k := ids[j];
      assert k in row.values && raw[j] == row.values[k];
      assert row.values[k] > 0.0;
    }
    VectorIsRescaled(row, sqrt);
    var v := VectorFromRatings(row, sqrt);
    assert SameSigns(v, raw);
  }

  /** Cosine of two vectors with positive entries is positive. */
  lemma CosinePositive(va: Vector, vb: Vector, sqrt: real -> real)
    requires IsSqrt(sqrt) && |va| > 0 && |vb| > 0 && AllPositive(va) && AllPositive(vb)
    ensures Cosine(va, vb, sqrt) > 0.0
  {
    var m := if |va| < |vb| then |va| else |vb|;
    var ta, tb := va[..m], vb[..m];
    DotPositive(ta, tb);
    NormZero(ta, sqrt);
    NormZero(tb, sqrt);
    assert ta[0] > 0.0 && tb[0] > 0.0;
    var na, nb := Norm(ta, sqrt), Norm(tb, sqrt);
    assert na > 0.0 && nb > 0.0;
    assert na * nb > 0.0;
  }

  /**
   Any two users whose scores are all positive are neighbours, whichever items
   they rated: the comparison is by position, not by shared item.
   */
  lemma PositiveRatersAreSimilar(a: RatingRow, b: RatingRow, sqrt: real -> real)
    requires IsSqrt(sqrt) && a.Valid() && b.Valid()
    requires |a.keys| > 0 && |b.keys| > 0
    requires forall k :: k in a.values ==> a.values[k] > 0.0
    requires forall k :: k in b.values ==> b.values[k] > 0.0
    ensures Cosine(VectorFromRatings(a, sqrt), VectorFromRatings(b, sqrt), sqrt) > 0.0
  {
    VectorPositive(a, sqrt);
    VectorPositive(b, sqrt);
    CosinePositive(VectorFromRatings(a, sqrt), VectorFromRatings(b, sqrt), sqrt);
  }

  /** Two users with no rated item in common: one rated item 1, the other item 2; still positively similar. */
  lemma DisjointRatersAreSimilar(sqrt: real -> real)
    requires IsSqrt(sqrt)
    ensures var a := Dict([1], map[1 := 3.0]);
      var b := Dict([2], map[2 := 4.0]);
      a.values.Keys !! b.values.Keys && Cosine(VectorFromRatings(a, sqrt), VectorFromRatings(b, sqrt), sqrt) > 0.0
  {
    var a := Dict([1], map[1 := 3.0]);
    var b := Dict([2], map[2 := 4.0]);
    PositiveRatersAreSimilar(a, b, sqrt);
  }
}
