/**
 User-based collaborative filtering: the neighbours of the target user are the
 other users whose similarity to the target is strictly positive, and every
 item the target has not rated scores the similarity-weighted SUM of the
 neighbours' ratings of it.
 */
module CollabFilter {
  import opened Domain
  import opened PyDict
  import opened Ranking
  import opened Similarity
  import opened Ratings

  /** Item id to accumulated score, a `defaultdict(float)`. */
  type Ranked = Dict<ItemId, real>

  ghost predicate RowsValid(rows: seq<(UserId, RatingRow)>)
  {
    forall k :: 0 <= k < |rows| ==> rows[k].1.Valid()
  }

  /** The similarity of a user's row to the target vector. */
  function SimilarityTo(target: Vector, row: RatingRow, sqrt: real -> real): real
    requires row.Valid()
  {
    Cosine(target, VectorFromRatings(row, sqrt), sqrt)
  }

  /**
   The neighbours among `rows`, in their order: every other user with a
   non-empty row whose similarity to the target vector is strictly positive,
   paired with that similarity.
   */
  function Neighbours(rows: seq<(UserId, RatingRow)>, userId: UserId, target: Vector, sqrt: real -> real): (r: seq<(UserId, real)>)
    requires RowsValid(rows)
    ensures |r| <= |rows|
    ensures forall k :: 0 <= k < |r| ==> r[k].1 > 0.0 && r[k].0 != userId
  {
    if |rows| == 0 then []
    else
      var prefix := Neighbours(rows[..|rows| - 1], userId, target, sqrt);
      var other, row := rows[|rows| - 1].0, rows[|rows| - 1].1;
      if other == userId || row.IsEmpty() then prefix
      else
        var score := SimilarityTo(target, row, sqrt);
        if score > 0.0 then prefix + [(other, score)] else prefix
  }

  /** Row `k` of `rows` makes `p` a neighbour entry: another user, a non-empty row, a strictly positive similarity. */
  ghost predicate NeighbourAt(rows: seq<(UserId, RatingRow)>, k: int, userId: UserId, target: Vector, sqrt: real -> real, p: (UserId, real))
  {
    && 0 <= k < |rows| && rows[k].1.Valid()
    && rows[k].0 == p.0 && p.0 != userId && !rows[k].1.IsEmpty()
    && p.1 == SimilarityTo(target, rows[k].1, sqrt) && p.1 > 0.0
  }

  lemma PrefixRowsValid(rows: seq<(UserId, RatingRow)>, n: nat)
    requires RowsValid(rows) && n <= |rows|
    ensures RowsValid(rows[..n])
  {
    forall k | 0 <= k < n ensures rows[..n][k].1.Valid() {
      assert rows[..n][k] == rows[k];
    }
  }

  /** Every listed neighbour comes from a row that qualifies it. */
  lemma {:induction false} NeighboursSound(rows: seq<(UserId, RatingRow)>, userId: UserId, target: Vector, sqrt: real -> real, p: (UserId, real))
    requires RowsValid(rows) && p in Neighbours(rows, userId, target, sqrt)
    ensures exists k :: NeighbourAt(rows, k, userId, target, sqrt, p)
  {
    var n := |rows| - 1;
    var prefix := rows[..n];
    PrefixRowsValid(rows, n);
    if p in Neighbours(prefix, userId, target, sqrt) {
      NeighboursSound(prefix, userId, target, sqrt, p);
      var k :| NeighbourAt(prefix, k, userId, target, sqrt, p);
      assert prefix[k] == rows[k];
      assert NeighbourAt(rows, k, userId, target, sqrt, p);
    } else {
      assert NeighbourAt(rows, n, userId, target, sqrt, p);
    }
  }

  /** One more row either leaves the neighbour list alone or appends the entry it qualifies. */
  lemma NeighboursStep(rows: seq<(UserId, RatingRow)>, userId: UserId, target: Vector, sqrt: real -> real)
    requires RowsValid(rows) && |rows| > 0
    ensures RowsValid(rows[..|rows| - 1])
    ensures Neighbours(rows[..|rows| - 1], userId, target, sqrt) <= Neighbours(rows, userId, target, sqrt)
  {
    PrefixRowsValid(rows, |rows| - 1);
  }

  /** The last row, when it qualifies a neighbour, appends it. */
  lemma NeighboursLast(rows: seq<(UserId, RatingRow)>, k: int, userId: UserId, target: Vector, sqrt: real -> real, p: (UserId, real))
    requires RowsValid(rows) && k == |rows| - 1 && NeighbourAt(rows, k, userId, target, sqrt, p)
    ensures p in Neighbours(rows, userId, target, sqrt)
  {
    PrefixRowsValid(rows, k);
    assert Neighbours(rows, userId, target, sqrt) == Neighbours(rows[..k], userId, target, sqrt) + [p];
  }

  lemma NeighbourAtPrefix(rows: seq<(UserId, RatingRow)>, n: nat, k: int, userId: UserId, target: Vector, sqrt: real -> real, p: (UserId, real))
    requires k < n <= |rows| && NeighbourAt(rows, k, userId, target, sqrt, p)
    ensures NeighbourAt(rows[..n], k, userId, target, sqrt, p)
  {
    assert rows[..n][k] == rows[k];
  }

  /** Every row that qualifies a neighbour puts it in the list. */
  lemma {:induction false} NeighboursComplete(rows: seq<(UserId, RatingRow)>, k: int, userId: UserId, target: Vector, sqrt: real -> real, p: (UserId, real))
    requires RowsValid(rows) && NeighbourAt(rows, k, userId, target, sqrt, p)
    ensures p in Neighbours(rows, userId, target, sqrt)
  {
    var n := |rows| - 1;
    NeighboursStep(rows, userId, target, sqrt);
    if k < n {
      NeighbourAtPrefix(rows, n, k, userId, target, sqrt, p);
      NeighboursComplete(rows[..n], k, userId, target, sqrt, p);
    } else {
      NeighboursLast(rows, k, userId, target, sqrt, p);
    }
  }

  /**
   A neighbour is exactly another user with a non-empty row whose similarity to
   the target vector is strictly positive, paired with that similarity.
   */
  lemma NeighboursMembers(rows: seq<(UserId, RatingRow)>, userId: UserId, target: Vector, sqrt: real -> real, p: (UserId, real))
    requires RowsValid(rows)
    ensures p in Neighbours(rows, userId, target, sqrt) <==> exists k :: NeighbourAt(rows, k, userId, target, sqrt, p)
  {
    if p in Neighbours(rows, userId, target, sqrt) {
      NeighboursSound(rows, userId, target, sqrt, p);
    }
    if k :| NeighbourAt(rows, k, userId, target, sqrt, p) {
      NeighboursComplete(rows, k, userId, target, sqrt, p);
    }
  }

  /** `ranked[item_id] += x`: a missing key starts at 0.0 and goes to the end of the order. */
  function AddTo(d: Ranked, i: ItemId, x: real): (r: Ranked)
    ensures d.Valid() ==> r.Valid()
    ensures r.values == d.values[i := GetOr(d, i, 0.0) + x]
  {
    Set(d, i, GetOr(d, i, 0.0) + x)
  }

  /** `similarity * score`. */
  function Weighted(similarity: real, score: real): real
  {
    similarity * score
  }

  /** One neighbour's ratings added in, weighted by its similarity, skipping the items the target rated. */
  function AddRow(d: Ranked, entries: seq<(ItemId, real)>, similarity: real, target: RatingRow): (r: Ranked)
    ensures d.Valid() ==> r.Valid()
  {
    if |entries| == 0 then d
    else
      var prefix := AddRow(d, entries[..|entries| - 1], similarity, target);
      var itemId, score := entries[|entries| - 1].0, entries[|entries| - 1].1;
      if itemId in target.values then prefix else AddTo(prefix, itemId, Weighted(similarity, score))
  }

  /** Every neighbour's ratings added in, neighbour by neighbour. */
  function AddNeighbours(d: Ranked, sims: seq<(UserId, real)>, m: Matrix, target: RatingRow): (r: Ranked)
    requires WellFormed(m)
    ensures d.Valid() ==> r.Valid()
  {
    if |sims| == 0 then d
    else
      var other, similarity := sims[|sims| - 1].0, sims[|sims| - 1].1;
      AddRow(AddNeighbours(d, sims[..|sims| - 1], m, target), Items(Row(m, other)), similarity, target)
  }

  /** The ranking `collaborative_filtering` returns, for the matrix the ratings build. */
  function CollaborativeRanking(m: Matrix, userId: UserId, topK: int, sqrt: real -> real): (r: seq<(ItemId, real)>)
    requires WellFormed(m)
    ensures Row(m, userId).IsEmpty() ==> r == []
    ensures |NeighboursOf(m, userId, sqrt)| == 0 ==> r == []
  {
    var target := Row(m, userId);
    if target.IsEmpty() then []
    else
      MatrixRowsValid(m);
      var sims := Neighbours(Items(m), userId, VectorFromRatings(target, sqrt), sqrt);
      if |sims| == 0 then []
      else SliceTo(SortDesc(Items(AddNeighbours(Empty(), sims, m, target)), Score), topK)
  }

  /** Against the empty vector every similarity is 0.0, so no row is a neighbour. */
  lemma {:induction false} NoNeighboursOfEmptyVector(rows: seq<(UserId, RatingRow)>, userId: UserId, sqrt: real -> real)
    requires RowsValid(rows)
    ensures Neighbours(rows, userId, [], sqrt) == []
  {
    if |rows| > 0 {
      PrefixRowsValid(rows, |rows| - 1);
      NoNeighboursOfEmptyVector(rows[..|rows| - 1], userId, sqrt);
    }
  }

  /** A user without ratings has the empty vector, hence no neighbours. */
  lemma NoNeighboursWithoutRatings(m: Matrix, userId: UserId, sqrt: real -> real)
    requires WellFormed(m)
    ensures Row(m, userId).IsEmpty() ==> NeighboursOf(m, userId, sqrt) == []
  {
    MatrixRowsValid(m);
    NoNeighboursOfEmptyVector(Items(m), userId, sqrt);
  }

  /** The neighbours `collaborative_filtering` finds for a user of the matrix. */
  function NeighboursOf(m: Matrix, userId: UserId, sqrt: real -> real): (r: seq<(UserId, real)>)
    requires WellFormed(m)
  {
    MatrixRowsValid(m);
    Neighbours(Items(m), userId, VectorFromRatings(Row(m, userId), sqrt), sqrt)
  }

  lemma MatrixRowsValid(m: Matrix)
    requires WellFormed(m)
    ensures RowsValid(Items(m))
  {
    var rows := Items(m);
    forall k | 0 <= k < |rows| ensures rows[k].1.Valid() {
      var u := m.keys[k];
      assert u in m.values;
      assert rows[k].1 == m.values[u];
      assert m.values[u].Valid();
    }
  }

  /** Reference definition: the sum, over the neighbours that rated `i`, of similarity times rating. */
  function WeightedSum(sims: seq<(UserId, real)>, m: Matrix, i: ItemId): real
  {
    if |sims| == 0 then 0.0
    else
      var row := Row(m, sims[|sims| - 1].0);
      WeightedSum(sims[..|sims| - 1], m, i) + (if i in row.values then Weighted(sims[|sims| - 1].1, row.values[i]) else 0.0)
  }

  /** Some neighbour has rated `i`. */
  ghost predicate RatedByNeighbour(sims: seq<(UserId, real)>, m: Matrix, i: ItemId)
  {
    exists k :: 0 <= k < |sims| && i in Row(m, sims[k].0).values
  }

  /** Adding the first `n` ratings of a row adds the weighted rating of `i` once if it is among them and unrated by the target. */
  lemma {:induction false} AddRowEffect(d: Ranked, row: RatingRow, n: nat, similarity: real, target: RatingRow, i: ItemId)
    requires d.Valid() && row.Valid() && n <= |row.keys|
    ensures var r := AddRow(d, Items(row)[..n], similarity, target);
      var added := i !in target.values && i in row.keys[..n];
      && (i in r.values <==> i in d.values || added)
      && GetOr(r, i, 0.0) == GetOr(d, i, 0.0) + (if added then Weighted(similarity, row.values[i]) else 0.0)
  {
    if n > 0 {
      AddRowEffect(d, row, n - 1, similarity, target, i);
      var es := Items(row)[..n];
      assert es[..n - 1] == Items(row)[..n - 1];
      var k := row.keys[n - 1];
      assert es[n - 1] == (k, row.values[k]);
      DistinctPrefixStep(row.keys, n, i);
    }
  }

  /** One more key of a duplicate-free list: `i` is among the first `n` keys exactly when it is among the first `n - 1` or is the `n`-th, which is not among the first `n - 1`. */
  lemma DistinctPrefixStep<K>(keys: seq<K>, n: nat, i: K)
    requires Distinct(keys) && 0 < n <= |keys|
    ensures i in keys[..n] <==> i in keys[..n - 1] || i == keys[n - 1]
    ensures keys[n - 1] !in keys[..n - 1]
  {
    assert keys[..n] == keys[..n - 1] + [keys[n - 1]];
  }

  /** Adding a whole row adds the weighted rating of every item it holds that the target has not rated. */
  lemma AddWholeRow(d: Ranked, row: RatingRow, similarity: real, target: RatingRow, i: ItemId)
    requires d.Valid() && row.Valid()
    ensures var r := AddRow(d, Items(row), similarity, target);
      var added := i !in target.values && i in row.values;
      && (i in r.values <==> i in d.values || added)
      && GetOr(r, i, 0.0) == GetOr(d, i, 0.0) + (if added then Weighted(similarity, row.values[i]) else 0.0)
  {
    AddRowEffect(d, row, |row.keys|, similarity, target, i);
    assert Items(row)[..|row.keys|] == Items(row);
    assert row.keys[..|row.keys|] == row.keys;
  }

  /** The accumulated score of an item the target has not rated is its weighted sum over the neighbours. */
  lemma {:induction false} AddNeighboursEffect(d: Ranked, sims: seq<(UserId, real)>, m: Matrix, target: RatingRow, i: ItemId)
    requires WellFormed(m) && d.Valid()
    ensures var r := AddNeighbours(d, sims, m, target);
      && (i in r.values <==> i in d.values || (i !in target.values && RatedByNeighbour(sims, m, i)))
      && GetOr(r, i, 0.0) == GetOr(d, i, 0.0) + (if i !in target.values then WeightedSum(sims, m, i) else 0.0)
  {
    if |sims| > 0 {
      var prefix := sims[..|sims| - 1];
      var last := sims[|sims| - 1];
      AddNeighboursEffect(d, prefix, m, target, i);
      var before := AddNeighbours(d, prefix, m, target);
      RowValid(m, last.0);
      AddWholeRow(before, Row(m, last.0), last.1, target, i);
      RatedByNeighbourStep(sims, m, i);
    }
  }

  /** The last neighbour rated `i`, or one before it did. */
  lemma RatedByNeighbourStep(sims: seq<(UserId, real)>, m: Matrix, i: ItemId)
    requires |sims| > 0
    ensures RatedByNeighbour(sims, m, i) <==>
      RatedByNeighbour(sims[..|sims| - 1], m, i) || i in Row(m, sims[|sims| - 1].0).values
  {
    var prefix := sims[..|sims| - 1];
    if RatedByNeighbour(prefix, m, i) {
      var k :| 0 <= k < |prefix| && i in Row(m, prefix[k].0).values;
      assert sims[k] == prefix[k];
    }
    if RatedByNeighbour(sims, m, i) {
      var k :| 0 <= k < |sims| && i in Row(m, sims[k].0).values;
      if k < |prefix| {
        assert sims[k] == prefix[k];
      }
    }
  }

  /**
   Every entry of the collaborative ranking is an item the target has not
   rated, that some neighbour rated, scored with the similarity-weighted sum of
   the neighbours' ratings; the entries are distinct, in descending score order,
   and at most `topK` of them.
   */
  lemma CollaborativeScores(m: Matrix, userId: UserId, topK: int, sqrt: real -> real)
    requires WellFormed(m)
    ensures var r := CollaborativeRanking(m, userId, topK, sqrt);
      var sims := NeighboursOf(m, userId, sqrt);
      && IsSortedDesc(r, Score)
      && (0 <= topK ==> |r| <= topK)
      && DistinctBy(r, IdOf)
      && forall k :: 0 <= k < |r| ==>
        && r[k].0 !in Row(m, userId).values
        && RatedByNeighbour(sims, m, r[k].0)
        && r[k].1 == WeightedSum(sims, m, r[k].0)
  {
    var r := CollaborativeRanking(m, userId, topK, sqrt);
    var target := Row(m, userId);
    var sims := NeighboursOf(m, userId, sqrt);
    if !target.IsEmpty() && |sims| > 0 {
      var ranked := AddNeighbours(Empty(), sims, m, target);
      var items := Items(ranked);
      TopK(items, Score, topK);
      ItemsKeys(ranked);
      assert DistinctBy(items, IdOf) by {
        forall a, b | 0 <= a < b < |items| ensures IdOf(items[a]) != IdOf(items[b]) {
          assert Firsts(items)[a] != Firsts(items)[b];
        }
      }
      TopKDistinctBy(items, Score, topK, IdOf);
      forall k | 0 <= k < |r|
        ensures r[k].0 !in target.values && RatedByNeighbour(sims, m, r[k].0) && r[k].1 == WeightedSum(sims, m, r[k].0)
      {
        InSubMultiset(r, items, r[k]);
        var j :| 0 <= j < |items| && items[j] == r[k];
        var i := ranked.keys[j];
        AddNeighboursEffect(Empty(), sims, m, target, i);
      }
    }
  }

  /** An accumulated item missing from the capped ranking scores no higher than any kept entry, and the cap was reached. */
  lemma DroppedItem(ranked: Ranked, topK: int, i: ItemId)
    requires ranked.Valid() && 0 <= topK && i in ranked.values
    requires forall k :: 0 <= k < |SliceTo(SortDesc(Items(ranked), Score), topK)| ==> SliceTo(SortDesc(Items(ranked), Score), topK)[k].0 != i
    ensures |SliceTo(SortDesc(Items(ranked), Score), topK)| == topK
    ensures forall k :: 0 <= k < |SliceTo(SortDesc(Items(ranked), Score), topK)| ==>
      SliceTo(SortDesc(Items(ranked), Score), topK)[k].1 >= ranked.values[i]
  {
    var items := Items(ranked);
    var r := SliceTo(SortDesc(items, Score), topK);
    var j :| 0 <= j < |ranked.keys| && ranked.keys[j] == i;
    var x := items[j];
    assert x !in r;
    TopKDominates(items, Score, topK, x);
    forall k | 0 <= k < |r| ensures r[k].1 >= ranked.values[i] {
      assert r[k] in r;
    }
  }

  /**
   The cap only drops candidates that rank no higher than every kept entry, and
   it drops one only once `topK` entries are kept.
   */
  lemma CollaborativeDropsOnlyLower(m: Matrix, userId: UserId, topK: int, sqrt: real -> real, i: ItemId)
    requires WellFormed(m) && 0 <= topK
    requires i !in Row(m, userId).values && RatedByNeighbour(NeighboursOf(m, userId, sqrt), m, i)
    requires forall k :: 0 <= k < |CollaborativeRanking(m, userId, topK, sqrt)| ==> CollaborativeRanking(m, userId, topK, sqrt)[k].0 != i
    ensures |CollaborativeRanking(m, userId, topK, sqrt)| == topK
    ensures forall k :: 0 <= k < |CollaborativeRanking(m, userId, topK, sqrt)| ==>
      CollaborativeRanking(m, userId, topK, sqrt)[k].1 >= WeightedSum(NeighboursOf(m, userId, sqrt), m, i)
  {
    var target := Row(m, userId);
    var sims := NeighboursOf(m, userId, sqrt);
    NoNeighboursWithoutRatings(m, userId, sqrt);
    assert |sims| > 0;
    var ranked := AddNeighbours(Empty(), sims, m, target);
    AddNeighboursEffect(Empty(), sims, m, target, i);
    assert CollaborativeRanking(m, userId, topK, sqrt) == SliceTo(SortDesc(Items(ranked), Score), topK);
    DroppedItem(ranked, topK, i);
  }

  /** A user without a rating gets no collaborative recommendation. */
  lemma UnratedUserGetsNothing(obs: seq<Rating>, userId: UserId, topK: int, sqrt: real -> real)
    requires forall k :: 0 <= k < |obs| ==> obs[k].userId != userId
    ensures CollaborativeRanking(RatingMatrix(obs), userId, topK, sqrt) == []
  {
    MatrixUsers(obs, userId);
  }

  /** The first loop of `collaborative_filtering`: the similarity of every other non-empty user, kept when positive. */
  method FindNeighbours(rows: seq<(UserId, RatingRow)>, userId: UserId, targetVector: Vector, sqrt: real -> real)
    returns (sims: seq<(UserId, real)>)
    requires RowsValid(rows)
    ensures sims == Neighbours(rows, userId, targetVector, sqrt)
  {
    sims := [];
    var k := 0;
    while k < |rows|
      invariant 0 <= k <= |rows|
      invariant sims == Neighbours(rows[..k], userId, targetVector, sqrt)
    {
      assert rows[..k + 1][..k] == rows[..k];
      var other, otherRow := rows[k].0, rows[k].1;
      if other != userId && !otherRow.IsEmpty() {
        var score := Cosine(targetVector, VectorFromRatings(otherRow, sqrt), sqrt);
        if score > 0.0 {
          sims := sims + [(other, score)];
        }
      }
      k := k + 1;
    }
    assert rows[..k] == rows;
  }

  /** The inner loop of `collaborative_filtering`: one neighbour's ratings added into `ranked`. */
  method AddRatings(ranked: Ranked, entries: seq<(ItemId, real)>, similarity: real, target: RatingRow)
    returns (r: Ranked)
    ensures r == AddRow(ranked, entries, similarity, target)
  {
    r := ranked;
    var j := 0;
    while j < |entries|
      invariant 0 <= j <= |entries|
      invariant r == AddRow(ranked, entries[..j], similarity, target)
    {
      assert entries[..j + 1][..j] == entries[..j];
      assert entries[..j + 1][j] == entries[j];
      var itemId, score := entries[j].0, entries[j].1;
      if itemId !in target.values {
        r := AddTo(r, itemId, Weighted(similarity, score));
      }
      j := j + 1;
    }
    assert entries[..j] == entries;
  }

  /** The outer loop of the accumulation: every neighbour in turn. */
  method AccumulateScores(sims: seq<(UserId, real)>, m: Matrix, target: RatingRow) returns (ranked: Ranked)
    requires WellFormed(m)
    ensures ranked == AddNeighbours(Empty(), sims, m, target)
  {
    ranked := Empty();
    var s := 0;
    while s < |sims|
      invariant 0 <= s <= |sims|
      invariant ranked == AddNeighbours(Empty(), sims[..s], m, target)
    {
      assert sims[..s + 1][..s] == sims[..s];
      var other, similarity := sims[s].0, sims[s].1;
      ranked := AddRatings(ranked, Items(Row(m, other)), similarity, target);
      s := s + 1;
    }
    assert sims[..s] == sims;
  }

  /** `collaborative_filtering`. */
  method CollaborativeFiltering(obs: seq<Rating>, userId: UserId, topK: int, sqrt: real -> real) returns (r: seq<(ItemId, real)>)
    ensures r == CollaborativeRanking(RatingMatrix(obs), userId, topK, sqrt)
  {
    var m := GetAllRatings(obs);
    var target := Row(m, userId);
    if target.IsEmpty() {
      return [];
    }
    var targetVector := VectorFromRatings(target, sqrt);
    MatrixRowsValid(m);
    var sims := FindNeighbours(Items(m), userId, targetVector, sqrt);
    if |sims| == 0 {
      return [];
    }
    var ranked := AccumulateScores(sims, m, target);
    var normalized := Items(ranked);
    r := SliceTo(SortDesc(normalized, Score), topK);
  }
}
