/**
 The rating matrix: every rating observation folded into a dict of dicts,
 user id to (item id to score). Users appear in the order of their first
 observation, and a user's items in the order of their first observation for
 that user; a later observation of the same (user, item) pair overwrites the
 score in place.
 */
module Ratings {
  import opened Domain
  import opened PyDict

  /** One user's ratings: item id to score, in insertion order. */
  type RatingRow = Dict<ItemId, real>

  type Matrix = Dict<UserId, RatingRow>

  /** Every row is a well-formed dict and no row is empty (a row is created by its first score). */
  ghost predicate WellFormed(m: Matrix)
  {
    m.Valid() && forall u :: u in m.values ==> m.values[u].Valid() && !m.values[u].IsEmpty()
  }

  /** `ratings.get(user_id, {})`. */
  function Row(m: Matrix, u: UserId): RatingRow
  {
    GetOr(m, u, Empty())
  }

  /** `ratings_map[user][item] = score` on a `defaultdict(dict)`. */
  function Record(m: Matrix, r: Rating): Matrix
  {
    Set(m, r.userId, Set(Row(m, r.userId), r.itemId, r.score))
  }

  /** The matrix after recording the observations one after another. */
  function RatingMatrix(obs: seq<Rating>): (m: Matrix)
    ensures WellFormed(m)
  {
    if |obs| == 0 then Empty()
    else
      var prefix := RatingMatrix(obs[..|obs| - 1]);
      RecordWellFormed(prefix, obs[|obs| - 1]);
      Record(prefix, obs[|obs| - 1])
  }

  /** The score the matrix holds for a (user, item) pair, if any. */
  function ScoreOf(m: Matrix, u: UserId, i: ItemId): Option<real>
  {
    if u in m.values && i in m.values[u].values then Some(m.values[u].values[i]) else None
  }

  /** Reference definition: the score of the last observation of the pair, if there is one. */
  function LastScore(obs: seq<Rating>, u: UserId, i: ItemId): Option<real>
  {
    if |obs| == 0 then None
    else if obs[|obs| - 1].userId == u && obs[|obs| - 1].itemId == i then Some(obs[|obs| - 1].score)
    else LastScore(obs[..|obs| - 1], u, i)
  }

  lemma RowValid(m: Matrix, u: UserId)
    requires WellFormed(m)
    ensures Row(m, u).Valid()
    ensures Row(m, u).IsEmpty() <==> u !in m.values
  {
  }

  /** Recording an observation keeps the matrix well formed. */
  lemma RecordWellFormed(m: Matrix, r: Rating)
    requires WellFormed(m)
    ensures WellFormed(Record(m, r))
  {
    RowValid(m, r.userId);
  }

  /** Last write wins: the matrix holds exactly the latest score of every observed pair. */
  lemma {:induction false} MatrixHoldsLastScore(obs: seq<Rating>, u: UserId, i: ItemId)
    ensures ScoreOf(RatingMatrix(obs), u, i) == LastScore(obs, u, i)
  {
    if |obs| > 0 {
      MatrixHoldsLastScore(obs[..|obs| - 1], u, i);
    }
  }

  /** A pair has a last score exactly when some observation is of that pair. */
  lemma {:induction false} LastScoreFound(obs: seq<Rating>, u: UserId, i: ItemId)
    ensures LastScore(obs, u, i).Some? <==> exists k :: 0 <= k < |obs| && obs[k].userId == u && obs[k].itemId == i
  {
    if |obs| > 0 {
      var n := |obs| - 1;
      var prefix := obs[..n];
      LastScoreFound(prefix, u, i);
      if exists k :: 0 <= k < n && prefix[k].userId == u && prefix[k].itemId == i {
        var k :| 0 <= k < n && prefix[k].userId == u && prefix[k].itemId == i;
        assert obs[k] == prefix[k];
      }
      if exists k :: 0 <= k < |obs| && obs[k].userId == u && obs[k].itemId == i {
        var k :| 0 <= k < |obs| && obs[k].userId == u && obs[k].itemId == i;
        if k < n {
          assert prefix[k] == obs[k];
        }
      }
    }
  }

  /** An item is in a user's row exactly when some observation pairs them. */
  lemma ObservedExactlyInRow(obs: seq<Rating>, u: UserId, i: ItemId)
    ensures i in Row(RatingMatrix(obs), u).values <==>
      exists k :: 0 <= k < |obs| && obs[k].userId == u && obs[k].itemId == i
  {
    MatrixHoldsLastScore(obs, u, i);
    LastScoreFound(obs, u, i);
  }

  /** A user has a row exactly when some observation is theirs. */
  lemma {:induction false} MatrixUsers(obs: seq<Rating>, u: UserId)
    ensures u in RatingMatrix(obs).values <==> exists k :: 0 <= k < |obs| && obs[k].userId == u
  {
    if |obs| > 0 {
      var n := |obs| - 1;
      var prefix := obs[..n];
      var prev := RatingMatrix(prefix);
      assert RatingMatrix(obs) == Record(prev, obs[n]);
      assert u in Record(prev, obs[n]).values <==> u in prev.values || obs[n].userId == u;
      MatrixUsers(prefix, u);
      if exists k :: 0 <= k < n && prefix[k].userId == u {
        var k :| 0 <= k < n && prefix[k].userId == u;
        assert obs[k] == prefix[k];
      }
      if exists k :: 0 <= k < |obs| && obs[k].userId == u {
        var k :| 0 <= k < |obs| && obs[k].userId == u;
        if k < n {
          assert prefix[k] == obs[k];
        }
      }
    }
  }

  /** `get_all_ratings`: reads every rating row and records it in the matrix. */
  method GetAllRatings(obs: seq<Rating>) returns (m: Matrix)
    ensures m == RatingMatrix(obs)
    ensures WellFormed(m)
    ensures forall u, i :: ScoreOf(m, u, i) == LastScore(obs, u, i)
  {
    m := Empty();
    var n := 0;
    while n < |obs|
      invariant 0 <= n <= |obs|
      invariant m == RatingMatrix(obs[..n])
    {
      assert obs[..n + 1][..n] == obs[..n];
      m := Record(m, obs[n]);
      n := n + 1;
    }
    assert obs[..n] == obs;
    forall u, i ensures ScoreOf(m, u, i) == LastScore(obs, u, i) {
      MatrixHoldsLastScore(obs, u, i);
    }
  }
}
