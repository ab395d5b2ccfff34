/**
 The entities the recommendation engine reads, as immutable values: the
 database rows it queries become a `Snapshot` taken when a request starts.
 */
module Domain {

  type ItemId = int
  type UserId = int

  datatype Option<T> = None | Some(value: T)

  /** One row of the ratings table: a user's score for an item (0 to 5). */
  datatype Rating = Rating(userId: UserId, itemId: ItemId, score: real)

  /** A catalog item: its id, its comma-separated tag string (nullable), and the scores of its ratings. */
  datatype Item = Item(id: ItemId, tags: Option<string>, ratingScores: seq<real>)

  /** One of the target user's ratings, seen through the relationship: the rated item's id and tag string. */
  datatype UserRating = UserRating(itemId: ItemId, itemTags: Option<string>)

  /** The target user: id, explicit preference tags as stored, and the user's ratings. */
  datatype User = User(id: UserId, preferences: seq<string>, ratings: seq<UserRating>)

  /**
   What the engine reads from the database: every rating row in query order,
   the catalog in listing order, and the items `get_item` can still resolve.
   */
  datatype Snapshot = Snapshot(ratings: seq<Rating>, catalog: seq<Item>, itemsById: map<ItemId, Item>)

  /** The strategy label attached to a recommendation: "collaborative", "content", "hybrid" or "popular". */
  datatype Strategy = Collaborative | Content | Hybrid | Popular

  /** A recommended item with its score and the strategy that produced it. */
  datatype Recommendation = Recommendation(item: Item, score: real, strategy: Strategy)

  /** The sort key of an (id, score) pair: its score. */
  function Score(p: (int, real)): real
  {
    p.1
  }

  /** The id of an (id, score) pair. */
  function IdOf(p: (int, real)): int
  {
    p.0
  }

  /** `any(r.item_id == id for r in user.ratings)`. */
  predicate RatedBy(user: User, id: ItemId)
  {
    exists k :: 0 <= k < |user.ratings| && user.ratings[k].itemId == id
  }

  /** The values `f` gives for the elements of `xs`, in order, leaving out the `None`s. */
  function FilterMap<A, B>(xs: seq<A>, f: A -> Option<B>): (r: seq<B>)
    ensures |r| <= |xs|
  {
    if |xs| == 0 then []
    else
      var prefix := FilterMap(xs[..|xs| - 1], f);
      match f(xs[|xs| - 1])
      case None => prefix
      case Some(b) => prefix + [b]
  }

  lemma {:induction false} FilterMapMembers<A, B>(xs: seq<A>, f: A -> Option<B>, b: B)
    ensures b in FilterMap(xs, f) <==> exists j :: 0 <= j < |xs| && f(xs[j]) == Some(b)
  {
    if |xs| > 0 {
      var n := |xs| - 1;
      var prefix := xs[..n];
      FilterMapMembers(prefix, f, b);
      if b in FilterMap(prefix, f) {
        var j :| 0 <= j < n && f(prefix[j]) == Some(b);
        assert prefix[j] == xs[j];
      }
      if j :| 0 <= j < n && f(xs[j]) == Some(b) {
        assert prefix[j] == xs[j];
      }
    }
  }

  /** Extending the input by one element extends the result by that element's value, if any. */
  lemma FilterMapStep<A, B>(xs: seq<A>, n: nat, f: A -> Option<B>)
    requires n < |xs|
    ensures FilterMap(xs[..n + 1], f) == FilterMap(xs[..n], f) + (match f(xs[n]) case None => [] case Some(b) => [b])
  {
    assert xs[..n + 1][..n] == xs[..n];
  }
}
