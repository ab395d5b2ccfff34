/**
 Content-based scoring: an unrated catalog item scores the number of the
 user's tags it carries divided by the number of the user's tags (the share of
 the user's interests it meets, not a Jaccard index).
 */
module ContentMatch {
  import opened Domain
  import opened Ranking
  import opened Tags
  import opened RealArith

  /** `len(user_tags & item_tags)`. */
  function Overlap(userTags: set<string>, item: Item): nat
  {
    |userTags * Tokenize(item.tags)|
  }

  /** Whether `item` is scored: it shares a tag with the user and the user has not rated it. */
  predicate Eligible(userTags: set<string>, user: User, item: Item)
  {
    Overlap(userTags, item) > 0 && !RatedBy(user, item.id)
  }

  /** `float(overlap) / len(user_tags)`; the scorer never divides by an empty tag set. */
  function Ratio(overlap: nat, size: nat): real
  {
    if size == 0 then 0.0 else (overlap as real) / (size as real)
  }

  /** The scored pair of an item: its id and the share of the user's tags it carries. */
  function Entry(userTags: set<string>, item: Item): (ItemId, real)
  {
    (item.id, Ratio(Overlap(userTags, item), |userTags|))
  }

  /** The scored pair of an eligible item, nothing for any other. */
  function Scorer(user: User, userTags: set<string>): Item -> Option<(ItemId, real)>
  {
    item => if Eligible(userTags, user, item) then Some(Entry(userTags, item)) else None
  }

  /** `scored_items` before the sort: the eligible items of `items`, in catalog order, with their scores. */
  function Candidates(items: seq<Item>, user: User, userTags: set<string>): (r: seq<(ItemId, real)>)
    ensures |r| <= |items|
  {
    FilterMap(items, Scorer(user, userTags))
  }

  /** The ranking `content_based` returns for a catalog and a user. */
  function ContentRanking(catalog: seq<Item>, user: User, topK: int): (r: seq<(ItemId, real)>)
    ensures |UserTagSet(user)| == 0 ==> r == []
  {
    var userTags := UserTagSet(user);
    if |userTags| == 0 then [] else SliceTo(SortDesc(Candidates(catalog, user, userTags), Score), topK)
  }

  /** A candidate is exactly an eligible catalog item paired with its score. */
  lemma CandidatesMembers(items: seq<Item>, user: User, userTags: set<string>, p: (ItemId, real))
    ensures p in Candidates(items, user, userTags) <==>
      exists j :: 0 <= j < |items| && Eligible(userTags, user, items[j]) && p == Entry(userTags, items[j])
  {
    FilterMapMembers(items, Scorer(user, userTags), p);
  }

  /** A value keeps the key of the element it came from, so distinct keys in give distinct keys out. */
  lemma {:induction false} FilterMapDistinct<A, B, K>(xs: seq<A>, f: A -> Option<B>, keyA: A -> K, keyB: B -> K)
    requires DistinctBy(xs, keyA)
    requires forall a :: f(a).Some? ==> keyB(f(a).value) == keyA(a)
    ensures DistinctBy(FilterMap(xs, f), keyB)
  {
    if |xs| > 0 {
      var n := |xs| - 1;
      var prefix := xs[..n];
      assert DistinctBy(prefix, keyA) by {
        forall a, b | 0 <= a < b < n ensures keyA(prefix[a]) != keyA(prefix[b]) {
          assert prefix[a] == xs[a] && prefix[b] == xs[b];
        }
      }
      FilterMapDistinct(prefix, f, keyA, keyB);
      var c := FilterMap(prefix, f);
      if f(xs[n]).Some? {
        forall k | 0 <= k < |c| ensures keyB(c[k]) != keyA(xs[n]) {
          FilterMapMembers(prefix, f, c[k]);
          var j :| 0 <= j < n && f(prefix[j]) == Some(c[k]);
          assert prefix[j] == xs[j];
        }
      }
    }
  }

  /** The id of a catalog item. */
  function ItemKey(item: Item): ItemId
  {
    item.id
  }

  /** Candidates keep the catalog's id order, so distinct catalog ids give distinct candidates. */
  lemma CandidatesDistinct(items: seq<Item>, user: User, userTags: set<string>)
    requires forall a, b :: 0 <= a < b < |items| ==> items[a].id != items[b].id
    ensures DistinctBy(Candidates(items, user, userTags), IdOf)
  {
    assert DistinctBy(items, ItemKey);
    FilterMapDistinct(items, Scorer(user, userTags), ItemKey, IdOf);
  }

  lemma {:induction false} SubsetSize<T>(a: set<T>, b: set<T>)
    requires a <= b
    ensures |a| <= |b|
  {
    if a != {} {
      var x :| x in a;
      SubsetSize(a - {x}, b - {x});
    }
  }

  lemma RatioBounds(overlap: nat, size: nat)
    requires 0 < overlap <= size
    ensures 0.0 < Ratio(overlap, size) <= 1.0
  {
    var o, n := overlap as real, size as real;
    var q := o / n;
    assert q * n == o;
    PositiveFactor(q, n, o);
    assert (1.0 - q) * n == n - o;
    NonNegativeFactor(1.0 - q, n, n - o);
  }

  /** The score of an item with a shared tag lies in (0, 1]. */
  lemma ScoreInUnitInterval(userTags: set<string>, item: Item)
    requires |userTags| > 0 && Overlap(userTags, item) > 0
    ensures 0.0 < Ratio(Overlap(userTags, item), |userTags|) <= 1.0
  {
    SubsetSize(userTags * Tokenize(item.tags), userTags);
    RatioBounds(Overlap(userTags, item), |userTags|);
  }

  /**
   Every entry of the content ranking is a catalog item the user has not rated
   that shares at least one of the user's tags, scored overlap / |user tags|,
   which lies in (0, 1]; the entries are in descending score order and at most
   `topK` of them, and distinct when the catalog ids are.
   */
  lemma ContentScores(catalog: seq<Item>, user: User, topK: int)
    ensures var r := ContentRanking(catalog, user, topK);
      var userTags := UserTagSet(user);
      && IsSortedDesc(r, Score)
      && (0 <= topK ==> |r| <= topK)
      && ((forall a, b :: 0 <= a < b < |catalog| ==> catalog[a].id != catalog[b].id) ==> DistinctBy(r, IdOf))
      && forall k :: 0 <= k < |r| ==>
        && !RatedBy(user, r[k].0)
        && 0.0 < r[k].1 <= 1.0
        && (exists j :: (0 <= j < |catalog| && catalog[j].id == r[k].0 && Overlap(userTags, catalog[j]) > 0 &&
              r[k].1 == Ratio(Overlap(userTags, catalog[j]), |userTags|)))
  {
    var userTags := UserTagSet(user);
    if |userTags| > 0 {
      var c := Candidates(catalog, user, userTags);
      var r := SliceTo(SortDesc(c, Score), topK);
      TopK(c, Score, topK);
      if forall a, b :: 0 <= a < b < |catalog| ==> catalog[a].id != catalog[b].id {
        CandidatesDistinct(catalog, user, userTags);
        TopKDistinctBy(c, Score, topK, IdOf);
      }
      forall k | 0 <= k < |r|
        ensures && !RatedBy(user, r[k].0)
          && 0.0 < r[k].1 <= 1.0
          && (exists j :: (0 <= j < |catalog| && catalog[j].id == r[k].0 && Overlap(userTags, catalog[j]) > 0 &&
                r[k].1 == Ratio(Overlap(userTags, catalog[j]), |userTags|)))
      {
        InSubMultiset(r, c, r[k]);
        CandidatesMembers(catalog, user, userTags, r[k]);
        var j :| 0 <= j < |catalog| && Eligible(userTags, user, catalog[j]) && r[k] == Entry(userTags, catalog[j]);
        ScoreInUnitInterval(userTags, catalog[j]);
      }
    }
  }

  /**
   The cap only drops eligible items that score no higher than every kept
   entry, and it drops one only once `topK` entries are kept.
   */
  lemma ContentDropsOnlyLower(catalog: seq<Item>, user: User, topK: int, j: nat)
    requires 0 <= topK && j < |catalog|
    requires Eligible(UserTagSet(user), user, catalog[j])
    requires Entry(UserTagSet(user), catalog[j]) !in ContentRanking(catalog, user, topK)
    ensures |ContentRanking(catalog, user, topK)| == topK
    ensures forall k :: 0 <= k < |ContentRanking(catalog, user, topK)| ==>
      ContentRanking(catalog, user, topK)[k].1 >= Entry(UserTagSet(user), catalog[j]).1
  {
    var userTags := UserTagSet(user);
    var x := Entry(userTags, catalog[j]);
    assert |userTags| > 0 by {
      var t :| t in userTags * Tokenize(catalog[j].tags);
    }
    var c := Candidates(catalog, user, userTags);
    CandidatesMembers(catalog, user, userTags, x);
    TopKDominates(c, Score, topK, x);
    var r := ContentRanking(catalog, user, topK);
    forall k | 0 <= k < |r| ensures r[k].1 >= x.1 {
      assert r[k] in r;
    }
  }

  /** A user with no tag at all gets no content recommendation, whatever the catalog. */
  lemma NoTagsNoContent(catalog: seq<Item>, user: User, topK: int)
    requires |user.preferences| == 0
    requires forall k :: 0 <= k < |user.ratings| ==> Tokenize(user.ratings[k].itemTags) == {}
    ensures ContentRanking(catalog, user, topK) == []
  {
    if UserTagSet(user) != {} {
      var t :| t in UserTagSet(user);
      UserTagSetMembers(user, t);
    }
  }

  /** The body of the loop of `content_based` for one item: its scored pair when it is eligible. */
  method ScoreItem(item: Item, user: User, userTags: set<string>) returns (o: Option<(ItemId, real)>)
    ensures o == Scorer(user, userTags)(item)
  {
    var itemTags := Tokenize(item.tags);
    var overlap := |userTags * itemTags|;
    if overlap > 0 && !RatedBy(user, item.id) {
      o := Some((item.id, (overlap as real) / (|userTags| as real)));
    } else {
      o := None;
    }
  }

  /** The loop of `content_based`: every eligible catalog item with its score, in catalog order. */
  method ScoreItems(catalog: seq<Item>, user: User, userTags: set<string>) returns (scoredItems: seq<(ItemId, real)>)
    ensures scoredItems == Candidates(catalog, user, userTags)
  {
    scoredItems := [];
    var n := 0;
    while n < |catalog|
      invariant 0 <= n <= |catalog|
      invariant scoredItems == FilterMap(catalog[..n], Scorer(user, userTags))
    {
      FilterMapStep(catalog, n, Scorer(user, userTags));
      var o := ScoreItem(catalog[n], user, userTags);
      if o.Some? {
        scoredItems := scoredItems + [o.value];
      }
      n := n + 1;
    }
    assert catalog[..n] == catalog;
  }

  /** `content_based`. */
  method ContentBased(catalog: seq<Item>, user: User, topK: int) returns (r: seq<(ItemId, real)>)
    ensures r == ContentRanking(catalog, user, topK)
  {
    var userTags := CollectUserTags(user);
    if |userTags| == 0 {
      return [];
    }
    var scoredItems := ScoreItems(catalog, user, userTags);
    r := SliceTo(SortDesc(scoredItems, Score), topK);
  }
}
