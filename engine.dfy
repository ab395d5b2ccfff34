/**
 The hybrid merger: collaborative results seed an insertion-ordered dict,
 content results are added into it (an item found by both strategies gets the
 sum of its scores and the label "hybrid"), an empty dict is replaced
 wholesale by the popularity scores of every unrated catalog item, and the
 entries are sorted by score, capped at `topK` and resolved to catalog items,
 dropping the ids that no longer resolve.
 */
module Recommender {
  import opened Domain
  import opened PyDict
  import opened Ranking
  import opened Ratings
  import opened CollabFilter
  import opened ContentMatch
  import opened Popularity

  /** Item id to (score, strategy), in insertion order. */
  type Combined = Dict<ItemId, (real, Strategy)>

  /** The sort key of a combined entry: its score. */
  function EntryScore(e: (ItemId, (real, Strategy))): real
  {
    e.1.0
  }

  /** The sort key of a recommendation: its score. */
  function RecScore(rec: Recommendation): real
  {
    rec.score
  }

  /** Some entry of `s` has id `i`. */
  predicate HasId(s: seq<(ItemId, real)>, i: ItemId)
  {
    exists k :: 0 <= k < |s| && s[k].0 == i
  }

  /** The first loop of `hybrid`: every collaborative result under the label "collaborative". */
  function Seeded(coll: seq<(ItemId, real)>): (d: Combined)
    ensures d.Valid()
  {
    if |coll| == 0 then Empty()
    else Set(Seeded(coll[..|coll| - 1]), coll[|coll| - 1].0, (coll[|coll| - 1].1, Collaborative))
  }

  /**
   The second loop of `hybrid`: a content result already present adds its score
   and becomes "hybrid", any other is inserted as "content".
   */
  function MergeContent(d: Combined, cont: seq<(ItemId, real)>): (r: Combined)
    ensures d.Valid() ==> r.Valid()
  {
    if |cont| == 0 then d
    else
      var prev := MergeContent(d, cont[..|cont| - 1]);
      var itemId, score := cont[|cont| - 1].0, cont[|cont| - 1].1;
      if itemId in prev.values then Set(prev, itemId, (prev.values[itemId].0 + score, Strategy.Hybrid))
      else Set(prev, itemId, (score, Content))
  }

  /** The merged dict of the two result lists. */
  function Merged(coll: seq<(ItemId, real)>, cont: seq<(ItemId, real)>): (d: Combined)
    ensures d.Valid()
  {
    MergeContent(Seeded(coll), cont)
  }

  /** The popularity dict: every catalog item the user has not rated, with its mean rating, labelled "popular". */
  function PopularFallback(catalog: seq<Item>, user: User): (d: Combined)
    ensures d.Valid()
  {
    if |catalog| == 0 then Empty()
    else
      var prev := PopularFallback(catalog[..|catalog| - 1], user);
      var item := catalog[|catalog| - 1];
      if RatedBy(user, item.id) then prev else Set(prev, item.id, (PopularityScore(item), Popular))
  }

  /** The ranked entries turned into recommendations; an id `get_item` cannot resolve is dropped. */
  function Resolve(ranked: seq<(ItemId, (real, Strategy))>, itemsById: map<ItemId, Item>): (r: seq<Recommendation>)
    ensures |r| <= |ranked|
  {
    if |ranked| == 0 then []
    else
      var prev := Resolve(ranked[..|ranked| - 1], itemsById);
      var e := ranked[|ranked| - 1];
      if e.0 in itemsById then prev + [Recommendation(itemsById[e.0], e.1.0, e.1.1)] else prev
  }

  /** The dict `hybrid` ranks: the merged results, or the popularity dict when they are empty. */
  function CombinedOf(db: Snapshot, user: User, topK: int, sqrt: real -> real): (d: Combined)
    ensures d.Valid()
  {
    var merged := Merged(CollaborativeRanking(RatingMatrix(db.ratings), user.id, topK, sqrt), ContentRanking(db.catalog, user, topK));
    if merged.IsEmpty() then PopularFallback(db.catalog, user) else merged
  }

  /** The sorted and capped entries of the combined dict. */
  function RankedOf(db: Snapshot, user: User, topK: int, sqrt: real -> real): seq<(ItemId, (real, Strategy))>
  {
    SliceTo(SortDesc(Items(CombinedOf(db, user, topK, sqrt)), EntryScore), topK)
  }

  /** What `hybrid` and `build_recommendations` return. */
  function HybridRanking(db: Snapshot, user: User, topK: int, sqrt: real -> real): seq<Recommendation>
  {
    Resolve(RankedOf(db, user, topK, sqrt), db.itemsById)
  }

  /** The seed holds exactly the collaborative ids. */
  lemma {:induction false} SeedMembers(coll: seq<(ItemId, real)>, i: ItemId)
    ensures i in Seeded(coll).values <==> HasId(coll, i)
  {
    if |coll| > 0 {
      var n := |coll| - 1;
      var prefix := coll[..n];
      SeedMembers(prefix, i);
      if HasId(coll, i) && coll[n].0 != i {
        var k :| 0 <= k < |coll| && coll[k].0 == i;
        assert prefix[k].0 == i;
      }
      if HasId(prefix, i) {
        var k :| 0 <= k < n && prefix[k].0 == i;
        assert coll[k].0 == i;
      }
    }
  }

  /** The seed holds every collaborative result, labelled "collaborative". */
  lemma {:induction false} SeedEffect(coll: seq<(ItemId, real)>, i: ItemId)
    requires DistinctBy(coll, IdOf)
    ensures i in Seeded(coll).values <==> HasId(coll, i)
    ensures forall k :: 0 <= k < |coll| && coll[k].0 == i ==> Seeded(coll).values[i] == (coll[k].1, Collaborative)
  {
    if |coll| > 0 {
      var n := |coll| - 1;
      var prefix := coll[..n];
      assert forall k :: 0 <= k < n ==> prefix[k] == coll[k];
      SeedEffect(prefix, i);
      if HasId(coll, i) && coll[n].0 != i {
        var k :| 0 <= k < |coll| && coll[k].0 == i;
        assert prefix[k].0 == i;
      }
    }
  }

  lemma DistinctByPrefix(s: seq<(ItemId, real)>, n: nat)
    requires n <= |s| && DistinctBy(s, IdOf)
    ensures DistinctBy(s[..n], IdOf)
  {
    forall a, b | 0 <= a < b < n ensures IdOf(s[..n][a]) != IdOf(s[..n][b]) {
      assert s[..n][a] == s[a] && s[..n][b] == s[b];
    }
  }

  /** Merging content results into `d` adds exactly their ids. */
  lemma {:induction false} MergeMembers(d: Combined, cont: seq<(ItemId, real)>, i: ItemId)
    ensures i in MergeContent(d, cont).values <==> i in d.values || HasId(cont, i)
  {
    if |cont| > 0 {
      var n := |cont| - 1;
      var prefix := cont[..n];
      MergeMembers(d, prefix, i);
      if HasId(cont, i) && cont[n].0 != i {
        var k :| 0 <= k < |cont| && cont[k].0 == i;
        assert prefix[k].0 == i;
      }
      if HasId(prefix, i) {
        var k :| 0 <= k < n && prefix[k].0 == i;
        assert cont[k].0 == i;
      }
    }
  }

  /** Merging content results leaves the entries of other ids alone. */
  lemma {:induction false} MergeKeeps(d: Combined, cont: seq<(ItemId, real)>, i: ItemId)
    requires i in d.values && !HasId(cont, i)
    ensures i in MergeContent(d, cont).values
    ensures MergeContent(d, cont).values[i] == d.values[i]
  {
    MergeMembers(d, cont, i);
    if |cont| > 0 {
      var n := |cont| - 1;
      var prefix := cont[..n];
      MergeKeeps(d, prefix, i);
      MergeMembers(d, prefix, i);
    }
  }

  /** A merged content result sums its score into an entry already present and relabels it "hybrid", or enters as "content". */
  lemma {:induction false} MergeValue(d: Combined, cont: seq<(ItemId, real)>, k: nat)
    requires k < |cont| && DistinctBy(cont, IdOf)
    ensures cont[k].0 in MergeContent(d, cont).values
    ensures MergeContent(d, cont).values[cont[k].0] ==
      (if cont[k].0 in d.values then (d.values[cont[k].0].0 + cont[k].1, Strategy.Hybrid) else (cont[k].1, Content))
  {
    var n := |cont| - 1;
    var prefix := cont[..n];
    var i := cont[k].0;
    MergeMembers(d, cont, i);
    if k == n {
      assert !HasId(prefix, i) by {
        forall j | 0 <= j < n ensures prefix[j].0 != i {
          assert IdOf(cont[j]) != IdOf(cont[n]);
        }
      }
      MergeMembers(d, prefix, i);
      if i in d.values {
        MergeKeeps(d, prefix, i);
      }
    } else {
      DistinctByPrefix(cont, n);
      assert prefix[k] == cont[k];
      MergeValue(d, prefix, k);
      assert IdOf(cont[k]) != IdOf(cont[n]);
    }
  }

  /**
   The merge rules: an item in both lists scores s1 + s2 labelled "hybrid"; an
   item only in the collaborative list keeps its score labelled
   "collaborative"; one only in the content list keeps its score labelled
   "content"; no other item is present.
   */
  lemma MergeRules(coll: seq<(ItemId, real)>, cont: seq<(ItemId, real)>, i: ItemId)
    requires DistinctBy(coll, IdOf) && DistinctBy(cont, IdOf)
    ensures i in Merged(coll, cont).values <==> HasId(coll, i) || HasId(cont, i)
    ensures forall a, b :: 0 <= a < |coll| && 0 <= b < |cont| && coll[a].0 == i && cont[b].0 == i ==>
      Merged(coll, cont).values[i] == (coll[a].1 + cont[b].1, Strategy.Hybrid)
    ensures forall a :: 0 <= a < |coll| && coll[a].0 == i && !HasId(cont, i) ==>
      Merged(coll, cont).values[i] == (coll[a].1, Collaborative)
    ensures forall b :: 0 <= b < |cont| && cont[b].0 == i && !HasId(coll, i) ==>
      Merged(coll, cont).values[i] == (cont[b].1, Content)
  {
    SeedEffect(coll, i);
    MergeMembers(Seeded(coll), cont, i);
    MergeBothRule(coll, cont, i);
    MergeCollaborativeRule(coll, cont, i);
    MergeContentRule(coll, cont, i);
  }

  /** An item in both lists sums its scores as "hybrid". */
  lemma MergeBothRule(coll: seq<(ItemId, real)>, cont: seq<(ItemId, real)>, i: ItemId)
    requires DistinctBy(coll, IdOf) && DistinctBy(cont, IdOf)
    ensures forall a, b :: 0 <= a < |coll| && 0 <= b < |cont| && coll[a].0 == i && cont[b].0 == i ==>
      i in Merged(coll, cont).values && Merged(coll, cont).values[i] == (coll[a].1 + cont[b].1, Strategy.Hybrid)
  {
    var seed := Seeded(coll);
    MergeMembers(seed, cont, i);
    SeedEffect(coll, i);
    forall a, b | 0 <= a < |coll| && 0 <= b < |cont| && coll[a].0 == i && cont[b].0 == i
      ensures i in Merged(coll, cont).values && Merged(coll, cont).values[i] == (coll[a].1 + cont[b].1, Strategy.Hybrid)
    {
      MergeValue(seed, cont, b);
    }
  }

  /** An item only in the collaborative list keeps its score as "collaborative". */
  lemma MergeCollaborativeRule(coll: seq<(ItemId, real)>, cont: seq<(ItemId, real)>, i: ItemId)
    requires DistinctBy(coll, IdOf)
    ensures forall a :: 0 <= a < |coll| && coll[a].0 == i && !HasId(cont, i) ==>
      i in Merged(coll, cont).values && Merged(coll, cont).values[i] == (coll[a].1, Collaborative)
  {
    var seed := Seeded(coll);
    MergeMembers(seed, cont, i);
    SeedEffect(coll, i);
    forall a | 0 <= a < |coll| && coll[a].0 == i && !HasId(cont, i)
      ensures i in Merged(coll, cont).values && Merged(coll, cont).values[i] == (coll[a].1, Collaborative)
    {
      MergeKeeps(seed, cont, i);
    }
  }

  /** An item only in the content list keeps its score as "content". */
  lemma MergeContentRule(coll: seq<(ItemId, real)>, cont: seq<(ItemId, real)>, i: ItemId)
    requires DistinctBy(cont, IdOf)
    ensures forall b :: 0 <= b < |cont| && cont[b].0 == i && !HasId(coll, i) ==>
      i in Merged(coll, cont).values && Merged(coll, cont).values[i] == (cont[b].1, Content)
  {
    var seed := Seeded(coll);
    MergeMembers(seed, cont, i);
    SeedMembers(coll, i);
    forall b | 0 <= b < |cont| && cont[b].0 == i && !HasId(coll, i)
      ensures i in Merged(coll, cont).values && Merged(coll, cont).values[i] == (cont[b].1, Content)
    {
      MergeValue(seed, cont, b);
    }
  }

  /** The popularity fallback is taken exactly when both result lists are empty. */
  lemma FallbackExactlyWhenBothEmpty(coll: seq<(ItemId, real)>, cont: seq<(ItemId, real)>)
    ensures Merged(coll, cont).IsEmpty() <==> |coll| == 0 && |cont| == 0
  {
    var d := Merged(coll, cont);
    if |coll| > 0 {
      SeedMembers(coll, coll[0].0);
      MergeMembers(Seeded(coll), cont, coll[0].0);
      assert d.keys != [];
    } else if |cont| > 0 {
      MergeMembers(Seeded(coll), cont, cont[0].0);
      assert d.keys != [];
    }
  }

  /** No entry of the dict is labelled "popular". */
  ghost predicate NonePopular(d: Combined)
  {
    forall i :: i in d.values ==> d.values[i].1 != Popular
  }

  /** The merge never produces the label "popular". */
  lemma {:induction false} MergedNonePopular(coll: seq<(ItemId, real)>, cont: seq<(ItemId, real)>)
    ensures NonePopular(Merged(coll, cont))
  {
    SeedNonePopular(coll);
    MergeNonePopular(Seeded(coll), cont);
  }

  lemma {:induction false} SeedNonePopular(coll: seq<(ItemId, real)>)
    ensures NonePopular(Seeded(coll))
  {
    if |coll| > 0 {
      SeedNonePopular(coll[..|coll| - 1]);
    }
  }

  lemma {:induction false} MergeNonePopular(d: Combined, cont: seq<(ItemId, real)>)
    requires NonePopular(d)
    ensures NonePopular(MergeContent(d, cont))
  {
    if |cont| > 0 {
      MergeNonePopular(d, cont[..|cont| - 1]);
    }
  }

  /** Every entry of the popularity dict is labelled "popular". */
  lemma {:induction false} FallbackAllPopular(catalog: seq<Item>, user: User)
    ensures forall i :: i in PopularFallback(catalog, user).values ==> PopularFallback(catalog, user).values[i].1 == Popular
  {
    if |catalog| > 0 {
      FallbackAllPopular(catalog[..|catalog| - 1], user);
    }
  }

  /** The popularity dict holds exactly the unrated catalog ids. */
  lemma {:induction false} PopularMembers(catalog: seq<Item>, user: User, i: ItemId)
    ensures i in PopularFallback(catalog, user).values <==>
      !RatedBy(user, i) && exists j :: 0 <= j < |catalog| && catalog[j].id == i
  {
    if |catalog| > 0 {
      var n := |catalog| - 1;
      var prefix := catalog[..n];
      PopularMembers(prefix, user, i);
      if (exists j :: 0 <= j < |catalog| && catalog[j].id == i) && catalog[n].id != i {
        var j :| 0 <= j < |catalog| && catalog[j].id == i;
        assert prefix[j].id == i;
      }
      if exists j :: 0 <= j < n && prefix[j].id == i {
        var j :| 0 <= j < n && prefix[j].id == i;
        assert catalog[j].id == i;
      }
    }
  }

  /** With distinct catalog ids, each unrated item's popularity entry is its mean rating, labelled "popular". */
  lemma {:induction false} PopularEffect(catalog: seq<Item>, user: User, j: nat)
    requires j < |catalog| && !RatedBy(user, catalog[j].id)
    requires forall a, b :: 0 <= a < b < |catalog| ==> catalog[a].id != catalog[b].id
    ensures catalog[j].id in PopularFallback(catalog, user).values
    ensures PopularFallback(catalog, user).values[catalog[j].id] == (PopularityScore(catalog[j]), Popular)
  {
    var n := |catalog| - 1;
    var prefix := catalog[..n];
    PopularMembers(catalog, user, catalog[j].id);
    if j < n {
      assert prefix[j] == catalog[j];
      PopularEffect(prefix, user, j);
    }
  }

  /** A recommendation comes from a ranked entry whose id resolves, with that entry's score and label. */
  lemma {:induction false} ResolveMembers(ranked: seq<(ItemId, (real, Strategy))>, itemsById: map<ItemId, Item>, rec: Recommendation)
    ensures rec in Resolve(ranked, itemsById) <==>
      exists k :: 0 <= k < |ranked| && ranked[k].0 in itemsById &&
        rec == Recommendation(itemsById[ranked[k].0], ranked[k].1.0, ranked[k].1.1)
  {
    if |ranked| > 0 {
      var n := |ranked| - 1;
      var prefix := ranked[..n];
      assert forall k :: 0 <= k < n ==> prefix[k] == ranked[k];
      ResolveMembers(prefix, itemsById, rec);
    }
  }

  /** When every id resolves, nothing is dropped and the order is kept. */
  lemma {:induction false} ResolveAll(ranked: seq<(ItemId, (real, Strategy))>, itemsById: map<ItemId, Item>)
    requires forall k :: 0 <= k < |ranked| ==> ranked[k].0 in itemsById
    ensures |Resolve(ranked, itemsById)| == |ranked|
    ensures forall k :: 0 <= k < |ranked| ==>
      Resolve(ranked, itemsById)[k] == Recommendation(itemsById[ranked[k].0], ranked[k].1.0, ranked[k].1.1)
  {
    if |ranked| > 0 {
      var n := |ranked| - 1;
      var prefix := ranked[..n];
      assert forall k :: 0 <= k < n ==> prefix[k] == ranked[k];
      ResolveAll(prefix, itemsById);
    }
  }

  /** Dropping unresolved ids keeps the descending order. */
  lemma {:induction false} ResolveSorted(ranked: seq<(ItemId, (real, Strategy))>, itemsById: map<ItemId, Item>)
    requires IsSortedDesc(ranked, EntryScore)
    ensures IsSortedDesc(Resolve(ranked, itemsById), RecScore)
  {
    if |ranked| > 0 {
      var n := |ranked| - 1;
      var prefix := ranked[..n];
      assert IsSortedDesc(prefix, EntryScore);
      ResolveSorted(prefix, itemsById);
      var prev := Resolve(prefix, itemsById);
      var e := ranked[n];
      if e.0 in itemsById {
        forall k | 0 <= k < |prev| ensures prev[k].score >= e.1.0 {
          ResolveMembers(prefix, itemsById, prev[k]);
          var j :| 0 <= j < |prefix| && prefix[j].0 in itemsById &&
            prev[k] == Recommendation(itemsById[prefix[j].0], prefix[j].1.0, prefix[j].1.1);
          assert EntryScore(ranked[j]) >= EntryScore(ranked[n]);
        }
      }
    }
  }

  /** Resolving works entry by entry: the survivors keep their relative order. */
  lemma {:induction false} ResolveAppend(a: seq<(ItemId, (real, Strategy))>, b: seq<(ItemId, (real, Strategy))>, itemsById: map<ItemId, Item>)
    ensures Resolve(a + b, itemsById) == Resolve(a, itemsById) + Resolve(b, itemsById)
  {
    if |b| > 0 {
      var n := |b| - 1;
      assert (a + b)[..|a + b| - 1] == a + b[..n];
      assert (a + b)[|a + b| - 1] == b[n];
      ResolveAppend(a, b[..n], itemsById);
    } else {
      assert a + b == a;
    }
  }

  /** `rec` is the resolved item of an entry of `d`, with that entry's score and label. */
  ghost predicate ResolvedFrom(rec: Recommendation, d: Combined, itemsById: map<ItemId, Item>)
  {
    exists i :: i in d.values && i in itemsById && rec == Recommendation(itemsById[i], d.values[i].0, d.values[i].1)
  }

  /**
   Ranking a combined dict: the result is in descending score order, at most
   `topK` long, and each recommendation is the resolved item of an entry of the
   dict with that entry's score and label.
   */
  lemma RankOutput(d: Combined, topK: int, itemsById: map<ItemId, Item>)
    requires d.Valid()
    ensures IsSortedDesc(Resolve(SliceTo(SortDesc(Items(d), EntryScore), topK), itemsById), RecScore)
    ensures 0 <= topK ==> |Resolve(SliceTo(SortDesc(Items(d), EntryScore), topK), itemsById)| <= topK
    ensures var r := Resolve(SliceTo(SortDesc(Items(d), EntryScore), topK), itemsById);
      forall k :: 0 <= k < |r| ==> ResolvedFrom(r[k], d, itemsById)
  {
    var ranked := SliceTo(SortDesc(Items(d), EntryScore), topK);
    var r := Resolve(ranked, itemsById);
    TopK(Items(d), EntryScore, topK);
    ResolveSorted(ranked, itemsById);
    forall k | 0 <= k < |r|
      ensures ResolvedFrom(r[k], d, itemsById)
    {
      ResolveMembers(ranked, itemsById, r[k]);
      var j :| 0 <= j < |ranked| && ranked[j].0 in itemsById &&
        r[k] == Recommendation(itemsById[ranked[j].0], ranked[j].1.0, ranked[j].1.1);
      InSubMultiset(ranked, Items(d), ranked[j]);
      var m :| 0 <= m < |Items(d)| && Items(d)[m] == ranked[j];
      var i := d.keys[m];
      assert ranked[j] == (i, d.values[i]);
      assert i in d.values && i in itemsById && r[k] == Recommendation(itemsById[i], d.values[i].0, d.values[i].1);
      assert ResolvedFrom(r[k], d, itemsById);
    }
  }

  /**
   Ranking a combined dict drops a resolvable entry only when the cut is full
   and every kept entry scores at least as much.
   */
  lemma RankDropsOnlyLower(d: Combined, topK: int, itemsById: map<ItemId, Item>, i: ItemId)
    requires d.Valid() && 0 <= topK && i in d.values && i in itemsById
    requires Recommendation(itemsById[i], d.values[i].0, d.values[i].1) !in
      Resolve(SliceTo(SortDesc(Items(d), EntryScore), topK), itemsById)
    ensures |SliceTo(SortDesc(Items(d), EntryScore), topK)| == topK
    ensures var r := Resolve(SliceTo(SortDesc(Items(d), EntryScore), topK), itemsById);
      forall k :: 0 <= k < |r| ==> r[k].score >= d.values[i].0
  {
    var items := Items(d);
    var ranked := SliceTo(SortDesc(items, EntryScore), topK);
    var r := Resolve(ranked, itemsById);
    var j :| 0 <= j < |d.keys| && d.keys[j] == i;
    var x := items[j];
    assert x == (i, d.values[i]);
    ResolveMembers(ranked, itemsById, Recommendation(itemsById[i], d.values[i].0, d.values[i].1));
    forall q | 0 <= q < |ranked| ensures ranked[q] != x {
    }
    TopKDominates(items, EntryScore, topK, x);
    forall k | 0 <= k < |r| ensures r[k].score >= d.values[i].0 {
      ResolveMembers(ranked, itemsById, r[k]);
      var q :| 0 <= q < |ranked| && ranked[q].0 in itemsById &&
        r[k] == Recommendation(itemsById[ranked[q].0], ranked[q].1.0, ranked[q].1.1);
      assert ranked[q] in ranked;
    }
  }

  /** The combined dict is the popularity dict, all "popular", exactly when both result lists were empty. */
  lemma CombinedLabels(db: Snapshot, user: User, topK: int, sqrt: real -> real)
    ensures var coll := CollaborativeRanking(RatingMatrix(db.ratings), user.id, topK, sqrt);
      var cont := ContentRanking(db.catalog, user, topK);
      var d := CombinedOf(db, user, topK, sqrt);
      forall i :: i in d.values ==> (d.values[i].1 == Popular <==> |coll| == 0 && |cont| == 0)
  {
    var coll := CollaborativeRanking(RatingMatrix(db.ratings), user.id, topK, sqrt);
    var cont := ContentRanking(db.catalog, user, topK);
    FallbackExactlyWhenBothEmpty(coll, cont);
    MergedNonePopular(coll, cont);
    FallbackAllPopular(db.catalog, user);
  }

  /**
   The final list is in descending score order, at most `topK` long, and made
   of resolved items; every entry is labelled "popular" when both result lists
   were empty, and none is otherwise.
   */
  lemma HybridOutput(db: Snapshot, user: User, topK: int, sqrt: real -> real)
    ensures var r := HybridRanking(db, user, topK, sqrt);
      && IsSortedDesc(r, RecScore)
      && (0 <= topK ==> |r| <= topK)
      && (forall k :: 0 <= k < |r| ==> r[k].item in db.itemsById.Values)
    ensures var r := HybridRanking(db, user, topK, sqrt);
      var coll := CollaborativeRanking(RatingMatrix(db.ratings), user.id, topK, sqrt);
      var cont := ContentRanking(db.catalog, user, topK);
      forall k :: 0 <= k < |r| ==> (r[k].strategy == Popular <==> |coll| == 0 && |cont| == 0)
  {
    var d := CombinedOf(db, user, topK, sqrt);
    var r := HybridRanking(db, user, topK, sqrt);
    assert r == Resolve(SliceTo(SortDesc(Items(d), EntryScore), topK), db.itemsById);
    RankOutput(d, topK, db.itemsById);
    CombinedLabels(db, user, topK, sqrt);
    var coll := CollaborativeRanking(RatingMatrix(db.ratings), user.id, topK, sqrt);
    var cont := ContentRanking(db.catalog, user, topK);
    forall k | 0 <= k < |r|
      ensures r[k].item in db.itemsById.Values
      ensures r[k].strategy == Popular <==> |coll| == 0 && |cont| == 0
    {
      assert ResolvedFrom(r[k], d, db.itemsById);
      var i := FromId(r[k], d, db.itemsById);
      assert db.itemsById[i] in db.itemsById.Values;
      assert r[k].strategy == d.values[i].1;
    }
  }

  /**
   `hybrid` leaves out a resolvable entry of the combined dict only when
   `topK` entries were kept and every recommendation scores at least as much.
   */
  lemma HybridDropsOnlyLower(db: Snapshot, user: User, topK: int, sqrt: real -> real, i: ItemId)
    requires 0 <= topK && i in CombinedOf(db, user, topK, sqrt).values && i in db.itemsById
    requires Recommendation(db.itemsById[i], CombinedOf(db, user, topK, sqrt).values[i].0, CombinedOf(db, user, topK, sqrt).values[i].1) !in
      HybridRanking(db, user, topK, sqrt)
    ensures |RankedOf(db, user, topK, sqrt)| == topK
    ensures var r := HybridRanking(db, user, topK, sqrt);
      forall k :: 0 <= k < |r| ==> r[k].score >= CombinedOf(db, user, topK, sqrt).values[i].0
  {
    var d := CombinedOf(db, user, topK, sqrt);
    assert HybridRanking(db, user, topK, sqrt) == Resolve(SliceTo(SortDesc(Items(d), EntryScore), topK), db.itemsById);
    RankDropsOnlyLower(d, topK, db.itemsById, i);
  }

  /** The id of the entry a resolved recommendation comes from. */
  ghost function FromId(rec: Recommendation, d: Combined, itemsById: map<ItemId, Item>): (i: ItemId)
    requires ResolvedFrom(rec, d, itemsById)
    ensures i in d.values && i in itemsById && rec == Recommendation(itemsById[i], d.values[i].0, d.values[i].1)
  {
    var i :| i in d.values && i in itemsById && rec == Recommendation(itemsById[i], d.values[i].0, d.values[i].1); i
  }

  /**
   No recommendation is an item the user has rated, provided the user's
   ratings are rows of the snapshot's rating table and every id resolves to the
   item with that id.
   */
  lemma HybridExcludesRated(db: Snapshot, user: User, topK: int, sqrt: real -> real)
    requires forall i :: RatedBy(user, i) ==>
      exists k :: 0 <= k < |db.ratings| && db.ratings[k].userId == user.id && db.ratings[k].itemId == i
    requires forall i :: i in db.itemsById ==> db.itemsById[i].id == i
    ensures var r := HybridRanking(db, user, topK, sqrt);
      forall k :: 0 <= k < |r| ==> !RatedBy(user, r[k].item.id)
  {
    var m := RatingMatrix(db.ratings);
    var coll := CollaborativeRanking(m, user.id, topK, sqrt);
    var cont := ContentRanking(db.catalog, user, topK);
    var d := CombinedOf(db, user, topK, sqrt);
    var r := HybridRanking(db, user, topK, sqrt);
    assert r == Resolve(SliceTo(SortDesc(Items(d), EntryScore), topK), db.itemsById);
    RankOutput(d, topK, db.itemsById);
    CollaborativeScores(m, user.id, topK, sqrt);
    ContentScores(db.catalog, user, topK);
    forall k | 0 <= k < |r| ensures !RatedBy(user, r[k].item.id) {
      var i := FromId(r[k], d, db.itemsById);
      assert r[k].item.id == i;
      if Merged(coll, cont).IsEmpty() {
        PopularMembers(db.catalog, user, i);
      } else {
        SeedMembers(coll, i);
        MergeMembers(Seeded(coll), cont, i);
        if HasId(coll, i) {
          var a :| 0 <= a < |coll| && coll[a].0 == i;
          ObservedExactlyInRow(db.ratings, user.id, i);
        } else {
          var b :| 0 <= b < |cont| && cont[b].0 == i;
        }
      }
    }
  }

  /** Nothing to rank: with no ratings and an empty catalog, every user gets an empty list. */
  lemma EmptySnapshotRecommendsNothing(db: Snapshot, user: User, topK: int, sqrt: real -> real)
    requires db.ratings == [] && db.catalog == []
    ensures HybridRanking(db, user, topK, sqrt) == []
  {
    assert RatingMatrix(db.ratings).IsEmpty();
    assert ContentRanking(db.catalog, user, topK) == [];
  }

  /** The first loop of `hybrid`: seed with the collaborative results. */
  method SeedResults(coll: seq<(ItemId, real)>) returns (combined: Combined)
    ensures combined == Seeded(coll)
  {
    combined := Empty();
    var n := 0;
    while n < |coll|
      invariant 0 <= n <= |coll|
      invariant combined == Seeded(coll[..n])
    {
      assert coll[..n + 1][..n] == coll[..n];
      combined := Set(combined, coll[n].0, (coll[n].1, Collaborative));
      n := n + 1;
    }
    assert coll[..n] == coll;
  }

  /** The second loop of `hybrid`: merge the content results into the seeded dict. */
  method MergeResults(seeded: Combined, cont: seq<(ItemId, real)>) returns (combined: Combined)
    ensures combined == MergeContent(seeded, cont)
  {
    combined := seeded;
    var n := 0;
    while n < |cont|
      invariant 0 <= n <= |cont|
      invariant combined == MergeContent(seeded, cont[..n])
    {
      assert cont[..n + 1][..n] == cont[..n];
      var itemId, score := cont[n].0, cont[n].1;
      if itemId in combined.values {
        var existing := combined.values[itemId];
        combined := Set(combined, itemId, (existing.0 + score, Strategy.Hybrid));
      } else {
        combined := Set(combined, itemId, (score, Content));
      }
      n := n + 1;
    }
    assert cont[..n] == cont;
  }

  /** `hybrid`. */
  method Hybrid(db: Snapshot, user: User, topK: int, sqrt: real -> real) returns (r: seq<Recommendation>)
    ensures r == HybridRanking(db, user, topK, sqrt)
  {
    var collaborative := CollaborativeFiltering(db.ratings, user.id, topK, sqrt);
    var contentBased := ContentBased(db.catalog, user, topK);
    var combined := SeedResults(collaborative);
    combined := MergeResults(combined, contentBased);
    if combined.IsEmpty() {
      combined := PopularFallback(db.catalog, user);
    }
    assert combined == CombinedOf(db, user, topK, sqrt);
    var ranked := SliceTo(SortDesc(Items(combined), EntryScore), topK);
    r := Resolve(ranked, db.itemsById);
  }

  /** `build_recommendations`: the engine's hybrid ranking for the user. */
  method BuildRecommendations(db: Snapshot, user: User, topK: int, sqrt: real -> real) returns (r: seq<Recommendation>)
    ensures r == HybridRanking(db, user, topK, sqrt)
    ensures 0 <= topK ==> |r| <= topK
  {
    r := Hybrid(db, user, topK, sqrt);
    HybridOutput(db, user, topK, sqrt);
  }
}
