# Hybrid recommender engine, modelled in Dafny

This project models the recommendation engine of the item-recommendation
backend (`backend/app/recommender.py`) and proves what it computes. The engine
gives a user a ranked list of catalog items (books, movies, products). It
blends three strategies (collaborative filtering, content-based matching and
a popularity fallback), all built on a rating matrix:

- **Rating matrix** (`get_all_ratings`): every rating row folded into
  user → (item → score). Module `Ratings`.
- **Collaborative filtering** (`collaborative_filtering`):
  - Each user's ratings become a vector: the scores in ascending item-id
    order, scaled to unit length (`_vector_from_ratings`).
  - Two vectors are compared by cosine similarity after truncating both to
    the shorter length (`_cosine_similarity`).
  - The neighbours are the other users with strictly positive similarity.
  - Every item the target has not rated scores the similarity-weighted SUM
    of the neighbours' ratings.
  - Modules `Similarity` and `CollabFilter`.
- **Content-based matching** (`content_based`):
  - The user's tag set is the explicit preference tags, as stored, united
    with the tokens of every rated item's tag string (`_collect_user_tags`,
    `_tokenize_tags`).
  - An unrated item that shares a tag scores |shared| / |user tags|.
  - Modules `Tags` and `ContentMatch`.
- **Hybrid merge** (`hybrid`, `build_recommendations`):
  - Collaborative results seed an insertion-ordered dict. Content results
    add into it: an item found by both scores the sum and is labelled
    "hybrid".
  - An empty dict is replaced by every unrated catalog item scored by its
    mean rating (`_popularity_score`) and labelled "popular".
  - The entries are sorted by score (stable, descending) and cut to `top_k`.
    Ids that no longer resolve to an item are dropped.
  - Modules `Popularity` and `Recommender`.

Shared building blocks:

- `PyDict` models an insertion-ordered Python `dict`.
- `Ranking` models the stable descending sort and the slice `[:k]`.
- `Domain` holds the entities.
- `RealArith` holds small facts about products of reals.

The database reads become a `Snapshot` value:

- the rating rows in query order;
- the catalog in listing order;
- a map standing for `crud.get_item`.

The square root under `np.linalg.norm` is a parameter `sqrt`. Lemmas that
need its meaning require `IsSqrt(sqrt)`: non-negative, and it squares back.

Each loop of the source is a method whose loop invariant ties its state to a
recursive function over the prefix already processed. Each method's
`ensures` equates its result with that function. The lemmas then state what
the functions mean.

Two behaviours of the code are modelled as written:

- **Positional alignment.** Vectors are compared by position, not by shared
  item. So two users with no item in common can be neighbours
  (`Similarity.DisjointRatersAreSimilar`).
- **Raw preference tags.** Preference tags are neither lower-cased nor
  trimmed. So a preference such as " Fiction" never matches an item token
  (`Tags.RawPreferenceNeverMatches`).

## Model

| member | source | states |
|---|---|---|
| `Ratings.GetAllRatings` | backend/app/recommender.py:26-31 | the loop builds the rating matrix of the rows; it is well formed (every row valid and non-empty) and holds, for every (user, item), the score of the last row for that pair |
| `Ratings.RatingMatrix` | backend/app/recommender.py:27-30 | the folded matrix is well formed: every user row is a valid dict and none is empty |
| `Ratings.MatrixHoldsLastScore` | backend/app/recommender.py:29-30 | last write wins: the matrix score of a pair is the score of its last observation, none when it was never observed |
| `Ratings.MatrixUsers` | backend/app/recommender.py:27-30 | a user has a row exactly when some rating row is theirs |
| `Ratings.ObservedExactlyInRow` | backend/app/recommender.py:29-30 | an item is in a user's row exactly when some rating row pairs the two |
| `Similarity.SortedIdsAscending` | backend/app/recommender.py:108 | `sorted(ratings.keys())` is an ascending permutation of the keys |
| `Similarity.RawVector` | backend/app/recommender.py:108-109 | position j of the raw vector is the score of the user's j-th smallest item id |
| `Similarity.VectorFromRatings` | backend/app/recommender.py:105-111 | the user vector has one entry per rated item and none for a user without ratings; `VectorIsRescaled` and `UnitVector` state its signs, ratios and norm |
| `Similarity.Norm` | backend/app/recommender.py:110 | `np.linalg.norm`: the square root of the sum of squares; `NormZero` states when it is zero |
| `Similarity.Normalize` | backend/app/recommender.py:110-111 | `vector / norm if norm else vector` keeps the length; `NormalizeRescales` and `NormalizeUnit` state what it keeps and that it gives norm 1 |
| `Similarity.NormalizeRescales` | backend/app/recommender.py:110-111 | dividing by the norm keeps the sign of every entry and the ratio between any two entries |
| `Similarity.NormalizeUnit` | backend/app/recommender.py:110-111 | a vector that is not all zeros, divided by its norm, has norm 1 |
| `Similarity.VectorIsRescaled` | backend/app/recommender.py:105-111 | the user vector has the sign of the raw score at every position and the same ratio between any two positions |
| `Similarity.UnitVector` | backend/app/recommender.py:110-111 | the user vector has norm 1 unless every score is zero |
| `Similarity.NormZero` | backend/app/recommender.py:110 | the norm is non-negative and zero exactly for the all-zero vector |
| `Similarity.Cosine` | backend/app/recommender.py:114-122 | similarity is 0 when either vector is empty or the product of the truncated norms is 0 |
| `Similarity.CosineSymmetric` | backend/app/recommender.py:114-122 | similarity does not depend on the order of its arguments |
| `Similarity.CosineOfZeroPrefix` | backend/app/recommender.py:117-122 | an all-zero truncated vector makes the similarity 0 |
| `Similarity.CosinePositive` | backend/app/recommender.py:117-122 | two non-empty vectors with positive entries have positive similarity |
| `Similarity.PositiveRatersAreSimilar` | backend/app/recommender.py:105-122 | any two users whose scores are all positive are similar, whichever items they rated |
| `Similarity.DisjointRatersAreSimilar` | backend/app/recommender.py:108-119 | a user who rated only item 1 and one who rated only item 2 still have positive similarity (positional alignment) |
| `Tags.Tokenize` | backend/app/recommender.py:133-136 | no tokens for a missing or empty string; every token is non-empty, trimmed, lower-case and comma-free; `TokenizeMembers` states which tokens there are |
| `Tags.Tokens` | backend/app/recommender.py:136 | every token of the set comprehension over comma-free pieces is non-empty, trimmed, lower-case and comma-free |
| `Tags.TokenizeMembers` | backend/app/recommender.py:133-136 | a string is a token of a non-empty tag string exactly when some comma-separated piece, stripped, is non-blank and lower-cases to it |
| `Tags.Token` | backend/app/recommender.py:136 | a piece yields nothing when it is blank after `strip()`, otherwise its stripped, lower-cased form |
| `Tags.Split` | backend/app/recommender.py:136 | `split(",")` gives at least one piece and no piece holds a comma; `JoinSplit` and `SplitJoin` make it the inverse of joining |
| `Tags.Strip` | backend/app/recommender.py:136 | `strip()` leaves no whitespace at either end; `StripIsMiddle` states that only surrounding whitespace goes |
| `Tags.TokenizeJoin` | backend/app/recommender.py:136 | tokenizing a comma-join of normalised tokens gives back exactly those tokens |
| `Tags.TokenCount` | backend/app/recommender.py:136 | at most one token per comma-separated piece |
| `Tags.JoinSplit` | backend/app/recommender.py:136 | `split(",")` loses nothing: joining the pieces gives back the string |
| `Tags.SplitJoin` | backend/app/recommender.py:136 | splitting a join of comma-free pieces gives back the pieces |
| `Tags.StripIsMiddle` | backend/app/recommender.py:136 | `strip()` keeps a middle part of the string and removes only whitespace around it |
| `Tags.Lower` | backend/app/recommender.py:136 | `lower()` keeps the length and leaves no upper-case letter |
| `Tags.UserTagSetMembers` | backend/app/recommender.py:124-130 | a user tag is a preference tag as stored or a token of some rated item's tags, and conversely |
| `Tags.UserTagSet` | backend/app/recommender.py:124-130 | the preference tags united with the tokens of every rated item; `UserTagSetMembers` states membership in both directions |
| `Tags.CollectUserTags` | backend/app/recommender.py:124-130 | the loop returns exactly the preference tags united with the tokens of every rated item |
| `Tags.RawPreferenceNeverMatches` | backend/app/recommender.py:125-128 | a preference tag not in normal form is in the user's tag set yet equals no item token |
| `Tags.PreferenceTagsAreRaw` | backend/app/recommender.py:125 | the tag set of a user whose only preference is " Fiction" is {" Fiction"}, untrimmed |
| `CollabFilter.Neighbours` | backend/app/recommender.py:39-47 | every neighbour is another user, with strictly positive similarity |
| `CollabFilter.NeighboursMembers` | backend/app/recommender.py:41-47 | an entry is a neighbour exactly when it is another user with a non-empty row and strictly positive similarity, paired with that similarity |
| `CollabFilter.NoNeighboursOfEmptyVector` | backend/app/recommender.py:41-47 | against the empty vector no row is a neighbour, since every similarity is 0.0 |
| `CollabFilter.NoNeighboursWithoutRatings` | backend/app/recommender.py:35-47 | a user with no ratings has no neighbours, so the early return of lines 36-37 is not needed for the later steps to give [] |
| `CollabFilter.FindNeighbours` | backend/app/recommender.py:39-47 | the loop collects exactly the neighbour list |
| `CollabFilter.AddTo` | backend/app/recommender.py:56 | `ranked[i] += x` on a defaultdict: a missing key starts at 0.0 |
| `CollabFilter.AddRow` | backend/app/recommender.py:53-56 | adding one neighbour's ratings keeps the accumulator a valid dict; `AddWholeRow` states the effect on each item |
| `CollabFilter.AddWholeRow` | backend/app/recommender.py:53-56 | one neighbour's row adds its weighted rating of every item it holds that the target has not rated, and changes no other item |
| `CollabFilter.AddNeighbours` | backend/app/recommender.py:51-56 | adding every neighbour's row keeps the accumulator a valid dict; `AddNeighboursEffect` states the effect on each item |
| `CollabFilter.WeightedSum` | backend/app/recommender.py:51-56 | reference definition: the sum, over the neighbours that rated an item, of similarity times rating |
| `CollabFilter.AddNeighboursEffect` | backend/app/recommender.py:51-56 | an item unrated by the target gains the weighted sum of the neighbours' ratings; a rated item is never added |
| `CollabFilter.AddRatings` | backend/app/recommender.py:53-56 | the inner loop adds one neighbour's weighted ratings, skipping the target's items |
| `CollabFilter.AccumulateScores` | backend/app/recommender.py:51-56 | the nested loops accumulate the weighted scores of all neighbours |
| `CollabFilter.CollaborativeRanking` | backend/app/recommender.py:33-60 | no result when the target has no ratings or has no neighbour |
| `CollabFilter.CollaborativeScores` | backend/app/recommender.py:51-60 | the result is sorted descending, at most `top_k` long, has distinct ids; each item is unrated by the target, rated by a neighbour, and scores the weighted sum |
| `CollabFilter.CollaborativeDropsOnlyLower` | backend/app/recommender.py:58-60 | a candidate left out of the result means the list is full and every kept score is at least the candidate's |
| `CollabFilter.UnratedUserGetsNothing` | backend/app/recommender.py:35-37 | a user with no rating row gets no collaborative result |
| `CollabFilter.CollaborativeFiltering` | backend/app/recommender.py:33-60 | the method returns the collaborative ranking of the matrix its ratings build |
| `ContentMatch.CandidatesMembers` | backend/app/recommender.py:68-73 | a scored item is exactly an unrated catalog item with tag overlap, paired with overlap divided by the size of the user tag set |
| `ContentMatch.Candidates` | backend/app/recommender.py:68-73 | the scored items before the sort, at most one per catalog item; `CandidatesMembers` states which |
| `ContentMatch.CandidatesDistinct` | backend/app/recommender.py:69-73 | with distinct catalog ids the scored items have distinct ids |
| `ContentMatch.ScoreInUnitInterval` | backend/app/recommender.py:71-73 | a content score lies in (0, 1] |
| `ContentMatch.ContentRanking` | backend/app/recommender.py:64-66 | no result when the user's tag set is empty |
| `ContentMatch.ContentScores` | backend/app/recommender.py:62-75 | the result is sorted descending and at most `top_k` long; each item is unrated, shares a tag and scores overlap divided by the size of the user tag set, in (0, 1] |
| `ContentMatch.ContentDropsOnlyLower` | backend/app/recommender.py:74-75 | an eligible item left out of the result means the list is full and every kept score is at least that item's |
| `ContentMatch.NoTagsNoContent` | backend/app/recommender.py:64-66 | a user without preferences whose rated items carry no tags gets no content result |
| `ContentMatch.ContentBased` | backend/app/recommender.py:62-75 | the loop and sort return the content ranking |
| `ContentMatch.ScoreItem` | backend/app/recommender.py:70-73 | one catalog item yields its id and overlap share exactly when it shares a tag with the user and the user has not rated it, and nothing otherwise |
| `ContentMatch.ScoreItems` | backend/app/recommender.py:68-73 | the loop collects the scored pairs of the eligible items, in catalog order |
| `Popularity.PopularityScore` | backend/app/recommender.py:138-142 | 0.0 without ratings; otherwise the score times the number of ratings is their sum (the mean) |
| `Popularity.Sum` | backend/app/recommender.py:141 | `sum(r.score for r in item.ratings)`, added up in rating order |
| `Popularity.MeanBounds` | backend/app/recommender.py:141 | the mean of scores within [lo, hi] lies within [lo, hi] |
| `Popularity.ConstantScores` | backend/app/recommender.py:141 | an item whose ratings all have score v has popularity v |
| `Ranking.SliceTo` | backend/app/recommender.py:60 | `s[:k]` is a prefix of `s` of length min(k, len(s)), or len(s) + k (at least 0) for negative k |
| `Ranking.SortDescOrdered` | backend/app/recommender.py:59 | the sort's result is in descending key order |
| `Ranking.SortDescPermutes` | backend/app/recommender.py:59 | the sort's result is a permutation of its input |
| `Ranking.SortDescStable` | backend/app/recommender.py:74 | the sort is stable: entries with equal keys keep their order |
| `Ranking.TopK` | backend/app/recommender.py:98 | sort-then-slice is sorted, drawn from the input, at most k long, and exactly k long when k is within the input's length |
| `Ranking.TopKDominates` | backend/app/recommender.py:59-60 | an entry cut by sort-then-slice is outranked or tied by every kept entry |
| `Recommender.SeedEffect` | backend/app/recommender.py:82-83 | the seeded dict holds exactly the collaborative ids, each with its score and label "collaborative" |
| `Recommender.Seeded` | backend/app/recommender.py:80-83 | the dict the first loop builds is valid; `SeedEffect` states its entries |
| `Recommender.MergeMembers` | backend/app/recommender.py:84-89 | merging adds exactly the content ids |
| `Recommender.MergeKeeps` | backend/app/recommender.py:84-89 | merging leaves the entries of ids absent from the content list unchanged |
| `Recommender.MergeValue` | backend/app/recommender.py:84-89 | a content result sums into a present entry as "hybrid", or enters as "content" |
| `Recommender.MergeContent` | backend/app/recommender.py:84-89 | merging content results keeps the dict valid; `MergeMembers`, `MergeKeeps` and `MergeValue` state its entries |
| `Recommender.MergeRules` | backend/app/recommender.py:80-89 | an item in both lists scores s1 + s2 as "hybrid"; only collaborative keeps its score as "collaborative"; only content keeps its score as "content"; no other item is present |
| `Recommender.FallbackExactlyWhenBothEmpty` | backend/app/recommender.py:91 | the merged dict is empty exactly when both result lists are empty |
| `Recommender.MergedNonePopular` | backend/app/recommender.py:80-89 | the merge never produces the label "popular" |
| `Recommender.PopularMembers` | backend/app/recommender.py:92-96 | the fallback holds exactly the catalog ids the user has not rated |
| `Recommender.PopularEffect` | backend/app/recommender.py:92-96 | each unrated item's fallback entry is its popularity score, labelled "popular" |
| `Recommender.FallbackAllPopular` | backend/app/recommender.py:92-96 | every fallback entry is labelled "popular" |
| `Recommender.PopularFallback` | backend/app/recommender.py:92-96 | the fallback dict comprehension is a valid dict; `PopularMembers` and `PopularEffect` state its entries |
| `Recommender.ResolveMembers` | backend/app/recommender.py:99-103 | a recommendation is exactly a ranked entry whose id resolves, with that entry's score and label |
| `Recommender.ResolveAll` | backend/app/recommender.py:99-103 | when every id resolves nothing is dropped and the order is kept |
| `Recommender.ResolveSorted` | backend/app/recommender.py:99-103 | dropping unresolved ids keeps the descending order |
| `Recommender.ResolveAppend` | backend/app/recommender.py:99-103 | resolving a concatenation resolves each part in turn, so the surviving entries keep their relative order |
| `Recommender.Resolve` | backend/app/recommender.py:99-103 | the resolved list is never longer than the ranked list; `ResolveMembers` states which entries stay |
| `Recommender.RankOutput` | backend/app/recommender.py:98-103 | ranking a dict gives a descending list of at most `top_k` resolved entries of that dict; `RankDropsOnlyLower` states which entries it keeps |
| `Recommender.RankDropsOnlyLower` | backend/app/recommender.py:98-103 | a resolvable entry of the dict is left out only when the slice holds `top_k` entries and every recommendation scores at least as much |
| `Recommender.CombinedLabels` | backend/app/recommender.py:80-96 | an entry of the ranked dict is "popular" exactly when both result lists were empty |
| `Recommender.CombinedOf` | backend/app/recommender.py:80-96 | the merged dict, or the popular fallback when it is empty, is a valid dict; `CombinedLabels` states its labels |
| `Recommender.HybridOutput` | backend/app/recommender.py:77-103 | the final list is sorted by score, at most `top_k` long, made of resolvable items, all "popular" when both lists were empty and none otherwise |
| `Recommender.HybridDropsOnlyLower` | backend/app/recommender.py:77-103 | a resolvable entry of the combined dict is left out of the final list only when `top_k` entries were ranked and every recommendation scores at least as much |
| `Recommender.HybridRanking` | backend/app/recommender.py:77-103 | the list `hybrid` returns; `HybridOutput` and `HybridExcludesRated` state its properties |
| `Recommender.HybridExcludesRated` | backend/app/recommender.py:77-103 | no recommended item has been rated by the user, when the user's ratings are rows of the rating table and ids resolve to their own item |
| `Recommender.EmptySnapshotRecommendsNothing` | backend/app/recommender.py:77-103 | with no ratings and no catalog the list is empty |
| `Recommender.SeedResults` | backend/app/recommender.py:80-83 | the first loop builds the seeded dict of the collaborative results |
| `Recommender.MergeResults` | backend/app/recommender.py:84-89 | the second loop merges the content results into the seeded dict |
| `Recommender.Hybrid` | backend/app/recommender.py:77-103 | the method returns the hybrid ranking of the snapshot |
| `Recommender.BuildRecommendations` | backend/app/recommender.py:145-147 | the entry point returns the hybrid ranking, at most `top_k` long |

## Left out

- Database access is not modelled. The SQLAlchemy queries, `crud.list_items` and `crud.get_item` become the fields of a `Snapshot`: the rating rows in query order, the catalog in listing order, and a map of resolvable items.
- Each request is modelled as reading one consistent snapshot. In the code the catalog is listed twice (content scoring and the fallback) and could change in between.
- The FastAPI routes, the 404 on an empty result, recommendation logging, authentication, settings, schemas and seed data are not modelled. They are I/O plumbing outside the engine.
- Floating point is not modelled. Scores are exact reals, so IEEE-754 rounding of numpy arithmetic is not captured.
- The square root is a parameter, not computed. Lemmas that depend on it assume only that it is non-negative and squares back.
- `str.lower()` is modelled for Latin-1 letters only. Other Unicode case mappings are not modelled.
- `str.strip()` is modelled with Python's set of whitespace characters.
- `list.sort` and `sorted` are modelled as a pure stable insertion sort. The in-place sort is not modelled.
- `top_k` follows Python slicing, including negative values, which drop entries from the end. The output cap is stated for `top_k >= 0` only.
- `if existing:` is modelled as a membership test. An existing entry is a non-empty tuple, so it is always truthy.
- Recommender.PopularEffect: requires distinct catalog ids (they are primary keys). With duplicate ids the dict comprehension keeps the last item's score, and that case is not stated.
- ContentMatch.ContentScores: distinct result ids are stated only for a catalog with distinct ids.
- Recommender.MergeRules: stated for duplicate-free result lists. The collaborative list always is; the content list is when catalog ids are distinct.
- Recommender.HybridExcludesRated: requires the user's ratings to appear among the snapshot's rating rows, and every resolvable id to resolve to the item with that id. The ORM guarantees both; the snapshot model does not enforce them.
