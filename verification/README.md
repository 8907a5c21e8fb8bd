# Movie recommender core, modelled in Dafny

This project models the core of a small movie recommendation engine. That
core has two parts.

The data-preparation step (`data_prep.py`) does three things:

- it checks and normalises the movies table: required `movieId` and
  `title` columns, empty-string defaults for `genres` and `overview`, a
  projection onto those four columns, and one row per movie id, the first;
- it checks and projects the ratings table;
- it pivots the ratings into a user x movie matrix of mean ratings, with 0
  where a user never rated a movie.

The serving step (`recommend.py`) does five things:

- it builds the id -> row-position indexes of the two similarity artifacts;
- it answers "top-N similar movies" lookups, sorting the movie's similarity
  row descending and skipping its first entry, which is meant to be the
  movie itself;
- it recommends by item-based collaborative filtering (item-CF). Each
  unrated movie is scored as a weighted mean of the user's ratings over the
  item-similarity rows of the movies the user rated;
- it recommends by a hybrid. Item-CF is asked for three times the requested
  length. Content seeding starts from the movies the user rated 4 or more
  and walks each one's top-25 content neighbours. The two are blended
  linearly with weight `alpha`;
- it looks up a catalogue record (`movie_info`).

The module globals the serving code loads at start-up (the matrix and the
two similarity artifacts) are passed as one immutable `Context` value.
Every operation is a pure function over immutable datatypes.

Modules:

- `Basics` (basics.dfy): `Option`, `Abs`, `Distinct`, `PositionOf`, and
  Python slice semantics, with negative bounds counted from the end.
- `Ranking` (ranking.dfy): scored lists, a stable descending insertion sort,
  per-movie totals of a scored list seen as a dict, and `TopN` (sort, then
  `[:n]`).
- `Accumulator` (accumulator.dfy): the pair of `defaultdict(float)` score
  and weight accumulators, and the final `score / weight` normalisation.
- `Similarity` (similarity.dfy): the similarity artifacts, the index, and
  the top-N similar lookup.
- `Seeding` (seeding.dfy): the outer loop both recommenders share. It runs
  over seed movies and feeds each seed's neighbours into the accumulators.
  Reference sums define what the loop computes for each candidate.
- `Bounds` (bounds.dfy): real-arithmetic bounds on weighted means.
- `Tables` (tables.dfy): `load_movies` and `load_ratings` over in-memory
  tables.
- `UserItem` (user_item.dfy): `build_user_item_matrix`.
- `Artifacts` (artifacts.dfy): the `Context`, and the views of a user's row.
- `ItemCF` (itemcf.dfy): `recommend_for_user_itemcf`.
- `Hybrid` (hybrid.dfy): `recommend_for_user_hybrid`.
- `Catalog` (catalog.dfy): `movie_info`.

Behaviours of the code the model keeps as they are:

- The sorts order by score alone, with no tie-break on the movie id
  (recommend.py:35, 74, 112). So the model promises a non-increasing order
  and a permutation, and nothing about the order among equal scores.
- The "skip self" step drops position 0 of the descending order, whatever
  movie is there (recommend.py:35). `TopNSimilar` models that position-based
  skip. `SelfExcludedWhenUniqueMaximum` proves the movie is excluded when
  its self-similarity is strictly the row's maximum. Without a strict
  maximum, the movie can appear in its own neighbour list.
- Content seeding adds the raw similarity to the weight (recommend.py:97).
  Item-CF adds its absolute value (recommend.py:68). The model keeps that
  difference as a `WeightRule`.
- The default arguments `top_n=10` and `alpha=0.6` are default parameters
  of `TopNSimilar`, `RecommendItemCF` and `RecommendHybrid`.

## Model

| member | source | states |
|---|---|---|
| Similarity.BuildIndex | recommend.py:26-27 | every listed id is a key and maps to a position holding that id; a repeated id keeps its last position; with distinct ids, the index of `ids[i]` is `i` |
| Similarity.RowOf | recommend.py:33-34 | `item_sim[idx]` is a row with one similarity per listed id |
| Similarity.RowPairs | recommend.py:36-38 | pairing the ids with a row gives, at each position, that id and that similarity |
| Similarity.RowPairsDistinct | recommend.py:36-38 | pairing distinct ids with a row names each movie once |
| Similarity.RowPairsEntry | recommend.py:36-37 | with distinct ids, each pair carries the row's cell at its movie's index |
| Similarity.TopNSimilar | recommend.py:29-48 | an id the index lacks gives `[]`; the result is non-increasing, holds `min(n, len - 1)` entries for a known id and `n >= 0`, and every entry is a (movie, similarity) pair of the movie's own row |
| Similarity.TopNSimilarScores | recommend.py:33-38 | with distinct ids, the lookup lists no movie twice, and each entry's score is the matrix cell for the looked-up movie and that entry's movie |
| Similarity.TopNSimilarSkipsOneMaximum | recommend.py:35 | the lookup is the row without one of its maximal pairs, and every pair of the row left out of it (other than that one) scores no higher than anything kept |
| Similarity.SelfExcludedWhenUniqueMaximum | recommend.py:35 | when a movie's self-similarity is strictly above every other cell of its row, the movie is not among its own neighbours |
| Seeding.Neighbours | recommend.py:61-63 | a seed's neighbours are its whole similarity row (item-CF, lines 61-63) or the top-N lookup (content, line 92), the latter at most N long |
| Seeding.AddSeed | recommend.py:58-68 | one seed adds, for every candidate not skipped, that seed's contribution to the candidate's score and weight sums, and changes nothing else |
| Seeding.AddSeeds | recommend.py:58-68 | the outer loop never gives one candidate two accumulator entries |
| Seeding.AddSeedsSums | recommend.py:58-68 | after the loop, each candidate outside the skip set holds its reference score and weight sums over all seeds; a skipped candidate holds what it held before |
| Seeding.WeightedMeansNeighbour | recommend.py:58-68 | a candidate with a non-zero weight is a neighbour of some seed the index holds |
| Accumulator.Add | recommend.py:67-68 | `score_agg[c] += ds; weight_agg[c] += dw` changes only `c`'s sums, adds `c` to the keys, and keeps the keys distinct |
| Accumulator.AddPair | recommend.py:64-68 | one (candidate, sim) pair adds `sim * rating` to the score and the rule's weight (`abs(sim)` or `sim`) to the weight, unless the candidate is skipped |
| Accumulator.AddPairs | recommend.py:63-68 | the inner loop keeps accumulator keys distinct |
| Accumulator.AddPairsScore | recommend.py:63-67 | after the inner loop, each candidate's score is its old score plus its reference pair sum, unless it is skipped |
| Accumulator.AddPairsWeight | recommend.py:63-68 | likewise for the weight sum |
| Accumulator.PairsWeightNamesCandidate | recommend.py:63-68 | a candidate with a non-zero pair weight appears among the pairs |
| Accumulator.PairsAbsent | recommend.py:63-68 | a candidate absent from the pairs gets zero score and zero weight |
| Accumulator.PairsOfDistinct | recommend.py:63-68 | over pairs naming each movie once, a candidate's sums are its one `sim * rating` and its one weight |
| Accumulator.Normalize | recommend.py:70-73 | every output entry has weight > 0 and score `score_agg / weight_agg` |
| Accumulator.NormalizeComplete | recommend.py:70-73 | the output names no movie twice and lists every accumulated movie whose weight is > 0 |
| ItemCF.CFCandidates | recommend.py:54-73 | `final_scores` are exactly the movies whose reference weight over the user's positive ratings is > 0, each once, scored sum / weight |
| ItemCF.RecommendItemCF | recommend.py:50-76 | an unknown user gets `[]`; the result is non-increasing, at most `top_n` long and lists each movie once; every entry is an unrated movie with weight > 0, scored sum / weight |
| ItemCF.ItemCFKeepsBest | recommend.py:74-75 | a scored candidate left out of the result means the result is full (`top_n` long) and every kept score is at least the candidate's |
| ItemCF.ItemCFScoresBounded | recommend.py:54-73 | when every cell of the user's row is at most `m`, every recommended score has absolute value at most `m` |
| ItemCF.SeedsMeanBounded | recommend.py:58-73 | a weighted mean with `abs(sim)` weights of ratings in (0, m] lies in [-m, m] |
| ItemCF.SeedsTermsSums | recommend.py:58-68 | the item-CF reference sums are the sums over a flat list of (sim, rating) terms, each rating one of the seeds' ratings |
| ItemCF.SeedTermOfDistinctIds | recommend.py:61-68 | with distinct ids, a seed contributes to a candidate exactly one term: the matrix cell for the pair, times the seed's rating |
| ItemCF.RatedWithin | recommend.py:54-55 | the rated entries of a row bounded by `m` lie in (0, m] |
| Bounds.MeanBounded | recommend.py:67-73 | a sum of `sim * rating` over a sum of `abs(sim)` is within [-m, m] when every rating lies in (0, m] |
| Hybrid.ContentScores | recommend.py:86-101 | `normalized_content` is exactly the movies with a content weight > 0, each once, scored content sum / content weight |
| Hybrid.ContentFromHighSeeds | recommend.py:86-97 | a movie with a content weight > 0 is unrated, and is among the at most 25 content neighbours of a seed the user rated 4 or more that the content index holds |
| Hybrid.Scaled | recommend.py:106-109 | scaling the scores keeps the listed movies |
| Hybrid.ScaledTotal | recommend.py:106-109 | scaling every score by `w` scales each movie's total by `w` |
| Hybrid.BlendIn | recommend.py:106-109 | blending a side in lists the union of the movies and keeps them distinct |
| Hybrid.BlendInTotal | recommend.py:106-109 | after blending a side in, each movie holds its old value plus the side's value, 0 when the side lacks it |
| Hybrid.Merge | recommend.py:104-109 | the merged movies are the union of the item-CF and content movies, each once |
| Hybrid.MergeTotal | recommend.py:104-109 | each merged value is `alpha * cf + (1 - alpha) * content`, a missing side counting 0 |
| Hybrid.MergedEntry | recommend.py:104-109 | a merged entry is a movie of one of the sides, scored by the blend |
| Hybrid.SidesUnrated | recommend.py:94-95 | neither the item-CF list nor the content scores name a movie the user rated |
| Hybrid.HybridKeepsBest | recommend.py:111-112 | a merged movie left out of the hybrid result means the result is full (`top_n` long) and every kept score is at least the left-out one's |
| Hybrid.RecommendHybrid | recommend.py:78-113 | an unknown user gets `[]`; the result is non-increasing, at most `top_n` long and lists each movie once; every entry is an unrated movie of the item-CF list (asked for `3 * top_n`) or the content scores, scored `alpha * cf + (1 - alpha) * content` |
| Ranking.SortDesc | recommend.py:74 | the sort is a permutation, non-increasing, and keeps items distinct |
| Ranking.Bump | recommend.py:107 | `merged[mid] = merged.get(mid, 0) + s` changes only `mid`'s total, adds `mid` to the keys and keeps keys distinct |
| Ranking.TopN | recommend.py:74-75 | sort then `[:n]` is non-increasing, at most `n` long, a sub-list of the input, and keeps items distinct |
| Ranking.TopNKeepsBest | recommend.py:74-75 | `[:n]` keeps `min(n, len)` entries; an entry left out means the result is full and scores no higher than anything kept |
| Ranking.TopAfterBest | recommend.py:35 | sort then `[1:n+1]` is non-increasing and holds `min(n, len - 1)` entries of the input |
| Ranking.TopAfterBestKeeps | recommend.py:35 | the kept entries plus the dropped first one fit in the input, and nothing else left out beats anything kept |
| Ranking.BestNotKept | recommend.py:35 | with distinct items, the dropped first entry's movie is not kept |
| Ranking.TotalOfDistinct | recommend.py:81 | in a list naming each movie once (`dict(list)`), a movie's value is its entry's score |
| Basics.Slice | recommend.py:35 | Python slicing: the length for non-negative bounds, and each element taken from its clamped position |
| Tables.WithColumn | data_prep.py:21 | `df[name] = v` appends the column, keeps every existing cell, and sets every row's new cell to `v` |
| Tables.WithDefault | data_prep.py:20-23 | adding a missing column fills it with `''`, keeps every existing cell, and leaves a table that has the column unchanged |
| Tables.Project | data_prep.py:25 | projection gives exactly the named columns, in order, with the same cells |
| Tables.MovieRecords | data_prep.py:20-25 | each projected movie row is (movieId, title, genres or `''`, overview or `''`) of the raw row |
| Tables.DropDuplicateKeys | data_prep.py:25 | each kept row is a row of the input whose key was not already seen |
| Tables.DropDuplicateKeysFirst | data_prep.py:25 | each kept row is the first input row with its key |
| Tables.DropDuplicateKeysDistinct | data_prep.py:25 | no key is kept twice |
| Tables.DropDuplicateKeysComplete | data_prep.py:25 | every key of the input that was not already seen is kept |
| Tables.LoadMovies | data_prep.py:13-27 | an error exactly when `movieId` or `title` is missing; otherwise the columns are `movieId, title, genres, overview` |
| Tables.LoadMoviesDistinct | data_prep.py:25 | the loaded table has one row per movie id |
| Tables.LoadMoviesComplete | data_prep.py:25 | every raw movie id is loaded |
| Tables.LoadMoviesFirst | data_prep.py:20-25 | every loaded row is the normalised record of the first raw row with its id |
| Tables.LoadRatings | data_prep.py:29-37 | an error exactly when `userId`, `movieId` or `rating` is missing; otherwise the same rows projected onto those three columns |
| UserItem.BuildUserItemMatrix | data_prep.py:39-42 | rows are exactly the users, and columns exactly the movies, of the ratings, each ascending; each cell is the mean of that pair's ratings, or 0 when the pair has none |
| UserItem.Tallies | data_prep.py:41 | the group-by pass keeps, for each (user, movie) pair it holds, a count of at least one and at most the number of ratings |
| UserItem.TalliesAreGroupSums | data_prep.py:41 | the grouping has an entry for a (user, movie) pair exactly when the pair has ratings, holding their sum and count |
| UserItem.ZeroMeansUnrated | data_prep.py:41 | with positive ratings, a cell is > 0 exactly when the pair was rated and 0 exactly when it was not |
| UserItem.MeanOfPositives | data_prep.py:41 | the mean of positive values is positive, and 0 only for no values |
| UserItem.EveryRatingHasACell | data_prep.py:41 | every rating's user and movie have a row and a column |
| UserItem.SortedUnique | data_prep.py:41 | the pivot's index is ascending and holds exactly the values of the column |
| Artifacts.UserVector | recommend.py:54 | `ui_matrix.loc[user_id]` pairs each column's movie with the user's cell |
| Artifacts.Rated | recommend.py:54-55 | `rated` holds exactly the entries of the user's row with a positive value, each movie once |
| Artifacts.RatedSet | recommend.py:65 | `rated.index` holds exactly the movies whose entry in the user's row is positive |
| Artifacts.HighRated | recommend.py:86 | `high_rated` holds exactly the entries of the user's row with value at least 4, each movie once |
| Artifacts.Positive | recommend.py:55 | `v[v > 0]` keeps exactly the positive entries |
| Artifacts.AtLeast | recommend.py:86 | `v[v >= 4]` keeps exactly the entries at or above the bound |
| Artifacts.RatedSetIsPositiveCells | recommend.py:55 | a movie counts as rated exactly when its cell is > 0 |
| Artifacts.RatedMeansRatedInTable | recommend.py:55 | with positive ratings, a movie counts as rated by a user exactly when the ratings table holds a rating for the pair |
| Catalog.MovieInfo | recommend.py:115-120 | `{}` (None) exactly when no row has the id; otherwise the id, title, and genres and overview (or `''`) of the first row with the id |
| Catalog.FindMovie | recommend.py:116-119 | the scan finds the first row at or after `k` with the id, or reports that none has it |
| Catalog.LoadedIds | recommend.py:115-118 | the loaded table holds exactly the raw table's movie ids |
| Catalog.MovieInfoOfLoaded | recommend.py:115-120 | on the loaded movies table, a record exists exactly for the raw ids, and carries the first raw row's title, genres and overview |

## Left out

- Reading CSV files and pickles (`pd.read_csv`, `joblib.load` and
  `joblib.dump`), creating the output directory, `main`, and the
  `__main__` smoke test: these are I/O. A table is the value the reader
  would hand over. The artifacts are an explicit `Context` parameter.
- `train_models.py`, which computes the cosine similarity matrices and the
  TF-IDF content features, is not part of this model. The similarity
  matrices are opaque inputs; only their shape is assumed (square, one row
  per id).
- `app.py`, the web front end, is not part of this model.
- The `astype(int)` casts in `load_movies` and `load_ratings`, and NaN
  cells: the model does not convert values, and compares ids as the typed
  cells the reader produced. `BuildUserItemMatrix` takes typed `Rating`
  records (user, movie, rating). The conversion from the loaded table is
  not modelled.
- Floating point: scores, similarities and means are mathematical reals.
  Rounding, NaN cells in the similarity matrices or the ratings, and
  `argsort`'s treatment of NaN are not modelled.
- The order among equal scores: `np.argsort` is not stable in its default
  mode, and `[::-1]` reverses the order of equal scores. The model sorts
  with a stable descending insertion sort and promises nothing about ties.
- Hybrid.ContentScores: the content sums walk the concrete output of the
  25-neighbour lookup, whose order among equal similarities is the model's
  stable order, not numpy's. When a seed's content row ties at position 0
  (the skipped slot) or at the 25th place, that order decides which movies
  enter the content sums. So the content scores, and through them
  `ContentFromHighSeeds` and the hybrid scores, match the program only for
  seeds whose rows have no such ties. Ties at the top are common when the
  movies table has no overview column, since movies with the same genres
  then have identical content vectors.
- Dict and `defaultdict` key order is modelled as insertion order, but no
  contract promises anything about it. It only affects the order of equal
  scores after sorting.
- The `int(r['movieId'])` of `movie_info` is returned as the searched id,
  which equals the row's id because the row matched on it. The pandas
  boolean-mask comparison of mixed-type cells is modelled as equality of
  typed cells.
- `Tables.LoadMovies`: the error carries only the list of required
  columns, not the file path in the `ValueError` message.
