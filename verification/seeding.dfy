/** The outer loop shared by both recommenders: for each seed movie the user
    rated, in order, skip it when the similarity index does not hold it, and
    otherwise feed its neighbours into the accumulators. Item-CF walks the
    whole similarity row and weighs by `abs(sim)`; content seeding walks the
    top-25 lookup and weighs by the raw `sim`. */
module Seeding {
  import opened Basics
  import opened Ranking
  import opened Accumulator
  import opened Similarity

  /** Which neighbours of a seed are walked. */
  datatype Neighbourhood = WholeRow | TopSimilar(n: int)

  /** The (candidate, similarity) pairs a seed held by the index feeds in:
      `enumerate(sims)` over its row, or `get_top_n_similar_items_*(m, n)`. */
  function Neighbours(t: SimTable, m: ItemId, hood: Neighbourhood): (ns: seq<Scored>)
    requires t.WellFormed() && m in t.ids
    ensures hood.TopSimilar? && 0 <= hood.n ==> |ns| <= hood.n
  {
    match hood
    case WholeRow => RowPairs(t.ids, RowOf(t, m))
    case TopSimilar(n) => TopNSimilar(t, m, n)
  }

  /** What one seed (movie, rating) adds to the weighted sum of `c`; nothing
      for a seed the index does not hold. */
  function SeedScore(t: SimTable, seed: Scored, hood: Neighbourhood, c: ItemId): real
    requires t.WellFormed()
  {
    if seed.item !in t.ids then 0.0 else PairsScore(Neighbours(t, seed.item, hood), seed.score, c)
  }

  /** What one seed adds to the weight sum of `c`. */
  function SeedWeight(t: SimTable, seed: Scored, hood: Neighbourhood, rule: WeightRule, c: ItemId): real
    requires t.WellFormed()
  {
    if seed.item !in t.ids then 0.0 else PairsWeight(Neighbours(t, seed.item, hood), rule, c)
  }

  /** The weighted sum of `c` over all seeds. */
  function SeedsScore(t: SimTable, seeds: seq<Scored>, hood: Neighbourhood, c: ItemId): real
    requires t.WellFormed()
  {
    if |seeds| == 0 then 0.0 else SeedScore(t, seeds[0], hood, c) + SeedsScore(t, seeds[1..], hood, c)
  }

  /** The weight sum of `c` over all seeds. */
  function SeedsWeight(t: SimTable, seeds: seq<Scored>, hood: Neighbourhood, rule: WeightRule, c: ItemId): real
    requires t.WellFormed()
  {
    if |seeds| == 0 then 0.0 else SeedWeight(t, seeds[0], hood, rule, c) + SeedsWeight(t, seeds[1..], hood, rule, c)
  }

  /** One pass of the outer loop. */
  function AddSeed(acc: seq<Entry>, t: SimTable, seed: Scored, hood: Neighbourhood, rule: WeightRule, skip: set<ItemId>): (r: seq<Entry>)
    requires t.WellFormed()
    ensures forall c :: ScoreOf(r, c) == ScoreOf(acc, c) + (if c in skip then 0.0 else SeedScore(t, seed, hood, c))
    ensures forall c :: WeightOf(r, c) == WeightOf(acc, c) + (if c in skip then 0.0 else SeedWeight(t, seed, hood, rule, c))
    ensures DistinctKeys(acc) ==> DistinctKeys(r)
  {
    if seed.item !in t.ids then acc
    else
      var ns := Neighbours(t, seed.item, hood);
      assert forall c ::
        ScoreOf(AddPairs(acc, ns, seed.score, rule, skip), c)
        == ScoreOf(acc, c) + (if c in skip then 0.0 else PairsScore(ns, seed.score, c)) by {
        forall c { AddPairsScore(acc, ns, seed.score, rule, skip, c); }
      }
      assert forall c ::
        WeightOf(AddPairs(acc, ns, seed.score, rule, skip), c)
        == WeightOf(acc, c) + (if c in skip then 0.0 else PairsWeight(ns, rule, c)) by {
        forall c { AddPairsWeight(acc, ns, seed.score, rule, skip, c); }
      }
      AddPairs(acc, ns, seed.score, rule, skip)
  }

  /** The outer loop over the seeds. */
  function AddSeeds(acc: seq<Entry>, t: SimTable, seeds: seq<Scored>, hood: Neighbourhood, rule: WeightRule, skip: set<ItemId>): (r: seq<Entry>)
    requires t.WellFormed()
    ensures DistinctKeys(acc) ==> DistinctKeys(r)
    decreases |seeds|
  {
    if |seeds| == 0 then acc
    else AddSeeds(AddSeed(acc, t, seeds[0], hood, rule, skip), t, seeds[1..], hood, rule, skip)
  }

  /** After the loop, every candidate outside `skip` holds its sums over all
      seeds, and a skipped candidate holds what it held before. */
  lemma {:induction false} AddSeedsSums(acc: seq<Entry>, t: SimTable, seeds: seq<Scored>, hood: Neighbourhood, rule: WeightRule, skip: set<ItemId>, c: ItemId)
    requires t.WellFormed()
    ensures ScoreOf(AddSeeds(acc, t, seeds, hood, rule, skip), c)
      == ScoreOf(acc, c) + (if c in skip then 0.0 else SeedsScore(t, seeds, hood, c))
    ensures WeightOf(AddSeeds(acc, t, seeds, hood, rule, skip), c)
      == WeightOf(acc, c) + (if c in skip then 0.0 else SeedsWeight(t, seeds, hood, rule, c))
    decreases |seeds|
  {
    if |seeds| > 0 {
      AddSeedsSums(AddSeed(acc, t, seeds[0], hood, rule, skip), t, seeds[1..], hood, rule, skip, c);
    }
  }

  /** A candidate with a weight is a neighbour of some seed the index
      holds. */
  lemma {:induction false} WeightedMeansNeighbour(t: SimTable, seeds: seq<Scored>, hood: Neighbourhood, rule: WeightRule, c: ItemId)
    requires t.WellFormed() && SeedsWeight(t, seeds, hood, rule, c) != 0.0
    ensures exists k :: 0 <= k < |seeds| && seeds[k].item in t.ids && c in Items(Neighbours(t, seeds[k].item, hood))
  {
    if SeedWeight(t, seeds[0], hood, rule, c) != 0.0 {
      PairsWeightNamesCandidate(Neighbours(t, seeds[0].item, hood), rule, c);
    } else {
      WeightedMeansNeighbour(t, seeds[1..], hood, rule, c);
      var k :| 0 <= k < |seeds[1..]| && seeds[1..][k].item in t.ids && c in Items(Neighbours(t, seeds[1..][k].item, hood));
      assert seeds[k + 1] == seeds[1..][k];
    }
  }
}
