/** `recommend_for_user_hybrid`: item-CF oversampled to three times the
    requested length, content seeding from the movies the user rated 4 or
    more through their top-25 content neighbours, and a linear blend of the
    two in which a side that does not list a movie counts as 0. */
module Hybrid {
  import opened Basics
  import opened Ranking
  import opened Accumulator
  import opened Similarity
  import opened UserItem
  import opened Artifacts
  import opened Seeding
  import opened ItemCF

  /** `get_top_n_similar_items_content(movie_id, top_n=25)`. */
  const ContentNeighbours := 25

  /** How content seeding walks a seed's neighbours. */
  function ContentHood(): Neighbourhood
  {
    TopSimilar(ContentNeighbours)
  }

  /** The weighted sum content seeding builds for candidate `c`: over the
      high-rated seeds, the content similarity of each top-25 neighbour
      naming `c` times the seed's rating. A rated candidate gets nothing. */
  function ContentScore(ctx: Context, u: int, c: ItemId): real
    requires ctx.Valid() && u in ctx.ui.users
  {
    if c in RatedSet(ctx.ui, u) then 0.0 else SeedsScore(ctx.contentSim, HighRated(ctx.ui, u), ContentHood(), c)
  }

  /** The weight sum content seeding builds for `c`: the raw similarities,
      not their absolute values. */
  function ContentWeight(ctx: Context, u: int, c: ItemId): real
    requires ctx.Valid() && u in ctx.ui.users
  {
    if c in RatedSet(ctx.ui, u) then 0.0 else SeedsWeight(ctx.contentSim, HighRated(ctx.ui, u), ContentHood(), RawSim, c)
  }

  /** `normalized_content`: exactly the candidates with a positive weight
      sum, each once, scored `content_scores / content_weights`. */
  function ContentScores(ctx: Context, u: int): (r: seq<Scored>)
    requires ctx.Valid() && u in ctx.ui.users
    ensures DistinctItems(r)
    ensures forall e :: e in r ==>
      ContentWeight(ctx, u, e.item) > 0.0 && e.score == ContentScore(ctx, u, e.item) / ContentWeight(ctx, u, e.item)
    ensures forall c :: ContentWeight(ctx, u, c) > 0.0 ==> Scored(c, ContentScore(ctx, u, c) / ContentWeight(ctx, u, c)) in r
  {
    var acc := AddSeeds([], ctx.contentSim, HighRated(ctx.ui, u), ContentHood(), RawSim, RatedSet(ctx.ui, u));
    assert forall c :: ScoreOf(acc, c) == ContentScore(ctx, u, c) && WeightOf(acc, c) == ContentWeight(ctx, u, c) by {
      forall c {
        AddSeedsSums([], ctx.contentSim, HighRated(ctx.ui, u), ContentHood(), RawSim, RatedSet(ctx.ui, u), c);
      }
    }
    NormalizeComplete(acc);
    Normalize(acc)
  }

  /** A content candidate is an unrated movie reached from a seed the user
      rated 4 or more, through that seed's lookup of at most 25 content
      neighbours. */
  lemma ContentFromHighSeeds(ctx: Context, u: int, c: ItemId)
    requires ctx.Valid() && u in ctx.ui.users && ContentWeight(ctx, u, c) > 0.0
    ensures c !in RatedSet(ctx.ui, u)
    ensures exists k ::
      && 0 <= k < |HighRated(ctx.ui, u)|
      && HighRated(ctx.ui, u)[k].score >= 4.0
      && HighRated(ctx.ui, u)[k].item in ctx.contentSim.ids
      && c in Items(TopNSimilar(ctx.contentSim, HighRated(ctx.ui, u)[k].item, ContentNeighbours))
      && |TopNSimilar(ctx.contentSim, HighRated(ctx.ui, u)[k].item, ContentNeighbours)| <= ContentNeighbours
  {
    var seeds := HighRated(ctx.ui, u);
    WeightedMeansNeighbour(ctx.contentSim, seeds, ContentHood(), RawSim, c);
    var k :| 0 <= k < |seeds| && seeds[k].item in ctx.contentSim.ids
      && c in Items(Neighbours(ctx.contentSim, seeds[k].item, ContentHood()));
    assert seeds[k] in seeds;
  }

  /** Every score of `side` multiplied by `w`. */
  function Scaled(side: seq<Scored>, w: real): (r: seq<Scored>)
    ensures Items(r) == Items(side)
  {
    if |side| == 0 then []
    else
      var rest := Scaled(side[1..], w);
      assert side == [side[0]] + side[1..];
      ItemsCons(side[0], side[1..]);
      ItemsCons(Scored(side[0].item, w * side[0].score), rest);
      [Scored(side[0].item, w * side[0].score)] + rest
  }

  /** Scaling every score scales every total. */
  lemma {:induction false} ScaledTotal(side: seq<Scored>, w: real, c: ItemId)
    ensures Total(Scaled(side, w), c) == w * Total(side, c)
  {
    if |side| > 0 {
      var head := Scored(side[0].item, w * side[0].score);
      var rest := Scaled(side[1..], w);
      ScaledTotal(side[1..], w, c);
      assert Scaled(side, w) == [head] + rest;
      assert ([head] + rest)[1..] == rest;
      var d := if side[0].item == c then side[0].score else 0.0;
      ScaleStep(w, d, Total(side[1..], c), Total(rest, c));
    }
  }

  /** One step of the scaling induction. */
  lemma ScaleStep(w: real, d: real, rest: real, scaledRest: real)
    requires scaledRest == w * rest
    ensures w * d + scaledRest == w * (d + rest)
  {
  }

  /** `for mid, s in side.items(): merged[mid] = merged.get(mid, 0) + s`. */
  function BlendIn(merged: seq<Scored>, side: seq<Scored>): (r: seq<Scored>)
    ensures Items(r) == Items(merged) + Items(side)
    ensures DistinctItems(merged) ==> DistinctItems(r)
    decreases |side|
  {
    if |side| == 0 then merged
    else
      assert side == [side[0]] + side[1..];
      ItemsCons(side[0], side[1..]);
      BlendIn(Bump(merged, side[0].item, side[0].score), side[1..])
  }

  /** After blending in a side, every movie holds what it held plus the
      side's value for it (0 when the side does not list it). */
  lemma {:induction false} BlendInTotal(merged: seq<Scored>, side: seq<Scored>, c: ItemId)
    ensures Total(BlendIn(merged, side), c) == Total(merged, c) + Total(side, c)
    decreases |side|
  {
    if |side| > 0 {
      BlendInTotal(Bump(merged, side[0].item, side[0].score), side[1..], c);
    }
  }

  /** `merged`: the item-CF scores times `alpha` blended in, then the
      content scores times `1 - alpha`. */
  function Merge(cf: seq<Scored>, content: seq<Scored>, alpha: real): (r: seq<Scored>)
    ensures Items(r) == Items(cf) + Items(content)
    ensures DistinctItems(r)
  {
    BlendIn(BlendIn([], Scaled(cf, alpha)), Scaled(content, 1.0 - alpha))
  }

  /** The linear blend `alpha * cf + (1 - alpha) * content`. */
  function Blended(alpha: real, cf: real, content: real): real
  {
    alpha * cf + (1.0 - alpha) * content
  }

  /** Each merged value is the sum of the two scaled sides' values. */
  lemma MergeSum(cf: seq<Scored>, content: seq<Scored>, alpha: real, c: ItemId)
    ensures Total(Merge(cf, content, alpha), c) == Total(Scaled(cf, alpha), c) + Total(Scaled(content, 1.0 - alpha), c)
  {
    var first := BlendIn([], Scaled(cf, alpha));
    BlendInTotal([], Scaled(cf, alpha), c);
    BlendInTotal(first, Scaled(content, 1.0 - alpha), c);
  }

  /** The scaled sides' values are the unscaled ones times their
      weights. */
  lemma MixTotal(t: real, cf: seq<Scored>, content: seq<Scored>, alpha: real, c: ItemId)
    requires t == Total(Scaled(cf, alpha), c) + Total(Scaled(content, 1.0 - alpha), c)
    ensures t == Blended(alpha, Total(cf, c), Total(content, c))
  {
    ScaledTotal(cf, alpha, c);
    ScaledTotal(content, 1.0 - alpha, c);
  }

  /** Each merged value is `alpha * cf + (1 - alpha) * content`, a side
      that does not list the movie counting as 0. */
  lemma MergeTotal(cf: seq<Scored>, content: seq<Scored>, alpha: real, c: ItemId)
    ensures Total(Merge(cf, content, alpha), c) == Blended(alpha, Total(cf, c), Total(content, c))
  {
    MergeSum(cf, content, alpha, c);
    MixTotal(Total(Merge(cf, content, alpha), c), cf, content, alpha, c);
  }

  /** An entry of a list without repeated items carries the list's total
      for its item. */
  lemma EntryIsTotal(s: seq<Scored>, e: Scored)
    requires DistinctItems(s) && e in s
    ensures e.score == Total(s, e.item)
  {
    var k :| 0 <= k < |s| && s[k] == e;
    TotalOfDistinct(s, k);
  }

  /** A merged entry is a movie of one of the sides, scored by the blend. */
  lemma MergedEntry(cf: seq<Scored>, content: seq<Scored>, alpha: real, e: Scored)
    requires e in Merge(cf, content, alpha)
    ensures e.item in Items(cf) + Items(content)
    ensures e.score == Blended(alpha, Total(cf, e.item), Total(content, e.item))
  {
    var merged := Merge(cf, content, alpha);
    var k :| 0 <= k < |merged| && merged[k] == e;
    assert e.item in Items(merged);
    EntryIsTotal(merged, e);
    MergeTotal(cf, content, alpha, e.item);
  }

  /** Neither side lists a movie the user rated. */
  lemma SidesUnrated(ctx: Context, u: int, topN: int)
    requires ctx.Valid() && u in ctx.ui.users
    ensures forall c :: c in Items(RecommendItemCF(ctx, u, topN)) + Items(ContentScores(ctx, u)) ==> c !in RatedSet(ctx.ui, u)
  {
    var cf := RecommendItemCF(ctx, u, topN);
    var content := ContentScores(ctx, u);
    forall c | c in Items(cf) + Items(content) ensures c !in RatedSet(ctx.ui, u) {
      if c in Items(cf) {
        var k :| 0 <= k < |cf| && cf[k].item == c;
        assert cf[k] in cf;
      } else {
        var k :| 0 <= k < |content| && content[k].item == c;
        assert content[k] in content;
      }
    }
  }

  /** `recommend_for_user_hybrid(user_id, top_n, alpha)`. The item-CF call
      comes first, as in the source, and returns nothing for an unknown
      user too. */
  function RecommendHybrid(ctx: Context, u: int, topN: int := 10, alpha: real := 0.6): (r: seq<Scored>)
    requires ctx.Valid()
    ensures u !in ctx.ui.users ==> r == []
    ensures NonIncreasing(r)
    ensures 0 <= topN ==> |r| <= topN
    ensures DistinctItems(r)
    ensures u in ctx.ui.users ==> forall e :: e in r ==>
      && e.item !in RatedSet(ctx.ui, u)
      && e.item in Items(RecommendItemCF(ctx, u, topN * 3)) + Items(ContentScores(ctx, u))
      && e.score == Blended(alpha, Total(RecommendItemCF(ctx, u, topN * 3), e.item), Total(ContentScores(ctx, u), e.item))
  {
    var cf := RecommendItemCF(ctx, u, topN * 3);
    if u !in ctx.ui.users then []
    else
      var content := ContentScores(ctx, u);
      var r := TopN(Merge(cf, content, alpha), topN);
      assert forall e :: e in r ==>
        e.item in Items(cf) + Items(content) && e.score == Blended(alpha, Total(cf, e.item), Total(content, e.item)) by {
        forall e | e in r
          ensures e.item in Items(cf) + Items(content) && e.score == Blended(alpha, Total(cf, e.item), Total(content, e.item))
        {
          MergedEntry(cf, content, alpha, e);
        }
      }
      SidesUnrated(ctx, u, topN * 3);
      r
  }

  /** `sorted(merged.items(), ...)[:top_n]` keeps the best of `merged`: a
      merged movie left out means the result is full and every kept score is
      at least the left-out one's. */
  lemma HybridKeepsBest(ctx: Context, u: int, topN: int, alpha: real, e: Scored)
    requires ctx.Valid() && u in ctx.ui.users && 0 <= topN
    requires e in Merge(RecommendItemCF(ctx, u, topN * 3), ContentScores(ctx, u), alpha)
    requires e !in RecommendHybrid(ctx, u, topN, alpha)
    ensures |RecommendHybrid(ctx, u, topN, alpha)| == topN
    ensures forall k :: 0 <= k < |RecommendHybrid(ctx, u, topN, alpha)| ==> e.score <= RecommendHybrid(ctx, u, topN, alpha)[k].score
  {
    var m := Merge(RecommendItemCF(ctx, u, topN * 3), ContentScores(ctx, u), alpha);
    assert RecommendHybrid(ctx, u, topN, alpha) == TopN(m, topN);
    TopNKeepsBest(m, topN);
  }
}
