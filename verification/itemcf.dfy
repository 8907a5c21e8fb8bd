/** `recommend_for_user_itemcf`: neighbourhood item-based collaborative
    filtering. Every movie the user rated and the item index holds spreads
    `sim * rating` and `abs(sim)` over the unrated movies of its similarity
    row; each candidate is scored by the ratio, and the best `top_n` are
    returned. */
module ItemCF {
  import opened Basics
  import opened Ranking
  import opened Accumulator
  import opened Similarity
  import opened UserItem
  import opened Artifacts
  import opened Seeding
  import opened Bounds

  /** The weighted sum item-CF builds for candidate `c`: over the rated
      movies the item index holds, each one's similarity to `c` times its
      rating. A rated candidate gets nothing. */
  function CFScore(ctx: Context, u: int, c: ItemId): real
    requires ctx.Valid() && u in ctx.ui.users
  {
    if c in RatedSet(ctx.ui, u) then 0.0 else SeedsScore(ctx.itemSim, Rated(ctx.ui, u), WholeRow, c)
  }

  /** The weight sum item-CF builds for `c`: the absolute similarities. */
  function CFWeight(ctx: Context, u: int, c: ItemId): real
    requires ctx.Valid() && u in ctx.ui.users
  {
    if c in RatedSet(ctx.ui, u) then 0.0 else SeedsWeight(ctx.itemSim, Rated(ctx.ui, u), WholeRow, AbsoluteSim, c)
  }

  /** `final_scores` before sorting: exactly the candidates with a positive
      weight sum, each once, scored `score_agg / weight_agg`. */
  function CFCandidates(ctx: Context, u: int): (r: seq<Scored>)
    requires ctx.Valid() && u in ctx.ui.users
    ensures DistinctItems(r)
    ensures forall e :: e in r ==>
      CFWeight(ctx, u, e.item) > 0.0 && e.score == CFScore(ctx, u, e.item) / CFWeight(ctx, u, e.item)
    ensures forall c :: CFWeight(ctx, u, c) > 0.0 ==> Scored(c, CFScore(ctx, u, c) / CFWeight(ctx, u, c)) in r
  {
    var acc := AddSeeds([], ctx.itemSim, Rated(ctx.ui, u), WholeRow, AbsoluteSim, RatedSet(ctx.ui, u));
    assert forall c :: ScoreOf(acc, c) == CFScore(ctx, u, c) && WeightOf(acc, c) == CFWeight(ctx, u, c) by {
      forall c { AddSeedsSums([], ctx.itemSim, Rated(ctx.ui, u), WholeRow, AbsoluteSim, RatedSet(ctx.ui, u), c); }
    }
    NormalizeComplete(acc);
    Normalize(acc)
  }

  /** `recommend_for_user_itemcf(user_id, top_n)`. */
  function RecommendItemCF(ctx: Context, u: int, topN: int := 10): (r: seq<Scored>)
    requires ctx.Valid()
    ensures u !in ctx.ui.users ==> r == []
    ensures NonIncreasing(r)
    ensures 0 <= topN ==> |r| <= topN
    ensures DistinctItems(r)
    ensures u in ctx.ui.users ==> forall e :: e in r ==>
      && e.item !in RatedSet(ctx.ui, u)
      && CFWeight(ctx, u, e.item) > 0.0
      && e.score == CFScore(ctx, u, e.item) / CFWeight(ctx, u, e.item)
  {
    if u !in ctx.ui.users then [] else TopN(CFCandidates(ctx, u), topN)
  }

  /** A scorable candidate left out of the result only ever loses to a full
      list of candidates scoring at least as high. */
  lemma ItemCFKeepsBest(ctx: Context, u: int, topN: int, c: ItemId)
    requires ctx.Valid() && u in ctx.ui.users && 0 <= topN
    requires CFWeight(ctx, u, c) > 0.0 && c !in Items(RecommendItemCF(ctx, u, topN))
    ensures |RecommendItemCF(ctx, u, topN)| == topN
    ensures forall k :: 0 <= k < |RecommendItemCF(ctx, u, topN)| ==>
      CFScore(ctx, u, c) / CFWeight(ctx, u, c) <= RecommendItemCF(ctx, u, topN)[k].score
  {
    var all := CFCandidates(ctx, u);
    var r := RecommendItemCF(ctx, u, topN);
    var x := Scored(c, CFScore(ctx, u, c) / CFWeight(ctx, u, c));
    assert x in all;
    assert x !in r;
    TopNKeepsBest(all, topN);
  }

  /** The terms the pairs naming `c` contribute for a seed rated `rating`,
      one per pair, in order. */
  function PairTerms(pairs: seq<Scored>, rating: real, c: ItemId): (ts: seq<Term>)
    ensures forall i :: 0 <= i < |ts| ==> ts[i].rating == rating
  {
    if |pairs| == 0 then []
    else (if pairs[0].item == c then [Term(pairs[0].score, rating)] else []) + PairTerms(pairs[1..], rating, c)
  }

  lemma {:induction false} PairTermsSums(pairs: seq<Scored>, rating: real, c: ItemId)
    ensures PairsScore(pairs, rating, c) == TermsScore(PairTerms(pairs, rating, c))
    ensures PairsWeight(pairs, AbsoluteSim, c) == TermsWeight(PairTerms(pairs, rating, c))
  {
    if |pairs| > 0 {
      PairTermsSums(pairs[1..], rating, c);
      var head: seq<Term> := if pairs[0].item == c then [Term(pairs[0].score, rating)] else [];
      TermsAppend(head, PairTerms(pairs[1..], rating, c));
      assert TermsScore(head) == (if pairs[0].item == c then pairs[0].score * rating else 0.0);
      assert TermsWeight(head) == (if pairs[0].item == c then Abs(pairs[0].score) else 0.0);
    }
  }

  /** Pairs that never name `c` give it no term. */
  lemma {:induction false} PairTermsAbsent(pairs: seq<Scored>, rating: real, c: ItemId)
    requires c !in Items(pairs)
    ensures PairTerms(pairs, rating, c) == []
  {
    if |pairs| > 0 {
      assert pairs[0].item in Items(pairs);
      assert Items(pairs[1..]) <= Items(pairs) by {
        forall x | x in Items(pairs[1..]) ensures x in Items(pairs) {
          var k :| 0 <= k < |pairs[1..]| && pairs[1..][k].item == x;
          assert pairs[k + 1].item == x;
        }
      }
      PairTermsAbsent(pairs[1..], rating, c);
    }
  }

  /** When no candidate is named twice, a candidate gets exactly its own
      pair's term. */
  lemma {:induction false} PairTermsOfDistinct(pairs: seq<Scored>, rating: real, k: nat)
    requires DistinctItems(pairs) && k < |pairs|
    ensures PairTerms(pairs, rating, pairs[k].item) == [Term(pairs[k].score, rating)]
  {
    var tail := pairs[1..];
    assert DistinctItems(tail) by {
      forall i, j | 0 <= i < j < |tail| ensures tail[i].item != tail[j].item {
        assert tail[i] == pairs[i + 1] && tail[j] == pairs[j + 1];
      }
    }
    if k == 0 {
      assert pairs[0].item !in Items(tail) by {
        forall j | 0 <= j < |tail| ensures tail[j].item != pairs[0].item {
          assert tail[j] == pairs[j + 1];
        }
      }
      PairTermsAbsent(tail, rating, pairs[0].item);
    } else {
      assert pairs[k] == tail[k - 1];
      PairTermsOfDistinct(tail, rating, k - 1);
    }
  }

  /** With no repeated ids in the item artifact, a seed the index holds
      gives a listed candidate `c` exactly one term: the matrix entry
      `sim(seed, c)` with the seed's rating. */
  lemma SeedTermOfDistinctIds(t: SimTable, seed: Scored, c: ItemId)
    requires t.WellFormed() && Distinct(t.ids) && seed.item in t.ids && c in t.ids
    ensures PairTerms(Neighbours(t, seed.item, WholeRow), seed.score, c)
      == [Term(t.rows[BuildIndex(t.ids)[seed.item]][BuildIndex(t.ids)[c]], seed.score)]
  {
    var all := RowPairs(t.ids, RowOf(t, seed.item));
    RowPairsDistinct(t.ids, RowOf(t, seed.item));
    var j := BuildIndex(t.ids)[c];
    assert all[j] == Scored(c, RowOf(t, seed.item)[j]);
    PairTermsOfDistinct(all, seed.score, j);
  }

  /** Every (similarity, rating) term item-CF adds up for `c`, seed by seed
      over the whole similarity rows. */
  function SeedsTerms(t: SimTable, seeds: seq<Scored>, c: ItemId): (ts: seq<Term>)
    requires t.WellFormed()
    ensures forall i :: 0 <= i < |ts| ==> exists k :: 0 <= k < |seeds| && ts[i].rating == seeds[k].score
  {
    if |seeds| == 0 then []
    else
      var head := if seeds[0].item !in t.ids then [] else PairTerms(Neighbours(t, seeds[0].item, WholeRow), seeds[0].score, c);
      var rest := SeedsTerms(t, seeds[1..], c);
      assert forall i :: 0 <= i < |rest| ==> exists k :: 0 <= k < |seeds| && rest[i].rating == seeds[k].score by {
        forall i | 0 <= i < |rest| ensures exists k :: 0 <= k < |seeds| && rest[i].rating == seeds[k].score {
          var k :| 0 <= k < |seeds[1..]| && rest[i].rating == seeds[1..][k].score;
          assert seeds[k + 1] == seeds[1..][k];
        }
      }
      head + rest
  }

  /** The nested sums of item-CF are the sums of its flattened terms. */
  lemma {:induction false} SeedsTermsSums(t: SimTable, seeds: seq<Scored>, c: ItemId)
    requires t.WellFormed()
    ensures SeedsScore(t, seeds, WholeRow, c) == TermsScore(SeedsTerms(t, seeds, c))
    ensures SeedsWeight(t, seeds, WholeRow, AbsoluteSim, c) == TermsWeight(SeedsTerms(t, seeds, c))
  {
    if |seeds| > 0 {
      SeedsTermsSums(t, seeds[1..], c);
      var rest := SeedsTerms(t, seeds[1..], c);
      if seeds[0].item in t.ids {
        var ns := Neighbours(t, seeds[0].item, WholeRow);
        PairTermsSums(ns, seeds[0].score, c);
        TermsAppend(PairTerms(ns, seeds[0].score, c), rest);
      } else {
        assert SeedsTerms(t, seeds, c) == rest;
      }
    }
  }

  /** A quotient of equal parts is equal. */
  lemma SameQuotient(s: real, w: real, s2: real, w2: real)
    requires s == s2 && w == w2 && w != 0.0
    ensures s / w == s2 / w2
  {
  }

  /** The ratings the user gave lie in `(0, m]` when no cell of the user's
      row exceeds `m`. */
  lemma RatedWithin(ui: Matrix, u: int, m: real)
    requires ui.WellFormed() && u in ui.users
    requires forall j :: 0 <= j < |ui.items| ==> ui.cells[PositionOf(ui.users, u)][j] <= m
    ensures forall k :: 0 <= k < |Rated(ui, u)| ==> 0.0 < Rated(ui, u)[k].score <= m
  {
    var seeds := Rated(ui, u);
    var v := UserVector(ui, u);
    forall k | 0 <= k < |seeds| ensures 0.0 < seeds[k].score <= m {
      assert seeds[k] in seeds;
      assert seeds[k] in v;
    }
  }

  /** With every seed rating in `(0, m]`, a candidate's weighted mean over
      the seeds lies in `[-m, m]`. */
  lemma SeedsMeanBounded(t: SimTable, seeds: seq<Scored>, c: ItemId, m: real)
    requires t.WellFormed()
    requires forall k :: 0 <= k < |seeds| ==> 0.0 < seeds[k].score <= m
    requires SeedsWeight(t, seeds, WholeRow, AbsoluteSim, c) > 0.0
    ensures Abs(SeedsScore(t, seeds, WholeRow, c) / SeedsWeight(t, seeds, WholeRow, AbsoluteSim, c)) <= m
  {
    var ts := SeedsTerms(t, seeds, c);
    SeedsTermsSums(t, seeds, c);
    forall i | 0 <= i < |ts| ensures 0.0 < ts[i].rating <= m {
      var k :| 0 <= k < |seeds| && ts[i].rating == seeds[k].score;
    }
    MeanBounded(ts, m);
    SameQuotient(SeedsScore(t, seeds, WholeRow, c), SeedsWeight(t, seeds, WholeRow, AbsoluteSim, c), TermsScore(ts), TermsWeight(ts));
  }

  /** Every item-CF score lies within the user's largest rating: each is a
      weighted mean of ratings in `(0, m]` with weights `|sim|`, signed by
      the similarities. */
  lemma ItemCFScoresBounded(ctx: Context, u: int, topN: int, m: real)
    requires ctx.Valid() && u in ctx.ui.users
    requires forall j :: 0 <= j < |ctx.ui.items| ==> ctx.ui.cells[PositionOf(ctx.ui.users, u)][j] <= m
    ensures forall e :: e in RecommendItemCF(ctx, u, topN) ==> Abs(e.score) <= m
  {
    RatedWithin(ctx.ui, u, m);
    forall e | e in RecommendItemCF(ctx, u, topN) ensures Abs(e.score) <= m {
      SeedsMeanBounded(ctx.itemSim, Rated(ctx.ui, u), e.item, m);
    }
  }
}
