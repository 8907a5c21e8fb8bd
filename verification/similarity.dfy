/** A similarity artifact (square matrix plus the item-id order of its
    rows), the id -> row-position index built from it, and the shared
    "top-N similar items" lookup that both the collaborative and the content
    matrices serve. */
module Similarity {
  import opened Basics
  import opened Ranking

  /** `rows[i][j]` is the similarity of item `ids[i]` to item `ids[j]`. */
  datatype SimTable = SimTable(ids: seq<ItemId>, rows: seq<seq<real>>)
  {
    /** Square, one row and one column per listed id. */
    predicate WellFormed()
    {
      && |rows| == |ids|
      && forall i :: 0 <= i < |rows| ==> |rows[i]| == |ids|
    }
  }

  /** `{mid: idx for idx, mid in enumerate(ids)}`: every listed id maps to a
      position holding it, and a repeated id keeps its last position. */
  function BuildIndex(ids: seq<ItemId>): (m: map<ItemId, nat>)
    ensures forall id :: id in m <==> id in ids
    ensures forall id :: id in m ==> m[id] < |ids| && ids[m[id]] == id
    ensures forall id, j :: id in m && 0 <= j < |ids| && ids[j] == id ==> j <= m[id]
    ensures Distinct(ids) ==> forall i :: 0 <= i < |ids| ==> ids[i] in m && m[ids[i]] == i
  {
    if |ids| == 0 then map[]
    else
      var last := |ids| - 1;
      var prefix := BuildIndex(ids[..last]);
      assert ids == ids[..last] + [ids[last]];
      prefix[ids[last] := last]
  }

  /** The similarity row of a listed item. */
  function RowOf(t: SimTable, id: ItemId): (row: seq<real>)
    requires t.WellFormed() && id in t.ids
    ensures |row| == |t.ids|
  {
    t.rows[BuildIndex(t.ids)[id]]
  }

  /** The row paired with the column ids: `(ids[j], row[j])` for every
      position `j`. */
  function RowPairs(ids: seq<ItemId>, row: seq<real>): (r: seq<Scored>)
    requires |row| == |ids|
    ensures |r| == |ids|
    ensures forall j :: 0 <= j < |ids| ==> r[j] == Scored(ids[j], row[j])
  {
    seq(|ids|, j requires 0 <= j < |ids| => Scored(ids[j], row[j]))
  }

  /** Pairing distinct ids with a row names each item once. */
  lemma RowPairsDistinct(ids: seq<ItemId>, row: seq<real>)
    requires |row| == |ids| && Distinct(ids)
    ensures DistinctItems(RowPairs(ids, row))
  {
  }

  /** `get_top_n_similar_items_*`: nothing for an id the index does not
      hold; otherwise the row's (id, similarity) pairs in descending order,
      without the first one (the item itself when it is the row's unique
      maximum), cut to `n` with Python's slice `[1:n+1]`. */
  function TopNSimilar(t: SimTable, id: ItemId, n: int := 10): (r: seq<Scored>)
    requires t.WellFormed()
    ensures id !in t.ids ==> r == []
    ensures NonIncreasing(r)
    ensures 0 <= n ==> |r| <= n
    ensures id in t.ids && 0 <= n ==> |r| == Min(n, |t.ids| - 1)
    ensures id in t.ids ==> forall e :: e in r ==> e in RowPairs(t.ids, RowOf(t, id))
  {
    var index := BuildIndex(t.ids);
    if id !in index then []
    else TopAfterBest(RowPairs(t.ids, t.rows[index[id]]), n)
  }

  /** With no repeated ids the lookup repeats no item, and each returned
      score is the matrix entry for the returned item in the requested
      item's own row. */
  lemma TopNSimilarScores(t: SimTable, id: ItemId, n: int)
    requires t.WellFormed() && Distinct(t.ids) && id in t.ids
    ensures DistinctItems(TopNSimilar(t, id, n))
    ensures forall e :: e in TopNSimilar(t, id, n) ==>
      e.item in t.ids && e.score == t.rows[BuildIndex(t.ids)[id]][BuildIndex(t.ids)[e.item]]
  {
    var index := BuildIndex(t.ids);
    var all := RowPairs(t.ids, t.rows[index[id]]);
    assert DistinctItems(TopNSimilar(t, id, n)) by {
      RowPairsDistinct(t.ids, t.rows[index[id]]);
      assert TopNSimilar(t, id, n) == TopAfterBest(all, n);
    }
    forall e | e in TopNSimilar(t, id, n)
      ensures e.item in t.ids && e.score == t.rows[index[id]][index[e.item]]
    {
      RowPairsEntry(t.ids, t.rows[index[id]], e);
    }
  }

  /** With distinct ids, a pair of the row carries the row's cell at its
      item's index. */
  lemma RowPairsEntry(ids: seq<ItemId>, row: seq<real>, e: Scored)
    requires |row| == |ids| && Distinct(ids) && e in RowPairs(ids, row)
    ensures e.item in ids && e.score == row[BuildIndex(ids)[e.item]]
  {
    var j :| 0 <= j < |ids| && RowPairs(ids, row)[j] == e;
    assert BuildIndex(ids)[e.item] == j;
  }

  /** The entry the lookup skips is a maximum of the row, and everything it
      returns comes from the row besides that entry; every other row entry
      it leaves out scores no higher than the entries it returns. */
  lemma TopNSimilarSkipsOneMaximum(t: SimTable, id: ItemId, n: int)
    requires t.WellFormed() && id in t.ids && 0 <= n
    ensures exists top ::
      && top in RowPairs(t.ids, RowOf(t, id))
      && (forall x :: x in RowPairs(t.ids, RowOf(t, id)) ==> x.score <= top.score)
      && multiset(TopNSimilar(t, id, n)) + multiset{top} <= multiset(RowPairs(t.ids, RowOf(t, id)))
      && (forall x :: x in RowPairs(t.ids, RowOf(t, id)) && x !in TopNSimilar(t, id, n) && x != top ==>
            forall k :: 0 <= k < |TopNSimilar(t, id, n)| ==> x.score <= TopNSimilar(t, id, n)[k].score)
  {
    var all := RowPairs(t.ids, RowOf(t, id));
    assert TopNSimilar(t, id, n) == TopAfterBest(all, n);
    BestIsMaximum(all);
    TopAfterBestKeeps(all, n);
    var top := Best(all);
    assert top in all;
  }

  /** The positional skip removes the item itself whenever its
      self-similarity is the unique maximum of its row (ids not repeated). */
  lemma SelfExcludedWhenUniqueMaximum(t: SimTable, i: nat, n: int)
    requires t.WellFormed() && Distinct(t.ids) && i < |t.ids|
    requires forall j :: 0 <= j < |t.ids| && j != i ==> t.rows[i][j] < t.rows[i][i]
    ensures t.ids[i] !in Items(TopNSimilar(t, t.ids[i], n))
  {
    var all := RowPairs(t.ids, t.rows[i]);
    RowPairsDistinct(t.ids, t.rows[i]);
    assert TopNSimilar(t, t.ids[i], n) == TopAfterBest(all, n);
    UniqueMaximumIsBest(all, i);
    BestNotKept(all, n);
  }
}
