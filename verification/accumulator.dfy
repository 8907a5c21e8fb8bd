/** The per-request score accumulators of the recommender: two
    `defaultdict(float)`s (weighted sum and weight sum) sharing their keys,
    held as one list of entries in first-insertion order like a Python dict,
    and the normalisation `sum / weight` that turns them into scored
    candidates. */
module Accumulator {
  import opened Basics
  import opened Ranking

  /** What the two dicts hold for one candidate. */
  datatype Entry = Entry(item: ItemId, score: real, weight: real)

  function Keys(acc: seq<Entry>): set<ItemId>
  {
    set k | 0 <= k < |acc| :: acc[k].item
  }

  predicate DistinctKeys(acc: seq<Entry>)
  {
    forall i, j :: 0 <= i < j < |acc| ==> acc[i].item != acc[j].item
  }

  /** The weighted sum held for `c`; 0.0, the `defaultdict` default, when
      `c` was never added. */
  function ScoreOf(acc: seq<Entry>, c: ItemId): real
  {
    if |acc| == 0 then 0.0
    else (if acc[0].item == c then acc[0].score else 0.0) + ScoreOf(acc[1..], c)
  }

  /** The weight sum held for `c`; 0.0 when `c` was never added. */
  function WeightOf(acc: seq<Entry>, c: ItemId): real
  {
    if |acc| == 0 then 0.0
    else (if acc[0].item == c then acc[0].weight else 0.0) + WeightOf(acc[1..], c)
  }

  lemma KeysCons(e: Entry, acc: seq<Entry>)
    ensures Keys([e] + acc) == {e.item} + Keys(acc)
  {
    var t := [e] + acc;
    assert t[0].item == e.item;
    forall c | c in Keys(t) ensures c in {e.item} + Keys(acc) {
      var k :| 0 <= k < |t| && t[k].item == c;
      if k > 0 { assert acc[k - 1].item == c; }
    }
    forall c | c in Keys(acc) ensures c in Keys(t) {
      var k :| 0 <= k < |acc| && acc[k].item == c;
      assert t[k + 1].item == c;
    }
  }

  /** A key never added holds the defaults. */
  lemma {:induction false} AbsentKey(acc: seq<Entry>, c: ItemId)
    requires c !in Keys(acc)
    ensures ScoreOf(acc, c) == 0.0 && WeightOf(acc, c) == 0.0
  {
    if |acc| > 0 {
      assert acc == [acc[0]] + acc[1..];
      KeysCons(acc[0], acc[1..]);
      AbsentKey(acc[1..], c);
    }
  }

  /** A list of entries repeats no key exactly when its head's key is not
      in its tail and its tail repeats none. */
  lemma DistinctKeysCons(e: Entry, acc: seq<Entry>)
    ensures DistinctKeys([e] + acc) <==> e.item !in Keys(acc) && DistinctKeys(acc)
  {
    var t := [e] + acc;
    assert t[0] == e;
    if e.item !in Keys(acc) && DistinctKeys(acc) {
      forall i, j | 0 <= i < j < |t| ensures t[i].item != t[j].item {
        if i == 0 {
          assert t[j] == acc[j - 1];
          assert acc[j - 1].item in Keys(acc);
        } else {
          assert t[i] == acc[i - 1] && t[j] == acc[j - 1];
        }
      }
    }
    if DistinctKeys(t) {
      forall i, j | 0 <= i < j < |acc| ensures acc[i].item != acc[j].item {
        assert t[i + 1] == acc[i] && t[j + 1] == acc[j];
      }
      forall k | 0 <= k < |acc| ensures acc[k].item != e.item {
        assert t[k + 1] == acc[k];
      }
    }
  }

  /** `score[id] += ds; weight[id] += dw`. */
  function Add(acc: seq<Entry>, id: ItemId, ds: real, dw: real): (r: seq<Entry>)
    ensures forall c :: ScoreOf(r, c) == ScoreOf(acc, c) + (if c == id then ds else 0.0)
    ensures forall c :: WeightOf(r, c) == WeightOf(acc, c) + (if c == id then dw else 0.0)
    ensures Keys(r) == Keys(acc) + {id}
    ensures DistinctKeys(acc) ==> DistinctKeys(r)
  {
    if |acc| == 0 then
      KeysCons(Entry(id, ds, dw), []);
      [Entry(id, ds, dw)]
    else
      var head := if acc[0].item == id then Entry(id, acc[0].score + ds, acc[0].weight + dw) else acc[0];
      var tail := if acc[0].item == id then acc[1..] else Add(acc[1..], id, ds, dw);
      var r := [head] + tail;
      assert acc == [acc[0]] + acc[1..];
      assert r[0] == head && r[1..] == tail;
      assert Keys(r) == Keys(acc) + {id} by {
        KeysCons(head, tail);
        KeysCons(acc[0], acc[1..]);
      }
      assert DistinctKeys(acc) ==> DistinctKeys(r) by {
        DistinctKeysCons(head, tail);
        DistinctKeysCons(acc[0], acc[1..]);
      }
      r
  }

  /** How a neighbour's similarity enters the weight sum: item-CF adds
      `abs(sim)`, content seeding adds the raw `sim`. */
  datatype WeightRule = AbsoluteSim | RawSim

  function WeightFor(rule: WeightRule, sim: real): real
  {
    match rule
    case AbsoluteSim => Abs(sim)
    case RawSim => sim
  }

  /** What the (candidate, similarity) pairs naming `c` contribute to its
      weighted sum for a seed rated `rating`: the sum of `sim * rating`. */
  function PairsScore(pairs: seq<Scored>, rating: real, c: ItemId): real
  {
    if |pairs| == 0 then 0.0
    else (if pairs[0].item == c then pairs[0].score * rating else 0.0) + PairsScore(pairs[1..], rating, c)
  }

  /** What the pairs naming `c` contribute to its weight sum. */
  function PairsWeight(pairs: seq<Scored>, rule: WeightRule, c: ItemId): real
  {
    if |pairs| == 0 then 0.0
    else (if pairs[0].item == c then WeightFor(rule, pairs[0].score) else 0.0) + PairsWeight(pairs[1..], rule, c)
  }

  /** One step of the inner loop of both recommenders: unless the
      candidate is in `skip`, `score[candidate] += sim * rating` and
      `weight[candidate] += ` its weight. */
  function AddPair(acc: seq<Entry>, p: Scored, rating: real, rule: WeightRule, skip: set<ItemId>): (r: seq<Entry>)
    ensures forall c :: ScoreOf(r, c) == ScoreOf(acc, c) + (if c in skip || c != p.item then 0.0 else p.score * rating)
    ensures forall c :: WeightOf(r, c) == WeightOf(acc, c) + (if c in skip || c != p.item then 0.0 else WeightFor(rule, p.score))
    ensures DistinctKeys(acc) ==> DistinctKeys(r)
  {
    if p.item in skip then acc else Add(acc, p.item, p.score * rating, WeightFor(rule, p.score))
  }

  /** The inner loop over a list of (candidate, similarity) pairs. */
  function AddPairs(acc: seq<Entry>, pairs: seq<Scored>, rating: real, rule: WeightRule, skip: set<ItemId>): (r: seq<Entry>)
    ensures DistinctKeys(acc) ==> DistinctKeys(r)
    decreases |pairs|
  {
    if |pairs| == 0 then acc
    else AddPairs(AddPair(acc, pairs[0], rating, rule, skip), pairs[1..], rating, rule, skip)
  }

  /** After the loop each candidate outside `skip` holds what its pairs
      contribute to its weighted sum, and a skipped one what it held before. */
  lemma {:induction false} AddPairsScore(acc: seq<Entry>, pairs: seq<Scored>, rating: real, rule: WeightRule, skip: set<ItemId>, c: ItemId)
    ensures ScoreOf(AddPairs(acc, pairs, rating, rule, skip), c)
      == ScoreOf(acc, c) + (if c in skip then 0.0 else PairsScore(pairs, rating, c))
    decreases |pairs|
  {
    if |pairs| > 0 {
      AddPairsScore(AddPair(acc, pairs[0], rating, rule, skip), pairs[1..], rating, rule, skip, c);
    }
  }

  /** The same for the weight sum. */
  lemma {:induction false} AddPairsWeight(acc: seq<Entry>, pairs: seq<Scored>, rating: real, rule: WeightRule, skip: set<ItemId>, c: ItemId)
    ensures WeightOf(AddPairs(acc, pairs, rating, rule, skip), c)
      == WeightOf(acc, c) + (if c in skip then 0.0 else PairsWeight(pairs, rule, c))
    decreases |pairs|
  {
    if |pairs| > 0 {
      AddPairsWeight(AddPair(acc, pairs[0], rating, rule, skip), pairs[1..], rating, rule, skip, c);
    }
  }

  /** Only a candidate some pair names gets a weight. */
  lemma {:induction false} PairsWeightNamesCandidate(pairs: seq<Scored>, rule: WeightRule, c: ItemId)
    ensures PairsWeight(pairs, rule, c) != 0.0 ==> c in Items(pairs)
  {
    if |pairs| > 0 {
      PairsWeightNamesCandidate(pairs[1..], rule, c);
      ItemsCons(pairs[0], pairs[1..]);
      assert pairs == [pairs[0]] + pairs[1..];
    }
  }

  /** Pairs that never name `c` give it nothing. */
  lemma {:induction false} PairsAbsent(pairs: seq<Scored>, rating: real, rule: WeightRule, c: ItemId)
    requires c !in Items(pairs)
    ensures PairsScore(pairs, rating, c) == 0.0 && PairsWeight(pairs, rule, c) == 0.0
  {
    if |pairs| > 0 {
      assert pairs[0].item in Items(pairs);
      assert Items(pairs[1..]) <= Items(pairs) by {
        forall x | x in Items(pairs[1..]) ensures x in Items(pairs) {
          var k :| 0 <= k < |pairs[1..]| && pairs[1..][k].item == x;
          assert pairs[k + 1].item == x;
        }
      }
      PairsAbsent(pairs[1..], rating, rule, c);
    }
  }

  /** When no candidate is named twice, a candidate receives exactly its own
      pair's contribution. */
  lemma {:induction false} PairsOfDistinct(pairs: seq<Scored>, rating: real, rule: WeightRule, k: nat)
    requires DistinctItems(pairs) && k < |pairs|
    ensures PairsScore(pairs, rating, pairs[k].item) == pairs[k].score * rating
    ensures PairsWeight(pairs, rule, pairs[k].item) == WeightFor(rule, pairs[k].score)
  {
    var tail := pairs[1..];
    assert DistinctItems(tail) by {
      forall i, j | 0 <= i < j < |tail| ensures tail[i].item != tail[j].item {
        assert tail[i] == pairs[i + 1] && tail[j] == pairs[j + 1];
      }
    }
    if k == 0 {
      assert pairs[0].item !in Items(tail) by {
        forall j | 0 <= j < |tail| ensures tail[j].item != pairs[0].item {
          assert tail[j] == pairs[j + 1];
        }
      }
      PairsAbsent(tail, rating, rule, pairs[0].item);
    } else {
      assert pairs[k] == tail[k - 1];
      PairsOfDistinct(tail, rating, rule, k - 1);
    }
  }

  lemma {:induction false} HeadKeyUnique(acc: seq<Entry>)
    requires DistinctKeys(acc) && 0 < |acc|
    ensures acc[0].item !in Keys(acc[1..])
    ensures forall c :: c != acc[0].item ==> ScoreOf(acc, c) == ScoreOf(acc[1..], c)
    ensures forall c :: c != acc[0].item ==> WeightOf(acc, c) == WeightOf(acc[1..], c)
    ensures ScoreOf(acc, acc[0].item) == acc[0].score && WeightOf(acc, acc[0].item) == acc[0].weight
  {
    forall k | 0 <= k < |acc| - 1 ensures acc[1..][k].item != acc[0].item {
      assert acc[k + 1].item != acc[0].item;
    }
    AbsentKey(acc[1..], acc[0].item);
  }

  /** `[(mid, score[mid] / weight[mid]) for mid in score if weight[mid] > 0]`:
      only candidates with a positive weight sum, each scored by its
      weighted mean. */
  function Normalize(acc: seq<Entry>): (r: seq<Scored>)
    requires DistinctKeys(acc)
    ensures Items(r) <= Keys(acc)
    ensures forall e :: e in r ==>
      WeightOf(acc, e.item) > 0.0 && e.score == ScoreOf(acc, e.item) / WeightOf(acc, e.item)
  {
    if |acc| == 0 then []
    else
      var head := acc[0];
      var rest := Normalize(acc[1..]);
      assert acc == [head] + acc[1..];
      KeysCons(head, acc[1..]);
      HeadKeyUnique(acc);
      assert forall e :: e in rest ==> e.item in Items(rest);
      if head.weight > 0.0 then
        ItemsCons(Scored(head.item, head.score / head.weight), rest);
        [Scored(head.item, head.score / head.weight)] + rest
      else
        rest
  }

  /** Every candidate with a positive weight sum is emitted, once. */
  lemma {:induction false} NormalizeComplete(acc: seq<Entry>)
    requires DistinctKeys(acc)
    ensures DistinctItems(Normalize(acc))
    ensures forall c :: WeightOf(acc, c) > 0.0 ==> Scored(c, ScoreOf(acc, c) / WeightOf(acc, c)) in Normalize(acc)
  {
    if |acc| > 0 {
      var head := acc[0];
      var rest := Normalize(acc[1..]);
      NormalizeComplete(acc[1..]);
      HeadKeyUnique(acc);
      forall c | WeightOf(acc, c) > 0.0 && c != head.item
        ensures Scored(c, ScoreOf(acc, c) / WeightOf(acc, c)) in Normalize(acc)
      {
        assert Scored(c, ScoreOf(acc[1..], c) / WeightOf(acc[1..], c)) in rest;
      }
      if head.weight > 0.0 {
        var r := Normalize(acc);
        assert r == [Scored(head.item, head.score / head.weight)] + rest;
        assert head.item !in Items(rest);
        DistinctCons(Scored(head.item, head.score / head.weight), rest);
      }
    }
  }
}
