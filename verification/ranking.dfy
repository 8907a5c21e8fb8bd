/** Ranked lists of (item id, score) pairs: the non-increasing order the
    recommender promises, the stable descending sort it uses, the per-item
    totals that its `dict.get(id, 0) + x` merges compute, and what truncating
    a ranking keeps. */
module Ranking {
  import opened Basics

  type ItemId = int

  /** One `(movie id, score)` tuple of a result list. */
  datatype Scored = Scored(item: ItemId, score: real)

  /** Scores never increase along the list; ties may come in any order. */
  predicate NonIncreasing(s: seq<Scored>)
  {
    forall i, j :: 0 <= i < j < |s| ==> s[i].score >= s[j].score
  }

  function Items(s: seq<Scored>): set<ItemId>
  {
    set k | 0 <= k < |s| :: s[k].item
  }

  predicate DistinctItems(s: seq<Scored>)
  {
    forall i, j :: 0 <= i < j < |s| ==> s[i].item != s[j].item
  }

  lemma ItemsCons(x: Scored, s: seq<Scored>)
    ensures Items([x] + s) == {x.item} + Items(s)
  {
    var t := [x] + s;
    assert t[0].item == x.item;
    forall c | c in Items(t) ensures c in {x.item} + Items(s) {
      var k :| 0 <= k < |t| && t[k].item == c;
      if k > 0 { assert s[k - 1].item == c; }
    }
    forall c | c in Items(s) ensures c in Items(t) {
      var k :| 0 <= k < |s| && s[k].item == c;
      assert t[k + 1].item == c;
    }
  }

  /** A list repeats no item exactly when its head is not in its tail and
      its tail repeats none. */
  lemma DistinctCons(x: Scored, s: seq<Scored>)
    ensures DistinctItems([x] + s) <==> x.item !in Items(s) && DistinctItems(s)
  {
    var t := [x] + s;
    if x.item !in Items(s) && DistinctItems(s) {
      forall i, j | 0 <= i < j < |t| ensures t[i].item != t[j].item {
        if i == 0 {
          assert t[j] == s[j - 1];
          assert s[j - 1].item in Items(s);
        } else {
          assert t[i] == s[i - 1] && t[j] == s[j - 1];
        }
      }
    }
    if DistinctItems(t) {
      forall i, j | 0 <= i < j < |s| ensures s[i].item != s[j].item {
        assert t[i + 1] == s[i] && t[j + 1] == s[j];
      }
      assert t[0] == x;
      forall k | 0 <= k < |s| ensures s[k].item != x.item {
        assert t[k + 1] == s[k];
      }
    }
  }

  /** Reordering a list keeps its set of items. */
  lemma ItemsOfPermutation(a: seq<Scored>, b: seq<Scored>)
    requires multiset(a) == multiset(b)
    ensures Items(a) == Items(b)
  {
    forall c | c in Items(a) ensures c in Items(b) {
      var k :| 0 <= k < |a| && a[k].item == c;
      assert a[k] in multiset(b);
      var j :| 0 <= j < |b| && b[j] == a[k];
    }
    forall c | c in Items(b) ensures c in Items(a) {
      var k :| 0 <= k < |b| && b[k].item == c;
      assert b[k] in multiset(a);
      var j :| 0 <= j < |a| && a[j] == b[k];
    }
  }

  /** Places `x` in front of the first entry whose score does not exceed its
      own, so that an earlier entry stays ahead of later entries with an
      equal score (the stable order of Python's `sort(reverse=True)`). */
  function Insert(x: Scored, s: seq<Scored>): (r: seq<Scored>)
    ensures multiset(r) == multiset(s) + multiset{x}
    ensures |r| == |s| + 1
    ensures r[0] == x || (0 < |s| && r[0] == s[0])
  {
    if |s| == 0 || x.score >= s[0].score then
      [x] + s
    else
      var rest := Insert(x, s[1..]);
      assert s == [s[0]] + s[1..];
      [s[0]] + rest
  }

  lemma {:induction false} InsertSorted(x: Scored, s: seq<Scored>)
    requires NonIncreasing(s)
    ensures NonIncreasing(Insert(x, s))
  {
    var r := Insert(x, s);
    if |s| == 0 || x.score >= s[0].score {
      assert r == [x] + s;
      forall i, j | 0 <= i < j < |r| ensures r[i].score >= r[j].score {
        if i == 0 {
          assert r[j] == s[j - 1];
        } else {
          assert r[i] == s[i - 1] && r[j] == s[j - 1];
        }
      }
    } else {
      var rest := Insert(x, s[1..]);
      InsertSorted(x, s[1..]);
      assert r == [s[0]] + rest;
      assert s[0].score >= rest[0].score;
      forall i, j | 0 <= i < j < |r| ensures r[i].score >= r[j].score {
        if i == 0 {
          assert r[j] == rest[j - 1];
          assert rest[0].score >= rest[j - 1].score;
        } else {
          assert r[i] == rest[i - 1] && r[j] == rest[j - 1];
        }
      }
    }
  }

  lemma {:induction false} InsertItems(x: Scored, s: seq<Scored>)
    ensures Items(Insert(x, s)) == Items(s) + {x.item}
  {
    if |s| == 0 || x.score >= s[0].score {
      ItemsCons(x, s);
    } else {
      assert s == [s[0]] + s[1..];
      ItemsCons(s[0], s[1..]);
      InsertItems(x, s[1..]);
      ItemsCons(s[0], Insert(x, s[1..]));
    }
  }

  lemma {:induction false} InsertDistinct(x: Scored, s: seq<Scored>)
    requires DistinctItems(s) && x.item !in Items(s)
    ensures DistinctItems(Insert(x, s))
  {
    var r := Insert(x, s);
    if |s| == 0 || x.score >= s[0].score {
      assert r == [x] + s;
      forall i, j | 0 <= i < j < |r| ensures r[i].item != r[j].item {
        if i == 0 {
          assert r[j] == s[j - 1];
          assert s[j - 1].item in Items(s);
        } else {
          assert r[i] == s[i - 1] && r[j] == s[j - 1];
        }
      }
    } else {
      assert s == [s[0]] + s[1..];
      ItemsCons(s[0], s[1..]);
      var rest := Insert(x, s[1..]);
      InsertDistinct(x, s[1..]);
      InsertItems(x, s[1..]);
      assert s[0].item !in Items(rest) by {
        forall k | 0 <= k < |s| - 1 ensures s[1..][k].item != s[0].item {
          assert s[k + 1].item != s[0].item;
        }
      }
      assert r == [s[0]] + rest;
      forall i, j | 0 <= i < j < |r| ensures r[i].item != r[j].item {
        if i == 0 {
          assert r[j] == rest[j - 1];
          assert rest[j - 1].item in Items(rest);
        } else {
          assert r[i] == rest[i - 1] && r[j] == rest[j - 1];
        }
      }
    }
  }

  /** Inserting the head of a list without repeated items into any
      permutation of its tail repeats no item. */
  lemma InsertHeadDistinct(s: seq<Scored>, rest: seq<Scored>)
    requires 0 < |s| && DistinctItems(s)
    requires multiset(rest) == multiset(s[1..]) && DistinctItems(rest)
    ensures DistinctItems(Insert(s[0], rest))
  {
    ItemsOfPermutation(rest, s[1..]);
    assert s[0].item !in Items(s[1..]) by {
      forall k | 0 <= k < |s| - 1 ensures s[1..][k].item != s[0].item {
        assert s[k + 1].item != s[0].item;
      }
    }
    InsertDistinct(s[0], rest);
  }

  /** Python's `sorted(s, key=score, reverse=True)`. */
  function SortDesc(s: seq<Scored>): (r: seq<Scored>)
    ensures multiset(r) == multiset(s)
    ensures |r| == |s|
    ensures NonIncreasing(r)
    ensures DistinctItems(s) ==> DistinctItems(r)
  {
    if |s| == 0 then []
    else
      assert s == [s[0]] + s[1..];
      var rest := SortDesc(s[1..]);
      InsertSorted(s[0], rest);
      assert DistinctItems(s) ==> DistinctItems(s[1..]);
      if DistinctItems(s) then
        InsertHeadDistinct(s, rest);
        Insert(s[0], rest)
      else
        Insert(s[0], rest)
  }

  /** Sorting keeps every entry and adds none. */
  lemma SortDescMembers(s: seq<Scored>)
    ensures forall e :: e in SortDesc(s) <==> e in s
    ensures Items(SortDesc(s)) == Items(s)
  {
    var r := SortDesc(s);
    assert forall e :: e in r <==> e in multiset(r);
    assert forall e :: e in s <==> e in multiset(s);
    ItemsOfPermutation(r, s);
  }

  /** The sum of the scores listed for `c`: what a `+=` accumulation into a
      dict leaves under key `c`, and 0 when `c` is never listed. */
  function Total(s: seq<Scored>, c: ItemId): real
  {
    if |s| == 0 then 0.0
    else (if s[0].item == c then s[0].score else 0.0) + Total(s[1..], c)
  }

  lemma {:induction false} TotalAbsent(s: seq<Scored>, c: ItemId)
    requires c !in Items(s)
    ensures Total(s, c) == 0.0
  {
    if |s| > 0 {
      ItemsCons(s[0], s[1..]);
      assert s == [s[0]] + s[1..];
      TotalAbsent(s[1..], c);
    }
  }

  /** In a list without repeated items, the total of a listed item is its
      one score, so a `dict` built from the list maps it to that score. */
  lemma {:induction false} TotalOfDistinct(s: seq<Scored>, k: nat)
    requires DistinctItems(s) && k < |s|
    ensures Total(s, s[k].item) == s[k].score
  {
    assert s == [s[0]] + s[1..];
    ItemsCons(s[0], s[1..]);
    if k == 0 {
      assert s[0].item !in Items(s[1..]);
      TotalAbsent(s[1..], s[0].item);
    } else {
      TotalOfDistinct(s[1..], k - 1);
    }
  }

  /** `m[id] = m.get(id, 0) + d` on an insertion-ordered dict. */
  function Bump(m: seq<Scored>, id: ItemId, d: real): (r: seq<Scored>)
    ensures forall c :: Total(r, c) == Total(m, c) + (if c == id then d else 0.0)
    ensures Items(r) == Items(m) + {id}
    ensures DistinctItems(m) ==> DistinctItems(r)
  {
    if |m| == 0 then
      ItemsCons(Scored(id, d), []);
      [Scored(id, d)]
    else
      var head := if m[0].item == id then Scored(id, m[0].score + d) else m[0];
      var tail := if m[0].item == id then m[1..] else Bump(m[1..], id, d);
      var r := [head] + tail;
      assert m == [m[0]] + m[1..];
      assert r[0] == head && r[1..] == tail;
      assert Items(r) == Items(m) + {id} by {
        ItemsCons(head, tail);
        ItemsCons(m[0], m[1..]);
      }
      assert DistinctItems(m) ==> DistinctItems(r) by {
        DistinctCons(head, tail);
        DistinctCons(m[0], m[1..]);
      }
      r
  }

  /** A slice of a ranking is a ranking, and repeats no item the ranking
      does not repeat. */
  lemma SliceOfRanking(s: seq<Scored>, lo: int, hi: int)
    ensures NonIncreasing(s) ==> NonIncreasing(Slice(s, lo, hi))
    ensures DistinctItems(s) ==> DistinctItems(Slice(s, lo, hi))
    ensures forall e :: e in Slice(s, lo, hi) ==> e in s
    ensures Items(Slice(s, lo, hi)) <= Items(s)
  {
    var r := Slice(s, lo, hi);
    var a := SliceBound(lo, |s|);
    forall c | c in Items(r) ensures c in Items(s) {
      var k :| 0 <= k < |r| && r[k].item == c;
      assert s[a + k].item == c;
    }
  }

  /** Truncating the descending ranking of `all` to its first `n` entries
      keeps `min(n, |all|)` entries, and every entry it drops scores no higher
      than any entry it keeps. */
  lemma TopOfRanking(all: seq<Scored>, n: int)
    requires 0 <= n
    ensures |Slice(SortDesc(all), 0, n)| == Min(n, |all|)
    ensures forall x :: x in all && x !in Slice(SortDesc(all), 0, n) ==> |Slice(SortDesc(all), 0, n)| == n
    ensures forall x :: x in all && x !in Slice(SortDesc(all), 0, n) ==>
      forall k :: 0 <= k < |Slice(SortDesc(all), 0, n)| ==> x.score <= Slice(SortDesc(all), 0, n)[k].score
  {
    var sorted := SortDesc(all);
    var r := Slice(sorted, 0, n);
    SortDescMembers(all);
    assert forall i :: 0 <= i < |r| ==> sorted[i] == r[i];
    forall x | x in all && x !in r
      ensures |r| == n
      ensures forall k :: 0 <= k < |r| ==> x.score <= r[k].score
    {
      var j :| 0 <= j < |sorted| && sorted[j] == x;
      assert |r| <= j;
    }
  }

  lemma TopAfterFirst(all: seq<Scored>, hi: int)
    requires 1 <= hi && 0 < |all|
    ensures SortDesc(all)[0] in all
    ensures forall x :: x in all ==> x.score <= SortDesc(all)[0].score
    ensures forall x :: x in all && x !in Slice(SortDesc(all), 1, hi) && x != SortDesc(all)[0] ==>
      forall k :: 0 <= k < |Slice(SortDesc(all), 1, hi)| ==> x.score <= Slice(SortDesc(all), 1, hi)[k].score
  {
    var sorted := SortDesc(all);
    var r := Slice(sorted, 1, hi);
    SortDescMembers(all);
    assert sorted[0] in sorted;
    assert forall i :: 1 <= i <= |r| ==> sorted[i] == r[i - 1];
    forall x | x in all ensures x.score <= sorted[0].score {
      var j :| 0 <= j < |sorted| && sorted[j] == x;
    }
    forall x | x in all && x !in r && x != sorted[0]
      ensures forall k :: 0 <= k < |r| ==> x.score <= r[k].score
    {
      var j :| 0 <= j < |sorted| && sorted[j] == x;
      assert j != 0;
      assert j > |r|;
    }
  }

  lemma SliceAfterFirst(t: seq<Scored>, hi: int)
    requires 1 <= hi && 0 < |t|
    ensures multiset(Slice(t, 1, hi)) + multiset{t[0]} <= multiset(t)
  {
    var m := Min(hi, |t|);
    var mid := t[1..m];
    assert Slice(t, 1, hi) == mid;
    assert t == [t[0]] + t[1..];
    assert t[1..] == mid + t[m..];
  }

  lemma TopAfterFirstFrom(all: seq<Scored>, hi: int)
    requires 1 <= hi && 0 < |all|
    ensures multiset(Slice(SortDesc(all), 1, hi)) + multiset{SortDesc(all)[0]} <= multiset(all)
  {
    SliceAfterFirst(SortDesc(all), hi);
  }

  /** `sorted(all, key=score, reverse=True)[:n]`. */
  function TopN(all: seq<Scored>, n: int): (r: seq<Scored>)
    ensures NonIncreasing(r)
    ensures 0 <= n ==> |r| <= n
    ensures forall e :: e in r ==> e in all
    ensures Items(r) <= Items(all)
    ensures DistinctItems(all) ==> DistinctItems(r)
  {
    var sorted := SortDesc(all);
    SliceOfRanking(sorted, 0, n);
    SortDescMembers(all);
    Slice(sorted, 0, n)
  }

  /** `TopN` keeps the best `min(n, |all|)` entries: it leaves something
      out only when full, and whatever it leaves out scores no higher than
      anything it keeps. */
  lemma TopNKeepsBest(all: seq<Scored>, n: int)
    requires 0 <= n
    ensures |TopN(all, n)| == Min(n, |all|)
    ensures forall x :: x in all && x !in TopN(all, n) ==> |TopN(all, n)| == n
    ensures forall x :: x in all && x !in TopN(all, n) ==>
      forall k :: 0 <= k < |TopN(all, n)| ==> x.score <= TopN(all, n)[k].score
  {
    TopOfRanking(all, n);
  }

  /** The descending order of `all` with its first entry dropped, cut to `n`
      entries: `sorted(all, reverse)[1:n+1]`. */
  function TopAfterBest(all: seq<Scored>, n: int): (r: seq<Scored>)
    ensures NonIncreasing(r)
    ensures 0 <= n ==> |r| <= n
    ensures 0 <= n && 0 < |all| ==> |r| == Min(n, |all| - 1)
    ensures forall e :: e in r ==> e in all
    ensures DistinctItems(all) ==> DistinctItems(r)
  {
    var sorted := SortDesc(all);
    SliceOfRanking(sorted, 1, n + 1);
    SortDescMembers(all);
    Slice(sorted, 1, n + 1)
  }

  /** The entry `TopAfterBest` drops: the first of the descending order. */
  function Best(all: seq<Scored>): Scored
    requires 0 < |all|
  {
    SortDesc(all)[0]
  }

  /** The dropped entry is a maximum of `all`. */
  lemma BestIsMaximum(all: seq<Scored>)
    requires 0 < |all|
    ensures Best(all) in all
    ensures forall x :: x in all ==> x.score <= Best(all).score
  {
    TopAfterFirst(all, 1);
  }

  /** A strict unique maximum is the entry dropped. */
  lemma UniqueMaximumIsBest(all: seq<Scored>, i: nat)
    requires i < |all|
    requires forall j :: 0 <= j < |all| && j != i ==> all[j].score < all[i].score
    ensures Best(all) == all[i]
  {
    BestIsMaximum(all);
    var q :| 0 <= q < |all| && all[q] == Best(all);
    assert all[i] in all;
  }

  /** Without repeated items the dropped item is never kept, whatever `n`. */
  lemma BestNotKept(all: seq<Scored>, n: int)
    requires 0 < |all| && DistinctItems(all)
    ensures Best(all).item !in Items(TopAfterBest(all, n))
  {
    var sorted := SortDesc(all);
    var r := TopAfterBest(all, n);
    assert r == Slice(sorted, 1, n + 1);
    forall k | 0 <= k < |r| ensures r[k].item != sorted[0].item {
      assert r[k] == sorted[1 + k];
    }
  }

  /** The kept entries and the dropped one come from `all`, and every other
      entry left out scores no higher than any entry kept. */
  lemma TopAfterBestKeeps(all: seq<Scored>, n: int)
    requires 0 <= n && 0 < |all|
    ensures multiset(TopAfterBest(all, n)) + multiset{Best(all)} <= multiset(all)
    ensures forall x :: x in all && x !in TopAfterBest(all, n) && x != Best(all) ==>
      forall k :: 0 <= k < |TopAfterBest(all, n)| ==> x.score <= TopAfterBest(all, n)[k].score
  {
    var sorted := SortDesc(all);
    var r := TopAfterBest(all, n);
    assert r == Slice(sorted, 1, n + 1);
    TopAfterFirst(all, n + 1);
    TopAfterFirstFrom(all, n + 1);
  }
}
