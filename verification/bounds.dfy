/** Weighted means of ratings with signed similarity weights: the sum of
    `sim * rating` over a list of terms, divided by the sum of `|sim|`, lies
    within the largest rating. */
module Bounds {
  import opened Basics

  /** One neighbour's share: its similarity and the seed rating it carries. */
  datatype Term = Term(sim: real, rating: real)

  function TermsScore(ts: seq<Term>): real
  {
    if |ts| == 0 then 0.0 else ts[0].sim * ts[0].rating + TermsScore(ts[1..])
  }

  function TermsWeight(ts: seq<Term>): real
  {
    if |ts| == 0 then 0.0 else Abs(ts[0].sim) + TermsWeight(ts[1..])
  }

  /** `m * |sim|` summed: the largest `TermsScore` ratings up to `m` allow. */
  function TermsCap(ts: seq<Term>, m: real): real
  {
    if |ts| == 0 then 0.0 else m * Abs(ts[0].sim) + TermsCap(ts[1..], m)
  }

  lemma {:induction false} TermsAppend(a: seq<Term>, b: seq<Term>)
    ensures TermsScore(a + b) == TermsScore(a) + TermsScore(b)
    ensures TermsWeight(a + b) == TermsWeight(a) + TermsWeight(b)
  {
    if |a| > 0 {
      assert (a + b)[1..] == a[1..] + b;
      TermsAppend(a[1..], b);
    } else {
      assert a + b == b;
    }
  }

  /** `|sim * rating| <= m * |sim|` for a rating in `(0, m]`. */
  lemma ProductBounded(x: real, r: real, m: real)
    requires 0.0 < r <= m
    ensures Abs(x * r) <= m * Abs(x)
  {
    if x >= 0.0 {
      assert x * r <= x * m;
    } else {
      assert -(x * r) == (-x) * r;
      assert (-x) * r <= (-x) * m;
    }
  }

  lemma AbsSum(a: real, b: real, x: real, y: real)
    requires Abs(a) <= x && Abs(b) <= y
    ensures Abs(a + b) <= x + y
  {
  }

  lemma {:induction false} TermsUnderCap(ts: seq<Term>, m: real)
    requires forall i :: 0 <= i < |ts| ==> 0.0 < ts[i].rating <= m
    ensures Abs(TermsScore(ts)) <= TermsCap(ts, m)
  {
    if |ts| > 0 {
      TermsUnderCap(ts[1..], m);
      ProductBounded(ts[0].sim, ts[0].rating, m);
      AbsSum(ts[0].sim * ts[0].rating, TermsScore(ts[1..]), m * Abs(ts[0].sim), TermsCap(ts[1..], m));
    }
  }

  lemma {:induction false} TermsCapScaled(ts: seq<Term>, m: real)
    ensures TermsCap(ts, m) == m * TermsWeight(ts)
  {
    if |ts| > 0 {
      TermsCapScaled(ts[1..], m);
      assert m * (Abs(ts[0].sim) + TermsWeight(ts[1..])) == m * Abs(ts[0].sim) + m * TermsWeight(ts[1..]);
    }
  }

  /** `|s / w| <= m` when `|s| <= m * w` and `w > 0`. */
  lemma QuotientBounded(s: real, w: real, m: real)
    requires w > 0.0 && Abs(s) <= m * w
    ensures Abs(s / w) <= m
  {
    var q := s / w;
    assert s == q * w;
    assert Abs(q) * w == Abs(s);
    assert (m - Abs(q)) * w >= 0.0;
  }

  /** With every rating in `(0, m]` and some weight, the weighted mean lies
      in `[-m, m]`. */
  lemma MeanBounded(ts: seq<Term>, m: real)
    requires forall i :: 0 <= i < |ts| ==> 0.0 < ts[i].rating <= m
    requires TermsWeight(ts) > 0.0
    ensures Abs(TermsScore(ts) / TermsWeight(ts)) <= m
  {
    TermsUnderCap(ts, m);
    TermsCapScaled(ts, m);
    QuotientBounded(TermsScore(ts), TermsWeight(ts), m);
  }
}
