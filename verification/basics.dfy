/** Small helpers shared by every other module: an option type, integer
    minimum and absolute value, distinctness of a sequence, first position of
    an element, and Python's list slicing `s[lo:hi]`. */
module Basics {

  datatype Option<+T> = None | Some(value: T)

  function Min(a: int, b: int): int
  {
    if a <= b then a else b
  }

  function Abs(x: real): real
  {
    if x < 0.0 then -x else x
  }

  /** No value occurs twice in `s`. */
  predicate Distinct<T(==)>(s: seq<T>)
  {
    forall i, j :: 0 <= i < j < |s| ==> s[i] != s[j]
  }

  /** The first position of `x` in `s`. */
  function PositionOf<T(==)>(s: seq<T>, x: T): (i: nat)
    requires x in s
    ensures i < |s| && s[i] == x
    ensures forall j :: 0 <= j < i ==> s[j] != x
  {
    if s[0] == x then 0 else 1 + PositionOf(s[1..], x)
  }

  /** In a sequence without duplicates the first position of `s[i]` is `i`. */
  lemma PositionOfDistinct<T>(s: seq<T>, i: nat)
    requires Distinct(s) && i < |s|
    ensures PositionOf(s, s[i]) == i
  {
  }

  lemma PositionOfCons<T>(x: T, s: seq<T>, y: T)
    requires y in s && y != x
    ensures PositionOf([x] + s, y) == 1 + PositionOf(s, y)
  {
    assert ([x] + s)[1..] == s;
  }

  /** How Python normalises one bound of a slice: a negative bound counts
      from the end, and both ends are clamped into `[0, n]`. */
  function SliceBound(i: int, n: nat): (b: nat)
    ensures b <= n
    ensures 0 <= i ==> b == Min(i, n)
    ensures i < 0 ==> b == (if n + i < 0 then 0 else n + i)
  {
    if i < 0 then (if n + i < 0 then 0 else n + i)
    else if i > n then n
    else i
  }

  /** Python's `s[lo:hi]` with step 1; an empty list when the normalised
      bounds cross. */
  function Slice<T>(s: seq<T>, lo: int, hi: int): (r: seq<T>)
    ensures 0 <= lo <= hi ==> |r| == Min(hi, |s|) - Min(lo, |s|)
    ensures SliceBound(lo, |s|) + |r| <= |s|
    ensures forall k :: 0 <= k < |r| ==> r[k] == s[SliceBound(lo, |s|) + k]
  {
    var a := SliceBound(lo, |s|);
    var b := SliceBound(hi, |s|);
    if a <= b then s[a..b] else []
  }

}
