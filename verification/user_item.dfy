/** `build_user_item_matrix`: the pivot of the ratings table into a
    user x movie matrix of mean ratings, with 0.0 where a user never rated a
    movie. Rows are the distinct users and columns the distinct movies, both
    in ascending order as the pivot sorts its index and columns. */
module UserItem {
  import opened Basics

  /** One row of the normalised ratings table. */
  datatype Rating = Rating(user: int, movie: int, value: real)

  /** `cells[i][j]` is the entry for user `users[i]` and movie `items[j]`. */
  datatype Matrix = Matrix(users: seq<int>, items: seq<int>, cells: seq<seq<real>>)
  {
    predicate WellFormed()
    {
      && Increasing(users)
      && Increasing(items)
      && |cells| == |users|
      && forall i :: 0 <= i < |cells| ==> |cells[i]| == |items|
    }
  }

  predicate Increasing(s: seq<int>)
  {
    forall i, j :: 0 <= i < j < |s| ==> s[i] < s[j]
  }

  /** `x` put in its place in an ascending list, unless already there. */
  function InsertUnique(x: int, s: seq<int>): (r: seq<int>)
    requires Increasing(s)
    ensures Increasing(r)
    ensures forall y :: y in r <==> y == x || y in s
  {
    if |s| == 0 then [x]
    else if x < s[0] then [x] + s
    else if x == s[0] then s
    else
      var rest := InsertUnique(x, s[1..]);
      assert forall k :: 0 <= k < |rest| ==> rest[k] in rest;
      [s[0]] + rest
  }

  /** The distinct values of `xs` in ascending order. */
  function SortedUnique(xs: seq<int>): (r: seq<int>)
    ensures Increasing(r)
    ensures forall y :: y in r <==> y in xs
  {
    if |xs| == 0 then []
    else
      var last := |xs| - 1;
      assert xs == xs[..last] + [xs[last]];
      InsertUnique(xs[last], SortedUnique(xs[..last]))
  }

  function UserColumn(ratings: seq<Rating>): (us: seq<int>)
    ensures |us| == |ratings| && forall k :: 0 <= k < |ratings| ==> us[k] == ratings[k].user
  {
    seq(|ratings|, k requires 0 <= k < |ratings| => ratings[k].user)
  }

  function MovieColumn(ratings: seq<Rating>): (ms: seq<int>)
    ensures |ms| == |ratings| && forall k :: 0 <= k < |ratings| ==> ms[k] == ratings[k].movie
  {
    seq(|ratings|, k requires 0 <= k < |ratings| => ratings[k].movie)
  }

  /** The sum of a list of reals, added left to right. */
  function Sum(s: seq<real>): real
  {
    if |s| == 0 then 0.0 else Sum(s[..|s| - 1]) + s[|s| - 1]
  }

  /** The arithmetic mean, and 0.0 (the pivot's `fillna(0)`) for no values. */
  function MeanOrZero(s: seq<real>): real
  {
    if |s| == 0 then 0.0 else Sum(s) / (|s| as real)
  }

  /** Every rating given by `u` to `m`, in table order. */
  function PairRatings(ratings: seq<Rating>, u: int, m: int): (vs: seq<real>)
    ensures |vs| <= |ratings|
  {
    if |ratings| == 0 then []
    else
      var last := ratings[|ratings| - 1];
      PairRatings(ratings[..|ratings| - 1], u, m) + (if last.user == u && last.movie == m then [last.value] else [])
  }

  /** The running sum and count of one (user, movie) group. */
  datatype Tally = Tally(sum: real, count: nat)

  /** The group-by pass of `pivot_table(aggfunc='mean')`: one tally per
      (user, movie) pair that occurs, accumulated over the table in order. */
  function Tallies(ratings: seq<Rating>): (g: map<(int, int), Tally>)
    ensures forall key :: key in g ==> 1 <= g[key].count <= |ratings|
  {
    if |ratings| == 0 then map[]
    else
      var g := Tallies(ratings[..|ratings| - 1]);
      var x := ratings[|ratings| - 1];
      var key := (x.user, x.movie);
      if key in g then g[key := Tally(g[key].sum + x.value, g[key].count + 1)]
      else g[key := Tally(x.value, 1)]
  }

  /** The group-by pass holds, for exactly the pairs that occur, the sum and
      the number of their ratings. */
  lemma {:induction false} TalliesAreGroupSums(ratings: seq<Rating>)
    ensures forall u, m :: (u, m) in Tallies(ratings) <==> |PairRatings(ratings, u, m)| > 0
    ensures forall u, m :: (u, m) in Tallies(ratings) ==>
      Tallies(ratings)[(u, m)] == Tally(Sum(PairRatings(ratings, u, m)), |PairRatings(ratings, u, m)|)
  {
    if |ratings| > 0 {
      var prefix := ratings[..|ratings| - 1];
      var x := ratings[|ratings| - 1];
      TalliesAreGroupSums(prefix);
      var g := Tallies(prefix);
      var t := Tallies(ratings);
      forall u, m
        ensures (u, m) in t <==> |PairRatings(ratings, u, m)| > 0
        ensures (u, m) in t ==> t[(u, m)] == Tally(Sum(PairRatings(ratings, u, m)), |PairRatings(ratings, u, m)|)
      {
        var before := PairRatings(prefix, u, m);
        if u == x.user && m == x.movie {
          var after := before + [x.value];
          assert PairRatings(ratings, u, m) == after;
          assert after[..|before|] == before;
          assert Sum(after) == Sum(before) + x.value;
          if (u, m) !in g {
            assert before == [];
            assert Sum(before) == 0.0;
          }
        } else {
          assert PairRatings(ratings, u, m) == before;
        }
      }
    }
  }

  /** `ratings_df.pivot_table(index='userId', columns='movieId',
      values='rating', aggfunc='mean').fillna(0)`. */
  function BuildUserItemMatrix(ratings: seq<Rating>): (ui: Matrix)
    ensures ui.WellFormed()
    ensures forall u :: u in ui.users <==> u in UserColumn(ratings)
    ensures forall m :: m in ui.items <==> m in MovieColumn(ratings)
    ensures forall i, j :: 0 <= i < |ui.users| && 0 <= j < |ui.items| ==>
      ui.cells[i][j] == MeanOrZero(PairRatings(ratings, ui.users[i], ui.items[j]))
  {
    var users := SortedUnique(UserColumn(ratings));
    var items := SortedUnique(MovieColumn(ratings));
    var g := Tallies(ratings);
    TalliesAreGroupSums(ratings);
    Matrix(users, items,
      seq(|users|, i requires 0 <= i < |users| =>
        seq(|items|, j requires 0 <= j < |items| =>
          var key := (users[i], items[j]);
          if key in g then g[key].sum / (g[key].count as real) else 0.0)))
  }

  /** A sum of positive values is positive once there is one. */
  lemma {:induction false} SumPositive(s: seq<real>)
    requires forall k :: 0 <= k < |s| ==> s[k] > 0.0
    ensures |s| > 0 ==> Sum(s) > 0.0
    ensures Sum(s) >= 0.0
  {
    if |s| > 0 {
      SumPositive(s[..|s| - 1]);
    }
  }

  /** The ratings of one pair are ratings of the table. */
  lemma {:induction false} PairRatingsFromTable(ratings: seq<Rating>, u: int, m: int)
    ensures forall v :: v in PairRatings(ratings, u, m) ==> exists k :: 0 <= k < |ratings| && ratings[k].value == v
  {
    if |ratings| > 0 {
      var prefix := ratings[..|ratings| - 1];
      PairRatingsFromTable(prefix, u, m);
      forall v | v in PairRatings(ratings, u, m)
        ensures exists k :: 0 <= k < |ratings| && ratings[k].value == v
      {
        if v in PairRatings(prefix, u, m) {
          var k :| 0 <= k < |prefix| && prefix[k].value == v;
          assert ratings[k].value == v;
        } else {
          assert ratings[|ratings| - 1].value == v;
        }
      }
    }
  }

  /** The mean of positive values is positive, and 0.0 only for none. */
  lemma MeanOfPositives(s: seq<real>)
    requires forall k :: 0 <= k < |s| ==> s[k] > 0.0
    ensures MeanOrZero(s) > 0.0 <==> |s| > 0
    ensures MeanOrZero(s) == 0.0 <==> |s| == 0
  {
    SumPositive(s);
    if |s| > 0 {
      var n := |s| as real;
      assert n > 0.0;
      assert Sum(s) / n > 0.0;
    }
  }

  /** The 0.0 sentinel: when every rating is positive (the rating scale has
      no zero), a cell is positive exactly when the user rated the movie and
      0.0 exactly when they did not. */
  lemma ZeroMeansUnrated(ratings: seq<Rating>, u: int, m: int)
    requires forall k :: 0 <= k < |ratings| ==> ratings[k].value > 0.0
    ensures MeanOrZero(PairRatings(ratings, u, m)) > 0.0 <==> |PairRatings(ratings, u, m)| > 0
    ensures MeanOrZero(PairRatings(ratings, u, m)) == 0.0 <==> |PairRatings(ratings, u, m)| == 0
  {
    var vs := PairRatings(ratings, u, m);
    PairRatingsFromTable(ratings, u, m);
    forall k | 0 <= k < |vs| ensures vs[k] > 0.0 {
      assert vs[k] in vs;
    }
    MeanOfPositives(vs);
  }

  /** Every rated pair has its row and its column. */
  lemma EveryRatingHasACell(ratings: seq<Rating>, k: nat)
    requires k < |ratings|
    ensures var ui := BuildUserItemMatrix(ratings);
      ratings[k].user in ui.users && ratings[k].movie in ui.items
  {
    assert UserColumn(ratings)[k] == ratings[k].user;
    assert MovieColumn(ratings)[k] == ratings[k].movie;
  }
}
