/** The artifacts the recommender serves from, passed as one immutable
    value instead of the module globals loaded at start-up, and the views of
    one user's matrix row that both recommenders read. */
module Artifacts {
  import opened Basics
  import opened Ranking
  import opened Similarity
  import opened UserItem

  /** The user-item matrix and the two similarity artifacts (item-CF and
      content), each with its own id order. */
  datatype Context = Context(ui: Matrix, itemSim: SimTable, contentSim: SimTable)
  {
    predicate Valid()
    {
      ui.WellFormed() && itemSim.WellFormed() && contentSim.WellFormed()
    }
  }

  /** `ui_matrix.loc[user_id]`: the user's row as (movie, rating) pairs in
      column order, 0.0 for the movies the user did not rate. */
  function UserVector(ui: Matrix, u: int): (v: seq<Scored>)
    requires ui.WellFormed() && u in ui.users
    ensures |v| == |ui.items|
    ensures forall j :: 0 <= j < |ui.items| ==> v[j] == Scored(ui.items[j], ui.cells[PositionOf(ui.users, u)][j])
  {
    RowPairs(ui.items, ui.cells[PositionOf(ui.users, u)])
  }

  /** `s[s > 0]`: the entries with a positive score, in order. */
  function Positive(s: seq<Scored>): (r: seq<Scored>)
    ensures forall e :: e in r <==> e in s && e.score > 0.0
    ensures DistinctItems(s) ==> DistinctItems(r)
  {
    if |s| == 0 then []
    else
      var rest := Positive(s[1..]);
      assert forall k :: 1 <= k < |s| ==> s[k] == s[1..][k - 1];
      if s[0].score > 0.0 then
        assert forall k :: 0 <= k < |rest| ==> rest[k] in s[1..];
        [s[0]] + rest
      else rest
  }

  /** `s[s >= lo]`: the entries scoring at least `lo`, in order. */
  function AtLeast(s: seq<Scored>, lo: real): (r: seq<Scored>)
    ensures forall e :: e in r <==> e in s && e.score >= lo
    ensures DistinctItems(s) ==> DistinctItems(r)
  {
    if |s| == 0 then []
    else
      var rest := AtLeast(s[1..], lo);
      assert forall k :: 1 <= k < |s| ==> s[k] == s[1..][k - 1];
      if s[0].score >= lo then
        assert forall k :: 0 <= k < |rest| ==> rest[k] in s[1..];
        [s[0]] + rest
      else rest
  }

  /** `user_vector[user_vector > 0]`: the movies the user rated, with
      their ratings. */
  function Rated(ui: Matrix, u: int): (r: seq<Scored>)
    requires ui.WellFormed() && u in ui.users
    ensures forall e :: e in r <==> e in UserVector(ui, u) && e.score > 0.0
    ensures DistinctItems(r)
  {
    UserVectorDistinct(ui, u);
    Positive(UserVector(ui, u))
  }

  /** `rated.index`, the movies never recommended back to the user. */
  function RatedSet(ui: Matrix, u: int): (s: set<ItemId>)
    requires ui.WellFormed() && u in ui.users
    ensures forall c :: c in s <==> exists e :: e in UserVector(ui, u) && e.item == c && e.score > 0.0
  {
    var r := Rated(ui, u);
    assert forall c :: c in Items(r) <==> exists e :: e in r && e.item == c by {
      forall c | c in Items(r) ensures exists e :: e in r && e.item == c {
        var k :| 0 <= k < |r| && r[k].item == c;
        assert r[k] in r;
      }
    }
    Items(r)
  }

  /** `user_vector[user_vector >= 4]`: the seeds of content recommendation. */
  function HighRated(ui: Matrix, u: int): (r: seq<Scored>)
    requires ui.WellFormed() && u in ui.users
    ensures forall e :: e in r <==> e in UserVector(ui, u) && e.score >= 4.0
    ensures DistinctItems(r)
  {
    UserVectorDistinct(ui, u);
    AtLeast(UserVector(ui, u), 4.0)
  }

  /** The user's row lists every movie of the matrix once. */
  lemma UserVectorDistinct(ui: Matrix, u: int)
    requires ui.WellFormed() && u in ui.users
    ensures DistinctItems(UserVector(ui, u))
    ensures Items(UserVector(ui, u)) == set j | 0 <= j < |ui.items| :: ui.items[j]
  {
    var v := UserVector(ui, u);
    forall c | c in Items(v) ensures c in set j | 0 <= j < |ui.items| :: ui.items[j] {
      var k :| 0 <= k < |v| && v[k].item == c;
    }
    forall j | 0 <= j < |ui.items| ensures ui.items[j] in Items(v) {
      assert v[j].item == ui.items[j];
    }
  }

  /** A movie counts as rated exactly when the user's cell for it is
      positive. */
  lemma RatedSetIsPositiveCells(ui: Matrix, u: int)
    requires ui.WellFormed() && u in ui.users
    ensures forall j :: 0 <= j < |ui.items| ==>
      (ui.items[j] in RatedSet(ui, u) <==> ui.cells[PositionOf(ui.users, u)][j] > 0.0)
  {
    var v := UserVector(ui, u);
    var row := ui.cells[PositionOf(ui.users, u)];
    forall j | 0 <= j < |ui.items| ensures ui.items[j] in RatedSet(ui, u) <==> row[j] > 0.0 {
      if ui.items[j] in RatedSet(ui, u) {
        var k :| 0 <= k < |Rated(ui, u)| && Rated(ui, u)[k].item == ui.items[j];
        var e := Rated(ui, u)[k];
        assert e in v && e.score > 0.0;
        var p :| 0 <= p < |v| && v[p] == e;
        assert p == j;
      }
      if row[j] > 0.0 {
        assert v[j] in Rated(ui, u);
      }
    }
  }

  /** Through `build_user_item_matrix`, and with ratings on a scale without
      zero, "rated" means that the ratings table holds a rating of the movie
      by the user. */
  lemma RatedMeansRatedInTable(ratings: seq<Rating>, u: int, j: nat)
    requires forall k :: 0 <= k < |ratings| ==> ratings[k].value > 0.0
    requires u in BuildUserItemMatrix(ratings).users && j < |BuildUserItemMatrix(ratings).items|
    ensures BuildUserItemMatrix(ratings).items[j] in RatedSet(BuildUserItemMatrix(ratings), u)
      <==> |PairRatings(ratings, u, BuildUserItemMatrix(ratings).items[j])| > 0
  {
    var ui := BuildUserItemMatrix(ratings);
    RatedSetIsPositiveCells(ui, u);
    ZeroMeansUnrated(ratings, u, ui.items[j]);
    assert ui.users[PositionOf(ui.users, u)] == u;
  }
}
