/** `movie_info`: the catalogue record of one movie, read from the first
    row of the movies table whose id matches, with empty strings for a
    missing genres or overview column. */
module Catalog {
  import opened Basics
  import opened Tables

  /** The dict `movie_info` returns for a known movie. */
  datatype Info = Info(movieId: int, title: Value, genres: Value, overview: Value)

  /** The first row at or after `k` whose `movieId` cell is `id`. */
  function FindMovie(t: Table, id: int, k: nat): (r: Option<nat>)
    requires t.WellFormed() && "movieId" in t.columns && k <= |t.rows|
    ensures r.Some? ==> k <= r.value < |t.rows| && Cell(t, r.value, "movieId") == Int(id)
    ensures r.Some? ==> forall j :: k <= j < r.value ==> Cell(t, j, "movieId") != Int(id)
    ensures r.None? ==> forall j :: k <= j < |t.rows| ==> Cell(t, j, "movieId") != Int(id)
    decreases |t.rows| - k
  {
    if k == |t.rows| then None
    else if Cell(t, k, "movieId") == Int(id) then Some(k)
    else FindMovie(t, id, k + 1)
  }

  /** `movie_info(movie_id)`: `None` (the empty dict) when no row has the
      id; otherwise the id, the title, and the genres and overview or empty
      strings, of the first row with the id. */
  function MovieInfo(movies: Table, id: int): (r: Option<Info>)
    requires movies.WellFormed() && "movieId" in movies.columns && "title" in movies.columns
    ensures r.None? <==> Int(id) !in MovieIds(movies)
    ensures r.Some? ==>
      var k := PositionOf(MovieIds(movies), Int(id));
      r.value == Info(id, Cell(movies, k, "title"), CellOr(movies, k, "genres", Str("")), CellOr(movies, k, "overview", Str("")))
  {
    var ids := MovieIds(movies);
    assert forall j :: 0 <= j < |movies.rows| ==> ids[j] == Cell(movies, j, "movieId");
    match FindMovie(movies, id, 0)
    case None => None
    case Some(k) =>
      assert ids[k] == Int(id);
      assert PositionOf(ids, Int(id)) == k by {
        var p := PositionOf(ids, Int(id));
        assert !(p < k);
      }
      Some(Info(id, Cell(movies, k, "title"), CellOr(movies, k, "genres", Str("")), CellOr(movies, k, "overview", Str(""))))
  }

  /** In a table with exactly the `load_movies` columns, the named cells
      are the row's positions in that order. */
  lemma MovieColumnsCells(t: Table)
    requires t.WellFormed() && t.columns == MovieColumns
    ensures forall k :: 0 <= k < |t.rows| ==>
      && MovieIds(t)[k] == t.rows[k][0]
      && Cell(t, k, "title") == t.rows[k][1]
      && CellOr(t, k, "genres", Str("")) == t.rows[k][2]
      && CellOr(t, k, "overview", Str("")) == t.rows[k][3]
  {
    assert PositionOf(MovieColumns, "movieId") == 0;
    assert PositionOf(MovieColumns, "title") == 1;
    assert PositionOf(MovieColumns, "genres") == 2;
    assert PositionOf(MovieColumns, "overview") == 3;
  }

  /** The ids `movie_info` searches on the loaded table are its row keys. */
  lemma LoadedIdsAreKeys(t: Table)
    requires t.WellFormed() && LoadMovies(t).Ok?
    ensures MovieIds(LoadMovies(t).value) == Keys(LoadMovies(t).value.rows)
  {
    MovieColumnsCells(LoadMovies(t).value);
  }

  /** Every raw id survives `load_movies`. */
  lemma RawIdLoaded(t: Table, id: int)
    requires t.WellFormed() && LoadMovies(t).Ok? && Int(id) in MovieIds(t)
    ensures Int(id) in Keys(LoadMovies(t).value.rows)
  {
    LoadMoviesComplete(t);
    var k :| 0 <= k < |t.rows| && MovieIds(t)[k] == Int(id);
    assert Cell(t, k, "movieId") in Keys(LoadMovies(t).value.rows);
  }

  /** `load_movies` invents no id. */
  lemma LoadedIdRaw(t: Table, id: int)
    requires t.WellFormed() && LoadMovies(t).Ok? && Int(id) in Keys(LoadMovies(t).value.rows)
    ensures Int(id) in MovieIds(t)
  {
    var rows := LoadMovies(t).value.rows;
    LoadMoviesFirst(t);
    var j :| 0 <= j < |rows| && Keys(rows)[j] == Int(id);
    assert rows[j][0] in MovieIds(t);
  }

  /** `load_movies` keeps exactly the ids of the raw table. */
  lemma LoadedIds(t: Table, id: int)
    requires t.WellFormed() && LoadMovies(t).Ok?
    ensures Int(id) in MovieIds(LoadMovies(t).value) <==> Int(id) in MovieIds(t)
  {
    LoadedIdsAreKeys(t);
    if Int(id) in MovieIds(t) {
      RawIdLoaded(t, id);
    }
    if Int(id) in Keys(LoadMovies(t).value.rows) {
      LoadedIdRaw(t, id);
    }
  }

  /** On the table `load_movies` returns, `movie_info` finds exactly the ids
      of the raw table, and reports the title, genres and overview of the
      first raw row with the id, an absent genres or overview column read as
      the empty string. */
  lemma MovieInfoOfLoaded(t: Table, id: int)
    requires t.WellFormed() && LoadMovies(t).Ok?
    ensures MovieInfo(LoadMovies(t).value, id).Some? <==> Int(id) in MovieIds(t)
    ensures MovieInfo(LoadMovies(t).value, id).Some? ==>
      var p := PositionOf(MovieIds(t), Int(id));
      MovieInfo(LoadMovies(t).value, id).value
        == Info(id, Cell(t, p, "title"), CellOr(t, p, "genres", Str("")), CellOr(t, p, "overview", Str("")))
  {
    var out := LoadMovies(t).value;
    LoadedIds(t, id);
    if Int(id) in MovieIds(out) {
      var j := PositionOf(MovieIds(out), Int(id));
      LoadMoviesFirst(t);
      MovieColumnsCells(out);
      assert out.rows[j][0] == Int(id);
      var p := PositionOf(MovieIds(t), Int(id));
      assert out.rows[j] == MovieRecord(t, p);
    }
  }
}
