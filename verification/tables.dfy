/** The record normalisation of the data-preparation step, over tables held
    in memory: `load_movies` (required columns, defaulted optional columns,
    projection, one row per movie id) and `load_ratings` (required columns,
    projection). Reading the CSV text is outside the model; a table is what
    the reader would hand over. */
module Tables {
  import opened Basics

  /** One cell as the CSV reader types it. */
  datatype Value = Int(i: int) | Real(r: real) | Str(s: string)

  /** A data frame: named columns (the reader never repeats a name) and
      rows of cells in column order. */
  datatype Table = Table(columns: seq<string>, rows: seq<seq<Value>>)
  {
    predicate WellFormed()
    {
      && Distinct(columns)
      && forall k :: 0 <= k < |rows| ==> |rows[k]| == |columns|
    }
  }

  /** The `ValueError` raised for a table that lacks a required column;
      `required` lists the columns the loader asked for. */
  datatype LoadError = MissingColumns(required: seq<string>)

  datatype Result<+T> = Ok(value: T) | Err(error: LoadError)

  const MovieColumns: seq<string> := ["movieId", "title", "genres", "overview"]
  const RatingColumns: seq<string> := ["userId", "movieId", "rating"]

  /** `df[name].iloc[k]`. */
  function Cell(t: Table, k: nat, name: string): Value
    requires t.WellFormed() && k < |t.rows| && name in t.columns
  {
    t.rows[k][PositionOf(t.columns, name)]
  }

  /** The cell of column `name`, or `default` when the table has no such
      column. */
  function CellOr(t: Table, k: nat, name: string, default: Value): Value
    requires t.WellFormed() && k < |t.rows|
  {
    if name in t.columns then Cell(t, k, name) else default
  }

  /** `df[name] = v` for a column the frame lacks: the column is appended
      after the others and holds `v` in every row. */
  function WithColumn(t: Table, name: string, v: Value): (r: Table)
    requires t.WellFormed() && name !in t.columns
    ensures r.WellFormed() && r.columns == t.columns + [name] && |r.rows| == |t.rows|
    ensures forall k, c :: 0 <= k < |t.rows| && c in t.columns ==> Cell(r, k, c) == Cell(t, k, c)
    ensures forall k :: 0 <= k < |t.rows| ==> Cell(r, k, name) == v
  {
    var cols := t.columns + [name];
    var r := Table(cols, seq(|t.rows|, k requires 0 <= k < |t.rows| => t.rows[k] + [v]));
    assert forall c :: c in t.columns ==> PositionOf(cols, c) == PositionOf(t.columns, c) by {
      forall c | c in t.columns ensures PositionOf(cols, c) == PositionOf(t.columns, c) {
        var p := PositionOf(t.columns, c);
        assert cols[p] == c;
        assert forall j :: 0 <= j < p ==> cols[j] != c;
        PositionOfDistinct(cols, p);
      }
    }
    assert PositionOf(cols, name) == |t.columns| by {
      PositionOfDistinct(cols, |t.columns|);
    }
    r
  }

  /** `if name not in df.columns: df[name] = ''`: the frame gains the
      column, empty in every row, unless it already has it. */
  function WithDefault(t: Table, name: string): (r: Table)
    requires t.WellFormed()
    ensures r.WellFormed() && |r.rows| == |t.rows|
    ensures forall c :: c in r.columns <==> c in t.columns || c == name
    ensures forall k, c :: 0 <= k < |t.rows| && c in t.columns ==> Cell(r, k, c) == Cell(t, k, c)
    ensures forall k :: 0 <= k < |t.rows| ==> Cell(r, k, name) == CellOr(t, k, name, Str(""))
  {
    if name in t.columns then t else WithColumn(t, name, Str(""))
  }

  /** `df[names]`: the listed columns, in the listed order. */
  function Project(t: Table, names: seq<string>): (r: Table)
    requires t.WellFormed() && Distinct(names)
    requires forall n :: n in names ==> n in t.columns
    ensures r.WellFormed() && r.columns == names && |r.rows| == |t.rows|
    ensures forall k, c :: 0 <= k < |t.rows| && 0 <= c < |names| ==> r.rows[k][c] == Cell(t, k, names[c])
  {
    Table(names, seq(|t.rows|, k requires 0 <= k < |t.rows| =>
      seq(|names|, c requires 0 <= c < |names| => Cell(t, k, names[c]))))
  }

  /** The first cell of every row. */
  function Keys(rows: seq<seq<Value>>): (ks: seq<Value>)
    requires forall k :: 0 <= k < |rows| ==> 0 < |rows[k]|
    ensures |ks| == |rows|
    ensures forall k :: 0 <= k < |rows| ==> ks[k] == rows[k][0]
  {
    seq(|rows|, k requires 0 <= k < |rows| => rows[k][0])
  }

  /** `drop_duplicates(subset=[first column])`, skipping also the keys in
      `seen`: walks the rows in order and keeps a row when its key is new. */
  function DropDuplicateKeys(rows: seq<seq<Value>>, seen: set<Value>): (r: seq<seq<Value>>)
    requires forall k :: 0 <= k < |rows| ==> 0 < |rows[k]|
    ensures forall j :: 0 <= j < |r| ==> 0 < |r[j]| && r[j][0] !in seen && r[j] in rows
  {
    if |rows| == 0 then []
    else if rows[0][0] in seen then DropDuplicateKeys(rows[1..], seen)
    else [rows[0]] + DropDuplicateKeys(rows[1..], seen + {rows[0][0]})
  }

  lemma KeysOfTail(rows: seq<seq<Value>>)
    requires forall k :: 0 <= k < |rows| ==> 0 < |rows[k]|
    requires 0 < |rows|
    ensures Keys(rows) == [rows[0][0]] + Keys(rows[1..])
  {
  }

  /** A key first met after the head row is first met at the same row of
      the tail. */
  lemma {:induction false} FirstAfterHead(rows: seq<seq<Value>>, key: Value)
    requires forall k :: 0 <= k < |rows| ==> 0 < |rows[k]|
    requires 0 < |rows| && key != rows[0][0] && key in Keys(rows[1..])
    ensures key in Keys(rows)
    ensures rows[PositionOf(Keys(rows), key)] == rows[1..][PositionOf(Keys(rows[1..]), key)]
  {
    KeysOfTail(rows);
    PositionOfCons(rows[0][0], Keys(rows[1..]), key);
  }

  /** Every row of `out` is the first row of `rows` carrying its key. */
  predicate FirstRows(rows: seq<seq<Value>>, out: seq<seq<Value>>)
    requires forall k :: 0 <= k < |rows| ==> 0 < |rows[k]|
    requires forall j :: 0 <= j < |out| ==> 0 < |out[j]|
  {
    forall j :: 0 <= j < |out| ==> out[j][0] in Keys(rows) && out[j] == rows[PositionOf(Keys(rows), out[j][0])]
  }

  /** First rows of the tail whose keys differ from the head's are first
      rows of the whole. */
  lemma FirstRowsOfTail(rows: seq<seq<Value>>, rest: seq<seq<Value>>)
    requires forall k :: 0 <= k < |rows| ==> 0 < |rows[k]|
    requires 0 < |rows|
    requires forall j :: 0 <= j < |rest| ==> 0 < |rest[j]| && rest[j][0] != rows[0][0]
    requires FirstRows(rows[1..], rest)
    ensures FirstRows(rows, rest)
  {
    forall j | 0 <= j < |rest|
      ensures rest[j][0] in Keys(rows) && rest[j] == rows[PositionOf(Keys(rows), rest[j][0])]
    {
      FirstAfterHead(rows, rest[j][0]);
    }
  }

  /** The head row is the first row with its key, so it may be put in front
      of first rows. */
  lemma FirstRowsHead(rows: seq<seq<Value>>, rest: seq<seq<Value>>)
    requires forall k :: 0 <= k < |rows| ==> 0 < |rows[k]|
    requires 0 < |rows|
    requires forall j :: 0 <= j < |rest| ==> 0 < |rest[j]|
    requires FirstRows(rows, rest)
    ensures FirstRows(rows, [rows[0]] + rest)
  {
    var r := [rows[0]] + rest;
    assert Keys(rows)[0] == rows[0][0];
    assert PositionOf(Keys(rows), rows[0][0]) == 0;
    forall j | 0 <= j < |r| ensures r[j][0] in Keys(rows) && r[j] == rows[PositionOf(Keys(rows), r[j][0])] {
      if j > 0 { assert r[j] == rest[j - 1]; }
    }
  }

  /** Each kept row is the first row carrying its key. */
  lemma {:induction false} DropDuplicateKeysFirst(rows: seq<seq<Value>>, seen: set<Value>)
    requires forall k :: 0 <= k < |rows| ==> 0 < |rows[k]|
    ensures FirstRows(rows, DropDuplicateKeys(rows, seen))
  {
    if |rows| > 0 {
      var seen' := seen + {rows[0][0]};
      DropDuplicateKeysFirst(rows[1..], seen');
      var rest := DropDuplicateKeys(rows[1..], seen');
      FirstRowsOfTail(rows, rest);
      if rows[0][0] in seen {
        assert seen' == seen;
      } else {
        FirstRowsHead(rows, rest);
      }
    }
  }

  /** No key is kept twice. */
  lemma {:induction false} DropDuplicateKeysDistinct(rows: seq<seq<Value>>, seen: set<Value>)
    requires forall k :: 0 <= k < |rows| ==> 0 < |rows[k]|
    ensures forall i, j :: 0 <= i < j < |DropDuplicateKeys(rows, seen)| ==>
      DropDuplicateKeys(rows, seen)[i][0] != DropDuplicateKeys(rows, seen)[j][0]
  {
    if |rows| > 0 {
      var tail := rows[1..];
      if rows[0][0] in seen {
        DropDuplicateKeysDistinct(tail, seen);
        assert DropDuplicateKeys(rows, seen) == DropDuplicateKeys(tail, seen);
      } else {
        var seen' := seen + {rows[0][0]};
        DropDuplicateKeysDistinct(tail, seen');
        var rest := DropDuplicateKeys(tail, seen');
        var r := [rows[0]] + rest;
        assert DropDuplicateKeys(rows, seen) == r;
        forall j | 0 <= j < |rest| ensures rest[j][0] != rows[0][0] {
          assert rest[j][0] !in seen';
        }
        forall i, j | 0 <= i < j < |r| ensures r[i][0] != r[j][0] {
          assert r[j] == rest[j - 1];
          if i > 0 { assert r[i] == rest[i - 1]; }
        }
      }
    }
  }

  /** Every key outside `seen` is kept. */
  lemma {:induction false} DropDuplicateKeysComplete(rows: seq<seq<Value>>, seen: set<Value>)
    requires forall k :: 0 <= k < |rows| ==> 0 < |rows[k]|
    ensures forall k :: 0 <= k < |rows| && rows[k][0] !in seen ==> rows[k][0] in Keys(DropDuplicateKeys(rows, seen))
  {
    if |rows| > 0 {
      var tail := rows[1..];
      assert forall k :: 1 <= k < |rows| ==> rows[k] == tail[k - 1];
      if rows[0][0] in seen {
        DropDuplicateKeysComplete(tail, seen);
      } else {
        DropDuplicateKeysComplete(tail, seen + {rows[0][0]});
        var rest := DropDuplicateKeys(tail, seen + {rows[0][0]});
        assert Keys([rows[0]] + rest) == [rows[0][0]] + Keys(rest);
      }
    }
  }

  /** The row `load_movies` makes of input row `k`: its id and title, and
      its genres and overview or empty strings when the input has no such
      column. */
  function MovieRecord(t: Table, k: nat): seq<Value>
    requires t.WellFormed() && k < |t.rows| && "movieId" in t.columns && "title" in t.columns
  {
    [Cell(t, k, "movieId"), Cell(t, k, "title"), CellOr(t, k, "genres", Str("")), CellOr(t, k, "overview", Str(""))]
  }

  /** The columns `load_movies` selects, after defaulting the optional
      ones: one `MovieRecord` per input row, in order. */
  function MovieRecords(t: Table): (rows: seq<seq<Value>>)
    requires t.WellFormed() && "movieId" in t.columns && "title" in t.columns
    ensures |rows| == |t.rows|
    ensures forall k :: 0 <= k < |t.rows| ==> rows[k] == MovieRecord(t, k)
  {
    var withGenres := WithDefault(t, "genres");
    var withOverview := WithDefault(withGenres, "overview");
    var projected := Project(withOverview, MovieColumns);
    forall k | 0 <= k < |t.rows| ensures projected.rows[k] == MovieRecord(t, k) {
      assert CellOr(withGenres, k, "overview", Str("")) == CellOr(t, k, "overview", Str(""));
      assert projected.rows[k] == [projected.rows[k][0], projected.rows[k][1], projected.rows[k][2], projected.rows[k][3]];
    }
    projected.rows
  }

  /** `load_movies` on the table the reader produced. */
  function LoadMovies(t: Table): (r: Result<Table>)
    requires t.WellFormed()
    ensures r.Err? <==> !("movieId" in t.columns && "title" in t.columns)
    ensures r.Ok? ==> r.value.WellFormed() && r.value.columns == MovieColumns
  {
    if !("movieId" in t.columns && "title" in t.columns) then Err(MissingColumns(["movieId", "title"]))
    else Ok(Table(MovieColumns, DropDuplicateKeys(MovieRecords(t), {})))
  }

  /** The movie ids of the input rows, in order. */
  function MovieIds(t: Table): (ids: seq<Value>)
    requires t.WellFormed() && "movieId" in t.columns
    ensures |ids| == |t.rows|
  {
    seq(|t.rows|, k requires 0 <= k < |t.rows| => Cell(t, k, "movieId"))
  }

  /** A successful `load_movies` keeps at most one row per movie id. */
  lemma LoadMoviesDistinct(t: Table)
    requires t.WellFormed() && LoadMovies(t).Ok?
    ensures forall i, j :: 0 <= i < j < |LoadMovies(t).value.rows| ==>
      LoadMovies(t).value.rows[i][0] != LoadMovies(t).value.rows[j][0]
  {
    DropDuplicateKeysDistinct(MovieRecords(t), {});
  }

  /** A successful `load_movies` keeps a row for every movie id of the
      input. */
  lemma LoadMoviesComplete(t: Table)
    requires t.WellFormed() && LoadMovies(t).Ok?
    ensures forall k :: 0 <= k < |t.rows| ==> Cell(t, k, "movieId") in Keys(LoadMovies(t).value.rows)
  {
    var records := MovieRecords(t);
    DropDuplicateKeysComplete(records, {});
    forall k | 0 <= k < |t.rows| ensures Cell(t, k, "movieId") in Keys(LoadMovies(t).value.rows) {
      assert records[k][0] == Cell(t, k, "movieId");
    }
  }

  /** Every row a successful `load_movies` keeps is the `MovieRecord` of
      the first input row with its id. */
  lemma LoadMoviesFirst(t: Table)
    requires t.WellFormed() && LoadMovies(t).Ok?
    ensures forall j :: 0 <= j < |LoadMovies(t).value.rows| ==>
      && LoadMovies(t).value.rows[j][0] in MovieIds(t)
      && LoadMovies(t).value.rows[j] == MovieRecord(t, PositionOf(MovieIds(t), LoadMovies(t).value.rows[j][0]))
  {
    var records := MovieRecords(t);
    assert Keys(records) == MovieIds(t);
    DropDuplicateKeysFirst(records, {});
  }

  /** `load_ratings` on the table the reader produced: the three rating
      columns of every row, in that order, or the error when one is
      missing. */
  function LoadRatings(t: Table): (r: Result<Table>)
    requires t.WellFormed()
    ensures r.Err? <==> !("userId" in t.columns && "movieId" in t.columns && "rating" in t.columns)
    ensures r.Ok? ==> r.value.WellFormed() && r.value.columns == RatingColumns && |r.value.rows| == |t.rows|
    ensures r.Ok? ==> forall k :: 0 <= k < |t.rows| ==>
      r.value.rows[k] == [Cell(t, k, "userId"), Cell(t, k, "movieId"), Cell(t, k, "rating")]
  {
    if !("userId" in t.columns && "movieId" in t.columns && "rating" in t.columns) then
      Err(MissingColumns(RatingColumns))
    else
      var p := Project(t, RatingColumns);
      assert forall k :: 0 <= k < |t.rows| ==> p.rows[k] == [p.rows[k][0], p.rows[k][1], p.rows[k][2]];
      Ok(p)
  }
}
