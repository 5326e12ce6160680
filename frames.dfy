/**
  The table the transform works on, and the three DataFrame operations it
  uses: assigning a whole column, dropping columns and sorting the rows by
  one column in descending order.
 */
module Frames {
  import opened Cells

  /** A row maps each column name to its cell. */
  type Row = map<string, Cell>

  /**
    A table: its set of column names and its rows. Column names exist apart
    from the rows, so a table with no rows still has columns.
   */
  datatype Table = Table(cols: set<string>, rows: seq<Row>)

  /** Every row has exactly the table's columns. */
  predicate WellFormed(t: Table) {
    forall i :: 0 <= i < |t.rows| ==> t.rows[i].Keys == t.cols
  }

  /** The cell of row r in column c; Missing where the row has no such column. */
  function Get(r: Row, c: string): Cell {
    if c in r then r[c] else Missing
  }

  /**
    df[name] = ...: every row gets f of itself in column `name`, which is
    added when the table does not have it yet.
   */
  function SetColumn(t: Table, name: string, f: Row -> Cell): (r: Table)
    ensures r.cols == t.cols + {name} && |r.rows| == |t.rows|
    ensures WellFormed(t) ==> WellFormed(r)
    ensures forall i :: 0 <= i < |t.rows| ==> r.rows[i] == t.rows[i][name := f(t.rows[i])]
  {
    Table(t.cols + {name}, seq(|t.rows|, i requires 0 <= i < |t.rows| => t.rows[i][name := f(t.rows[i])]))
  }

  /**
    df.drop(names, axis=1): None stands for the KeyError that pandas raises
    when one of the names is not a column.
   */
  function DropColumns(t: Table, names: set<string>): (r: Option<Table>)
    ensures r.Some? <==> names <= t.cols
    ensures r.Some? ==> r.value.cols == t.cols - names && |r.value.rows| == |t.rows|
    ensures r.Some? ==> forall i :: 0 <= i < |t.rows| ==> r.value.rows[i] == t.rows[i] - names
    ensures r.Some? && WellFormed(t) ==> WellFormed(r.value) && forall c :: c in names ==> c !in r.value.cols
  {
    if names <= t.cols then
      Some(Table(t.cols - names, seq(|t.rows|, i requires 0 <= i < |t.rows| => t.rows[i] - names)))
    else None
  }

  // ---------------------------------------------------------------------------
  // sort_values(key, ascending=False)
  // ---------------------------------------------------------------------------

  /**
    The order of a descending sort on one column: larger numbers first, and
    NaN (any cell that is not a number) after every number, as pandas'
    default na_position="last" places it.
   */
  predicate KeyGe(a: Cell, b: Cell) {
    if b.Num? then a.Num? && a.x >= b.x else true
  }

  lemma KeyGeTotal(a: Cell, b: Cell)
    ensures KeyGe(a, b) || KeyGe(b, a)
  {
  }

  lemma KeyGeTransitive(a: Cell, b: Cell, c: Cell)
    requires KeyGe(a, b) && KeyGe(b, c)
    ensures KeyGe(a, c)
  {
  }

  predicate SortedDesc(rows: seq<Row>, key: string) {
    forall i, j :: 0 <= i < j < |rows| ==> KeyGe(Get(rows[i], key), Get(rows[j], key))
  }

  /**
    The first row of s is not below any row of rest when rest holds the
    other rows of s and a row x that the first row is above.
   */
  lemma HeadBoundsRest(x: Row, s: seq<Row>, rest: seq<Row>, key: string)
    requires SortedDesc(s, key) && |s| > 0 && !KeyGe(Get(x, key), Get(s[0], key))
    requires multiset(rest) == multiset(s[1..]) + multiset{x}
    ensures forall j :: 0 <= j < |rest| ==> KeyGe(Get(s[0], key), Get(rest[j], key))
  {
    forall j | 0 <= j < |rest|
      ensures KeyGe(Get(s[0], key), Get(rest[j], key))
    {
      assert rest[j] in multiset(rest);
      if rest[j] == x {
        KeyGeTotal(Get(x, key), Get(s[0], key));
      } else {
        assert rest[j] in multiset(s[1..]);
        var k :| 0 <= k < |s[1..]| && s[1..][k] == rest[j];
        assert s[k + 1] == rest[j];
      }
    }
  }

  /** Puts x before the first row of the sorted rows s whose key it is not below. */
  function Insert(x: Row, s: seq<Row>, key: string): (r: seq<Row>)
    requires SortedDesc(s, key)
    ensures SortedDesc(r, key)
    ensures multiset(r) == multiset(s) + multiset{x}
  {
    if s == [] then [x]
    else if KeyGe(Get(x, key), Get(s[0], key)) then
      assert forall j :: 0 < j < |s| + 1 ==> ([x] + s)[j] == s[j - 1];
      [x] + s
    else
      var rest := Insert(x, s[1..], key);
      assert s == [s[0]] + s[1..];
      HeadBoundsRest(x, s, rest, key);
      [s[0]] + rest
  }

  /**
    The row order is that of an insertion sort; pandas' default sort is not
    stable, so only the order of the keys and the multiset of rows are
    promised.
   */
  function SortValuesDesc(rows: seq<Row>, key: string): (r: seq<Row>)
    ensures SortedDesc(r, key)
    ensures multiset(r) == multiset(rows) && |r| == |rows|
  {
    if rows == [] then []
    else
      assert rows == [rows[0]] + rows[1..];
      Insert(rows[0], SortValuesDesc(rows[1..], key), key)
  }

  /** Sorting keeps each row whole, so every row keeps its columns. */
  lemma SortKeepsColumns(rows: seq<Row>, key: string, cols: set<string>)
    requires forall i :: 0 <= i < |rows| ==> rows[i].Keys == cols
    ensures forall i :: 0 <= i < |SortValuesDesc(rows, key)| ==> SortValuesDesc(rows, key)[i].Keys == cols
  {
    var r := SortValuesDesc(rows, key);
    forall i | 0 <= i < |r|
      ensures r[i].Keys == cols
    {
      assert r[i] in multiset(rows);
    }
  }
}
