/**
 * The part of a pandas DataFrame the pipeline uses: a set of column names and
 * a list of rows, each row a map from column name to cell. A NaN cell is
 * `Missing`. Column assignment (`df[name] = values`) changes the frame in
 * place; `df.copy()` and `df[mask].copy()` make a new frame.
 */
module Table {
  import opened Wrappers

  datatype Cell = Num(value: real) | Text(text: string) | Genes(genes: set<string>) | Missing

  type Row = map<string, Cell>

  /** pandas `==` on cells: NaN equals nothing, not even NaN. */
  predicate CellEquals(a: Cell, b: Cell) {
    a == b && !a.Missing?
  }

  /** The number in a numeric cell; NaN (and any non-numeric cell) gives None. */
  function NumOf(c: Cell): Option<real> {
    if c.Num? then Some(c.value) else None
  }

  /**
   * `str(c)` as far as the core looks at it: the text of a text cell, "nan"
   * for a missing one. A number's digits are not modelled; it renders as
   * "nan" too, which no equality or prefix test of the core tells apart.
   */
  function Str(c: Cell): string {
    if c.Text? then c.text else "nan"
  }

  /** Every row has exactly the frame's columns. */
  predicate WellShaped(columns: set<string>, rows: seq<Row>) {
    forall i :: 0 <= i < |rows| ==> rows[i].Keys == columns
  }

  /** `df[name].tolist()` */
  function Column(rows: seq<Row>, name: string): (col: seq<Cell>)
    requires forall i :: 0 <= i < |rows| ==> name in rows[i]
    ensures |col| == |rows|
    ensures forall i :: 0 <= i < |rows| ==> col[i] == rows[i][name]
  {
    seq(|rows|, i requires 0 <= i < |rows| => rows[i][name])
  }

  /** The rows after `df[name] = values`. */
  function WithColumn(rows: seq<Row>, name: string, values: seq<Cell>): (r: seq<Row>)
    requires |values| == |rows|
    ensures |r| == |rows|
    ensures forall i :: 0 <= i < |rows| ==> r[i] == rows[i][name := values[i]]
  {
    seq(|rows|, i requires 0 <= i < |rows| => rows[i][name := values[i]])
  }

  /** `s[mask]`: the elements that pass, in their original order. */
  function Where<T(!new)>(s: seq<T>, keep: T -> bool): (r: seq<T>)
    ensures |r| <= |s|
    ensures forall x :: x in r <==> x in s && keep(x)
  {
    if |s| == 0 then []
    else (if keep(s[0]) then [s[0]] else []) + Where(s[1..], keep)
  }

  /** A mask that keeps everything keeps the sequence as it is. */
  lemma {:induction false} WhereAll<T(!new)>(s: seq<T>, keep: T -> bool)
    requires forall i :: 0 <= i < |s| ==> keep(s[i])
    ensures Where(s, keep) == s
  {
    if |s| > 0 {
      WhereAll(s[1..], keep);
      assert s == [s[0]] + s[1..];
    }
  }

  class Frame {
    var columns: set<string>
    var rows: seq<Row>

    ghost predicate Valid()
      reads this
    {
      WellShaped(columns, rows)
    }

    constructor (columns: set<string>, rows: seq<Row>)
      requires WellShaped(columns, rows)
      ensures Valid() && this.columns == columns && this.rows == rows
    {
      this.columns := columns;
      this.rows := rows;
    }

    /** `df.copy()` */
    method Copy() returns (c: Frame)
      requires Valid()
      ensures fresh(c) && c.Valid()
      ensures c.columns == columns && c.rows == rows
    {
      c := new Frame(columns, rows);
    }

    /** `df[name] = values`: adds the column or overwrites it, in place. */
    method Assign(name: string, values: seq<Cell>)
      requires Valid() && |values| == |rows|
      modifies this
      ensures Valid()
      ensures columns == old(columns) + {name}
      ensures rows == WithColumn(old(rows), name, values)
    {
      rows := WithColumn(rows, name, values);
      columns := columns + {name};
    }

    /** `df[mask].copy()` with the mask given by `keep`. */
    method Select(keep: Row -> bool) returns (c: Frame)
      requires Valid()
      ensures fresh(c) && c.Valid()
      ensures c.columns == columns && c.rows == Where(rows, keep)
    {
      var kept := Where(rows, keep);
      forall i | 0 <= i < |kept|
        ensures kept[i].Keys == columns
      {
        assert kept[i] in rows;
      }
      c := new Frame(columns, kept);
    }
  }
}
