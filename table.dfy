/**
 * An abstract pandas DataFrame. A cell is a string, a number, a date (as a
 * day count) or missing (pandas' NaN / NaT). A row maps column names to
 * cells, and a column a row has no entry for reads as missing. A frame keeps
 * its column list, because validators act on a column exactly when it is in
 * `df.columns`, whatever its cells hold.
 */
module Table {
  import opened Sequences

  datatype Cell = Missing | Str(s: string) | Num(x: real) | Date(day: int)

  type Row = map<string, Cell>

  /** The cell of row `r` in column `c`; an absent entry reads as missing. */
  function Get(r: Row, c: string): Cell {
    if c in r then r[c] else Missing
  }

  datatype Frame = Frame(columns: seq<string>, rows: seq<Row>)

  /** `df[c]`: the cells of column `c`, row by row. */
  function Column(rows: seq<Row>, c: string): (col: seq<Cell>)
    ensures |col| == |rows|
  {
    seq(|rows|, i requires 0 <= i < |rows| => Get(rows[i], c))
  }

  /** `df[c] = col`: every row gets its cell of column `c` from `col`. */
  function WithColumn(rows: seq<Row>, c: string, col: seq<Cell>): (r: seq<Row>)
    requires |col| == |rows|
    ensures |r| == |rows|
  {
    seq(|rows|, i requires 0 <= i < |rows| => rows[i][c := col[i]])
  }

  /** Writing column `c` changes column `c` to what was written and no other column. */
  lemma ColumnOfWithColumn(rows: seq<Row>, c: string, col: seq<Cell>, d: string)
    requires |col| == |rows|
    ensures Column(WithColumn(rows, c, col), d) == if d == c then col else Column(rows, d)
  {
  }

  /** A second write of the same column overrides the first. */
  lemma WithColumnTwice(rows: seq<Row>, c: string, a: seq<Cell>, b: seq<Cell>)
    requires |a| == |rows| && |b| == |rows|
    ensures WithColumn(WithColumn(rows, c, a), c, b) == WithColumn(rows, c, b)
  {
    var r1 := WithColumn(WithColumn(rows, c, a), c, b);
    var r2 := WithColumn(rows, c, b);
    forall i | 0 <= i < |rows| ensures r1[i] == r2[i] {
      assert r1[i] == rows[i][c := a[i]][c := b[i]];
    }
  }

  /** A column transformation that keeps the number of cells. */
  ghost predicate LengthPreserving(t: (string, seq<Cell>) -> seq<Cell>) {
    forall c, col :: |t(c, col)| == |col|
  }

  /** `if c in df.columns: df[c] = t(c, df[c])`. */
  function UpdateColumn(f: Frame, c: string, t: (string, seq<Cell>) -> seq<Cell>): (r: Frame)
    requires LengthPreserving(t)
    ensures r.columns == f.columns && |r.rows| == |f.rows|
  {
    if c in f.columns then f.(rows := WithColumn(f.rows, c, t(c, Column(f.rows, c)))) else f
  }

  /** The loop `for c in cs: if c in df.columns: df[c] = t(c, df[c])`. */
  function ApplyColumns(f: Frame, cs: seq<string>, t: (string, seq<Cell>) -> seq<Cell>): (r: Frame)
    requires LengthPreserving(t)
    ensures r.columns == f.columns && |r.rows| == |f.rows|
    decreases |cs|
  {
    if cs == [] then f
    else UpdateColumn(ApplyColumns(f, cs[..|cs| - 1], t), cs[|cs| - 1], t)
  }

  /**
   * Over distinct column names, each listed column present in the frame ends
   * up as `t` of its ORIGINAL cells; every other column, and every listed
   * column the frame lacks, is left exactly as it was.
   */
  lemma {:induction false} ApplyColumnsEffect(f: Frame, cs: seq<string>, t: (string, seq<Cell>) -> seq<Cell>)
    requires LengthPreserving(t) && Distinct(cs)
    ensures forall d ::
              Column(ApplyColumns(f, cs, t).rows, d) ==
              (if d in cs && d in f.columns then t(d, Column(f.rows, d)) else Column(f.rows, d))
    decreases |cs|
  {
    if cs != [] {
      var init := cs[..|cs| - 1];
      var c := cs[|cs| - 1];
      assert cs == init + [c];
      assert Distinct(init);
      ApplyColumnsEffect(f, init, t);
      var g := ApplyColumns(f, init, t);
      forall d ensures Column(ApplyColumns(f, cs, t).rows, d) ==
        (if d in cs && d in f.columns then t(d, Column(f.rows, d)) else Column(f.rows, d))
      {
        if c in f.columns {
          ColumnOfWithColumn(g.rows, c, t(c, Column(g.rows, c)), d);
        }
      }
    }
  }

  /** The listed columns that the frame has. */
  function ListedPresent(cs: seq<string>, columns: seq<string>): set<string> {
    set c | c in cs && c in columns
  }

  /** Each row gains an entry for every listed column present, and loses none. */
  lemma {:induction false} ApplyColumnsKeys(f: Frame, cs: seq<string>, t: (string, seq<Cell>) -> seq<Cell>)
    requires LengthPreserving(t)
    ensures forall i :: 0 <= i < |f.rows| ==>
      ApplyColumns(f, cs, t).rows[i].Keys == f.rows[i].Keys + ListedPresent(cs, f.columns)
    decreases |cs|
  {
    if cs != [] {
      var init := cs[..|cs| - 1];
      var c := cs[|cs| - 1];
      assert cs == init + [c];
      ApplyColumnsKeys(f, init, t);
      assert ListedPresent(cs, f.columns) ==
        ListedPresent(init, f.columns) + (if c in f.columns then {c} else {});
    } else {
      assert ListedPresent(cs, f.columns) == {};
    }
  }

  /**
   * If `t` is idempotent on every column, so is applying it over a list of
   * distinct columns: a second pass changes nothing.
   */
  lemma ApplyColumnsIdempotent(f: Frame, cs: seq<string>, t: (string, seq<Cell>) -> seq<Cell>)
    requires LengthPreserving(t) && Distinct(cs)
    requires forall c, col :: t(c, t(c, col)) == t(c, col)
    ensures ApplyColumns(ApplyColumns(f, cs, t), cs, t) == ApplyColumns(f, cs, t)
  {
    var g := ApplyColumns(f, cs, t);
    var h := ApplyColumns(g, cs, t);
    ApplyColumnsEffect(f, cs, t);
    ApplyColumnsEffect(g, cs, t);
    ApplyColumnsKeys(f, cs, t);
    ApplyColumnsKeys(g, cs, t);
    forall i | 0 <= i < |f.rows| ensures h.rows[i] == g.rows[i] {
      forall d | d in h.rows[i] ensures h.rows[i][d] == g.rows[i][d] {
        assert Column(h.rows, d)[i] == Get(h.rows[i], d);
        assert Column(g.rows, d)[i] == Get(g.rows[i], d);
      }
    }
  }

  /**
   * A pandas DataFrame as the validators see it: an object whose columns
   * are overwritten in place.
   */
  class DataFrame {
    var columns: seq<string>
    var rows: seq<Row>

    constructor (f: Frame)
      ensures Value() == f
    {
      columns := f.columns;
      rows := f.rows;
    }

    /** The frame's current contents as a value. */
    function Value(): Frame
      reads this
    {
      Frame(columns, rows)
    }

    /** `df[c]`. */
    function Series(c: string): (col: seq<Cell>)
      reads this
      ensures |col| == |rows|
    {
      Column(rows, c)
    }

    /** `df[c] = col`: overwrites column `c`, appending it to the columns if new. */
    method Assign(c: string, col: seq<Cell>)
      requires |col| == |rows|
      modifies this
      ensures columns == if c in old(columns) then old(columns) else old(columns) + [c]
      ensures rows == WithColumn(old(rows), c, col)
    {
      if c !in columns {
        columns := columns + [c];
      }
      rows := WithColumn(rows, c, col);
    }
  }
}
