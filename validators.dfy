/**
 * The column validators of LoadDataStructure.py. Each acts on a fixed list
 * of columns, on a column only when the frame has it, and overwrites that
 * column of the frame in place; every other column is left alone.
 */
module Validators {
  import opened Wrappers
  import opened Sequences
  import opened Table
  import opened Text
  import opened Stats

  // ---------------------------------------------------------------------
  // validate_dates
  // ---------------------------------------------------------------------

  const DateColumns: seq<string> := ["test_date", "first_use_date"]

  /**
   * `pd.to_datetime(..., errors='coerce')` on one cell. Reading a date out of
   * a string or a number is pandas' own inference, given here as `parse`;
   * what fails to parse becomes missing instead of raising.
   */
  function ToDatetime(c: Cell, parse: Cell -> Option<int>): Cell {
    match c
    case Missing => Missing
    case Date(_) => c
    case _ => if parse(c).Some? then Date(parse(c).value) else Missing
  }

  function DateCells(col: seq<Cell>, parse: Cell -> Option<int>): (r: seq<Cell>)
    ensures |r| == |col|
  {
    seq(|col|, i requires 0 <= i < |col| => ToDatetime(col[i], parse))
  }

  function DateStep(parse: Cell -> Option<int>): (t: (string, seq<Cell>) -> seq<Cell>)
    ensures LengthPreserving(t)
  {
    (c: string, col: seq<Cell>) => DateCells(col, parse)
  }

  /** What `validate_dates` makes of a frame. */
  function DatesValidated(f: Frame, parse: Cell -> Option<int>): (r: Frame)
    ensures r.columns == f.columns && |r.rows| == |f.rows|
  {
    ApplyColumns(f, DateColumns, DateStep(parse))
  }

  lemma DateColumnsDistinct()
    ensures Distinct(DateColumns)
  {
    assert DateColumns[0][0] != DateColumns[1][0];
  }

  /**
   * After `validate_dates`, each cell of a date column the frame has is a
   * date or missing: a date stays, a missing cell stays missing, any other
   * cell becomes the date it parses to or, when it does not parse, missing.
   * Every other column, and a date column the frame lacks, is unchanged.
   */
  lemma DatesValidatedSpec(f: Frame, parse: Cell -> Option<int>)
    ensures forall d :: (d !in DateColumns || d !in f.columns) ==>
      Column(DatesValidated(f, parse).rows, d) == Column(f.rows, d)
    ensures forall d, i :: d in DateColumns && d in f.columns && 0 <= i < |f.rows| ==>
      var before := Get(f.rows[i], d);
      var after := Get(DatesValidated(f, parse).rows[i], d);
      && (after.Missing? || after.Date?)
      && (before.Date? ==> after == before)
      && (after.Missing? <==> before.Missing? || (!before.Date? && parse(before).None?))
      && (after.Date? && !before.Date? ==> parse(before) == Some(after.day))
  {
    DateColumnsDistinct();
    ApplyColumnsEffect(f, DateColumns, DateStep(parse));
    var r := DatesValidated(f, parse);
    forall d, i | d in DateColumns && d in f.columns && 0 <= i < |f.rows|
      ensures Get(r.rows[i], d) == ToDatetime(Get(f.rows[i], d), parse)
    {
      assert Column(r.rows, d)[i] == Get(r.rows[i], d);
    }
  }

  /** `validate_dates(df)`: coerces `test_date` and `first_use_date`, each only if present. */
  method ValidateDates(df: DataFrame, parse: Cell -> Option<int>)
    modifies df
    ensures df.Value() == DatesValidated(old(df.Value()), parse)
  {
    ghost var f := df.Value();
    assert DateColumns[..1] == ["test_date"] && DateColumns[..1][..0] == [];
    assert ApplyColumns(f, DateColumns, DateStep(parse)) ==
      UpdateColumn(UpdateColumn(f, "test_date", DateStep(parse)), "first_use_date", DateStep(parse));
    if "test_date" in df.columns {
      df.Assign("test_date", DateCells(df.Series("test_date"), parse));
    }
    if "first_use_date" in df.columns {
      df.Assign("first_use_date", DateCells(df.Series("first_use_date"), parse));
    }
  }

  // ---------------------------------------------------------------------
  // validate_numeric_columns
  // ---------------------------------------------------------------------

  /** An inclusive range of accepted values. */
  datatype Range = Range(lo: real, hi: real)

  /** The keys of `numeric_validations`, in its order. */
  const NumericColumns: seq<string> := ["test_mileage", "cylinder_capacity", "test_class_id"]

  /** `numeric_validations`. */
  const NumericValidations: map<string, Range> := map[
    "test_mileage" := Range(0.0, 1000000.0),
    "cylinder_capacity" := Range(0.0, 10000.0),
    "test_class_id" := Range(1.0, 7.0)]

  lemma NumericColumnsDistinct()
    ensures Distinct(NumericColumns)
    ensures forall c :: c in NumericColumns <==> c in NumericValidations
  {
    var cs := NumericColumns;
    assert cs[0][0] != cs[1][0] && cs[1][0] != cs[2][0] && cs[0][5] != cs[2][5];
  }

  /**
   * `pd.to_numeric(..., errors='coerce')` on one cell: a number stays, a
   * missing cell stays missing, anything else becomes the number `parse`
   * reads from it or, when it reads none, missing.
   */
  function ToNumeric(c: Cell, parse: Cell -> Option<real>): Cell {
    match c
    case Missing => Missing
    case Num(_) => c
    case _ => if parse(c).Some? then Num(parse(c).value) else Missing
  }

  function NumericCoerced(col: seq<Cell>, parse: Cell -> Option<real>): (r: seq<Cell>)
    ensures |r| == |col|
  {
    seq(|col|, i requires 0 <= i < |col| => ToNumeric(col[i], parse))
  }

  /** A number within the inclusive range; both ends are accepted. */
  predicate InRange(c: Cell, range: Range) {
    c.Num? && range.lo <= c.x <= range.hi
  }

  /** `mask = (col < min) | (col > max)`; `df.loc[mask, column] = np.nan`. */
  function Masked(col: seq<Cell>, range: Range): (r: seq<Cell>)
    ensures |r| == |col|
  {
    seq(|col|, i requires 0 <= i < |col| =>
      if col[i].Num? && (col[i].x < range.lo || col[i].x > range.hi) then Missing else col[i])
  }

  /** The non-missing numbers of a column, in row order. */
  function NumValues(col: seq<Cell>): (v: seq<real>)
    ensures |v| <= |col|
  {
    if col == [] then []
    else
      var init := NumValues(col[..|col| - 1]);
      if col[|col| - 1].Num? then init + [col[|col| - 1].x] else init
  }

  lemma {:induction false} NumValuesMembers(col: seq<Cell>)
    ensures forall k :: 0 <= k < |NumValues(col)| ==> Num(NumValues(col)[k]) in col
    ensures NumValues(col) == [] <==> forall i :: 0 <= i < |col| ==> !col[i].Num?
  {
    if col != [] {
      var init := col[..|col| - 1];
      NumValuesMembers(init);
      assert col == init + [col[|col| - 1]];
    }
  }

  /** `col.fillna(m)`: a missing median (NaN) fills nothing. */
  function FillWith(col: seq<Cell>, m: Option<real>): (r: seq<Cell>)
    ensures |r| == |col|
  {
    if m.None? then col
    else seq(|col|, i requires 0 <= i < |col| => if col[i].Missing? then Num(m.value) else col[i])
  }

  /** The in-range numbers of a column, in row order: the values its median is taken over. */
  function ValidValues(col: seq<Cell>, parse: Cell -> Option<real>, range: Range): seq<real> {
    NumValues(Masked(NumericCoerced(col, parse), range))
  }

  /** What `validate_numeric_columns` makes of one bounded column. */
  function NumericCells(col: seq<Cell>, parse: Cell -> Option<real>, range: Range): (r: seq<Cell>)
    ensures |r| == |col|
  {
    var masked := Masked(NumericCoerced(col, parse), range);
    FillWith(masked, Median(NumValues(masked)))
  }

  /** Coercing then masking keeps exactly the in-range numbers and blanks every other cell. */
  lemma MaskedCoerced(col: seq<Cell>, parse: Cell -> Option<real>, range: Range, i: int)
    requires 0 <= i < |col|
    ensures Masked(NumericCoerced(col, parse), range)[i] ==
      if InRange(ToNumeric(col[i], parse), range) then ToNumeric(col[i], parse) else Missing
  {
  }

  /**
   * One bounded column after validation. A cell whose number lies in the
   * range, ends included, is kept. Every other cell (unparsable, missing,
   * below the minimum or above the maximum) becomes the median of the
   * in-range numbers, or stays missing when there are none. So every
   * number left lies in the range.
   */
  lemma NumericCellsSpec(col: seq<Cell>, parse: Cell -> Option<real>, range: Range)
    ensures forall i :: 0 <= i < |col| ==>
      var r := NumericCells(col, parse, range);
      && (r[i].Missing? || InRange(r[i], range))
      && (InRange(ToNumeric(col[i], parse), range) ==> r[i] == ToNumeric(col[i], parse))
      && (!InRange(ToNumeric(col[i], parse), range) ==>
            r[i] == (if Median(ValidValues(col, parse, range)).Some?
                     then Num(Median(ValidValues(col, parse, range)).value) else Missing))
    ensures Median(ValidValues(col, parse, range)).None? <==>
      forall i :: 0 <= i < |col| ==> !InRange(ToNumeric(col[i], parse), range)
  {
    var masked := Masked(NumericCoerced(col, parse), range);
    var v := ValidValues(col, parse, range);
    var m := Median(v);
    var r := NumericCells(col, parse, range);
    assert r == FillWith(masked, m);
    NumValuesMembers(masked);
    forall k | 0 <= k < |v| ensures range.lo <= v[k] <= range.hi {
      var i :| 0 <= i < |masked| && masked[i] == Num(v[k]);
      MaskedCoerced(col, parse, range, i);
    }
    MedianWithin(v, range.lo, range.hi);
    forall i | 0 <= i < |col|
      ensures (r[i].Missing? || InRange(r[i], range))
      ensures InRange(ToNumeric(col[i], parse), range) ==> r[i] == ToNumeric(col[i], parse)
      ensures !InRange(ToNumeric(col[i], parse), range) ==> r[i] == (if m.Some? then Num(m.value) else Missing)
    {
      MaskedCoerced(col, parse, range, i);
    }
    if m.None? {
      forall i | 0 <= i < |col| ensures !InRange(ToNumeric(col[i], parse), range) {
        MaskedCoerced(col, parse, range, i);
      }
    } else {
      var i :| 0 <= i < |masked| && masked[i].Num?;
      MaskedCoerced(col, parse, range, i);
    }
  }

  /**
   * A column holding only in-range numbers and missing cells, and either
   * entirely missing or with no missing cell, is left alone by validation.
   */
  lemma NumericCellsOfValidated(r: seq<Cell>, parse: Cell -> Option<real>, range: Range)
    requires forall i :: 0 <= i < |r| ==> r[i].Missing? || InRange(r[i], range)
    requires (forall i :: 0 <= i < |r| ==> r[i].Missing?) || (forall i :: 0 <= i < |r| ==> !r[i].Missing?)
    ensures NumericCells(r, parse, range) == r
  {
    var masked := Masked(NumericCoerced(r, parse), range);
    assert masked == r by {
      forall i | 0 <= i < |r| ensures masked[i] == r[i] {
        MaskedCoerced(r, parse, range, i);
      }
    }
    NumValuesMembers(r);
  }

  /** Validating a bounded column a second time changes nothing. */
  lemma NumericCellsIdempotent(col: seq<Cell>, parse: Cell -> Option<real>, range: Range)
    ensures NumericCells(NumericCells(col, parse, range), parse, range) == NumericCells(col, parse, range)
  {
    var r := NumericCells(col, parse, range);
    NumericCellsSpec(col, parse, range);
    if Median(ValidValues(col, parse, range)).None? {
      assert forall i :: 0 <= i < |r| ==> r[i].Missing?;
    } else {
      assert forall i :: 0 <= i < |r| ==> !r[i].Missing?;
    }
    NumericCellsOfValidated(r, parse, range);
  }

  function NumericStep(parse: Cell -> Option<real>): (t: (string, seq<Cell>) -> seq<Cell>)
    ensures LengthPreserving(t)
  {
    (c: string, col: seq<Cell>) =>
      if c in NumericValidations then NumericCells(col, parse, NumericValidations[c]) else col
  }

  /** What `validate_numeric_columns` makes of a frame. */
  function NumericValidated(f: Frame, parse: Cell -> Option<real>): (r: Frame)
    ensures r.columns == f.columns && |r.rows| == |f.rows|
  {
    ApplyColumns(f, NumericColumns, NumericStep(parse))
  }

  /**
   * After `validate_numeric_columns`, each bounded column the frame has
   * is that column validated cell by cell: it holds only missing cells and
   * numbers within the column's bounds, a number already within bounds is
   * kept, and every other cell becomes the median of the column's in-bound
   * numbers, or stays missing when there are none. Every other column, and
   * a bounded column the frame lacks, is unchanged.
   */
  lemma NumericValidatedSpec(f: Frame, parse: Cell -> Option<real>)
    ensures forall d :: (d !in NumericValidations || d !in f.columns) ==>
      Column(NumericValidated(f, parse).rows, d) == Column(f.rows, d)
    ensures forall d, i :: d in NumericValidations && d in f.columns && 0 <= i < |f.rows| ==>
      Get(NumericValidated(f, parse).rows[i], d) == NumericCells(Column(f.rows, d), parse, NumericValidations[d])[i]
    ensures forall d, i :: d in NumericValidations && d in f.columns && 0 <= i < |f.rows| ==>
      var after := Get(NumericValidated(f, parse).rows[i], d);
      && (after.Missing? || InRange(after, NumericValidations[d]))
      && (InRange(ToNumeric(Get(f.rows[i], d), parse), NumericValidations[d]) ==>
            after == ToNumeric(Get(f.rows[i], d), parse))
      && (!InRange(ToNumeric(Get(f.rows[i], d), parse), NumericValidations[d]) ==>
            var m := Median(ValidValues(Column(f.rows, d), parse, NumericValidations[d]));
            after == (if m.Some? then Num(m.value) else Missing))
  {
    NumericColumnsDistinct();
    ApplyColumnsEffect(f, NumericColumns, NumericStep(parse));
    var r := NumericValidated(f, parse);
    forall d, i | d in NumericValidations && d in f.columns && 0 <= i < |f.rows|
      ensures Get(r.rows[i], d) == NumericCells(Column(f.rows, d), parse, NumericValidations[d])[i]
    {
      assert Column(r.rows, d)[i] == Get(r.rows[i], d);
    }
    forall d | d in NumericValidations && d in f.columns {
      NumericCellsSpec(Column(f.rows, d), parse, NumericValidations[d]);
    }
  }

  /** `validate_numeric_columns` a second time changes nothing. */
  lemma NumericValidatedIdempotent(f: Frame, parse: Cell -> Option<real>)
    ensures NumericValidated(NumericValidated(f, parse), parse) == NumericValidated(f, parse)
  {
    NumericColumnsDistinct();
    forall c, col ensures NumericStep(parse)(c, NumericStep(parse)(c, col)) == NumericStep(parse)(c, col) {
      if c in NumericValidations {
        NumericCellsIdempotent(col, parse, NumericValidations[c]);
      }
    }
    ApplyColumnsIdempotent(f, NumericColumns, NumericStep(parse));
  }

  /**
   * One pass of the loop of `validate_numeric_columns` over a column the
   * frame has: coerce to numbers, blank the out-of-range ones, then fill the
   * blanks with the median of what is left.
   */
  method ValidateNumericColumn(df: DataFrame, column: string, parse: Cell -> Option<real>)
    requires column in NumericValidations && column in df.columns
    modifies df
    ensures df.Value() == UpdateColumn(old(df.Value()), column, NumericStep(parse))
  {
    ghost var before := df.rows;
    var range := NumericValidations[column];
    var coerced := NumericCoerced(df.Series(column), parse);
    df.Assign(column, coerced);
    ColumnOfWithColumn(before, column, coerced, column);
    var masked := Masked(df.Series(column), range);
    df.Assign(column, masked);
    WithColumnTwice(before, column, coerced, masked);
    ColumnOfWithColumn(before, column, masked, column);
    var filled := FillWith(df.Series(column), Median(NumValues(df.Series(column))));
    df.Assign(column, filled);
    WithColumnTwice(before, column, masked, filled);
  }

  /** `validate_numeric_columns(df)`: each bounded column present, in the dictionary's order. */
  method ValidateNumericColumns(df: DataFrame, parse: Cell -> Option<real>)
    modifies df
    ensures df.Value() == NumericValidated(old(df.Value()), parse)
  {
    NumericColumnsDistinct();
    ghost var f := df.Value();
    for i := 0 to |NumericColumns|
      invariant df.Value() == ApplyColumns(f, NumericColumns[..i], NumericStep(parse))
    {
      var column := NumericColumns[i];
      assert NumericColumns[..i + 1][..i] == NumericColumns[..i];
      assert ApplyColumns(f, NumericColumns[..i + 1], NumericStep(parse)) ==
        UpdateColumn(ApplyColumns(f, NumericColumns[..i], NumericStep(parse)), column, NumericStep(parse));
      if column in df.columns {
        ValidateNumericColumn(df, column, parse);
      }
    }
    assert NumericColumns[..|NumericColumns|] == NumericColumns;
  }

  // ---------------------------------------------------------------------
  // standardize_categorical_columns
  // ---------------------------------------------------------------------

  const CategoricalColumns: seq<string> := ["make", "model", "colour", "fuel_type", "test_type", "test_result"]

  /** The spellings replaced by "N/A" after upper-casing. */
  const NullSpellings: seq<string> := ["", "NAN", "NONE", "NULL"]

  /**
   * `astype(str)` on one cell: a missing cell is the float NaN and reads
   * "nan"; how pandas prints a number or a date is given as `show`.
   */
  function AsString(c: Cell, show: Cell -> string): string {
    match c
    case Missing => "nan"
    case Str(s) => s
    case _ => show(c)
  }

  /** `df[column].astype(str).str.strip()`. */
  function StrippedCells(col: seq<Cell>, show: Cell -> string): (r: seq<Cell>)
    ensures |r| == |col|
  {
    seq(|col|, i requires 0 <= i < |col| => Str(Strip(AsString(col[i], show))))
  }

  /** `df[column].str.upper()`. */
  function UpperCells(col: seq<Cell>): (r: seq<Cell>)
    ensures |r| == |col|
  {
    seq(|col|, i requires 0 <= i < |col| => if col[i].Str? then Str(Upper(col[i].s)) else col[i])
  }

  /** `df[column].replace(['', 'NAN', 'NONE', 'NULL'], 'N/A')`. */
  function ReplaceNulls(col: seq<Cell>): (r: seq<Cell>)
    ensures |r| == |col|
  {
    seq(|col|, i requires 0 <= i < |col| => if col[i].Str? && col[i].s in NullSpellings then Str("N/A") else col[i])
  }

  /** One categorical cell after standardisation. */
  function StandardizeCell(c: Cell, show: Cell -> string): Cell {
    var s := Upper(Strip(AsString(c, show)));
    if s in NullSpellings then Str("N/A") else Str(s)
  }

  function CategoricalCells(col: seq<Cell>, show: Cell -> string): (r: seq<Cell>)
    ensures |r| == |col|
  {
    seq(|col|, i requires 0 <= i < |col| => StandardizeCell(col[i], show))
  }

  /** The three column assignments of the source compose to standardising every cell. */
  lemma CategoricalStagesCompose(col: seq<Cell>, show: Cell -> string)
    ensures ReplaceNulls(UpperCells(StrippedCells(col, show))) == CategoricalCells(col, show)
  {
  }

  /** "N/A" is a clean, upper-case text that is not itself a null spelling. */
  lemma PlaceholderFacts()
    ensures "N/A" !in NullSpellings && Stripped("N/A")
    ensures forall k :: 0 <= k < |"N/A"| ==> !('a' <= "N/A"[k] <= 'z')
  {
    assert "N/A"[1] != "NAN"[1];
  }

  /** A missing cell reads "nan", which standardises to "N/A". */
  lemma MissingStandardizes(show: Cell -> string)
    ensures StandardizeCell(Missing, show) == Str("N/A")
  {
    assert Stripped("nan");
    StripOfStripped("nan");
    assert Upper("nan") == "NAN";
    assert "NAN" == NullSpellings[1];
  }

  /**
   * A standardised cell is always a string: "N/A" when the stripped,
   * upper-cased text of the cell is empty, "NAN", "NONE" or "NULL" (so a
   * missing cell gives "N/A"), and that stripped, upper-cased text
   * otherwise. Either way it has no surrounding whitespace and no
   * lower-case ASCII letter, and is none of the null spellings.
   */
  lemma StandardizeCellSpec(c: Cell, show: Cell -> string)
    ensures StandardizeCell(c, show).Str?
    ensures var s := StandardizeCell(c, show).s;
      && s !in NullSpellings && Stripped(s)
      && (forall k :: 0 <= k < |s| ==> !('a' <= s[k] <= 'z'))
      && (s == "N/A" || s == Upper(Strip(AsString(c, show))))
      && (Upper(Strip(AsString(c, show))) in NullSpellings ==> s == "N/A")
      && (Upper(Strip(AsString(c, show))) !in NullSpellings ==> s == Upper(Strip(AsString(c, show))))
    ensures c.Missing? ==> StandardizeCell(c, show) == Str("N/A")
  {
    var t := Strip(AsString(c, show));
    var u := Upper(t);
    StripSlice(AsString(c, show));
    UpperFacts(t);
    PlaceholderFacts();
    if u != [] {
      assert IsSpace(u[0]) <==> IsSpace(t[0]);
      assert IsSpace(u[|u| - 1]) <==> IsSpace(t[|t| - 1]);
    }
    if c.Missing? {
      MissingStandardizes(show);
    }
  }

  /** Standardising a standardised cell gives the same cell. */
  lemma StandardizeCellIdempotent(c: Cell, show: Cell -> string)
    ensures StandardizeCell(StandardizeCell(c, show), show) == StandardizeCell(c, show)
  {
    StandardizeCellSpec(c, show);
    var s := StandardizeCell(c, show).s;
    StripOfStripped(s);
    UpperFacts(s);
    var u := Upper(s);
    assert u == s by {
      forall k | 0 <= k < |s| ensures u[k] == s[k] {
      }
    }
  }

  function CategoricalStep(show: Cell -> string): (t: (string, seq<Cell>) -> seq<Cell>)
    ensures LengthPreserving(t)
  {
    (c: string, col: seq<Cell>) => CategoricalCells(col, show)
  }

  /** What `standardize_categorical_columns` makes of a frame. */
  function Standardized(f: Frame, show: Cell -> string): (r: Frame)
    ensures r.columns == f.columns && |r.rows| == |f.rows|
  {
    ApplyColumns(f, CategoricalColumns, CategoricalStep(show))
  }

  lemma CategoricalColumnsDistinct()
    ensures Distinct(CategoricalColumns)
  {
    var cs := CategoricalColumns;
    assert cs[0][1] == 'a' && cs[1][1] == 'o' && cs[2][1] == 'o' && cs[3][1] == 'u' && cs[4][1] == 'e' && cs[5][1] == 'e';
    assert cs[1][2] != cs[2][2] && cs[4][5] != cs[5][5];
  }

  /**
   * After `standardize_categorical_columns`, each categorical column the
   * frame has is the standardisation of its old cells; every other column,
   * and a categorical column the frame lacks, is unchanged.
   */
  lemma StandardizedSpec(f: Frame, show: Cell -> string)
    ensures forall d :: (d !in CategoricalColumns || d !in f.columns) ==>
      Column(Standardized(f, show).rows, d) == Column(f.rows, d)
    ensures forall d, i :: d in CategoricalColumns && d in f.columns && 0 <= i < |f.rows| ==>
      Get(Standardized(f, show).rows[i], d) == StandardizeCell(Get(f.rows[i], d), show)
  {
    CategoricalColumnsDistinct();
    ApplyColumnsEffect(f, CategoricalColumns, CategoricalStep(show));
    var r := Standardized(f, show);
    forall d, i | d in CategoricalColumns && d in f.columns && 0 <= i < |f.rows|
      ensures Get(r.rows[i], d) == StandardizeCell(Get(f.rows[i], d), show)
    {
      assert Column(r.rows, d)[i] == Get(r.rows[i], d);
    }
  }

  /** `standardize_categorical_columns` a second time changes nothing. */
  lemma StandardizedIdempotent(f: Frame, show: Cell -> string)
    ensures Standardized(Standardized(f, show), show) == Standardized(f, show)
  {
    CategoricalColumnsDistinct();
    forall c, col ensures CategoricalStep(show)(c, CategoricalStep(show)(c, col)) == CategoricalStep(show)(c, col) {
      forall i | 0 <= i < |col| ensures StandardizeCell(StandardizeCell(col[i], show), show) == StandardizeCell(col[i], show) {
        StandardizeCellIdempotent(col[i], show);
      }
    }
    ApplyColumnsIdempotent(f, CategoricalColumns, CategoricalStep(show));
  }

  /**
   * One pass of the loop of `standardize_categorical_columns` over a column
   * the frame has: stringify and strip, upper-case, then map the null
   * spellings to "N/A".
   */
  method StandardizeCategoricalColumn(df: DataFrame, column: string, show: Cell -> string)
    requires column in df.columns
    modifies df
    ensures df.Value() == UpdateColumn(old(df.Value()), column, CategoricalStep(show))
  {
    ghost var before := df.rows;
    var stripped := StrippedCells(df.Series(column), show);
    df.Assign(column, stripped);
    ColumnOfWithColumn(before, column, stripped, column);
    var upper := UpperCells(df.Series(column));
    df.Assign(column, upper);
    WithColumnTwice(before, column, stripped, upper);
    ColumnOfWithColumn(before, column, upper, column);
    var replaced := ReplaceNulls(df.Series(column));
    df.Assign(column, replaced);
    WithColumnTwice(before, column, upper, replaced);
    CategoricalStagesCompose(Column(before, column), show);
  }

  /** `standardize_categorical_columns(df)`: each categorical column present, in the list's order. */
  method StandardizeCategoricalColumns(df: DataFrame, show: Cell -> string)
    modifies df
    ensures df.Value() == Standardized(old(df.Value()), show)
  {
    ghost var f := df.Value();
    for i := 0 to |CategoricalColumns|
      invariant df.Value() == ApplyColumns(f, CategoricalColumns[..i], CategoricalStep(show))
    {
      var column := CategoricalColumns[i];
      assert CategoricalColumns[..i + 1][..i] == CategoricalColumns[..i];
      assert ApplyColumns(f, CategoricalColumns[..i + 1], CategoricalStep(show)) ==
        UpdateColumn(ApplyColumns(f, CategoricalColumns[..i], CategoricalStep(show)), column, CategoricalStep(show));
      if column in df.columns {
        StandardizeCategoricalColumn(df, column, show);
      }
    }
    assert CategoricalColumns[..|CategoricalColumns|] == CategoricalColumns;
  }
}
