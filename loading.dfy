/**
 * The loading side of LoadDataStructure.py: every `.csv` file of the cleaned
 * folder is read in full and the tables that load are stacked, aligned on
 * the union of their columns, with exact-duplicate rows dropped; then the
 * validators run in their fixed order.
 */
module LoadDataStructure {
  import opened Wrappers
  import opened Sequences
  import opened Table
  import opened Files
  import opened Text
  import opened Validators

  // ---------------------------------------------------------------------
  // pd.concat(dataframes, ignore_index=True)
  // ---------------------------------------------------------------------

  /** `acc` followed by the names of `cols` it lacks, in their order. */
  function AddColumns(acc: seq<string>, cols: seq<string>): (r: seq<string>)
    ensures forall c :: c in r <==> c in acc || c in cols
    ensures Distinct(acc) ==> Distinct(r)
    ensures |acc| <= |r| && r[..|acc|] == acc
    decreases |cols|
  {
    if cols == [] then acc
    else AddColumns(if cols[0] in acc then acc else acc + [cols[0]], cols[1..])
  }

  /**
   * The names `AddColumns` appends are names of `cols` that `acc` lacks, and
   * they come in the order of their first occurrence in `cols`.
   */
  lemma {:induction false} AddColumnsOrder(acc: seq<string>, cols: seq<string>)
    ensures var r := AddColumns(acc, cols);
      forall i :: |acc| <= i < |r| ==> r[i] in cols && r[i] !in acc
    ensures var r := AddColumns(acc, cols);
      forall i, j :: |acc| <= i < j < |r| ==> FirstIndex(cols, r[i]) < FirstIndex(cols, r[j])
    decreases |cols|
  {
    if cols != [] {
      var head := cols[0];
      var acc' := if head in acc then acc else acc + [head];
      var r := AddColumns(acc, cols);
      assert r == AddColumns(acc', cols[1..]);
      AddColumnsOrder(acc', cols[1..]);
      forall i | |acc'| <= i < |r| ensures r[i] in cols && r[i] != head && FirstIndex(cols, r[i]) == 1 + FirstIndex(cols[1..], r[i]) {
        assert r[i] !in acc';
        FirstIndexTail(cols, r[i]);
      }
      if head !in acc {
        assert r[|acc|] == acc'[|acc|] == head;
      }
    }
  }

  /** The columns of the stacked table: every file's columns, each once, in order of first appearance. */
  function UnionColumns(frames: seq<Frame>): (r: seq<string>)
    ensures Distinct(r)
    ensures forall k, c :: 0 <= k < |frames| && c in frames[k].columns ==> c in r
  {
    if frames == [] then []
    else
      var init := frames[..|frames| - 1];
      var r := AddColumns(UnionColumns(init), frames[|frames| - 1].columns);
      assert forall k :: 0 <= k < |init| ==> frames[k] == init[k];
      r
  }

  /**
   * The union holds no name outside the tables' columns. The union of the
   * earlier tables is a prefix of it, and after that prefix come the last
   * table's new columns in that table's order, so each column sits where it
   * first appears.
   */
  lemma {:induction false} UnionColumnsExact(frames: seq<Frame>)
    ensures forall c :: c in UnionColumns(frames) ==> exists k :: 0 <= k < |frames| && c in frames[k].columns
    ensures frames != [] ==>
      var u := UnionColumns(frames[..|frames| - 1]);
      |u| <= |UnionColumns(frames)| && UnionColumns(frames)[..|u|] == u
    ensures frames != [] ==>
      var u := UnionColumns(frames[..|frames| - 1]);
      var r := UnionColumns(frames);
      var last := frames[|frames| - 1].columns;
      && (forall i :: |u| <= i < |r| ==> r[i] in last && r[i] !in u)
      && (forall i, j :: |u| <= i < j < |r| ==> FirstIndex(last, r[i]) < FirstIndex(last, r[j]))
  {
    if frames != [] {
      var init := frames[..|frames| - 1];
      var u := UnionColumns(init);
      UnionColumnsExact(init);
      assert UnionColumns(frames) == AddColumns(u, frames[|frames| - 1].columns);
      AddColumnsOrder(u, frames[|frames| - 1].columns);
      forall c | c in UnionColumns(frames) ensures exists k :: 0 <= k < |frames| && c in frames[k].columns {
        if c in u {
          var k :| 0 <= k < |init| && c in init[k].columns;
          assert frames[k] == init[k];
        } else {
          assert c in frames[|frames| - 1].columns;
        }
      }
    }
  }

  /** A row of one file within the stacked table: a column the file lacks is missing. */
  function AlignRow(r: Row, own: seq<string>, all: seq<string>): Row {
    map c | c in all :: if c in own then Get(r, c) else Missing
  }

  function AlignedRows(frames: seq<Frame>, all: seq<string>): (rows: seq<Row>)
    ensures |rows| == TotalRows(frames)
  {
    if frames == [] then []
    else
      var f := frames[|frames| - 1];
      AlignedRows(frames[..|frames| - 1], all)
        + seq(|f.rows|, i requires 0 <= i < |f.rows| => AlignRow(f.rows[i], f.columns, all))
  }

  /** The number of rows of all the tables together. */
  function TotalRows(frames: seq<Frame>): nat {
    if frames == [] then 0 else TotalRows(frames[..|frames| - 1]) + |frames[|frames| - 1].rows|
  }

  /** `pd.concat(frames, ignore_index=True)`. */
  function Concat(frames: seq<Frame>): Frame {
    var all := UnionColumns(frames);
    Frame(all, AlignedRows(frames, all))
  }

  /** Row `i` of table `k` sits at position TotalRows(frames[..k]) + i of the stack. */
  lemma {:induction false} AlignedRowsAt(frames: seq<Frame>, all: seq<string>, k: nat, i: nat)
    requires k < |frames| && i < |frames[k].rows|
    ensures TotalRows(frames[..k]) + i < TotalRows(frames)
    ensures AlignedRows(frames, all)[TotalRows(frames[..k]) + i] ==
      AlignRow(frames[k].rows[i], frames[k].columns, all)
  {
    var init := frames[..|frames| - 1];
    if k < |init| {
      AlignedRowsAt(init, all, k, i);
      assert init[..k] == frames[..k];
    } else {
      assert frames[..k] == init;
    }
  }

  /**
   * The stacked table has exactly the rows of all the tables, in order: row
   * `i` of table `k` keeps its cells in the columns table `k` has and reads
   * missing in every other column of the union; every row has an entry for
   * each column of the union and no other.
   */
  lemma ConcatSpec(frames: seq<Frame>, k: nat, i: nat)
    requires k < |frames| && i < |frames[k].rows|
    ensures |Concat(frames).rows| == TotalRows(frames)
    ensures TotalRows(frames[..k]) + i < TotalRows(frames)
    ensures var row := Concat(frames).rows[TotalRows(frames[..k]) + i];
      && row.Keys == Elements(Concat(frames).columns)
      && forall c :: Get(row, c) == if c in frames[k].columns then Get(frames[k].rows[i], c) else Missing
  {
    AlignedRowsAt(frames, UnionColumns(frames), k, i);
  }

  // ---------------------------------------------------------------------
  // load_cleaned_data
  // ---------------------------------------------------------------------

  /** The tables of the files that load in full (`pd.read_csv` without `nrows`), in order. */
  function LoadedFrames(files: seq<string>, read: string -> FileContent): seq<Frame> {
    if files == [] then []
    else
      var init := LoadedFrames(files[..|files| - 1], read);
      var loaded := ReadCsv(read(files[|files| - 1]), None);
      if loaded.Ok? then init + [loaded.value] else init
  }

  /** Loading a listing in two parts and joining the tables is loading it whole. */
  lemma {:induction false} LoadedFramesAppend(a: seq<string>, b: seq<string>, read: string -> FileContent)
    ensures LoadedFrames(a + b, read) == LoadedFrames(a, read) + LoadedFrames(b, read)
  {
    if b == [] {
      assert a + b == a;
    } else {
      LoadedFramesAppend(a, b[..|b| - 1], read);
      assert (a + b)[..|a + b| - 1] == a + b[..|b| - 1];
      assert (a + b)[|a + b| - 1] == b[|b| - 1];
    }
  }

  /** No table loads exactly when every file fails to load. */
  lemma {:induction false} LoadedFramesEmpty(files: seq<string>, read: string -> FileContent)
    ensures LoadedFrames(files, read) == [] <==>
      forall j :: 0 <= j < |files| ==> ReadCsv(read(files[j]), None).Err?
  {
    if files != [] {
      var init := files[..|files| - 1];
      LoadedFramesEmpty(init, read);
      assert forall j :: 0 <= j < |init| ==> files[j] == init[j];
    }
  }

  /** What `load_cleaned_data` returns or raises. */
  function LoadCleaned(folderPath: string, listing: Option<seq<string>>, read: string -> FileContent): Result<Frame, FatalError> {
    if listing.None? then Err(FolderNotFound(folderPath))
    else
      var csvFiles := CsvFiles(listing.value);
      if csvFiles == [] then Err(NoCsvFiles(folderPath))
      else
        var frames := LoadedFrames(csvFiles, read);
        if frames == [] then Err(NoDataLoaded)
        else
          var combined := Concat(frames);
          Ok(combined.(rows := DropDuplicates(combined.rows)))
  }

  /**
   * The loader fails when the folder is missing, when no name ends in
   * `.csv`, or when every `.csv` file fails to load, and for no other
   * reason; a file that fails to load is otherwise skipped.
   */
  lemma LoadCleanedErrors(folderPath: string, listing: Option<seq<string>>, read: string -> FileContent)
    ensures listing.None? ==> LoadCleaned(folderPath, listing, read) == Err(FolderNotFound(folderPath))
    ensures listing.Some? && CsvFiles(listing.value) == [] ==>
      LoadCleaned(folderPath, listing, read) == Err(NoCsvFiles(folderPath))
    ensures listing.Some? && CsvFiles(listing.value) != [] ==>
      (LoadCleaned(folderPath, listing, read) == Err(NoDataLoaded) <==>
       forall j :: 0 <= j < |CsvFiles(listing.value)| ==> ReadCsv(read(CsvFiles(listing.value)[j]), None).Err?)
    ensures LoadCleaned(folderPath, listing, read).Err? <==>
      listing.None? || CsvFiles(listing.value) == [] ||
      forall j :: 0 <= j < |CsvFiles(listing.value)| ==> ReadCsv(read(CsvFiles(listing.value)[j]), None).Err?
  {
    if listing.Some? {
      LoadedFramesEmpty(CsvFiles(listing.value), read);
    }
  }

  /**
   * A successful load has exactly the columns of the loaded tables and no
   * two equal rows; its rows are exactly the distinct rows of the stacked
   * tables, each at its first occurrence and in that order, one per
   * distinct row, where the stack holds the rows of every loaded table.
   */
  lemma LoadCleanedResult(folderPath: string, listing: Option<seq<string>>, read: string -> FileContent)
    requires LoadCleaned(folderPath, listing, read).Ok?
    ensures var frames := LoadedFrames(CsvFiles(listing.value), read);
      var stacked := Concat(frames);
      var r := LoadCleaned(folderPath, listing, read).value;
      && |stacked.rows| == TotalRows(frames)
      && r.columns == stacked.columns
      && (forall c :: c in r.columns <==> exists k :: 0 <= k < |frames| && c in frames[k].columns)
      && Distinct(r.rows)
      && (forall x :: x in r.rows <==> x in stacked.rows)
      && |r.rows| == |Elements(stacked.rows)|
      && (forall i, j :: 0 <= i < j < |r.rows| ==>
            FirstIndex(stacked.rows, r.rows[i]) < FirstIndex(stacked.rows, r.rows[j]))
  {
    var stacked := Concat(LoadedFrames(CsvFiles(listing.value), read));
    UnionColumnsExact(LoadedFrames(CsvFiles(listing.value), read));
    DropDuplicatesElements(stacked.rows);
    DropDuplicatesKeepsFirstOrder(stacked.rows);
    DropDuplicatesCount(stacked.rows);
  }

  /** Loading an already deduplicated table again removes nothing. */
  lemma LoadCleanedDeduplicated(folderPath: string, listing: Option<seq<string>>, read: string -> FileContent)
    requires LoadCleaned(folderPath, listing, read).Ok?
    ensures var rows := LoadCleaned(folderPath, listing, read).value.rows;
      DropDuplicates(rows) == rows
  {
    var stacked := Concat(LoadedFrames(CsvFiles(listing.value), read));
    DropDuplicatesIdempotent(stacked.rows);
  }

  /**
   * `load_cleaned_data(folder_path)`: check the folder, list its `.csv`
   * files, load each in full and skip those that fail, then stack what
   * loaded and drop duplicate rows.
   */
  method LoadCleanedData(folderPath: string, listing: Option<seq<string>>, read: string -> FileContent)
    returns (r: Result<Frame, FatalError>)
    ensures r == LoadCleaned(folderPath, listing, read)
  {
    if listing.None? {
      return Err(FolderNotFound(folderPath));
    }
    var csvFiles := CsvFiles(listing.value);
    if csvFiles == [] {
      return Err(NoCsvFiles(folderPath));
    }
    var dataframes: seq<Frame> := [];
    for i := 0 to |csvFiles|
      invariant dataframes == LoadedFrames(csvFiles[..i], read)
    {
      assert csvFiles[..i + 1][..i] == csvFiles[..i];
      var loaded := ReadCsv(read(csvFiles[i]), None);
      if loaded.Ok? {
        dataframes := dataframes + [loaded.value];
      }
    }
    assert csvFiles[..|csvFiles|] == csvFiles;
    if dataframes == [] {
      return Err(NoDataLoaded);
    }
    var combinedDf := Concat(dataframes);
    combinedDf := combinedDf.(rows := DropDuplicates(combinedDf.rows));
    r := Ok(combinedDf);
  }

  // ---------------------------------------------------------------------
  // load_and_validate_data
  // ---------------------------------------------------------------------

  /**
   * How pandas reads a date and a number out of a cell, and prints a cell
   * as text: outside this model, so given as parameters.
   */
  datatype Parsers = Parsers(date: Cell -> Option<int>, number: Cell -> Option<real>, text: Cell -> string)

  /** The three validators in their fixed order. */
  function Validated(f: Frame, p: Parsers): Frame {
    Standardized(NumericValidated(DatesValidated(f, p.date), p.number), p.text)
  }

  lemma ValidatedColumnsDisjoint()
    ensures forall d :: d in DateColumns ==> d !in NumericValidations && d !in CategoricalColumns
    ensures forall d :: d in NumericValidations ==> d !in CategoricalColumns
  {
    NumericColumnsDistinct();
    var ds, ns, cs := DateColumns, NumericColumns, CategoricalColumns;
    assert ds[0][5] == 'd' && ds[1][0] == 'f';
    assert ns[0][5] == 'm' && ns[1][0] == 'c' && ns[2][5] == 'c';
    assert cs[0][0] == 'm' && cs[1][0] == 'm' && cs[2][0] == 'c' && cs[3][0] == 'f'
      && cs[4][5] == 't' && cs[5][5] == 'r';
    assert |ns[1]| != |cs[2]|;
    assert |ds[1]| != |cs[3]|;
  }

  /** Columns no validator lists come out of validation as they went in. */
  lemma ValidatedOtherColumns(f: Frame, p: Parsers, d: string)
    requires d !in DateColumns && d !in NumericValidations && d !in CategoricalColumns
    ensures Column(Validated(f, p).rows, d) == Column(f.rows, d)
  {
    var f1 := DatesValidated(f, p.date);
    DatesValidatedSpec(f, p.date);
    NumericValidatedSpec(f1, p.number);
    StandardizedSpec(NumericValidated(f1, p.number), p.text);
  }

  /** Date columns: dates and missing cells only, untouched by the later stages. */
  lemma ValidatedDateColumn(f: Frame, p: Parsers, d: string, i: nat)
    requires d in DateColumns && d in f.columns && i < |f.rows|
    ensures Get(Validated(f, p).rows[i], d).Missing? || Get(Validated(f, p).rows[i], d).Date?
  {
    var f1 := DatesValidated(f, p.date);
    var f2 := NumericValidated(f1, p.number);
    var f3 := Standardized(f2, p.text);
    ValidatedColumnsDisjoint();
    DatesValidatedSpec(f, p.date);
    NumericValidatedSpec(f1, p.number);
    StandardizedSpec(f2, p.text);
    assert Column(f3.rows, d) == Column(f1.rows, d);
    assert Column(f3.rows, d)[i] == Get(f3.rows[i], d);
    assert Column(f1.rows, d)[i] == Get(f1.rows[i], d);
  }

  /** Bounded columns: missing cells and in-bounds numbers only, untouched by standardisation. */
  lemma ValidatedNumericColumn(f: Frame, p: Parsers, d: string, i: nat)
    requires d in NumericValidations && d in f.columns && i < |f.rows|
    ensures Get(Validated(f, p).rows[i], d).Missing? || InRange(Get(Validated(f, p).rows[i], d), NumericValidations[d])
  {
    var f1 := DatesValidated(f, p.date);
    var f2 := NumericValidated(f1, p.number);
    var f3 := Standardized(f2, p.text);
    ValidatedColumnsDisjoint();
    NumericValidatedSpec(f1, p.number);
    StandardizedSpec(f2, p.text);
    assert Column(f3.rows, d)[i] == Get(f3.rows[i], d);
    assert Column(f2.rows, d)[i] == Get(f2.rows[i], d);
  }

  /** Categorical columns: clean upper-case strings, none of them a null spelling. */
  lemma ValidatedCategoricalColumn(f: Frame, p: Parsers, d: string, i: nat)
    requires d in CategoricalColumns && d in f.columns && i < |f.rows|
    ensures var cell := Get(Validated(f, p).rows[i], d);
      cell.Str? && cell.s !in NullSpellings && Stripped(cell.s)
      && forall k :: 0 <= k < |cell.s| ==> !('a' <= cell.s[k] <= 'z')
  {
    var f2 := NumericValidated(DatesValidated(f, p.date), p.number);
    StandardizedSpec(f2, p.text);
    StandardizeCellSpec(Get(f2.rows[i], d), p.text);
  }

  /**
   * After the three validators: each date column present holds dates and
   * missing cells; each bounded column present holds missing cells and
   * numbers within its bounds; each categorical column present holds
   * upper-case strings without surrounding whitespace and none of the null
   * spellings; every other column is as it was loaded. The columns and the
   * number of rows do not change.
   */
  lemma ValidatedSpec(f: Frame, p: Parsers)
    ensures Validated(f, p).columns == f.columns && |Validated(f, p).rows| == |f.rows|
    ensures forall d :: d !in DateColumns && d !in NumericValidations && d !in CategoricalColumns ==>
      Column(Validated(f, p).rows, d) == Column(f.rows, d)
    ensures forall d, i :: d in DateColumns && d in f.columns && 0 <= i < |f.rows| ==>
      Get(Validated(f, p).rows[i], d).Missing? || Get(Validated(f, p).rows[i], d).Date?
    ensures forall d, i :: d in NumericValidations && d in f.columns && 0 <= i < |f.rows| ==>
      Get(Validated(f, p).rows[i], d).Missing? || InRange(Get(Validated(f, p).rows[i], d), NumericValidations[d])
    ensures forall d, i :: d in CategoricalColumns && d in f.columns && 0 <= i < |f.rows| ==>
      var cell := Get(Validated(f, p).rows[i], d);
      cell.Str? && cell.s !in NullSpellings && Stripped(cell.s)
  {
    forall d | d !in DateColumns && d !in NumericValidations && d !in CategoricalColumns
      ensures Column(Validated(f, p).rows, d) == Column(f.rows, d)
    {
      ValidatedOtherColumns(f, p, d);
    }
    forall d, i | d in DateColumns && d in f.columns && 0 <= i < |f.rows|
      ensures Get(Validated(f, p).rows[i], d).Missing? || Get(Validated(f, p).rows[i], d).Date?
    {
      ValidatedDateColumn(f, p, d, i);
    }
    forall d, i | d in NumericValidations && d in f.columns && 0 <= i < |f.rows|
      ensures Get(Validated(f, p).rows[i], d).Missing? || InRange(Get(Validated(f, p).rows[i], d), NumericValidations[d])
    {
      ValidatedNumericColumn(f, p, d, i);
    }
    forall d, i | d in CategoricalColumns && d in f.columns && 0 <= i < |f.rows|
      ensures Get(Validated(f, p).rows[i], d).Str? && Get(Validated(f, p).rows[i], d).s !in NullSpellings
        && Stripped(Get(Validated(f, p).rows[i], d).s)
    {
      ValidatedCategoricalColumn(f, p, d, i);
    }
  }

  /**
   * `load_and_validate_data(folder_path)`: load the cleaned folder (its
   * errors propagate unchanged), then run the date, numeric and categorical
   * validators on the loaded frame in place.
   */
  method LoadAndValidateData(folderPath: string, listing: Option<seq<string>>, read: string -> FileContent, p: Parsers)
    returns (r: Result<Frame, FatalError>)
    ensures r.Err? <==> LoadCleaned(folderPath, listing, read).Err?
    ensures r.Err? ==> r.error == LoadCleaned(folderPath, listing, read).error
    ensures r.Ok? ==> r.value == Validated(LoadCleaned(folderPath, listing, read).value, p)
  {
    var loaded := LoadCleanedData(folderPath, listing, read);
    if loaded.Err? {
      return Err(loaded.error);
    }
    var df := new DataFrame(loaded.value);
    ValidateDates(df, p.date);
    ValidateNumericColumns(df, p.number);
    StandardizeCategoricalColumns(df, p.text);
    r := Ok(df.Value());
  }
}
