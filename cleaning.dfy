/**
 * The cleaning batch of DataLoadingAndCleaning.py: every `.csv` file of a
 * folder, in listing order, is read up to a row cap, its missing cells are
 * filled with a placeholder, and it is written as `cleaned_<name>`; a file
 * that fails adds one line to the error log and the batch goes on.
 */
module DataLoadingAndCleaning {
  import opened Wrappers
  import opened Table
  import opened Files

  /** One row of `df.fillna(placeholder)`: a missing cell becomes the placeholder string. */
  function FillRow(r: Row, columns: seq<string>, placeholder: string): Row {
    map c | c in columns :: if Get(r, c) == Missing then Str(placeholder) else Get(r, c)
  }

  /** `df.fillna(placeholder)`. */
  function FillNa(f: Frame, placeholder: string): (r: Frame)
    ensures r.columns == f.columns && |r.rows| == |f.rows|
  {
    Frame(f.columns, seq(|f.rows|, i requires 0 <= i < |f.rows| => FillRow(f.rows[i], f.columns, placeholder)))
  }

  /** No cell of the frame is missing. */
  ghost predicate NoMissing(f: Frame) {
    forall i, c :: 0 <= i < |f.rows| && c in f.columns ==> Get(f.rows[i], c) != Missing
  }

  /**
   * After filling no cell is missing, every cell that was not missing is
   * unchanged, the rows and columns are the same, and filling again changes
   * nothing.
   */
  lemma FillNaSpec(f: Frame, placeholder: string)
    ensures NoMissing(FillNa(f, placeholder))
    ensures forall i, c :: 0 <= i < |f.rows| && c in f.columns ==>
      Get(FillNa(f, placeholder).rows[i], c) ==
      (if Get(f.rows[i], c) == Missing then Str(placeholder) else Get(f.rows[i], c))
    ensures FillNa(FillNa(f, placeholder), placeholder) == FillNa(f, placeholder)
  {
    var g := FillNa(f, placeholder);
    var h := FillNa(g, placeholder);
    forall i | 0 <= i < |f.rows| ensures h.rows[i] == g.rows[i] {
      assert h.rows[i].Keys == g.rows[i].Keys;
    }
  }

  /** A file written by the batch: its output name and its contents. */
  datatype CleanedFile = CleanedFile(name: string, frame: Frame)

  /** What a run leaves behind: the files written, in order, and the lines appended to the error log. */
  datatype Batch = Batch(written: seq<CleanedFile>, errors: seq<string>)

  /** The log line for a file that failed. */
  function ErrorLine(name: string, message: string): string {
    "Error processing file " + name + ": " + message
  }

  /** The body of the `try` for one file, with its `except` turning a failure into a log line. */
  function CleanFile(name: string, content: FileContent, rowsToRead: int, placeholder: string): Result<CleanedFile, string> {
    match ReadCsv(content, Some(rowsToRead))
    case Ok(data) => Ok(CleanedFile("cleaned_" + name, FillNa(data, placeholder)))
    case Err(message) => Err(ErrorLine(name, message))
  }

  /**
   * A file fails exactly when its capped read fails, and then produces only
   * the log line. Otherwise it is written as `cleaned_<name>` with the
   * file's header and its first min(rows in file, cap) rows, each cell as
   * read or, where it was missing, the placeholder.
   */
  lemma CleanFileSpec(name: string, content: FileContent, rowsToRead: int, placeholder: string)
    ensures CleanFile(name, content, rowsToRead, placeholder).Err? <==>
      ReadCsv(content, Some(rowsToRead)).Err?
    ensures CleanFile(name, content, rowsToRead, placeholder).Err? ==>
      CleanFile(name, content, rowsToRead, placeholder).error ==
      ErrorLine(name, ReadCsv(content, Some(rowsToRead)).error)
    ensures CleanFile(name, content, rowsToRead, placeholder).Ok? ==>
      var out := CleanFile(name, content, rowsToRead, placeholder).value;
      && out.name == "cleaned_" + name
      && out.frame.columns == content.columns
      && |out.frame.rows| == Min(|content.rows|, rowsToRead)
      && NoMissing(out.frame)
      && forall i, c :: 0 <= i < |out.frame.rows| && c in content.columns ==>
           Get(out.frame.rows[i], c) ==
           (if Get(content.rows[i], c) == Missing then Str(placeholder) else Get(content.rows[i], c))
  {
    ReadCsvCapped(content, rowsToRead);
    if ReadCsv(content, Some(rowsToRead)).Ok? {
      FillNaSpec(ReadCsv(content, Some(rowsToRead)).value, placeholder);
    }
  }

  /** Adds one file's outcome to the batch. */
  function Record(b: Batch, outcome: Result<CleanedFile, string>): Batch {
    match outcome
    case Ok(file) => b.(written := b.written + [file])
    case Err(line) => b.(errors := b.errors + [line])
  }

  /** The batch over `files`, handled one after the other. */
  function CleanAll(files: seq<string>, read: string -> FileContent, rowsToRead: int, placeholder: string): Batch {
    if files == [] then Batch([], [])
    else
      var name := files[|files| - 1];
      Record(CleanAll(files[..|files| - 1], read, rowsToRead, placeholder), CleanFile(name, read(name), rowsToRead, placeholder))
  }

  /** Recording an outcome after two batches joined records it in the second one. */
  lemma RecordAfter(x: Batch, y: Batch, outcome: Result<CleanedFile, string>)
    ensures Record(Batch(x.written + y.written, x.errors + y.errors), outcome) ==
      Batch(x.written + Record(y, outcome).written, x.errors + Record(y, outcome).errors)
  {
    if outcome.Ok? {
      assert x.written + y.written + [outcome.value] == x.written + (y.written + [outcome.value]);
    } else {
      assert x.errors + y.errors + [outcome.error] == x.errors + (y.errors + [outcome.error]);
    }
  }

  /**
   * A failure never stops the batch: the run over `a + b` is the run over
   * `a` followed by the run over `b`, in order.
   */
  lemma {:induction false} CleanAllAppend(a: seq<string>, b: seq<string>, read: string -> FileContent, rowsToRead: int, placeholder: string)
    ensures CleanAll(a + b, read, rowsToRead, placeholder) ==
      var x := CleanAll(a, read, rowsToRead, placeholder);
      var y := CleanAll(b, read, rowsToRead, placeholder);
      Batch(x.written + y.written, x.errors + y.errors)
  {
    if b == [] {
      assert a + b == a;
    } else {
      CleanAllAppend(a, b[..|b| - 1], read, rowsToRead, placeholder);
      assert (a + b)[..|a + b| - 1] == a + b[..|b| - 1];
      RecordAfter(CleanAll(a, read, rowsToRead, placeholder), CleanAll(b[..|b| - 1], read, rowsToRead, placeholder),
        CleanFile(b[|b| - 1], read(b[|b| - 1]), rowsToRead, placeholder));
    }
  }

  /**
   * Every file gives exactly one written file or one log line. Every written
   * file is the cleaned output of one of the files and has no missing cell
   * and at most `rowsToRead` rows; every log line is one file's failure.
   */
  lemma {:induction false} CleanAllAccounts(files: seq<string>, read: string -> FileContent, rowsToRead: int, placeholder: string)
    ensures var b := CleanAll(files, read, rowsToRead, placeholder);
      && |b.written| + |b.errors| == |files|
      && (forall k :: 0 <= k < |b.written| ==>
            && NoMissing(b.written[k].frame)
            && |b.written[k].frame.rows| <= rowsToRead
            && exists j :: 0 <= j < |files| && CleanFile(files[j], read(files[j]), rowsToRead, placeholder) == Ok(b.written[k]))
      && (forall k :: 0 <= k < |b.errors| ==>
            exists j :: 0 <= j < |files| && CleanFile(files[j], read(files[j]), rowsToRead, placeholder) == Err(b.errors[k]))
  {
    if files != [] {
      var init := files[..|files| - 1];
      var name := files[|files| - 1];
      CleanAllAccounts(init, read, rowsToRead, placeholder);
      CleanFileSpec(name, read(name), rowsToRead, placeholder);
      var b := CleanAll(files, read, rowsToRead, placeholder);
      var p := CleanAll(init, read, rowsToRead, placeholder);
      forall k | 0 <= k < |b.written|
        ensures exists j :: 0 <= j < |files| && CleanFile(files[j], read(files[j]), rowsToRead, placeholder) == Ok(b.written[k])
      {
        if k < |p.written| {
          var j :| 0 <= j < |init| && CleanFile(init[j], read(init[j]), rowsToRead, placeholder) == Ok(p.written[k]);
          assert files[j] == init[j];
        } else {
          assert files[|files| - 1] == name;
        }
      }
      forall k | 0 <= k < |b.errors|
        ensures exists j :: 0 <= j < |files| && CleanFile(files[j], read(files[j]), rowsToRead, placeholder) == Err(b.errors[k])
      {
        if k < |p.errors| {
          var j :| 0 <= j < |init| && CleanFile(init[j], read(init[j]), rowsToRead, placeholder) == Err(p.errors[k]);
          assert files[j] == init[j];
        } else {
          assert files[|files| - 1] == name;
        }
      }
    }
  }

  /** No file is lost: each file's written output or log line is in the batch. */
  lemma {:induction false} CleanAllComplete(files: seq<string>, read: string -> FileContent, rowsToRead: int, placeholder: string)
    ensures var b := CleanAll(files, read, rowsToRead, placeholder);
      forall j :: 0 <= j < |files| ==>
        var outcome := CleanFile(files[j], read(files[j]), rowsToRead, placeholder);
        (outcome.Ok? ==> outcome.value in b.written) && (outcome.Err? ==> outcome.error in b.errors)
  {
    if files != [] {
      var init := files[..|files| - 1];
      CleanAllComplete(init, read, rowsToRead, placeholder);
      assert forall j :: 0 <= j < |init| ==> files[j] == init[j];
    }
  }

  /**
   * `process_all_csv_files`: fails before touching any file when the folder
   * is missing (`listing` is None); otherwise handles every `.csv` name of
   * the listing in order, each inside its own try/except.
   */
  method ProcessAllCsvFiles(folderPath: string, listing: Option<seq<string>>, read: string -> FileContent,
                            rowsToRead: int, placeholder: string)
    returns (r: Result<Batch, FatalError>)
    ensures listing.None? ==> r == Err(FolderNotFound(folderPath))
    ensures listing.Some? ==> r == Ok(CleanAll(CsvFiles(listing.value), read, rowsToRead, placeholder))
  {
    if listing.None? {
      return Err(FolderNotFound(folderPath));
    }
    var csvFiles := CsvFiles(listing.value);
    var written: seq<CleanedFile> := [];
    var errors: seq<string> := [];
    for i := 0 to |csvFiles|
      invariant Batch(written, errors) == CleanAll(csvFiles[..i], read, rowsToRead, placeholder)
    {
      var csvFile := csvFiles[i];
      assert csvFiles[..i + 1][..i] == csvFiles[..i];
      match ReadCsv(read(csvFile), Some(rowsToRead))
      case Ok(data) =>
        var cleanedData := FillNa(data, placeholder);
        written := written + [CleanedFile("cleaned_" + csvFile, cleanedData)];
      case Err(e) =>
        errors := errors + [ErrorLine(csvFile, e)];
    }
    assert csvFiles[..|csvFiles|] == csvFiles;
    r := Ok(Batch(written, errors));
  }
}
