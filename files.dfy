/**
 * What both stages know about the folder they read: its listing, the
 * `.csv` filter, `pd.read_csv` seen only through its outcome, and the fatal
 * errors raised before or instead of any per-file work.
 */
module Files {
  import opened Wrappers
  import opened Table
  import opened Text

  /**
   * What parsing one file yields. `Unreadable` covers every failure before
   * the first data line (missing file, permissions, encoding, no header).
   * Otherwise `rows` are the data lines that parse, in order, and `fault` is
   * the error raised by the next line, if there is one.
   */
  datatype FileContent =
    | Unreadable(reason: string)
    | Content(columns: seq<string>, rows: seq<Row>, fault: Option<string>)

  /** pandas' complaint about a negative `nrows`. */
  const NrowsError := "'nrows' must be an integer >=0"

  /**
   * `pd.read_csv(path, nrows=n)` (or without `nrows` when `n` is None): a
   * capped read stops after `n` data lines, so a malformed line beyond them
   * is never reached.
   */
  function ReadCsv(content: FileContent, nrows: Option<int>): Result<Frame, string> {
    match content
    case Unreadable(reason) => Err(reason)
    case Content(columns, rows, fault) =>
      if nrows.Some? && nrows.value < 0 then Err(NrowsError)
      else if nrows.Some? && nrows.value <= |rows| then Ok(Frame(columns, rows[..nrows.value]))
      else if fault.Some? then Err(fault.value)
      else Ok(Frame(columns, rows))
  }

  function Min(a: int, b: int): int {
    if a <= b then a else b
  }

  /**
   * A capped read fails exactly when the file is unreadable, the cap is
   * negative, or a malformed line comes before the cap is reached; when it
   * succeeds it holds the first min(rows in file, cap) rows and the header.
   */
  lemma ReadCsvCapped(content: FileContent, n: int)
    ensures ReadCsv(content, Some(n)).Err? <==>
      content.Unreadable? || n < 0 || (n > |content.rows| && content.fault.Some?)
    ensures ReadCsv(content, Some(n)).Ok? ==>
      var f := ReadCsv(content, Some(n)).value;
      f.columns == content.columns && |f.rows| == Min(|content.rows|, n) && f.rows == content.rows[..|f.rows|]
  {
  }

  /** `f.endswith('.csv')`: case-sensitive, so `DATA.CSV` is not a CSV file here. */
  predicate IsCsvName(name: string) {
    EndsWith(name, ".csv")
  }

  /** `[f for f in os.listdir(folder) if f.endswith('.csv')]`. */
  function CsvFiles(listing: seq<string>): (r: seq<string>)
    ensures |r| <= |listing|
  {
    if listing == [] then []
    else
      var init := CsvFiles(listing[..|listing| - 1]);
      if IsCsvName(listing[|listing| - 1]) then init + [listing[|listing| - 1]] else init
  }

  /**
   * The filter keeps exactly the `.csv` names and keeps them in listing
   * order: filtering a listing in two parts is filtering each part.
   */
  lemma {:induction false} CsvFilesAppend(a: seq<string>, b: seq<string>)
    ensures CsvFiles(a + b) == CsvFiles(a) + CsvFiles(b)
  {
    if b == [] {
      assert a + b == a;
    } else {
      CsvFilesAppend(a, b[..|b| - 1]);
      assert (a + b)[..|a + b| - 1] == a + b[..|b| - 1];
    }
  }

  lemma {:induction false} CsvFilesMembers(listing: seq<string>)
    ensures forall x :: x in CsvFiles(listing) <==> x in listing && IsCsvName(x)
  {
    if listing != [] {
      CsvFilesMembers(listing[..|listing| - 1]);
      assert listing == listing[..|listing| - 1] + [listing[|listing| - 1]];
    }
  }

  /** The errors that end a run before it produces anything. */
  datatype FatalError =
    | FolderNotFound(path: string)
    | NoCsvFiles(path: string)
    | NoDataLoaded

  /** The message each fatal error is raised with. */
  function Message(e: FatalError): string {
    match e
    case FolderNotFound(path) => "The folder path '" + path + "' does not exist."
    case NoCsvFiles(path) => "No CSV files found in the folder '" + path + "'."
    case NoDataLoaded => "No data was successfully loaded from any file."
  }

  /** Text wrapped in the same two fixed strings can be read back out of the result. */
  lemma UnwrapText(a: string, p: string, q: string, z: string)
    requires a + p + z == a + q + z
    ensures p == q
  {
    assert |p| == |q|;
    assert (a + p + z)[|a|..|a| + |p|] == p;
    assert (a + q + z)[|a|..|a| + |q|] == q;
  }

  /**
   * The letter before each message's closing full stop tells the three
   * kinds of error apart.
   */
  lemma MessagesEndDifferently(e: FatalError)
    ensures |Message(e)| >= 2
    ensures Message(e)[|Message(e)| - 2] ==
      match e
      case FolderNotFound(_) => 't'
      case NoCsvFiles(_) => '\''
      case NoDataLoaded => 'e'
  {
    match e {
      case FolderNotFound(p) =>
        assert Message(e) == ("The folder path '" + p) + "' does not exist.";
      case NoCsvFiles(p) =>
        assert Message(e) == ("No CSV files found in the folder '" + p) + "'.";
      case NoDataLoaded =>
    }
  }

  /** Each fatal error has its own message: the message tells which check failed, and on which folder. */
  lemma MessageIdentifiesError(e1: FatalError, e2: FatalError)
    ensures Message(e1) == Message(e2) ==> e1 == e2
  {
    if Message(e1) == Message(e2) {
      MessagesEndDifferently(e1);
      MessagesEndDifferently(e2);
      match e1 {
        case FolderNotFound(p1) =>
          UnwrapText("The folder path '", p1, e2.path, "' does not exist.");
        case NoCsvFiles(p1) =>
          UnwrapText("No CSV files found in the folder '", p1, e2.path, "'.");
        case NoDataLoaded =>
      }
    }
  }
}
