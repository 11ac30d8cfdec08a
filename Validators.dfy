/** `validateCSV`: checks an uploaded CSV file and its parsed rows, throwing on the first
    failure. Modelled as a function returning Pass or Fail(the error thrown). */
module Validators {
  import opened Wrappers
  import opened Strings
  import opened Domain

  datatype ValidationError =
    | NoFile
    | NotCsvFile
    | NoRows                        // `Object.keys(rows[0])` on an empty file
    | MissingColumn(column: string)
    | MissingData(row: nat)         // 1-based row number
    | InvalidImageUrl(row: nat)     // 1-based row number
    | CsvNotDefined                 // `csv` is called but never bound in this module

  /** The `message` of the error thrown for e. */
  function Message(e: ValidationError): string {
    match e
    case NoFile => "No file uploaded"
    case NotCsvFile => "Invalid file type. Only CSV files are allowed"
    case NoRows => "Cannot convert undefined or null to object"
    case MissingColumn(c) => "Missing required column: " + c
    case MissingData(k) => "Missing data in row " + Decimal(k)
    case InvalidImageUrl(k) => "Invalid image URL in row " + Decimal(k)
    case CsvNotDefined => "csv is not defined"
  }

  /** A row number can be read back from the message that reports it. */
  lemma RowMessageNamesRow(e: ValidationError)
    requires e.MissingData? || e.InvalidImageUrl?
    ensures var prefix := if e.MissingData? then "Missing data in row " else "Invalid image URL in row ";
      StartsWith(Message(e), prefix) && AllDigits(Message(e)[|prefix|..])
      && DecimalValue(Message(e)[|prefix|..]) == e.row
  {
    var prefix := if e.MissingData? then "Missing data in row " else "Invalid image URL in row ";
    assert Message(e) == prefix + Decimal(e.row);
    assert Message(e)[|prefix|..] == Decimal(e.row);
    DecimalRoundTrip(e.row);
  }

  // ---------------------------------------------------------------------------
  // The image URL pattern /^https?:\/\/.+\.(jpg|jpeg|png)$/i

  /** The characters `.` does not match in a JavaScript regular expression. */
  predicate IsLineTerminator(c: char) {
    c == '\n' || c == '\r' || c == '\U{2028}' || c == '\U{2029}'
  }

  predicate NoLineTerminator(s: string) {
    forall i :: 0 <= i < |s| ==> !IsLineTerminator(s[i])
  }

  predicate IsScheme(s: string) {
    EqualsIgnoreCase(s, "http://") || EqualsIgnoreCase(s, "https://")
  }

  predicate IsImageExtension(s: string) {
    EqualsIgnoreCase(s, ".jpg") || EqualsIgnoreCase(s, ".jpeg") || EqualsIgnoreCase(s, ".png")
  }

  /** The strings the pattern matches, read off the pattern: a scheme, one or more
      characters other than line terminators, and an image extension at the very end. */
  ghost predicate MatchesImageUrlPattern(u: string) {
    exists i, j :: 0 <= i < j <= |u| && IsScheme(u[..i]) && NoLineTerminator(u[i..j]) && IsImageExtension(u[j..])
  }

  /** Length of the scheme u starts with, 0 when none. */
  function SchemeLength(u: string): (n: nat)
    ensures n == 0 || n == 7 || n == 8
    ensures n > 0 ==> n <= |u| && IsScheme(u[..n])
  {
    if |u| >= 8 && IsScheme(u[..8]) then 8
    else if |u| >= 7 && IsScheme(u[..7]) then 7
    else 0
  }

  /** Length of the image extension u ends with, 0 when none. */
  function ExtensionLength(u: string): (n: nat)
    ensures n == 0 || n == 4 || n == 5
    ensures n > 0 ==> n <= |u| && IsImageExtension(u[|u| - n..])
  {
    if |u| >= 5 && IsImageExtension(u[|u| - 5..]) then 5
    else if |u| >= 4 && IsImageExtension(u[|u| - 4..]) then 4
    else 0
  }

  /** `url.match(/^https?:\/\/.+\.(jpg|jpeg|png)$/i)` is non-null. */
  predicate IsImageUrl(u: string) {
    var p := SchemeLength(u);
    var e := ExtensionLength(u);
    p > 0 && e > 0 && p + e < |u| && NoLineTerminator(u[p..|u| - e])
  }

  /** The scheme of a matching decomposition is the one SchemeLength finds. */
  lemma SchemeIsUnique(u: string, i: nat)
    requires i <= |u| && IsScheme(u[..i])
    ensures SchemeLength(u) == i
  {
    if i == 7 && |u| >= 8 {
      assert Lower(u[..7][4]) == ':';
      assert u[..8][4] == u[..7][4];
      assert !IsScheme(u[..8]) by {
        assert Lower(u[..8][4]) != Lower("https://"[4]);
      }
    }
  }

  /** The extension of a matching decomposition is the one ExtensionLength finds. */
  lemma ExtensionIsUnique(u: string, j: nat)
    requires j <= |u| && IsImageExtension(u[j..])
    ensures ExtensionLength(u) == |u| - j
  {
    var n := |u| - j;
    if n == 4 && |u| >= 5 {
      assert Lower(u[j..][0]) == '.';
      assert u[|u| - 5..][1] == u[j..][0];
      assert !IsImageExtension(u[|u| - 5..]) by {
        assert Lower(u[|u| - 5..][1]) != Lower(".jpeg"[1]);
      }
    }
  }

  /** The left-to-right check accepts exactly the strings the pattern matches. */
  lemma ImageUrlMatchesPattern(u: string)
    ensures IsImageUrl(u) <==> MatchesImageUrlPattern(u)
  {
    if IsImageUrl(u) {
      var i, j := SchemeLength(u), |u| - ExtensionLength(u);
      assert IsScheme(u[..i]) && NoLineTerminator(u[i..j]) && IsImageExtension(u[j..]);
    }
    if MatchesImageUrlPattern(u) {
      var i, j :| 0 <= i < j <= |u| && IsScheme(u[..i]) && NoLineTerminator(u[i..j]) && IsImageExtension(u[j..]);
      SchemeIsUnique(u, i);
      ExtensionIsUnique(u, j);
    }
  }

  /** A leading space (what `split(',')` leaves after ", ") makes a URL invalid. */
  lemma LeadingSpaceIsRejected(u: string)
    requires |u| > 0 && u[0] == ' '
    ensures !IsImageUrl(u)
  {
    forall n | n == 7 || n == 8
      ensures !(|u| >= n && IsScheme(u[..n]))
    {
      if |u| >= n {
        assert u[..n][0] == ' ';
        assert Lower(u[..n][0]) != 'h';
      }
    }
  }

  // ---------------------------------------------------------------------------
  // Columns and rows

  /** The first of `columns` not among `headers`, in order; None when all are. */
  function FirstMissingColumn(columns: seq<string>, headers: set<string>): (missing: Option<string>)
    ensures missing.None? <==> forall i :: 0 <= i < |columns| ==> columns[i] in headers
    ensures missing.Some? ==>
      exists i :: 0 <= i < |columns| && columns[i] == missing.value
        && missing.value !in headers && forall j :: 0 <= j < i ==> columns[j] in headers
  {
    if columns == [] then None
    else if columns[0] !in headers then Some(columns[0])
    else
      var rest := FirstMissingColumn(columns[1..], headers);
      assert forall i :: 1 <= i < |columns| ==> columns[i] == columns[1..][i - 1];
      rest
  }

  /** The cell is neither missing nor empty (`row[column]` is truthy). */
  predicate Filled(row: Row, column: string) {
    column in row && row[column] != ""
  }

  predicate HasRequiredData(row: Row) {
    Filled(row, SerialColumn) && Filled(row, NameColumn) && Filled(row, UrlsColumn)
  }

  predicate AllImageUrls(urls: seq<string>) {
    forall i :: 0 <= i < |urls| ==> IsImageUrl(urls[i])
  }

  predicate RowIsValid(row: Row) {
    HasRequiredData(row) && AllImageUrls(Split(row[UrlsColumn], ','))
  }

  /** The error row number k throws, if any: data first, then its URLs. */
  function RowError(row: Row, k: nat): (e: Option<ValidationError>)
    ensures e.None? <==> RowIsValid(row)
    ensures e == Some(MissingData(k)) <==> !HasRequiredData(row)
    ensures e == Some(InvalidImageUrl(k)) <==> HasRequiredData(row) && !RowIsValid(row)
  {
    if !HasRequiredData(row) then Some(MissingData(k))
    else if !AllImageUrls(Split(row[UrlsColumn], ',')) then Some(InvalidImageUrl(k))
    else None
  }

  /** The error of the first invalid row in `rows`, the first of them numbered k. */
  function FirstRowError(rows: seq<Row>, k: nat): (e: Option<ValidationError>)
    ensures e.None? <==> forall i :: 0 <= i < |rows| ==> RowIsValid(rows[i])
    ensures e.Some? ==>
      exists i :: 0 <= i < |rows| && !RowIsValid(rows[i]) && e == RowError(rows[i], k + i)
        && forall j :: 0 <= j < i ==> RowIsValid(rows[j])
    decreases |rows|
  {
    if rows == [] then None
    else if !RowIsValid(rows[0]) then RowError(rows[0], k)
    else
      var rest := FirstRowError(rows[1..], k + 1);
      assert forall i :: 1 <= i < |rows| ==> rows[i] == rows[1..][i - 1];
      rest
  }

  /** `validateCSV(file)`: `name` is the uploaded file's original name, None when there is
      no file; `rows` are the rows the file parses into. */
  function ValidateCSV(name: Option<string>, rows: seq<Row>): Outcome<ValidationError> {
    if name.None? then Fail(NoFile)
    else if !EndsWith(name.value, ".csv") then Fail(NotCsvFile)
    else if rows == [] then Fail(NoRows)
    else match FirstMissingColumn(RequiredColumns, rows[0].Keys)
      case Some(c) => Fail(MissingColumn(c))
      case None =>
        match FirstRowError(rows, 1)
        case Some(e) => Fail(e)
        case None => Pass
  }

  /** validateCSV returns normally exactly when there is a `.csv` file whose first row has
      every required column and whose every row has its data and valid image URLs. */
  lemma ValidateCSVAccepts(name: Option<string>, rows: seq<Row>)
    ensures ValidateCSV(name, rows) == Pass <==>
      && name.Some? && EndsWith(name.value, ".csv")
      && |rows| > 0
      && (forall c :: c in RequiredColumns ==> c in rows[0].Keys)
      && (forall i :: 0 <= i < |rows| ==> RowIsValid(rows[i]))
  {
    if name.Some? && EndsWith(name.value, ".csv") && |rows| > 0 {
      var missing := FirstMissingColumn(RequiredColumns, rows[0].Keys);
      assert missing.None? <==> forall c :: c in RequiredColumns ==> c in rows[0].Keys;
    }
  }

  /** File checks come before anything is read. */
  lemma FileChecksComeFirst(name: Option<string>, rows: seq<Row>)
    ensures name.None? ==> ValidateCSV(name, rows) == Fail(NoFile)
    ensures name.Some? && !EndsWith(name.value, ".csv") ==> ValidateCSV(name, rows) == Fail(NotCsvFile)
  {
  }

  /** A required column missing from the first row is reported, whatever the rows hold,
      and it is the first missing one in the fixed order. */
  lemma MissingColumnIsFirstInOrder(name: string, rows: seq<Row>, k: nat)
    requires EndsWith(name, ".csv") && |rows| > 0
    requires k < |RequiredColumns| && RequiredColumns[k] !in rows[0].Keys
    requires forall j :: 0 <= j < k ==> RequiredColumns[j] in rows[0].Keys
    ensures ValidateCSV(Some(name), rows) == Fail(MissingColumn(RequiredColumns[k]))
  {
    var missing := FirstMissingColumn(RequiredColumns, rows[0].Keys);
    var i :| 0 <= i < |RequiredColumns| && RequiredColumns[i] == missing.value
      && missing.value !in rows[0].Keys && forall j :: 0 <= j < i ==> RequiredColumns[j] in rows[0].Keys;
    assert i == k;
  }

  /** Once the columns are present, the error is that of the first invalid row, numbered
      from 1: missing data when it lacks a required cell, an invalid URL otherwise. */
  lemma FirstInvalidRowIsReported(name: string, rows: seq<Row>, i: nat)
    requires EndsWith(name, ".csv")
    requires i < |rows| && (forall c :: c in RequiredColumns ==> c in rows[0].Keys)
    requires !RowIsValid(rows[i]) && forall j :: 0 <= j < i ==> RowIsValid(rows[j])
    ensures !HasRequiredData(rows[i]) ==> ValidateCSV(Some(name), rows) == Fail(MissingData(i + 1))
    ensures HasRequiredData(rows[i]) ==> ValidateCSV(Some(name), rows) == Fail(InvalidImageUrl(i + 1))
  {
    assert FirstMissingColumn(RequiredColumns, rows[0].Keys).None?;
    var e := FirstRowError(rows, 1);
    var i' :| 0 <= i' < |rows| && !RowIsValid(rows[i']) && e == RowError(rows[i'], 1 + i')
      && forall j :: 0 <= j < i' ==> RowIsValid(rows[j]);
    assert i' == i;
  }

  /** URLs are split on ',' without trimming: "a, b" leaves " b", which is rejected. */
  lemma SpaceAfterCommaIsRejected(row: Row, k: nat, i: nat)
    requires HasRequiredData(row)
    requires var urls := Split(row[UrlsColumn], ','); i < |urls| && |urls[i]| > 0 && urls[i][0] == ' '
    ensures RowError(row, k) == Some(InvalidImageUrl(k))
  {
    LeadingSpaceIsRejected(Split(row[UrlsColumn], ',')[i]);
  }

  // ---------------------------------------------------------------------------
  // validateCSV as written

  /** `validateCSV` as the module is written: it reads the file with `csv().fromFile`, but
      nothing in the module binds `csv`, so once the file checks pass the call throws a
      ReferenceError and no row is ever looked at. */
  function ValidateCSVAsWritten(name: Option<string>, rows: seq<Row>): Outcome<ValidationError> {
    if name.None? then Fail(NoFile)
    else if !EndsWith(name.value, ".csv") then Fail(NotCsvFile)
    else Fail(CsvNotDefined)
  }

  /** As written, validateCSV never returns normally: it agrees with the intended
      validator on the file checks and rejects every `.csv` file with the ReferenceError. */
  lemma ValidateCSVAsWrittenNeverPasses(name: Option<string>, rows: seq<Row>)
    ensures ValidateCSVAsWritten(name, rows) != Pass
    ensures name.Some? && EndsWith(name.value, ".csv") ==> ValidateCSVAsWritten(name, rows) == Fail(CsvNotDefined)
    ensures !(name.Some? && EndsWith(name.value, ".csv")) ==> ValidateCSVAsWritten(name, rows) == ValidateCSV(name, rows)
  {
  }

  /** A well-formed one-row file that the intended validator accepts and the code as
      written rejects. */
  lemma AsWrittenRejectsValidFile()
    ensures var row := map[SerialColumn := "1", NameColumn := "p", UrlsColumn := "http://a.png"];
      && ValidateCSV(Some("f.csv"), [row]) == Pass
      && ValidateCSVAsWritten(Some("f.csv"), [row]) == Fail(CsvNotDefined)
  {
    var row := map[SerialColumn := "1", NameColumn := "p", UrlsColumn := "http://a.png"];
    assert EndsWith("f.csv", ".csv") by { assert "f.csv"[1..] == ".csv"; }
    SampleRowIsValid();
    SampleRowLookups();
    OneRowFilePasses("f.csv", row);
  }

  /** A .csv file of one valid row with every required column passes. */
  lemma OneRowFilePasses(name: string, row: Row)
    requires EndsWith(name, ".csv") && RowIsValid(row)
    requires forall c :: c in RequiredColumns ==> c in row.Keys
    ensures ValidateCSV(Some(name), [row]) == Pass
    ensures ValidateCSVAsWritten(Some(name), [row]) == Fail(CsvNotDefined)
  {
    ValidateCSVAccepts(Some(name), [row]);
  }

  lemma SampleRowIsValid()
    ensures RowIsValid(map[SerialColumn := "1", NameColumn := "p", UrlsColumn := "http://a.png"])
  {
    var row := map[SerialColumn := "1", NameColumn := "p", UrlsColumn := "http://a.png"];
    SampleRowLookups();
    SampleUrlSplits();
    SampleUrlIsImageUrl();
  }

  lemma SampleRowLookups()
    ensures var row := map[SerialColumn := "1", NameColumn := "p", UrlsColumn := "http://a.png"];
      && HasRequiredData(row) && row[UrlsColumn] == "http://a.png"
      && forall c :: c in RequiredColumns ==> c in row.Keys
  {
    assert UrlsColumn != SerialColumn && UrlsColumn != NameColumn by {
      assert UrlsColumn[0] != SerialColumn[0] && UrlsColumn[0] != NameColumn[0];
    }
  }

  lemma SampleUrlSplits()
    ensures Split("http://a.png", ',') == ["http://a.png"]
  {
    SplitWithoutSeparator("http://a.png", ',');
  }

  lemma SampleUrlIsImageUrl()
    ensures IsImageUrl("http://a.png")
  {
    var url := "http://a.png";
    assert IsScheme(url[..7]) && NoLineTerminator(url[7..8]) && IsImageExtension(url[8..]);
    ImageUrlMatchesPattern(url);
  }
}
