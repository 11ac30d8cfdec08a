/** The upload route: Multer's file filter, size limit and stored-file naming, the
    error middleware that turns Multer's failures into 400 responses, and the POST
    handler, which records a `pending` request and hands the stored file to the CSV
    pipeline in the background. */
module UploadRoutes {
  import opened Wrappers
  import opened Strings
  import opened Domain
  import opened JobStore

  /** A file part of a multipart upload as Multer describes it. */
  datatype IncomingFile = IncomingFile(fieldname: string, originalname: string, mimetype: string, size: nat)

  const CsvMimeType: string := "text/csv"
  const CsvExtension: string := ".csv"
  const InvalidFileTypeMessage: string := "Invalid file type. Only CSV files are allowed."

  /** `limits.fileSize`: 5 MB. */
  const MaxUploadBytes: nat := 1024 * 1024 * 5

  /** The message of Multer's `LIMIT_FILE_SIZE` error. */
  const FileTooLargeMessage: string := "File too large"

  /** The one field `upload.single('csv')` takes a file from. */
  const CsvField: string := "csv"

  /** The message of Multer's `LIMIT_UNEXPECTED_FILE` error, raised for a file part under
      any other field. */
  const UnexpectedFieldMessage: string := "Unexpected field"

  const MulterErrorPrefix: string := "Multer error: "
  const NoFileMessage: string := "No CSV file uploaded"
  const UploadedMessage: string := "CSV uploaded successfully. Processing started."
  const ServerErrorMessage: string := "Internal server error during upload"

  // ---------------------------------------------------------------------------
  // Multer configuration

  /** `fileFilter`: a file is taken when its declared type is exactly `text/csv` or its
      original name ends in `.csv` (case-sensitively); otherwise the filter reports an
      error. */
  function FileFilter(file: IncomingFile): (r: Outcome<string>)
    ensures r.Fail? ==> r.error == InvalidFileTypeMessage
  {
    if file.mimetype == CsvMimeType || EndsWith(file.originalname, CsvExtension) then Pass
    else Fail(InvalidFileTypeMessage)
  }

  /** The filter accepts exactly the files declared as CSV and the files whose name is
      some stem followed by `.csv`. */
  lemma FileFilterAcceptsCsv(file: IncomingFile)
    ensures FileFilter(file).Pass?
        <==> file.mimetype == CsvMimeType || exists stem :: file.originalname == stem + CsvExtension
  {
    var name := file.originalname;
    if EndsWith(name, CsvExtension) {
      var stem := name[..|name| - |CsvExtension|];
      assert name == stem + CsvExtension;
    }
    if stem :| name == stem + CsvExtension {
      ConcatStartsAndEnds(stem, CsvExtension);
    }
  }

  /** The extension test is case-sensitive: `DATA.CSV` sent as a generic binary is turned
      away. */
  lemma UpperCaseExtensionIsRejected()
    ensures FileFilter(IncomingFile("csv", "DATA.CSV", "application/octet-stream", 0))
         == Fail(InvalidFileTypeMessage)
  {
    var name := "DATA.CSV";
    assert name[|name| - 4..] == ".CSV";
    assert name[|name| - 4..] != CsvExtension by {
      assert name[|name| - 4..][1] == 'C' != CsvExtension[1];
    }
  }

  /** `storage.filename`: the field name, the upload time in milliseconds and a random
      draw in 0..1e9 (`Math.round(Math.random() * 1E9)`), separated by '-', then `.csv`. */
  function StoredFilename(fieldname: string, now: nat, draw: nat): (name: string)
  {
    fieldname + "-" + Decimal(now) + "-" + Decimal(draw) + CsvExtension
  }

  /** A stored name starts with the field name and a '-', ends in `.csv` whatever the
      original name was, and so would itself pass the filter. */
  lemma StoredFilenameIsCsv(fieldname: string, now: nat, draw: nat, file: IncomingFile)
    requires file.originalname == StoredFilename(fieldname, now, draw)
    ensures StartsWith(StoredFilename(fieldname, now, draw), fieldname + "-")
    ensures EndsWith(StoredFilename(fieldname, now, draw), CsvExtension)
    ensures FileFilter(file).Pass?
  {
    var head := fieldname + "-";
    var stem := head + Decimal(now) + "-" + Decimal(draw);
    ConcatStartsAndEnds(stem, CsvExtension);
    ConcatStartsAndEnds(head, Decimal(now));
    StartsWithExtends(head + Decimal(now), "-", head);
    StartsWithExtends(head + Decimal(now) + "-", Decimal(draw), head);
    StartsWithExtends(stem, CsvExtension, head);
  }

  /** The position of the first '-' in s, |s| when there is none. */
  function FirstDash(s: string): nat
  {
    if s == [] || s[0] == '-' then 0 else 1 + FirstDash(s[1..])
  }

  lemma {:induction false} FirstDashFollowsPlainPart(a: string, b: string)
    requires '-' !in a
    ensures FirstDash(a + "-" + b) == |a|
  {
    if a != [] {
      assert (a + "-" + b)[1..] == a[1..] + "-" + b;
      FirstDashFollowsPlainPart(a[1..], b);
    }
  }

  /** Two strings that are a '-'-free part, a '-', and a rest are equal only when their
      parts are. */
  lemma SplitAtDash(a: string, b: string, c: string, d: string)
    requires '-' !in a && '-' !in c
    requires a + "-" + b == c + "-" + d
    ensures a == c && b == d
  {
    var s := a + "-" + b;
    FirstDashFollowsPlainPart(a, b);
    FirstDashFollowsPlainPart(c, d);
    assert a == s[..|a|] && c == (c + "-" + d)[..|c|];
    assert b == s[|a| + 1..] && d == (c + "-" + d)[|c| + 1..];
  }

  lemma DecimalHasNoDash(n: nat)
    ensures '-' !in Decimal(n)
  {
    var s := Decimal(n);
    assert forall i :: 0 <= i < |s| ==> s[i] != '-';
  }

  /** The stored name determines the upload time and the draw: uploads under one field
      name differing in either get different files. */
  lemma {:induction false} StoredFilenameInjective(fieldname: string, now: nat, draw: nat, now': nat, draw': nat)
    requires StoredFilename(fieldname, now, draw) == StoredFilename(fieldname, now', draw')
    ensures now == now' && draw == draw'
  {
    var a := Decimal(now) + "-" + Decimal(draw);
    var b := Decimal(now') + "-" + Decimal(draw');
    assert StoredFilename(fieldname, now, draw) == fieldname + "-" + (a + CsvExtension);
    assert StoredFilename(fieldname, now', draw') == fieldname + "-" + (b + CsvExtension);
    assert a + CsvExtension == b + CsvExtension by {
      var n := |fieldname| + 1;
      assert (fieldname + "-" + (a + CsvExtension))[n..] == a + CsvExtension;
      assert (fieldname + "-" + (b + CsvExtension))[n..] == b + CsvExtension;
    }
    assert a == b by {
      assert a == (a + CsvExtension)[..|a|];
      assert b == (b + CsvExtension)[..|b|];
    }
    DecimalHasNoDash(now);
    DecimalHasNoDash(now');
    SplitAtDash(Decimal(now), Decimal(draw), Decimal(now'), Decimal(draw'));
    DecimalInjective(now, now');
    DecimalInjective(draw, draw');
  }

  // ---------------------------------------------------------------------------
  // `upload.single('csv')` and the error middleware

  /** What Multer passes to the middleware's callback. */
  datatype UploadError = MulterError(message: string) | FilterError(message: string)

  /** A file Multer accepted and wrote to the uploads directory. */
  datatype StoredFile = StoredFile(filename: string, size: nat)

  /** Multer's handling of the `csv` field: no file part leaves `req.file` unset; a part
      under another field is a Multer error, before the filter sees it; a part the filter
      refuses is an error of the filter; a part over the size limit is a Multer error; any
      other part is stored under its generated name. */
  function Receive(file: Option<IncomingFile>, now: nat, draw: nat): (r: Result<Option<StoredFile>, UploadError>)
  {
    match file
    case None => Success(None)
    case Some(f) =>
      if f.fieldname != CsvField then Failure(MulterError(UnexpectedFieldMessage))
      else if FileFilter(f).Fail? then Failure(FilterError(FileFilter(f).error))
      else if f.size > MaxUploadBytes then Failure(MulterError(FileTooLargeMessage))
      else Success(Some(StoredFile(StoredFilename(f.fieldname, now, draw), f.size)))
  }

  /** Multer stores a file exactly when it comes under the `csv` field, passes the filter
      and is at most 5 MB; the stored file keeps the part's size. Each refusal is reported
      with its own error, the field checked first, then the filter, then the size. */
  lemma ReceiveStoresExactlyAcceptedFiles(file: IncomingFile, now: nat, draw: nat)
    ensures Receive(Some(file), now, draw).Success?
        <==> file.fieldname == CsvField && FileFilter(file).Pass? && file.size <= MaxUploadBytes
    ensures Receive(Some(file), now, draw).Success? ==>
      Receive(Some(file), now, draw).value == Some(StoredFile(StoredFilename(CsvField, now, draw), file.size))
    ensures file.fieldname != CsvField ==>
      Receive(Some(file), now, draw) == Failure(MulterError(UnexpectedFieldMessage))
    ensures file.fieldname == CsvField && FileFilter(file).Fail? ==>
      Receive(Some(file), now, draw) == Failure(FilterError(InvalidFileTypeMessage))
    ensures file.fieldname == CsvField && FileFilter(file).Pass? && file.size > MaxUploadBytes ==>
      Receive(Some(file), now, draw) == Failure(MulterError(FileTooLargeMessage))
  {
  }

  datatype Body =
    | ErrorBody(error: string)
    | Accepted(requestId: string, message: string, filename: string, size: nat)

  datatype Response = Response(status: nat, body: Body)

  /** The error middleware's response: 400, with Multer's own errors prefixed. */
  function ErrorResponse(err: UploadError): (r: Response)
    ensures r.status == 400 && r.body.ErrorBody?
  {
    match err
    case MulterError(m) => Response(400, ErrorBody(MulterErrorPrefix + m))
    case FilterError(m) => Response(400, ErrorBody(m))
  }

  /** The middleware's error text tells the two kinds apart when the filter's message does
      not itself start with the prefix, and the original message can be read back. */
  lemma ErrorResponseKeepsMessage(err: UploadError)
    ensures err.MulterError? ==>
      StartsWith(ErrorResponse(err).body.error, MulterErrorPrefix)
      && ErrorResponse(err).body.error[|MulterErrorPrefix|..] == err.message
    ensures err.FilterError? ==> ErrorResponse(err).body.error == err.message
  {
    if err.MulterError? {
      ConcatStartsAndEnds(MulterErrorPrefix, err.message);
      assert (MulterErrorPrefix + err.message)[|MulterErrorPrefix|..] == err.message;
    }
  }

  // ---------------------------------------------------------------------------
  // The POST handler

  /** The request document the handler creates: only id, file name and status are given,
      the schema defaults supply the rest. */
  function PendingRequest(requestId: string, filename: string): (doc: ProcessingRequest)
    ensures doc.requestId == requestId && doc.filename == filename && doc.status == Pending
    ensures doc.progress == 0 && doc.results == [] && doc.products == []
    ensures doc.completedAt.None? && doc.error.None?
  {
    ProcessingRequest(requestId, filename, Pending, 0, None, None, [], [])
  }

  /** The call `processCSV(requestId, filename)` the handler starts without awaiting it. */
  datatype Background = Background(requestId: string, filename: string)

  /** What one POST does: the response, the documents it asks the store to create and the
      background processing it starts. `created` says whether the create is accepted. */
  datatype Upload = Upload(response: Response, writes: seq<ProcessingRequest>, background: Option<Background>)

  function UploadOf(file: Option<IncomingFile>, now: nat, draw: nat, requestId: string, created: bool): (u: Upload)
  {
    match Receive(file, now, draw)
    case Failure(err) => Upload(ErrorResponse(err), [], None)
    case Success(None) => Upload(Response(400, ErrorBody(NoFileMessage)), [], None)
    case Success(Some(stored)) =>
      var doc := PendingRequest(requestId, stored.filename);
      if !created then Upload(Response(500, ErrorBody(ServerErrorMessage)), [doc], None)
      else Upload(Response(200, Accepted(requestId, UploadedMessage, stored.filename, stored.size)), [doc],
                  Some(Background(requestId, stored.filename)))
  }

  /** A request without a file part is answered 400 'No CSV file uploaded' and creates
      nothing. */
  lemma NoFileCreatesNothing(now: nat, draw: nat, requestId: string, created: bool)
    ensures var u := UploadOf(None, now, draw, requestId, created);
      u.response == Response(400, ErrorBody(NoFileMessage)) && u.writes == [] && u.background.None?
  {
  }

  /** A file part under any field but `csv` is refused with 400 'Multer error: Unexpected
      field', whatever its name, type or size, and creates nothing. */
  lemma OtherFieldIsRefused(file: IncomingFile, now: nat, draw: nat, requestId: string, created: bool)
    requires file.fieldname != CsvField
    ensures UploadOf(Some(file), now, draw, requestId, created)
         == Upload(Response(400, ErrorBody(MulterErrorPrefix + UnexpectedFieldMessage)), [], None)
  {
  }

  /** Processing starts exactly when the answer is 200, and exactly when a file Multer
      accepted was recorded; the 200 answer then carries the id and the stored name of the
      pending request created just before, which is what the background run is given. */
  lemma {:induction false} UploadStartsProcessingIffAccepted(file: Option<IncomingFile>, now: nat, draw: nat,
                                                             requestId: string, created: bool)
    ensures var u := UploadOf(file, now, draw, requestId, created);
      && (u.background.Some? <==> u.response.status == 200)
      && (u.response.status == 200 <==>
            && file.Some? && file.value.fieldname == CsvField && FileFilter(file.value).Pass?
            && file.value.size <= MaxUploadBytes && created)
    ensures var u := UploadOf(file, now, draw, requestId, created);
      u.response.status == 200 ==>
        && file.Some?
        && var name := StoredFilename(CsvField, now, draw);
        && u.writes == [PendingRequest(requestId, name)]
        && u.background == Some(Background(requestId, name))
        && u.response.body == Accepted(requestId, UploadedMessage, name, file.value.size)
        && StartsWith(name, CsvField + "-") && EndsWith(name, CsvExtension)
  {
    if file.Some? {
      ReceiveStoresExactlyAcceptedFiles(file.value, now, draw);
      StoredFilenameIsCsv(CsvField, now, draw, file.value.(originalname := StoredFilename(CsvField, now, draw)));
    }
  }

  /** Every answer other than 200 is 400 (the upload was refused before the store was
      touched) or 500 (the create was rejected); only a file that reached the handler causes
      a write, and it is always one pending request. */
  lemma UploadFailuresAreClassified(file: Option<IncomingFile>, now: nat, draw: nat, requestId: string, created: bool)
    ensures var u := UploadOf(file, now, draw, requestId, created);
      && u.response.status in {200, 400, 500}
      && (u.response.status == 400 <==> u.writes == [])
      && (u.response.status == 500 <==> u.writes != [] && !created)
      && (u.writes != [] ==> u.writes == [PendingRequest(requestId, u.writes[0].filename)])
  {
    if file.Some? {
      ReceiveStoresExactlyAcceptedFiles(file.value, now, draw);
    }
  }

  /** The POST handler behind `handleUpload`: `requestId` is the fresh `uuidv4()`, `now`
      and `draw` the clock and random draw the stored name is built from. */
  method PostUpload(store: Store, file: Option<IncomingFile>, now: nat, draw: nat, requestId: string)
    returns (response: Response, background: Option<Background>)
    requires store.Valid()
    requires requestId !in store.jobs
    modifies store
    ensures store.Valid()
    ensures var u := UploadOf(file, now, draw, requestId, |old(store.writes)| !in store.failing);
      && response == u.response
      && background == u.background
      && store.writes == old(store.writes) + u.writes
      && store.jobs == if u.background.Some? then old(store.jobs)[requestId := u.writes[0]] else old(store.jobs)
  {
    var received := Receive(file, now, draw);
    if received.Failure? {
      return ErrorResponse(received.error), None;
    }
    if received.value.None? {
      return Response(400, ErrorBody(NoFileMessage)), None;
    }
    var stored := received.value.value;
    var doc := PendingRequest(requestId, stored.filename);
    var ok := store.Create(doc);
    if !ok {
      return Response(500, ErrorBody(ServerErrorMessage)), None;
    }
    background := Some(Background(requestId, stored.filename));
    response := Response(200, Accepted(requestId, UploadedMessage, stored.filename, stored.size));
  }
}
