# Image-processing batch service: a Dafny model

This project models the batch pipeline of a small Node.js service. A client uploads
a CSV file whose rows name products and list image URLs. The upload route stores the
file and records a `pending` processing request. The CSV processor then takes the
request through three states. It becomes `processing`, then each row's images are
downloaded, compressed and written under `uploads/`, and finally the request becomes
`completed`, with per-row results and a progress percentage saved in batches of five
rows. When the `processing` write, the CSV parser or the final write throws, the catch
block marks the request `failed` with the error's message and rethrows. Three kinds of
error never reach it: a rejected progress write is caught and ignored inside the row
handler, an error of the file stream itself reaches no handler at all (see Findings),
and the product job's own catch block sets `failed` without recording a message. A second, product-based job (`processProductImages`) assigns
simulated output URLs to each product's images and notifies a webhook. There are also
two validators: one for the uploaded CSV file, and a URL pattern.

Everything runs against a model of the database collection. The module
`JobStore.Store` is a class holding the stored documents by request id and the
history of every write attempted. A write (`save` or `create`) is rejected exactly
when its position k in that history is in the set `failing`, and it then throws the
message `failure(k)`. Reads (`findOne`) always succeed. Each service method is proved
against a pure *run* function (`CsvProcessor.CsvRun`, `ImageProcessor.ProductsRun`):

- the list of documents it writes, in order;
- whether it returns (`Pass`), throws (`Fail`) or ends the process with an error
  nothing handles (`Crash`), and with which message.

The method's contract states that:

- the store's write history grows by exactly those documents;
- each stored document ends up as the last write of its id that was accepted
  (`JobStore.LastWritten`).

The properties of the service are then lemmas about the run function.

The parts of the environment the code cannot decide are parameters:

- The outcome of downloading, transforming and writing one image is an `ImageOutcome`.
  It maps a URL to `None` (some step threw) or to `Some(t)`, where `t` is the
  `Date.now()` value the output file was named with.
- The product job takes a success predicate on URLs.
- The uploaded file as the read streams see it is a `Source`: its parsed rows, the
  message of an error of the CSV parser, or the message of an error of the file stream
  itself (a missing or unreadable file).
- The clock (`now`), the random draw in the stored file name, the fresh `uuidv4()`
  id and the `WEBHOOK_URL` setting are plain arguments.

Modules: `Wrappers`, `Strings` (split/join, ASCII case-insensitive comparison, decimal
rendering, POSIX `basename`), `Domain` (rows, requests, results, products), `JobStore`,
`Validators`, `ImageProcessor`, `CsvProcessor`, `UploadRoutes`.

Where the code and its documentation disagree, the model follows the code:

- `processCSV` never calls `validateCSVFormat`. A file without the 'Input Image Urls'
  column still completes: every row throws inside the row handler (`undefined.split`),
  the throw is caught there, and no result is recorded
  (`CsvProcessor.CsvRunWithoutImageColumnCompletes`).
- Row results are only saved by the final write. When that write is rejected, the
  catch block re-reads the stored document, the `processing` request or its last
  progress update, and marks it failed. The results are lost
  (`CsvProcessor.CsvRunFailureMarksFailed`).
- The catch block of `processProductImages` sets the status to `failed` but records no
  error message (`ImageProcessor.ProductsRunFailureMarksFailed`).
- URL lists are split on ',' without trimming, so "a.jpg, b.jpg" gives " b.jpg". The
  validator rejects it (`Validators.SpaceAfterCommaIsRejected`).
- Progress is `Math.round`, not truncation: 2 rows of 3 give 67
  (`CsvProcessor.ProgressRoundsUpAtTwoThirds`).

## Model

| member | source | states |
|---|---|---|
| JobStore.LastWritten | src/services/csvProcessor.js:39 | The stored document of an id after a run of its saves: the last accepted write, or the earlier document when every write was rejected; LastWrittenIsOneOf, LastWrittenAppend and LastWrittenSnoc state how it composes |
| JobStore.Store.Find | src/services/csvProcessor.js:31 | `findOne({ requestId })`: the stored document of that id, or none exactly when the id is not stored |
| JobStore.Store.Save | src/services/csvProcessor.js:39 | `save()`: the write is appended to the history, accepted iff its position is not failing, and only then stored under its id |
| JobStore.Store.Create | src/routes/uploadRoutes.js:116-120 | `create()` of a new id: the same as a save, for an id not yet stored |
| Strings.Split | src/services/csvProcessor.js:60 | `split(',')` gives one more piece than there are commas, and no piece contains a comma |
| Strings.JoinSplit | src/services/csvProcessor.js:60 | Joining the pieces with ',' gives back the cell |
| Strings.SplitJoin | src/utils/validators.js:30 | Splitting comma-free pieces joined with ',' gives back the pieces |
| Strings.DecimalRoundTrip | src/services/imageProcessor.js:95 | The decimal rendering of a timestamp reads back as that number |
| Strings.BasenameSplitsPath | src/services/imageProcessor.js:95 | For a path not ending in '/', `path.basename` is its last segment: the path is a directory part, empty or ending in '/', followed by the basename |
| CsvProcessor.ValidateCSVFormat | src/services/csvProcessor.js:8-13 | On empty data it fails, because `Object.keys(data[0])` throws, and only then |
| CsvProcessor.ValidateCSVFormatChecksRequiredColumns | src/services/csvProcessor.js:9-12 | On non-empty data the format holds iff 'S. No.', 'Product Name' and 'Input Image Urls' are all keys of the first row, iff validateCSV's column check finds nothing missing |
| CsvProcessor.ValidateCSVFormatIgnoresOtherColumns | src/services/csvProcessor.js:10-12 | Two data sets whose first rows agree on the required columns get the same verdict, whatever their other columns and later rows |
| CsvProcessor.ShouldPersist | src/services/csvProcessor.js:72 | The batch-point test, a multiple of 5 rows or the last row; TallyPersistsExactlyAtBatchPoints states where it holds |
| CsvProcessor.Progress | src/services/csvProcessor.js:73 | `Math.round(processedRows / totalRows * 100)` in exact arithmetic; ProgressRoundsHalfUp, ProgressBounds and ProgressMonotone state its rounding, range and order |
| CsvProcessor.ProgressRoundsHalfUp | src/services/csvProcessor.js:73 | The stored progress lies within one half of processed*100/total, rounding halves up as `Math.round` does |
| CsvProcessor.ProgressRoundsUpAtTwoThirds | src/services/csvProcessor.js:73 | Progress is rounded, not truncated: 2/3 gives 67, 1/3 gives 33, 1/8 gives 13 |
| CsvProcessor.ProgressMonotone | src/services/csvProcessor.js:73 | More processed rows never give a smaller progress |
| CsvProcessor.ProgressBounds | src/services/csvProcessor.js:73 | Progress is at most 100, and exactly 100 when every row is processed |
| CsvProcessor.RowResultOf | src/services/csvProcessor.js:59-67 | The row handler records a result exactly when the row has an 'Input Image Urls' cell; otherwise `undefined.split` throws before anything is pushed |
| CsvProcessor.HandlersAt | src/services/csvProcessor.js:58-80 | The handler's record for row i depends on row i alone |
| CsvProcessor.HandlersPrefix | src/services/csvProcessor.js:58-80 | The records of a prefix of the rows are a prefix of the records |
| CsvProcessor.TallyOf | src/services/csvProcessor.js:63-76 | `processedRows` equals the number of results pushed, is at most the number of rows handled, and bounds the number of progress writes |
| CsvProcessor.TallyRowsSnoc | src/services/csvProcessor.js:58-80 | Handling one more row is one more step of the loop summary |
| CsvProcessor.TallyPersistsExactlyAtBatchPoints | src/services/csvProcessor.js:69-76 | Progress is written at count k iff 1 <= k <= processed and (k is a multiple of 5 or k is the total), once each, in increasing order |
| CsvProcessor.TallyPersistsAtMultiples | src/services/csvProcessor.js:69-76 | Counted independently, the writes happen at 5, 10, ... up to the count, plus the total once it is reached and is not a multiple of 5 |
| CsvProcessor.TallyResultsFollowRows | src/services/csvProcessor.js:60-67 | Result i comes from the i-th row with an image cell: the product name is copied, the URLs are the cell split on ',' and join back to it, and there is one processed entry per URL, from processImages |
| CsvProcessor.TallyCountsRowsWithUrls | src/services/csvProcessor.js:69 | The count equals the number of rows with an image cell |
| CsvProcessor.TallyCountsEveryWellFormedRow | src/services/csvProcessor.js:69 | When every row has its image cell, every row is counted |
| CsvProcessor.ThrowingRowIsNotCounted | src/services/csvProcessor.js:60-79 | A row without an image cell is skipped uncounted, so the count never reaches the total and the final-row progress write never happens |
| CsvProcessor.TwentyRowsPersistFourTimes | src/services/csvProcessor.js:72 | Twenty good rows write progress after rows 5, 10, 15 and 20 only |
| CsvProcessor.SevenRowsPersistAtFiveAndSeven | src/services/csvProcessor.js:72 | Seven good rows write progress after rows 5 and 7 only |
| CsvProcessor.PersistedProgressNeverDecreases | src/services/csvProcessor.js:71-76 | The progress values written never decrease and never exceed 100 |
| CsvProcessor.ProgressDocsCarryProgress | src/services/csvProcessor.js:73-75 | Progress write k is the request with the progress of batch point k and nothing else changed |
| CsvProcessor.ProgressDocsAppend | src/services/csvProcessor.js:72-75 | Each batch point adds exactly one progress write |
| CsvProcessor.ProgressDocsLast | src/services/csvProcessor.js:74 | The in-memory request after the progress writes has the last written progress |
| CsvProcessor.LastBatchPointIsTotal | src/services/csvProcessor.js:72 | When every row is counted, the last progress write is at the total |
| CsvProcessor.RowStep | src/services/csvProcessor.js:58-80 | One handled row keeps the request's id and writes nothing or exactly the new in-memory request |
| CsvProcessor.RowsLoop | src/services/csvProcessor.js:55-83 | Handling the rows in order keeps the request id |
| CsvProcessor.RowsLoopCounts | src/services/csvProcessor.js:63-69 | The step-by-step handler pushes and counts exactly what the loop summary does |
| CsvProcessor.RowsLoopWrites | src/services/csvProcessor.js:71-76 | The step-by-step handler writes one progress document per batch point, and its in-memory request is the last one written |
| CsvProcessor.RowsLoopMatchesTally | src/services/csvProcessor.js:55-83 | The step-by-step handler agrees with the loop summary in results, count, writes and in-memory request |
| CsvProcessor.RecordFailure | src/services/csvProcessor.js:94-102 | The catch block on the stored document: one write of it as failed with the message as error; the message escapes, or the write's own `failure(k)` when it is rejected; CatchBlockMarksFailed states its effect |
| CsvProcessor.FinalSave | src/services/csvProcessor.js:85-100 | The final write of the completed request; when it is rejected, the catch block runs on the stored document; FinalSaveMarksFailed states its effect |
| CsvProcessor.RowsRun | src/services/csvProcessor.js:55-100 | After the file is read: the progress writes of the batch points, then the final save, the catch block seeing the last accepted progress write; RowsRunSplits, RowsRunNeverCrashes and RowsRunFailureMarksFailed state its properties |
| CsvProcessor.SourceRun | src/services/csvProcessor.js:46-103 | Reading the file: a file-stream error ends the process with no further write, a parse error goes to the catch block, parsed rows go to RowsRun; FileErrorLeavesProcessing states the first case |
| CsvProcessor.FoundRun | src/services/csvProcessor.js:37-103 | For a stored request: the `processing` write, then the catch block if it was rejected, otherwise SourceRun |
| CsvProcessor.CsvRun | src/services/csvProcessor.js:28-104 | processCSV as a run: an unknown id throws, a stored one is FoundRun; the CsvRun lemmas below state its properties |
| CsvProcessor.RowsRunSplits | src/services/csvProcessor.js:55-89 | After the `processing` write, a readable file's run is the progress writes followed by the final save |
| CsvProcessor.CsvRunUnknownId | src/services/csvProcessor.js:31-35 | An unknown id throws 'Request not found' and writes nothing |
| CsvProcessor.CsvRunSavesProcessingFirst | src/services/csvProcessor.js:37-52 | The first write is the request moved to `processing`, before the file is read; it is the only write exactly when it is accepted and the file stream then fails |
| CsvProcessor.FileErrorLeavesProcessing | src/services/csvProcessor.js:46-52 | A run crashes iff the `processing` write is accepted and the file stream fails; it then writes that one document, which stays stored as `processing` with its error field unchanged |
| CsvProcessor.RowsRunNeverCrashes | src/services/csvProcessor.js:55-103 | Once the file is parsed, processCSV returns or throws and never crashes |
| CsvProcessor.CsvRunWritesProgressAtBatchPoints | src/services/csvProcessor.js:37-89 | Between the `processing` write and the final write come exactly the progress writes, one per batch point, carrying its progress; then the completed request |
| CsvProcessor.CompletionIsComplete | src/services/csvProcessor.js:85-89 | The final write has status completed, completedAt = now, the results of the loop, and the id and error untouched |
| CsvProcessor.CompletionReachesFullProgress | src/services/csvProcessor.js:72-89 | When every row has its image cell, the completed request has progress 100 |
| CsvProcessor.CsvRunPassesIffWritesAccepted | src/services/csvProcessor.js:28-104 | processCSV returns normally iff the `processing` and final writes are accepted and the file is readable, whatever rows or images fail; the request is then stored as completed |
| CsvProcessor.CsvRunWithNoRows | src/services/csvProcessor.js:41-89 | A file with no rows goes from `processing` straight to `completed` with no results and no progress write |
| CsvProcessor.NoImageColumnNoTally | src/services/csvProcessor.js:60 | When no row has an image cell, nothing is recorded, counted or written by the row loop |
| CsvProcessor.CsvRunWithoutImageColumnCompletes | src/services/csvProcessor.js:28-89 | The columns are never checked: without an image column the request still completes, with no results |
| CsvProcessor.CsvRunFailureMarksFailed | src/services/csvProcessor.js:91-103 | A run that throws on an existing request ends with a write marking it failed, with completedAt and results as stored and the escaping message as error; when that write is rejected, its own error escapes |
| CsvProcessor.CatchMarksFailed | src/services/csvProcessor.js:91-103 | The same for a throw right after the `processing` write (that write rejected, or a parse error of the CSV parser) |
| CsvProcessor.RowsRunFailureMarksFailed | src/services/csvProcessor.js:85-103 | The same for a rejected final write: the failed document is the stored `processing` request or its last progress update, without the results |
| CsvProcessor.FinalSaveMarksFailed | src/services/csvProcessor.js:85-103 | After progress writes that differ from the request in progress alone, a rejected final write ends with the catch block marking the request failed, as CsvRunFailureMarksFailed says |
| CsvProcessor.CatchBlockMarksFailed | src/services/csvProcessor.js:94-102 | The catch block's write, after any earlier writes, is a failed copy of the stored document carrying the escaping message, and is what is stored when accepted |
| CsvProcessor.IntendedSourceRun | src/services/csvProcessor.js:46-103 | Reading the file with a file-stream error handled like a parse error: it goes to the catch block |
| CsvProcessor.IntendedFileErrorMarksFailed | src/services/csvProcessor.js:46-103 | With file-stream errors handled, no run after an accepted `processing` write crashes, every throw marks the request failed, and a file-stream error then stores it failed with the stream's message |
| CsvProcessor.HandleRow | src/services/csvProcessor.js:58-80 | The row handler changes the closure state and the store exactly as RowStep says; a rejected progress write is caught and changes nothing stored |
| CsvProcessor.HandleRowLogged | src/services/csvProcessor.js:58-80 | Across a run, the stored request stays the last accepted write once this row's writes are added |
| CsvProcessor.ProcessRows | src/services/csvProcessor.js:55-83 | After the row loop the closure state is the loop summary's, and the store has received exactly the progress writes |
| CsvProcessor.CountRows | src/services/csvProcessor.js:45-52 | The first read stream counts every row |
| CsvProcessor.SaveFinal | src/services/csvProcessor.js:86-100 | The final write stores the completed request, or on rejection runs the catch block on the stored document |
| CsvProcessor.SaveCompleted | src/services/csvProcessor.js:85-100 | The final write, placed after the progress writes in the request's history |
| CsvProcessor.ProcessFile | src/services/csvProcessor.js:41-89 | For a readable file, the history and stored request are RowsRun's |
| CsvProcessor.ReadSource | src/services/csvProcessor.js:46-103 | After the `processing` write: a file-stream error ends the run with that error and no further write, a parse error goes to the catch block with its message, a readable file is processed; the history and stored request are SourceRun's |
| CsvProcessor.ContinueProcessing | src/services/csvProcessor.js:41-103 | After an accepted `processing` write, the outcome (return, caught throw or crash) is SourceRun's, and the history and stored request are that write followed by SourceRun's |
| CsvProcessor.StartProcessing | src/services/csvProcessor.js:37-103 | For a stored request, the outcome (return, caught throw or crash), history and stored request are FoundRun's |
| CsvProcessor.ProcessCSV | src/services/csvProcessor.js:28-104 | processCSV's outcome (return, throw, or a crash on a file-stream error), its writes and the stored documents are CsvRun's; other ids are untouched |
| CsvProcessor.FailRequest | src/services/csvProcessor.js:94-102 | The catch block re-reads the request and, if it exists, writes it as failed with the message, then rethrows; for an unknown id the store is untouched |
| ImageProcessor.ProcessedFilename | src/services/imageProcessor.js:95 | `processed_${Date.now()}_${path.basename(url)}`; ProcessedFilenameHasNoSlash and ProcessedRefNamesWrittenFile state its shape |
| ImageProcessor.ProcessedRef | src/services/imageProcessor.js:99 | `/uploads/` followed by the processed file name; ProcessedRefNamesWrittenFile states its shape |
| ImageProcessor.ProcessedRefNamesWrittenFile | src/services/imageProcessor.js:95-99 | Each reference recorded for a success starts with '/uploads/processed_'; its basename is the written file's name, which ends with '_' and the URL's basename |
| ImageProcessor.ProcessedFilenameHasNoSlash | src/services/imageProcessor.js:95-96 | The processed file's name contains no '/', so it lies directly in `uploads` |
| ImageProcessor.EntryFor | src/services/imageProcessor.js:83-103 | The entry of one URL: null when a step threw, otherwise the reference of the file written, named with the timestamp of the outcome |
| ImageProcessor.ProcessedUrls | src/services/imageProcessor.js:79-107 | processImages returns one entry per URL, in order: null exactly where that URL failed, otherwise the reference of the written file |
| ImageProcessor.FailureIsIsolated | src/services/imageProcessor.js:82-104 | A failure at one URL changes no other entry |
| ImageProcessor.ProcessImages | src/services/imageProcessor.js:79-107 | The loop returns ProcessedUrls |
| ImageProcessor.IndexOf | src/services/imageProcessor.js:38 | `indexOf` finds the first occurrence of the pattern, or reports none |
| ImageProcessor.ReplaceFirst | src/services/imageProcessor.js:38 | `String.prototype.replace` with a string pattern: only the first occurrence, found by IndexOf, is replaced |
| ImageProcessor.SimulatedOutputUrl | src/services/imageProcessor.js:38 | `inputUrl.replace('.jpg', '-processed.jpg')`; SimulatedOutputUrlInsertsBeforeFirstJpg and UpperCaseJpgIsKept state its effect |
| ImageProcessor.SimulatedOutputUrlInsertsBeforeFirstJpg | src/services/imageProcessor.js:38 | `replace('.jpg', '-processed.jpg')` keeps a URL without '.jpg', and otherwise inserts '-processed' before the first '.jpg' only: 10 more characters, the input recoverable |
| ImageProcessor.UpperCaseJpgIsKept | src/services/imageProcessor.js:38 | The replacement is case-sensitive: '.JPG' is left as is |
| ImageProcessor.SucceededIndices | src/services/imageProcessor.js:31-43 | The positions of the succeeded URLs, increasing, including every success |
| ImageProcessor.ProductOutputs | src/services/imageProcessor.js:29-43 | The outputs of one product, never more than its inputs; ProductOutputsFollowSuccesses states which |
| ImageProcessor.ProductOutputsFollowSuccesses | src/services/imageProcessor.js:29-45 | A product's outputs are exactly the simulated URLs of its succeeded inputs, in input order |
| ImageProcessor.ProductOutputsKeepAllIffNoFailure | src/services/imageProcessor.js:31-43 | No output is dropped iff every image succeeded |
| ImageProcessor.UpdatedProducts | src/services/imageProcessor.js:28-46 | Every product keeps its inputs and gets the outputs of its own images |
| ImageProcessor.MarkFailed | src/services/imageProcessor.js:53-60 | The catch block on the stored document: one write of it as failed, no message recorded; the error escapes, or the write's own `failure(k)` when it is rejected |
| ImageProcessor.CompletionRun | src/services/imageProcessor.js:28-60 | After the `processing` write: the completed request with its outputs, then the catch block on the stored `processing` request if that write was rejected |
| ImageProcessor.FoundProductsRun | src/services/imageProcessor.js:25-60 | For a stored request: the `processing` write, then the catch block if it was rejected, otherwise CompletionRun |
| ImageProcessor.ProductsRun | src/services/imageProcessor.js:20-61 | processProductImages as a run: an unknown id throws, a stored one is FoundProductsRun; the ProductsRun lemmas state its properties |
| ImageProcessor.ProductsRunUnknownId | src/services/imageProcessor.js:22-23 | An unknown id throws 'Request not found' and writes nothing |
| ImageProcessor.ProductsRunWritesInOrder | src/services/imageProcessor.js:25-49 | `processing` is written before any product is touched, `completed` with the outputs after all |
| ImageProcessor.ProductsRunPassesIffWritesAccepted | src/services/imageProcessor.js:20-61 | The job returns normally iff both writes are accepted, whichever images fail; the request is then stored completed with its outputs |
| ImageProcessor.ProductsRunFailureMarksFailed | src/services/imageProcessor.js:53-60 | A job that throws on an existing request ends with a write marking the request failed, its error field unchanged, right after a rejected write; when the marking write is accepted it is what is stored and the rejected write's message `failure(k)` escapes; when it is rejected too, its own message escapes |
| ImageProcessor.TriggerWebhook | src/services/imageProcessor.js:63-77 | No post when WEBHOOK_URL is unset or empty or the request is missing; otherwise a post of the id with the stored status and products |
| ImageProcessor.AssignOutputs | src/services/imageProcessor.js:28-46 | The product loop assigns UpdatedProducts |
| ImageProcessor.ProcessUrls | src/services/imageProcessor.js:29-43 | The inner loop collects ProductOutputs |
| ImageProcessor.CompleteProducts | src/services/imageProcessor.js:28-49 | After the `processing` write, the outputs are assigned and the completed request written; a pass leaves it stored |
| ImageProcessor.ContinueProducts | src/services/imageProcessor.js:28-60 | After an accepted `processing` write, the history and stored request follow CompletionRun |
| ImageProcessor.StartProducts | src/services/imageProcessor.js:25-60 | For a stored request, the history and stored request are FoundProductsRun's; a pass leaves it completed with its outputs |
| ImageProcessor.ProcessProductImages | src/services/imageProcessor.js:20-61 | The job's outcome, writes and stored documents are ProductsRun's; the webhook is posted only after a pass, with status completed and the new outputs |
| ImageProcessor.FailRequest | src/services/imageProcessor.js:53-60 | The catch block re-reads the request and, if it exists, writes it as failed, then rethrows |
| Validators.Message | src/utils/validators.js:2-33 | The message of each error validateCSV throws, the one for no rows being the TypeError of `Object.keys(undefined)` |
| Validators.RowMessageNamesRow | src/utils/validators.js:26-33 | The 1-based row number can be read back from the missing-data and invalid-URL messages |
| Validators.IsImageUrl | src/utils/validators.js:32 | The URL check, a scheme found at the front and an extension at the end with a non-empty gap; ImageUrlMatchesPattern states that it is the regular expression |
| Validators.ImageUrlMatchesPattern | src/utils/validators.js:32 | The URL check accepts exactly the strings of the pattern: case-insensitive 'http://' or 'https://', one or more characters that are not line terminators, then '.jpg', '.jpeg' or '.png' at the end |
| Validators.SchemeIsUnique | src/utils/validators.js:32 | Any scheme prefix of a URL is the one the check finds |
| Validators.ExtensionIsUnique | src/utils/validators.js:32 | Any extension suffix of a URL is the one the check finds |
| Validators.LeadingSpaceIsRejected | src/utils/validators.js:30-32 | A URL starting with a space is invalid |
| Validators.FirstMissingColumn | src/utils/validators.js:14-21 | None iff every required column is a header; otherwise the first missing one in the fixed order |
| Validators.RowError | src/utils/validators.js:25-34 | A row's error is missing data iff a required cell is missing or empty, an invalid URL iff the data is there but some piece of the split is not an image URL, and none iff the row is valid |
| Validators.FirstRowError | src/utils/validators.js:24-36 | None iff every row is valid; otherwise the error of the first invalid row |
| Validators.ValidateCSV | src/utils/validators.js:1-37 | validateCSV with the file parsed: file checks, then the columns of the first row, then the rows in order; ValidateCSVAccepts and the lemmas after it state its verdicts |
| Validators.ValidateCSVAccepts | src/utils/validators.js:1-37 | validateCSV returns normally iff there is a file named '*.csv', the first row has every required column, and every row has its data and valid image URLs |
| Validators.FileChecksComeFirst | src/utils/validators.js:2-8 | No file gives 'No file uploaded' and a name not ending in '.csv' gives the file-type error, whatever the content |
| Validators.MissingColumnIsFirstInOrder | src/utils/validators.js:14-21 | The first required column missing from the first row is reported, whatever the rows hold |
| Validators.FirstInvalidRowIsReported | src/utils/validators.js:24-36 | Once the columns are there, the first invalid row is reported with its 1-based number: missing data if it lacks a cell, otherwise an invalid URL |
| Validators.SpaceAfterCommaIsRejected | src/utils/validators.js:30-33 | 'a, b' splits into ' b' untrimmed, which makes the row's URL check fail |
| Validators.ValidateCSVAsWritten | src/utils/validators.js:1-11 | validateCSV as written: after the file checks, the unbound `csv` throws a ReferenceError |
| Validators.ValidateCSVAsWrittenNeverPasses | src/utils/validators.js:1-11 | As written, validateCSV never returns normally: it rejects every `.csv` file with 'csv is not defined' and agrees with ValidateCSV otherwise |
| Validators.AsWrittenRejectsValidFile | src/utils/validators.js:11-36 | A one-row file with valid data and URL passes ValidateCSV and is rejected as written |
| UploadRoutes.FileFilter | src/routes/uploadRoutes.js:76-82 | `fileFilter`: a refusal always carries the invalid-type message; FileFilterAcceptsCsv states when it accepts |
| UploadRoutes.FileFilterAcceptsCsv | src/routes/uploadRoutes.js:76-82 | A file is accepted iff its mimetype is exactly 'text/csv' or its original name is some stem followed by '.csv'; a refusal carries 'Invalid file type. Only CSV files are allowed.' |
| UploadRoutes.UpperCaseExtensionIsRejected | src/routes/uploadRoutes.js:77 | The name test is case-sensitive: 'DATA.CSV' sent as binary is refused |
| UploadRoutes.StoredFilename | src/routes/uploadRoutes.js:70-73 | `file.fieldname + '-' + Date.now() + '-' + Math.round(Math.random() * 1E9) + '.csv'`; StoredFilenameIsCsv and StoredFilenameInjective state its shape |
| UploadRoutes.StoredFilenameIsCsv | src/routes/uploadRoutes.js:70-73 | The stored name starts with the field name and '-', ends in '.csv' whatever the original name, and passes the filter |
| UploadRoutes.StoredFilenameInjective | src/routes/uploadRoutes.js:70-73 | The stored name determines the upload time and the random draw |
| UploadRoutes.Receive | src/routes/uploadRoutes.js:84-94 | Multer on an upload: no file part, a part under another field, a refused, an oversized or a stored file; ReceiveStoresExactlyAcceptedFiles states its verdicts |
| UploadRoutes.ReceiveStoresExactlyAcceptedFiles | src/routes/uploadRoutes.js:84-94 | Multer stores a file iff it comes under the field 'csv', passes the filter and is at most 5*1024*1024 bytes, under the name built from 'csv'; another field is Multer's 'Unexpected field' before the filter runs, a refused file is the filter's error, an oversized one Multer's 'File too large' |
| UploadRoutes.ErrorResponse | src/routes/uploadRoutes.js:96-101 | Every upload error is answered 400 with an error body |
| UploadRoutes.ErrorResponseKeepsMessage | src/routes/uploadRoutes.js:97-100 | A Multer error's text is 'Multer error: ' followed by its message; any other error's text is its message |
| UploadRoutes.PendingRequest | src/routes/uploadRoutes.js:116-120 | The created request has the new id, the stored file name and status pending, with no progress, results or error |
| UploadRoutes.NoFileCreatesNothing | src/routes/uploadRoutes.js:109-111 | Without a file the answer is 400 'No CSV file uploaded', nothing is created and nothing starts |
| UploadRoutes.UploadOf | src/routes/uploadRoutes.js:93-138 | One POST as a value: the response, the create asked for and the background call; the lemmas after it state their relation |
| UploadRoutes.OtherFieldIsRefused | src/routes/uploadRoutes.js:94-98 | A file under any field but 'csv' is answered 400 'Multer error: Unexpected field', whatever its name, type or size, and creates and starts nothing |
| UploadRoutes.UploadStartsProcessingIffAccepted | src/routes/uploadRoutes.js:94-133 | Processing starts iff the answer is 200, iff a file under the field 'csv' was accepted and recorded as pending; the answer then carries the same id and stored name ('csv-', ending in '.csv') as the created request and the background processCSV call |
| UploadRoutes.UploadFailuresAreClassified | src/routes/uploadRoutes.js:93-137 | Every answer is 200, 400 or 500: 400 iff nothing was written, 500 iff the create was rejected; the only write is one pending request |
| UploadRoutes.PostUpload | src/routes/uploadRoutes.js:93-138 | The handler's response, background call, writes and stored documents are UploadOf's, the field check included; the pending request is stored exactly when processing starts |

## Left out

- Concurrency. The row handler is an `async` callback the read stream does not await,
  so in the code the final write can race the row handlers and see partial results.
  The model runs every handler to completion, in row order, before the stream ends.
  It likewise treats the background `processCSV` call and the webhook post as
  completed steps.
- CSV tokenisation: `csv-parser` becomes the parsed rows, one column-to-cell map per
  row, or a parse error. The two read streams of processCSV see the same rows, and a
  file that fails to open or read fails both alike.
- `parseCSV` (src/services/csvProcessor.js:15-26) is not modelled: nothing calls it, and
  `Readable` is not bound in its module either.
- Validators.ValidateCSV: models validateCSV as its authors intended, with the file's
  rows parsed. As written, the unbound `csv` makes every `.csv` file fail with a
  ReferenceError (see Findings and `Validators.ValidateCSVAsWritten`).
- Image download, `sharp` decoding and resizing, JPEG encoding and `fs.writeFile` are
  not modelled. Their combined outcome per URL is the `ImageOutcome` input of the CSV
  pipeline and the success predicate of the product job. Both are functions of the
  URL: the same URL succeeds or fails alike, with the same timestamp, everywhere in a
  run.
- `Date.now()`, `Math.random()`, `uuidv4()` and `process.env.WEBHOOK_URL` are
  arguments. `UploadRoutes.PostUpload` requires the fresh id to be unused, which is
  what a fresh UUID gives.
- The database is the `JobStore.Store` class, so Mongoose's validation, casting and
  schema defaults are not modelled. src/models is not part of this model;
  `UploadRoutes.PendingRequest` assumes progress 0, empty results and products, and
  no completedAt or error for the fields the route does not set.
- The messages of errors thrown by foreign code are inputs: the store's `failure(k)`
  message for its k-th write, and the messages of a parse error and a file-stream
  error. Some are fixed: Multer's 'File too large' and 'Unexpected field', the TypeError
  message for `Object.keys(undefined)` and the ReferenceError for the unbound `csv`.
- JobStore.Store.Find: `findOne` never fails. A rejected read is not modelled, whether
  in processCSV's try block (src/services/csvProcessor.js:31), its catch block (:95),
  the product job's try and catch blocks (src/services/imageProcessor.js:22, :54) or
  triggerWebhook (:68, where it would be caught and logged).
- UploadRoutes.Receive: an upload carries at most one file part. A second file under
  'csv', Multer's other limits (field and part counts) and malformed multipart bodies
  are not modelled.
- An error that reaches no handler is the `Crash` outcome, and nothing after it is
  modelled. The process's own exit, and what becomes of other requests in flight, are
  left out.
- HTTP framing: Express and the multipart parser are not modelled; a response is a
  status and a JSON-like body. Creating the uploads directory at start-up is not
  modelled either.
- `validateImageUrl` (the WHATWG URL parser), `statusRoutes`, `app.js` and the
  configuration files are not modelled.
- Floating point: `Math.round((processedRows / totalRows) * 100)` is modelled in exact
  rational arithmetic, rounding halves up. A quotient whose floating-point value lands
  just beside .5 could round differently in JavaScript.
- `completedAt` is the clock value passed in, not a `Date` object.
- Some operations are split into several methods so that each one's proof stays
  small. processCSV is split into ProcessCSV, StartProcessing, ContinueProcessing,
  ReadSource, ProcessFile, CountRows, ProcessRows, HandleRow, HandleRowLogged,
  SaveCompleted, SaveFinal and FailRequest. processProductImages is split into
  ProcessProductImages, StartProducts, ContinueProducts, CompleteProducts,
  AssignOutputs, ProcessUrls and FailRequest. Each piece is a part of the original
  function's body.

## Findings

| source | as written | input that shows it | evidently intended | confidence | as-written member | corrected member |
|---|---|---|---|---|---|---|
| src/services/csvProcessor.js:46-52 | `.on('error', reject)` is attached to the stream `pipe(csv())` returns, and `pipe` does not forward errors of the file stream, so an error of `fs.createReadStream` reaches no handler: the process ends, the catch block never runs and the request stays `processing` | a stored request whose file is missing from `uploads/` when processCSV reads it | the catch block marks the request `failed` with the stream's message, as it does for a parse error | not executed | CsvProcessor.FileErrorLeavesProcessing | CsvProcessor.IntendedFileErrorMarksFailed |
| src/utils/validators.js:11 | `csv` is never bound in the module, so `csv().fromFile(file.path)` throws a ReferenceError once the file checks pass | a file 'f.csv' with the row {'S. No.': '1', 'Product Name': 'p', 'Input Image Urls': 'http://a.png'} | the rows are read and then checked | not executed | Validators.AsWrittenRejectsValidFile | Validators.ValidateCSVAccepts |

The service methods (`CsvProcessor.ProcessCSV` and the methods it is split into) follow
the code as written, file-stream crash included. `CsvProcessor.IntendedSourceRun` is
the corrected run. `Validators.ValidateCSV` is the intended validator and is what the
validator lemmas describe. `Validators.ValidateCSVAsWritten` is the code as written.
