/** The CSV pipeline: `validateCSVFormat` and `processCSV`, which moves a stored request
    to `processing`, runs every row's images through `processImages`, records progress
    in batches and finally stores the results as `completed`, or marks the request
    `failed` when anything it awaits throws. */
module CsvProcessor {
  import opened Wrappers
  import opened Strings
  import opened Domain
  import opened JobStore
  import ImageProcessor
  import Validators

  // ---------------------------------------------------------------------------
  // validateCSVFormat

  /** `validateCSVFormat(data)`: whether every required column is a key of the first row.
      On empty data `Object.keys(data[0])` throws, which is the Failure. */
  function ValidateCSVFormat(data: seq<Row>): (r: Result<bool, string>)
    ensures r.Failure? <==> data == []
  {
    if data == [] then Failure(Validators.Message(Validators.NoRows))
    else Success(forall i :: 0 <= i < |RequiredColumns| ==> RequiredColumns[i] in data[0].Keys)
  }

  /** The format holds exactly when 'S. No.', 'Product Name' and 'Input Image Urls' are
      all keys of the first row, which is also when validateCSV's column check passes. */
  lemma ValidateCSVFormatChecksRequiredColumns(data: seq<Row>)
    requires data != []
    ensures ValidateCSVFormat(data) == Success(true) <==>
      "S. No." in data[0] && "Product Name" in data[0] && "Input Image Urls" in data[0]
    ensures ValidateCSVFormat(data) == Success(true) <==>
      Validators.FirstMissingColumn(RequiredColumns, data[0].Keys).None?
  {
    assert RequiredColumns[0] == "S. No." && RequiredColumns[1] == "Product Name"
      && RequiredColumns[2] == "Input Image Urls";
  }

  /** Extra columns, and every row after the first, are irrelevant. */
  lemma ValidateCSVFormatIgnoresOtherColumns(data: seq<Row>, other: seq<Row>)
    requires data != [] && other != []
    requires forall c :: c in RequiredColumns ==> (c in data[0] <==> c in other[0])
    ensures ValidateCSVFormat(data) == ValidateCSVFormat(other)
  {
    assert forall i :: 0 <= i < |RequiredColumns| ==> RequiredColumns[i] in RequiredColumns;
  }

  // ---------------------------------------------------------------------------
  // Progress

  /** Progress is written every BatchSize processed rows, and at the last one. */
  const BatchSize: nat := 5

  predicate ShouldPersist(processed: nat, total: nat) {
    processed % BatchSize == 0 || processed == total
  }

  /** `Math.round(processed / total * 100)`, in exact arithmetic. */
  function Progress(processed: nat, total: nat): nat
    requires total > 0
  {
    (200 * processed + total) / (2 * total)
  }

  lemma DivBounds(n: int, d: int)
    requires d > 0
    ensures d * (n / d) <= n < d * (n / d) + d
  {
  }

  lemma MulCancel(d: int, x: int, y: int)
    requires d > 0 && d * x < d * y
    ensures x < y
  {
  }

  lemma DivExact(n: int, d: int, q: int, r: int)
    requires d > 0 && 0 <= r < d && n == d * q + r
    ensures n / d == q
  {
    DivBounds(n, d);
    assert d * q + d == d * (q + 1);
    assert d * (n / d) + d == d * (n / d + 1);
    MulCancel(d, n / d, q + 1);
    MulCancel(d, q, n / d + 1);
  }

  /** Progress is processed*100/total rounded half up: it lies within one half of that
      quotient, below it by at most a half and above it by less than a half (all times
      2*total, to stay in integers). */
  lemma ProgressRoundsHalfUp(processed: nat, total: nat)
    requires total > 0
    ensures var r := Progress(processed, total);
      -(total as int) <= 200 * processed - 2 * total * r < total
  {
    var r := Progress(processed, total);
    DivBounds(200 * processed + total, 2 * total);
    assert (2 * total) * r == 2 * total * r;
  }

  /** The source rounds, it does not truncate: 2 of 3 rows is 67, not 66. */
  lemma ProgressRoundsUpAtTwoThirds()
    ensures Progress(2, 3) == 67 && Progress(1, 3) == 33 && Progress(1, 8) == 13
  {
  }

  lemma ProgressMonotone(p: nat, q: nat, total: nat)
    requires total > 0 && p <= q
    ensures Progress(p, total) <= Progress(q, total)
  {
    var d := 2 * total;
    var a, b := 200 * p + total, 200 * q + total;
    DivBounds(a, d);
    DivBounds(b, d);
    assert d * (b / d) + d == d * (b / d + 1);
    MulCancel(d, a / d, b / d + 1);
  }

  lemma ProgressBounds(p: nat, total: nat)
    requires total > 0 && p <= total
    ensures Progress(p, total) <= 100
    ensures p == total ==> Progress(p, total) == 100
  {
    ProgressMonotone(p, total, total);
    DivExact(200 * total + total, 2 * total, 100, total);
  }

  // ---------------------------------------------------------------------------
  // The row loop

  type ImageOutcome = ImageProcessor.ImageOutcome

  /** The `data` handler's work on one row: None when it throws before recording
      anything, which happens exactly when the row has no 'Input Image Urls' cell
      (`undefined.split`). */
  function RowResultOf(row: Row, outcome: ImageOutcome): (r: Option<RowResult>)
    ensures r.Some? <==> UrlsColumn in row
  {
    if UrlsColumn !in row then None
    else
      var urls := Split(row[UrlsColumn], ',');
      Some(RowResult(if NameColumn in row then Some(row[NameColumn]) else None, urls,
                     ImageProcessor.ProcessedUrls(urls, outcome)))
  }

  /** What the handler records for each row of `rows`, in order. */
  function Handlers(rows: seq<Row>, outcome: ImageOutcome): (rs: seq<Option<RowResult>>)
    ensures |rs| == |rows|
    decreases |rows|
  {
    if rows == [] then []
    else Handlers(rows[..|rows| - 1], outcome) + [RowResultOf(rows[|rows| - 1], outcome)]
  }

  /** Entry i is row i's. */
  lemma {:induction false} HandlersAt(rows: seq<Row>, outcome: ImageOutcome, i: nat)
    requires i < |rows|
    ensures Handlers(rows, outcome)[i] == RowResultOf(rows[i], outcome)
    decreases |rows|
  {
    var n := |rows| - 1;
    if i < n {
      HandlersAt(rows[..n], outcome, i);
    }
  }

  /** The entries of a prefix of the rows are a prefix of the entries. */
  lemma {:induction false} HandlersPrefix(rows: seq<Row>, n: nat, outcome: ImageOutcome)
    requires n <= |rows|
    ensures Handlers(rows[..n], outcome) == Handlers(rows, outcome)[..n]
    decreases |rows|
  {
    if n < |rows| {
      var m := |rows| - 1;
      assert rows[..m][..n] == rows[..n];
      HandlersPrefix(rows[..m], n, outcome);
    } else {
      assert rows[..n] == rows;
    }
  }

  /** The state of the row loop: the results pushed, `processedRows`, and the values of
      `processedRows` at which progress was written. */
  datatype Tally = Tally(results: seq<RowResult>, processed: nat, persistedAt: seq<nat>)

  /** One row handled: a recorded row is pushed and counted, and progress is written when
      the new count is a batch point. */
  function Step(t: Tally, result: Option<RowResult>, total: nat): Tally {
    match result
    case None => t
    case Some(r) =>
      var k := t.processed + 1;
      Tally(t.results + [r], k, if ShouldPersist(k, total) then t.persistedAt + [k] else t.persistedAt)
  }

  /** The row loop after the handler recorded `results`, `total` being the count taken
      beforehand. */
  function TallyOf(results: seq<Option<RowResult>>, total: nat): (t: Tally)
    ensures t.processed == |t.results| <= |results|
    ensures |t.persistedAt| <= t.processed
    decreases |results|
  {
    if results == [] then Tally([], 0, [])
    else Step(TallyOf(results[..|results| - 1], total), results[|results| - 1], total)
  }

  /** The row loop after `rows`. */
  function TallyRows(rows: seq<Row>, total: nat, outcome: ImageOutcome): (t: Tally)
    ensures t.processed == |t.results| <= |rows|
    ensures |t.persistedAt| <= t.processed
  {
    TallyOf(Handlers(rows, outcome), total)
  }

  /** One more row is one more Step. */
  lemma TallyRowsSnoc(rows: seq<Row>, total: nat, outcome: ImageOutcome)
    requires rows != []
    ensures TallyRows(rows, total, outcome)
         == Step(TallyRows(rows[..|rows| - 1], total, outcome), RowResultOf(rows[|rows| - 1], outcome), total)
  {
    HandlersPrefix(rows, |rows| - 1, outcome);
  }

  /** Progress is written exactly at the processed counts that are a multiple of the batch
      size or equal to the total, once each, in increasing order. */
  lemma {:induction false} TallyPersistsExactlyAtBatchPoints(results: seq<Option<RowResult>>, total: nat)
    ensures forall k :: k in TallyOf(results, total).persistedAt <==>
      1 <= k <= TallyOf(results, total).processed && ShouldPersist(k, total)
    ensures forall i, j :: 0 <= i < j < |TallyOf(results, total).persistedAt| ==>
      TallyOf(results, total).persistedAt[i] < TallyOf(results, total).persistedAt[j]
    decreases |results|
  {
    if results != [] {
      var front := TallyOf(results[..|results| - 1], total);
      TallyPersistsExactlyAtBatchPoints(results[..|results| - 1], total);
      forall i | 0 <= i < |front.persistedAt| ensures front.persistedAt[i] <= front.processed {
        assert front.persistedAt[i] in front.persistedAt;
      }
      var ps := TallyOf(results, total).persistedAt;
      if ps != front.persistedAt {
        assert ps == front.persistedAt + [front.processed + 1];
        forall i, j | 0 <= i < j < |ps| ensures ps[i] < ps[j] {
          if j == |ps| - 1 {
            assert ps[i] == front.persistedAt[i];
          }
        }
      }
    }
  }

  /** The multiples of the batch size up to n. */
  function BatchMultiples(n: nat): (ms: seq<nat>)
    ensures |ms| == n / BatchSize
  {
    seq(n / BatchSize, i requires 0 <= i => BatchSize * (i + 1))
  }

  /** Counted independently: as long as the count has not passed the total, the writes
      happened at the multiples of 5 so far, plus the total itself once it is reached and is
      not such a multiple. */
  lemma {:induction false} TallyPersistsAtMultiples(results: seq<Option<RowResult>>, total: nat)
    requires |results| <= total
    ensures var t := TallyOf(results, total);
      t.persistedAt == BatchMultiples(t.processed)
                       + (if t.processed == total && total % BatchSize != 0 then [total] else [])
    decreases |results|
  {
    if results != [] {
      var front := results[..|results| - 1];
      TallyPersistsAtMultiples(front, total);
      var p := TallyOf(front, total).processed;
      var t := TallyOf(results, total);
      if t.processed != p {
        var k := p + 1;
        assert p < total;
        if k % BatchSize == 0 {
          assert k / BatchSize == p / BatchSize + 1;
          assert BatchMultiples(k) == BatchMultiples(p) + [k];
        } else {
          assert k / BatchSize == p / BatchSize;
          assert BatchMultiples(k) == BatchMultiples(p);
        }
      }
    }
  }

  /** The rows the handler records, in order: those with an 'Input Image Urls' cell. */
  function RowsWithUrls(rows: seq<Row>): (kept: seq<Row>)
    ensures |kept| <= |rows|
    ensures forall i :: 0 <= i < |kept| ==> UrlsColumn in kept[i] && kept[i] in rows
    decreases |rows|
  {
    if rows == [] then []
    else
      var front := RowsWithUrls(rows[..|rows| - 1]);
      assert forall r :: r in rows[..|rows| - 1] ==> r in rows;
      front + (if UrlsColumn in rows[|rows| - 1] then [rows[|rows| - 1]] else [])
  }

  /** Result i comes from the i-th recorded row: the product name copied, the URL cell
      split on ',' (joining the pieces with ',' gives the cell back), and one processed
      entry per URL. */
  lemma {:induction false} TallyResultsFollowRows(rows: seq<Row>, total: nat, outcome: ImageOutcome)
    ensures var t := TallyRows(rows, total, outcome);
      var kept := RowsWithUrls(rows);
      && |t.results| == |kept|
      && forall i :: 0 <= i < |kept| ==>
           && t.results[i].productName == (if NameColumn in kept[i] then Some(kept[i][NameColumn]) else None)
           && t.results[i].originalUrls == Split(kept[i][UrlsColumn], ',')
           && Join(t.results[i].originalUrls, ',') == kept[i][UrlsColumn]
           && t.results[i].processedUrls == ImageProcessor.ProcessedUrls(t.results[i].originalUrls, outcome)
           && |t.results[i].processedUrls| == |t.results[i].originalUrls|
    decreases |rows|
  {
    if rows != [] {
      TallyRowsSnoc(rows, total, outcome);
      TallyResultsFollowRows(rows[..|rows| - 1], total, outcome);
      var t := TallyRows(rows, total, outcome);
      var kept := RowsWithUrls(rows);
      forall i | 0 <= i < |kept| ensures Join(t.results[i].originalUrls, ',') == kept[i][UrlsColumn] {
        JoinSplit(kept[i][UrlsColumn], ',');
      }
    }
  }

  /** The count is the number of recorded rows. */
  lemma {:induction false} TallyCountsRowsWithUrls(rows: seq<Row>, total: nat, outcome: ImageOutcome)
    ensures TallyRows(rows, total, outcome).processed == |RowsWithUrls(rows)|
    decreases |rows|
  {
    if rows != [] {
      TallyRowsSnoc(rows, total, outcome);
      TallyCountsRowsWithUrls(rows[..|rows| - 1], total, outcome);
    }
  }

  /** When every row has its image cell, every row is counted. */
  lemma {:induction false} TallyCountsEveryWellFormedRow(rows: seq<Row>, total: nat, outcome: ImageOutcome)
    requires forall i :: 0 <= i < |rows| ==> UrlsColumn in rows[i]
    ensures TallyRows(rows, total, outcome).processed == |rows|
    decreases |rows|
  {
    if rows != [] {
      TallyRowsSnoc(rows, total, outcome);
      TallyCountsEveryWellFormedRow(rows[..|rows| - 1], total, outcome);
    }
  }

  lemma {:induction false} RowsWithUrlsShorterWhenOneLacks(rows: seq<Row>, i: nat)
    requires i < |rows| && UrlsColumn !in rows[i]
    ensures |RowsWithUrls(rows)| < |rows|
    decreases |rows|
  {
    var n := |rows| - 1;
    if i < n {
      assert rows[..n][i] == rows[i];
      RowsWithUrlsShorterWhenOneLacks(rows[..n], i);
    }
  }

  /** A row without an image cell is skipped and not counted, so `processedRows` never
      reaches the row count and the final-row trigger never fires. */
  lemma ThrowingRowIsNotCounted(rows: seq<Row>, outcome: ImageOutcome, i: nat)
    requires i < |rows| && UrlsColumn !in rows[i]
    ensures var t := TallyRows(rows, |rows|, outcome);
      t.processed < |rows| && |rows| !in t.persistedAt
  {
    TallyPersistsExactlyAtBatchPoints(Handlers(rows, outcome), |rows|);
    TallyCountsRowsWithUrls(rows, |rows|, outcome);
    RowsWithUrlsShorterWhenOneLacks(rows, i);
  }

  /** Twenty well-formed rows write progress after rows 5, 10, 15 and 20 and no others. */
  lemma TwentyRowsPersistFourTimes(rows: seq<Row>, outcome: ImageOutcome)
    requires |rows| == 20 && forall i :: 0 <= i < |rows| ==> UrlsColumn in rows[i]
    ensures TallyRows(rows, 20, outcome).persistedAt == [5, 10, 15, 20]
  {
    TallyCountsEveryWellFormedRow(rows, 20, outcome);
    TallyPersistsAtMultiples(Handlers(rows, outcome), 20);
    assert BatchMultiples(20) == [5, 10, 15, 20];
  }

  /** Seven well-formed rows write progress after rows 5 and 7. */
  lemma SevenRowsPersistAtFiveAndSeven(rows: seq<Row>, outcome: ImageOutcome)
    requires |rows| == 7 && forall i :: 0 <= i < |rows| ==> UrlsColumn in rows[i]
    ensures TallyRows(rows, 7, outcome).persistedAt == [5, 7]
  {
    TallyCountsEveryWellFormedRow(rows, 7, outcome);
    TallyPersistsAtMultiples(Handlers(rows, outcome), 7);
    assert BatchMultiples(7) == [5];
  }

  /** The progress values written never decrease and never exceed 100. */
  lemma PersistedProgressNeverDecreases(rows: seq<Row>, outcome: ImageOutcome)
    ensures var ps := TallyRows(rows, |rows|, outcome).persistedAt;
      && (forall k :: 0 <= k < |ps| ==> Progress(ps[k], |rows|) <= 100)
      && (forall i, j :: 0 <= i <= j < |ps| ==> Progress(ps[i], |rows|) <= Progress(ps[j], |rows|))
  {
    var ps := TallyRows(rows, |rows|, outcome).persistedAt;
    TallyPersistsExactlyAtBatchPoints(Handlers(rows, outcome), |rows|);
    forall k | 0 <= k < |ps| ensures Progress(ps[k], |rows|) <= 100 {
      assert ps[k] in ps;
      ProgressBounds(ps[k], |rows|);
    }
    forall i, j | 0 <= i <= j < |ps| ensures Progress(ps[i], |rows|) <= Progress(ps[j], |rows|) {
      assert ps[i] <= ps[j] by {
        if i < j {
          assert ps[i] < ps[j];
        }
      }
      ProgressMonotone(ps[i], ps[j], |rows|);
    }
  }

  // ---------------------------------------------------------------------------
  // processCSV

  /** The uploaded file as the two read streams see it:
      - Readable(rows): the rows csv-parser yields;
      - ParseError(message): csv-parser's stream raises an error on the file's content.
        Both streams read the same bytes, so the first, counting stream meets it, before
        any row is handled;
      - FileError(message): the file stream itself raises an error (the file is missing
        or cannot be read). The handlers listen on csv-parser's stream only, and `pipe`
        does not pass the file stream's errors on, so nothing handles this one. */
  datatype Source = Readable(rows: seq<Row>) | ParseError(message: string) | FileError(message: string)

  /** The request with each written progress value, in order. */
  function ProgressDocs(base: ProcessingRequest, persistedAt: seq<nat>, total: nat): (docs: seq<ProcessingRequest>)
    requires total > 0 || persistedAt == []
    ensures |docs| == |persistedAt|
    decreases |persistedAt|
  {
    if persistedAt == [] then []
    else ProgressDocs(base, persistedAt[..|persistedAt| - 1], total)
         + [base.(progress := Progress(persistedAt[|persistedAt| - 1], total))]
  }

  /** Progress write k carries the progress of batch point k. */
  lemma {:induction false} ProgressDocsCarryProgress(base: ProcessingRequest, persistedAt: seq<nat>, total: nat)
    requires total > 0 || persistedAt == []
    ensures var docs := ProgressDocs(base, persistedAt, total);
      forall k :: 0 <= k < |docs| ==> docs[k] == base.(progress := Progress(persistedAt[k], total))
    decreases |persistedAt|
  {
    if persistedAt != [] {
      ProgressDocsCarryProgress(base, persistedAt[..|persistedAt| - 1], total);
    }
  }

  /** The catch block of processCSV on a stored request: it is marked failed with the
      error's message and the error is rethrown; when that write is rejected, its own
      error is what escapes. */
  function RecordFailure(current: ProcessingRequest, attempt: nat, failing: set<nat>, failure: nat -> string,
                         message: string): Run
  {
    Run([current.(status := Failed, error := Some(message))], Fail(if attempt in failing then failure(attempt) else message))
  }

  /** The request as the final write leaves it: completed at `now` with the results, its
      progress the last one written. */
  function Completion(processing: ProcessingRequest, docs: seq<ProcessingRequest>, results: seq<RowResult>,
                      now: int): ProcessingRequest
  {
    LastDoc(processing, docs).(status := Completed, completedAt := Some(now), results := results)
  }

  /** What processCSV does after the `processing` write was accepted and the file read,
      the next write being attempt number `start`. */
  function RowsRun(processing: ProcessingRequest, start: nat, failing: set<nat>, failure: nat -> string,
                   rows: seq<Row>, outcome: ImageOutcome, now: int): Run
  {
    var tally := TallyRows(rows, |rows|, outcome);
    var docs := ProgressDocs(processing, tally.persistedAt, |rows|);
    After(docs, FinalSave(LastWritten(processing, docs, start, failing), Completion(processing, docs, tally.results, now),
                          start + |docs|, failing, failure))
  }

  /** RowsRun is the progress writes followed by the final one. */
  lemma RowsRunSplits(processing: ProcessingRequest, start: nat, failing: set<nat>, failure: nat -> string,
                      rows: seq<Row>, outcome: ImageOutcome, now: int)
    ensures var tally := TallyRows(rows, |rows|, outcome);
      var docs := ProgressDocs(processing, tally.persistedAt, |rows|);
      var run := RowsRun(processing, start, failing, failure, rows, outcome, now);
      var last := FinalSave(LastWritten(processing, docs, start, failing), Completion(processing, docs, tally.results, now),
                            start + |docs|, failing, failure);
      run.writes == docs + last.writes && run.outcome == last.outcome
  {
    var tally := TallyRows(rows, |rows|, outcome);
    var docs := ProgressDocs(processing, tally.persistedAt, |rows|);
    var last := FinalSave(LastWritten(processing, docs, start, failing), Completion(processing, docs, tally.results, now),
                          start + |docs|, failing, failure);
    assert RowsRun(processing, start, failing, failure, rows, outcome, now) == After(docs, last);
  }

  /** The final write of processCSV, as attempt number `attempt`, the stored document
      being `current`: when it is rejected, the catch block runs on `current`. */
  function FinalSave(current: ProcessingRequest, completed: ProcessingRequest, attempt: nat, failing: set<nat>,
                     failure: nat -> string): Run
  {
    if attempt !in failing then Run([completed], Pass)
    else After([completed], RecordFailure(current, attempt + 1, failing, failure, failure(attempt)))
  }

  /** What processCSV does, given the stored request (None for an unknown id) and the
      position `start` of its first write. */
  function CsvRun(stored: Option<ProcessingRequest>, start: nat, failing: set<nat>, failure: nat -> string,
                  source: Source, outcome: ImageOutcome, now: int): Run
  {
    match stored
    case None => Run([], Fail(NotFoundMessage))
    case Some(request) => FoundRun(request, start, failing, failure, source, outcome, now)
  }

  /** What processCSV does with the stored request `request`: it is written as
      `processing` (attempt number `start`) and, when that write is accepted, the file is
      read. */
  function FoundRun(request: ProcessingRequest, start: nat, failing: set<nat>, failure: nat -> string,
                    source: Source, outcome: ImageOutcome, now: int): Run
  {
    var processing := request.(status := Processing);
    if start in failing then
      After([processing], RecordFailure(request, start + 1, failing, failure, failure(start)))
    else After([processing], SourceRun(processing, start + 1, failing, failure, source, outcome, now))
  }

  /** What processCSV does once the request is stored as `processing`: the file is read,
      the next write being attempt number `start`. A parse error rejects the stream's
      promise and reaches the catch block; a file-stream error reaches no handler and
      ends the process. */
  function SourceRun(processing: ProcessingRequest, start: nat, failing: set<nat>, failure: nat -> string,
                     source: Source, outcome: ImageOutcome, now: int): Run
  {
    match source
    case FileError(message) => Run([], Crash(message))
    case ParseError(message) => RecordFailure(processing, start, failing, failure, message)
    case Readable(rows) => RowsRun(processing, start, failing, failure, rows, outcome, now)
  }

  /** SourceRun as the code evidently intends it: a file-stream error is caught like a
      parse error, so the request is marked failed with its message. */
  function IntendedSourceRun(processing: ProcessingRequest, start: nat, failing: set<nat>, failure: nat -> string,
                             source: Source, outcome: ImageOutcome, now: int): Run
  {
    match source
    case FileError(message) => RecordFailure(processing, start, failing, failure, message)
    case _ => SourceRun(processing, start, failing, failure, source, outcome, now)
  }

  /** An unknown id throws "Request not found" and writes nothing. */
  lemma CsvRunUnknownId(start: nat, failing: set<nat>, failure: nat -> string, source: Source,
                        outcome: ImageOutcome, now: int)
    ensures CsvRun(None, start, failing, failure, source, outcome, now) == Run([], Fail(NotFoundMessage))
  {
  }

  /** The first write is the request moved to `processing`, before the file is read. It
      is the only write exactly when it is accepted and the file stream then fails. */
  lemma CsvRunSavesProcessingFirst(request: ProcessingRequest, start: nat, failing: set<nat>, failure: nat -> string,
                                   source: Source, outcome: ImageOutcome, now: int)
    ensures var run := CsvRun(Some(request), start, failing, failure, source, outcome, now);
      && |run.writes| >= 1 && run.writes[0] == request.(status := Processing)
      && (|run.writes| == 1 <==> start !in failing && source.FileError?)
  {
    var run := CsvRun(Some(request), start, failing, failure, source, outcome, now);
    var processing := request.(status := Processing);
    if start !in failing && source.Readable? {
      var tally := TallyRows(source.rows, |source.rows|, outcome);
      var docs := ProgressDocs(processing, tally.persistedAt, |source.rows|);
      RowsRunSplits(processing, start + 1, failing, failure, source.rows, outcome, now);
      assert |run.writes| >= 2;
    }
  }

  /** A file-stream error after an accepted `processing` write ends the process: nothing
      more is written, and the request stays stored as `processing` with no error. Such a
      run is the only one that crashes. */
  lemma FileErrorLeavesProcessing(request: ProcessingRequest, start: nat, failing: set<nat>, failure: nat -> string,
                                  source: Source, outcome: ImageOutcome, now: int)
    ensures var run := CsvRun(Some(request), start, failing, failure, source, outcome, now);
      && (run.outcome.Crash? <==> start !in failing && source.FileError?)
      && (run.outcome.Crash? ==>
            && run == Run([request.(status := Processing)], Crash(source.message))
            && LastWritten(request, run.writes, start, failing) == request.(status := Processing)
            && LastWritten(request, run.writes, start, failing).error == request.error)
  {
    var run := CsvRun(Some(request), start, failing, failure, source, outcome, now);
    var processing := request.(status := Processing);
    if start in failing {
      assert run == After([processing], RecordFailure(request, start + 1, failing, failure, failure(start)));
    } else {
      assert run == After([processing], SourceRun(processing, start + 1, failing, failure, source, outcome, now));
      match source
      case FileError(m) =>
        assert run == Run([processing], Crash(m));
      case ParseError(m) =>
        assert run.outcome == RecordFailure(processing, start + 1, failing, failure, m).outcome;
      case Readable(rows) =>
        RowsRunNeverCrashes(processing, start + 1, failing, failure, rows, outcome, now);
    }
  }

  /** Once the file is read, the run returns or throws: it never crashes. */
  lemma RowsRunNeverCrashes(processing: ProcessingRequest, start: nat, failing: set<nat>, failure: nat -> string,
                            rows: seq<Row>, outcome: ImageOutcome, now: int)
    ensures !RowsRun(processing, start, failing, failure, rows, outcome, now).outcome.Crash?
  {
    RowsRunSplits(processing, start, failing, failure, rows, outcome, now);
  }

  /** With a file-stream error caught as intended, processCSV on a stored request never
      crashes, and the file-stream error marks the request failed with its message. */
  lemma IntendedFileErrorMarksFailed(request: ProcessingRequest, start: nat, failing: set<nat>, failure: nat -> string,
                                     source: Source, outcome: ImageOutcome, now: int)
    requires start !in failing
    ensures var processing := request.(status := Processing);
      var run := After([processing], IntendedSourceRun(processing, start + 1, failing, failure, source, outcome, now));
      && !run.outcome.Crash?
      && MarksFailed(request, run, start, failing, failure)
      && (source.FileError? && start + 1 !in failing ==>
            run.outcome == Fail(source.message)
            && LastWritten(request, run.writes, start, failing)
               == request.(status := Failed, error := Some(source.message)))
  {
    var processing := request.(status := Processing);
    var run := After([processing], IntendedSourceRun(processing, start + 1, failing, failure, source, outcome, now));
    if source.Readable? {
      RowsRunNeverCrashes(processing, start + 1, failing, failure, source.rows, outcome, now);
      RowsRunFailureMarksFailed(request, start, failing, failure, source.rows, outcome, now);
    } else {
      CatchMarksFailed(request, processing, start, failing, failure, source.message);
    }
  }

  /** Between the `processing` write and the final one come exactly the progress writes:
      one per batch point of the row loop, carrying that point's progress. */
  lemma CsvRunWritesProgressAtBatchPoints(request: ProcessingRequest, start: nat, failing: set<nat>,
                                          failure: nat -> string, rows: seq<Row>, outcome: ImageOutcome, now: int)
    requires start !in failing
    ensures var run := CsvRun(Some(request), start, failing, failure, Readable(rows), outcome, now);
      var ps := TallyRows(rows, |rows|, outcome).persistedAt;
      && |run.writes| >= |ps| + 2
      && (forall k :: 0 <= k < |ps| ==>
            run.writes[1 + k] == request.(status := Processing, progress := Progress(ps[k], |rows|)))
      && run.writes[|ps| + 1].status == Completed
  {
    var run := CsvRun(Some(request), start, failing, failure, Readable(rows), outcome, now);
    var processing := request.(status := Processing);
    var tally := TallyRows(rows, |rows|, outcome);
    var docs := ProgressDocs(processing, tally.persistedAt, |rows|);
    var completed := Completion(processing, docs, tally.results, now);
    ProgressDocsCarryProgress(processing, tally.persistedAt, |rows|);
    var last := FinalSave(LastWritten(processing, docs, start + 1, failing), completed, start + 1 + |docs|,
                          failing, failure);
    RowsRunIs(processing, start + 1, failing, failure, rows, outcome, now, docs, last);
    AfterAfter([processing], docs, last);
    assert last.writes[0] == completed;
    var all := [processing] + docs + last.writes;
    assert run.writes == all;
    forall k | 0 <= k < |docs| ensures all[1 + k] == docs[k] {
    }
    assert all[|docs| + 1] == completed;
  }

  /** The final write of a completed run: status completed, completedAt set, all results,
      and the error untouched. */
  lemma CompletionIsComplete(request: ProcessingRequest, rows: seq<Row>, outcome: ImageOutcome, now: int)
    ensures var processing := request.(status := Processing);
      var tally := TallyRows(rows, |rows|, outcome);
      var docs := ProgressDocs(processing, tally.persistedAt, |rows|);
      var completed := Completion(processing, docs, tally.results, now);
      && completed.status == Completed
      && completed.completedAt == Some(now)
      && completed.error == request.error
      && completed.requestId == request.requestId
      && completed.results == tally.results
  {
  }

  /** When every row has its image cell, the final write has progress 100. */
  lemma CompletionReachesFullProgress(request: ProcessingRequest, rows: seq<Row>, outcome: ImageOutcome, now: int)
    requires |rows| > 0 && forall i :: 0 <= i < |rows| ==> UrlsColumn in rows[i]
    ensures var processing := request.(status := Processing);
      var tally := TallyRows(rows, |rows|, outcome);
      Completion(processing, ProgressDocs(processing, tally.persistedAt, |rows|), tally.results, now).progress == 100
  {
    var n := |rows|;
    TallyCountsEveryWellFormedRow(rows, n, outcome);
    LastBatchPointIsTotal(Handlers(rows, outcome), n);
    ProgressDocsLast(request.(status := Processing), TallyRows(rows, n, outcome).persistedAt, n);
    ProgressBounds(n, n);
  }

  /** When every row is counted, the last progress write is at the total. */
  lemma LastBatchPointIsTotal(results: seq<Option<RowResult>>, total: nat)
    requires |results| <= total && TallyOf(results, total).processed == total > 0
    ensures var ps := TallyOf(results, total).persistedAt;
      ps != [] && ps[|ps| - 1] == total
  {
    var ps := TallyOf(results, total).persistedAt;
    TallyPersistsAtMultiples(results, total);
    if total % BatchSize == 0 {
      assert ps == BatchMultiples(total) && |ps| == total / BatchSize >= 1;
      assert ps[|ps| - 1] == BatchSize * (total / BatchSize);
    }
  }

  /** The in-memory request after the progress writes carries the last one's progress. */
  lemma ProgressDocsLast(base: ProcessingRequest, persistedAt: seq<nat>, total: nat)
    requires persistedAt != [] && total > 0
    ensures LastDoc(base, ProgressDocs(base, persistedAt, total))
         == base.(progress := Progress(persistedAt[|persistedAt| - 1], total))
  {
  }

  /** processCSV returns normally exactly when the request exists, the file is readable
      and the `processing` and final writes are accepted; row and image failures do not
      matter. The request is then stored as the final write left it. */
  lemma CsvRunPassesIffWritesAccepted(request: ProcessingRequest, start: nat, failing: set<nat>, failure: nat -> string,
                                      source: Source, outcome: ImageOutcome, now: int)
    ensures var run := CsvRun(Some(request), start, failing, failure, source, outcome, now);
      && (run.outcome.Pass? <==>
           && start !in failing && source.Readable?
           && start + 1 + |TallyRows(source.rows, |source.rows|, outcome).persistedAt| !in failing)
      && (run.outcome.Pass? ==>
           var processing := request.(status := Processing);
           var tally := TallyRows(source.rows, |source.rows|, outcome);
           var docs := ProgressDocs(processing, tally.persistedAt, |source.rows|);
           LastWritten(request, run.writes, start, failing) == Completion(processing, docs, tally.results, now))
  {
    var run := CsvRun(Some(request), start, failing, failure, source, outcome, now);
    if start !in failing && source.Readable? {
      var rows := source.rows;
      var processing := request.(status := Processing);
      var tally := TallyRows(rows, |rows|, outcome);
      var docs := ProgressDocs(processing, tally.persistedAt, |rows|);
      var completed := Completion(processing, docs, tally.results, now);
      var rest := RowsRun(processing, start + 1, failing, failure, rows, outcome, now);
      assert run == After([processing], rest);
      if start + 1 + |docs| !in failing {
        assert rest == Run(docs + [completed], Pass);
        assert run.writes == ([processing] + docs) + [completed];
        LastWrittenSnoc(request, [processing] + docs, completed, start, failing);
      }
    }
  }

  /** With no rows the request goes straight from `processing` to `completed` with empty
      results and no progress write. */
  lemma CsvRunWithNoRows(request: ProcessingRequest, start: nat, failing: set<nat>, failure: nat -> string,
                         outcome: ImageOutcome, now: int)
    requires start !in failing && start + 1 !in failing
    ensures CsvRun(Some(request), start, failing, failure, Readable([]), outcome, now)
      == Run([request.(status := Processing),
              request.(status := Completed, completedAt := Some(now), results := [])], Pass)
  {
  }

  lemma {:induction false} NoImageColumnNoTally(rows: seq<Row>, total: nat, outcome: ImageOutcome)
    requires forall i :: 0 <= i < |rows| ==> UrlsColumn !in rows[i]
    ensures TallyRows(rows, total, outcome) == Tally([], 0, [])
    decreases |rows|
  {
    if rows != [] {
      TallyRowsSnoc(rows, total, outcome);
      NoImageColumnNoTally(rows[..|rows| - 1], total, outcome);
    }
  }

  /** The file's columns are never checked: when no row has an image cell, every row is
      skipped and the request still completes, with no results. */
  lemma CsvRunWithoutImageColumnCompletes(request: ProcessingRequest, start: nat, failing: set<nat>,
                                          failure: nat -> string, rows: seq<Row>, outcome: ImageOutcome, now: int)
    requires forall i :: 0 <= i < |rows| ==> UrlsColumn !in rows[i]
    requires start !in failing && start + 1 !in failing
    ensures var run := CsvRun(Some(request), start, failing, failure, Readable(rows), outcome, now);
      && run.outcome == Pass
      && LastWritten(request, run.writes, start, failing)
         == request.(status := Completed, completedAt := Some(now), results := [])
  {
    NoImageColumnNoTally(rows, |rows|, outcome);
  }

  /** A run on `request`, its first write being attempt number `start`, that throws ends
      with a write marking the request failed, with completedAt left as stored and no
      results but those stored before the run. When that write is accepted it carries the
      message that escaped and is what is stored; when it is rejected, the rejection's
      message is what escapes. */
  predicate MarksFailed(request: ProcessingRequest, run: Run, start: nat, failing: set<nat>, failure: nat -> string) {
    |run.writes| > 0 &&
    var last := run.writes[|run.writes| - 1];
    var attempt := start + |run.writes| - 1;
    run.outcome.Fail? ==>
      && last.status == Failed
      && last.completedAt == request.completedAt
      && last.results == request.results
      && (attempt !in failing ==>
            last.error == Some(run.outcome.error) && LastWritten(request, run.writes, start, failing) == last)
      && (attempt in failing ==> run.outcome.error == failure(attempt))
  }

  /** Every run of processCSV on an existing request that throws marks it failed. */
  lemma CsvRunFailureMarksFailed(request: ProcessingRequest, start: nat, failing: set<nat>, failure: nat -> string,
                                 source: Source, outcome: ImageOutcome, now: int)
    ensures MarksFailed(request, CsvRun(Some(request), start, failing, failure, source, outcome, now), start,
                        failing, failure)
  {
    var processing := request.(status := Processing);
    if start in failing {
      CatchMarksFailed(request, request, start, failing, failure, failure(start));
    } else if source.ParseError? {
      CatchMarksFailed(request, processing, start, failing, failure, source.message);
    } else if source.FileError? {
      assert CsvRun(Some(request), start, failing, failure, source, outcome, now).writes == [processing];
    } else {
      RowsRunFailureMarksFailed(request, start, failing, failure, source.rows, outcome, now);
    }
  }

  /** The catch block right after the `processing` write, run on `current`. */
  lemma CatchMarksFailed(request: ProcessingRequest, current: ProcessingRequest, start: nat, failing: set<nat>,
                         failure: nat -> string, message: string)
    requires current.completedAt == request.completedAt && current.results == request.results
    ensures MarksFailed(request, After([request.(status := Processing)],
                                       RecordFailure(current, start + 1, failing, failure, message)),
                        start, failing, failure)
  {
    var processing := request.(status := Processing);
    var run := After([processing], RecordFailure(current, start + 1, failing, failure, message));
    var failed := run.writes[1];
    assert run.writes == [processing] + [failed];
    LastWrittenSnoc(request, [processing], failed, start, failing);
  }

  /** A readable file whose final write is rejected: the catch block runs on the stored
      document, which is `processing` or one of its progress updates. */
  lemma RowsRunFailureMarksFailed(request: ProcessingRequest, start: nat, failing: set<nat>, failure: nat -> string,
                                  rows: seq<Row>, outcome: ImageOutcome, now: int)
    requires start !in failing
    ensures var processing := request.(status := Processing);
      MarksFailed(request, After([processing], RowsRun(processing, start + 1, failing, failure, rows, outcome, now)),
                  start, failing, failure)
  {
    var processing := request.(status := Processing);
    var tally := TallyRows(rows, |rows|, outcome);
    var docs := ProgressDocs(processing, tally.persistedAt, |rows|);
    var completed := Completion(processing, docs, tally.results, now);
    var last := FinalSave(LastWritten(processing, docs, start + 1, failing), completed, start + 1 + |docs|,
                          failing, failure);
    RowsRunIs(processing, start + 1, failing, failure, rows, outcome, now, docs, last);
    ProgressDocsCarryProgress(processing, tally.persistedAt, |rows|);
    FinalSaveMarksFailed(request, docs, completed, start, failing, failure);
    AfterAfter([processing], docs, last);
  }

  /** RowsRun, its progress writes and final save named by the caller. */
  lemma RowsRunIs(processing: ProcessingRequest, start: nat, failing: set<nat>, failure: nat -> string,
                  rows: seq<Row>, outcome: ImageOutcome, now: int, docs: seq<ProcessingRequest>, last: Run)
    requires docs == ProgressDocs(processing, TallyRows(rows, |rows|, outcome).persistedAt, |rows|)
    requires last == FinalSave(LastWritten(processing, docs, start, failing),
                               Completion(processing, docs, TallyRows(rows, |rows|, outcome).results, now),
                               start + |docs|, failing, failure)
    ensures RowsRun(processing, start, failing, failure, rows, outcome, now) == After(docs, last)
  {
  }

  /** The final write after the progress writes `docs`, each a copy of `processing` that
      differs in its progress only: when it is rejected the catch block marks the request
      failed. */
  lemma FinalSaveMarksFailed(request: ProcessingRequest, docs: seq<ProcessingRequest>, completed: ProcessingRequest,
                             start: nat, failing: set<nat>, failure: nat -> string)
    requires forall k :: 0 <= k < |docs| ==> docs[k].completedAt == request.completedAt
    requires forall k :: 0 <= k < |docs| ==> docs[k].results == request.results
    ensures var processing := request.(status := Processing);
      MarksFailed(request, After([processing] + docs,
                                 FinalSave(LastWritten(processing, docs, start + 1, failing), completed,
                                           start + 1 + |docs|, failing, failure)),
                  start, failing, failure)
  {
    var processing := request.(status := Processing);
    var current := LastWritten(processing, docs, start + 1, failing);
    var attempt := start + 1 + |docs|;
    if attempt in failing {
      LastWrittenIsOneOf(processing, docs, start + 1, failing);
      assert current.completedAt == request.completedAt && current.results == request.results;
      var before := [processing] + docs + [completed];
      var catch := RecordFailure(current, start + |before|, failing, failure, failure(attempt));
      assert After([processing] + docs, FinalSave(current, completed, attempt, failing, failure))
          == After(before, catch);
      CatchBlockMarksFailed(request, before, current, start, failing, failure, failure(attempt));
    }
  }

  /** The catch block's write on `current`, after the writes `before`, marks the request
      failed. */
  lemma CatchBlockMarksFailed(request: ProcessingRequest, before: seq<ProcessingRequest>, current: ProcessingRequest,
                              start: nat, failing: set<nat>, failure: nat -> string, message: string)
    requires current.completedAt == request.completedAt && current.results == request.results
    ensures MarksFailed(request, After(before, RecordFailure(current, start + |before|, failing, failure, message)),
                        start, failing, failure)
  {
    var failed := current.(status := Failed, error := Some(message));
    var run := After(before, RecordFailure(current, start + |before|, failing, failure, message));
    assert run.writes == before + [failed];
    LastWrittenSnoc(request, before, failed, start, failing);
  }

  /** ProgressDocs grows by one document per batch point. */
  lemma ProgressDocsAppend(base: ProcessingRequest, persistedAt: seq<nat>, k: nat, total: nat)
    requires total > 0
    ensures ProgressDocs(base, persistedAt + [k], total)
         == ProgressDocs(base, persistedAt, total) + [base.(progress := Progress(k, total))]
  {
    assert (persistedAt + [k])[..|persistedAt|] == persistedAt;
  }

  /** The handler's closure state: the in-memory request, the results pushed and
      `processedRows`. Tally summarises the same loop by the batch points alone, which is
      what the lemmas about the whole run reason over; this state also carries the
      request object the handler mutates and writes, so that the imperative handler
      below can be proved against it step by step. RowsLoopMatchesTally ties the two. */
  datatype RowState = RowState(request: ProcessingRequest, results: seq<RowResult>, processed: nat)

  /** What handling rows did: the closure state after them and the documents written. */
  datatype Handled = Handled(state: RowState, written: seq<ProcessingRequest>)

  /** The `data` handler on one row, step by step: a row without an image cell throws
      at once and changes nothing; otherwise the result is pushed, the count goes up,
      and at a batch point the in-memory request gets the new progress and is written. */
  function RowStep(s: RowState, recorded: Option<RowResult>, total: nat): (h: Handled)
    requires total > 0
    ensures h.state.request.requestId == s.request.requestId
    ensures h.written == [] || h.written == [h.state.request]
  {
    match recorded
    case None => Handled(s, [])
    case Some(result) =>
      var k := s.processed + 1;
      if ShouldPersist(k, total) then
        var doc := s.request.(progress := Progress(k, total));
        Handled(RowState(doc, s.results + [result], k), [doc])
      else Handled(RowState(s.request, s.results + [result], k), [])
  }

  /** The handler on every row, in order, the rows having recorded `results`. */
  function RowsLoop(s: RowState, results: seq<Option<RowResult>>, total: nat): (h: Handled)
    requires |results| <= total
    ensures h.state.request.requestId == s.request.requestId
    decreases |results|
  {
    if results == [] then Handled(s, [])
    else
      var h := RowsLoop(s, results[..|results| - 1], total);
      var next := RowStep(h.state, results[|results| - 1], total);
      Handled(next.state, h.written + next.written)
  }

  /** The step-by-step handler agrees with the summary of the row loop: its results and
      count are the tally's, and it writes the request once per batch point with that
      point's progress, the in-memory request being the last one written. */
  lemma {:induction false} RowsLoopMatchesTally(request: ProcessingRequest, results: seq<Option<RowResult>>,
                                                 total: nat)
    requires |results| <= total
    ensures RowsLoop(RowState(request, [], 0), results, total)
         == Handled(RowState(LastDoc(request, ProgressDocs(request, TallyOf(results, total).persistedAt, total)),
                             TallyOf(results, total).results, TallyOf(results, total).processed),
                    ProgressDocs(request, TallyOf(results, total).persistedAt, total))
  {
    RowsLoopCounts(request, results, total);
    RowsLoopWrites(request, results, total);
  }

  /** The handler pushes and counts what the tally does. */
  lemma {:induction false} RowsLoopCounts(request: ProcessingRequest, results: seq<Option<RowResult>>, total: nat)
    requires |results| <= total
    ensures RowsLoop(RowState(request, [], 0), results, total).state.results == TallyOf(results, total).results
    ensures RowsLoop(RowState(request, [], 0), results, total).state.processed == TallyOf(results, total).processed
    decreases |results|
  {
    if results != [] {
      RowsLoopCounts(request, results[..|results| - 1], total);
    }
  }

  /** The handler writes, and keeps in memory, the progress documents of the tally. */
  lemma {:induction false} RowsLoopWrites(request: ProcessingRequest, results: seq<Option<RowResult>>, total: nat)
    requires |results| <= total
    ensures RowsLoop(RowState(request, [], 0), results, total).written
         == ProgressDocs(request, TallyOf(results, total).persistedAt, total)
    ensures RowsLoop(RowState(request, [], 0), results, total).state.request
         == LastDoc(request, ProgressDocs(request, TallyOf(results, total).persistedAt, total))
    decreases |results|
  {
    if results != [] {
      var front, last := results[..|results| - 1], results[|results| - 1];
      RowsLoopWrites(request, front, total);
      RowsLoopCounts(request, front, total);
      var tF := TallyOf(front, total);
      var docsF := ProgressDocs(request, tF.persistedAt, total);
      var h := RowsLoop(RowState(request, [], 0), front, total);
      assert h.written == docsF && h.state.request == LastDoc(request, docsF) && h.state.processed == tF.processed;
      var next := RowStep(h.state, last, total);
      assert RowsLoop(RowState(request, [], 0), results, total) == Handled(next.state, docsF + next.written);
      var t := TallyOf(results, total);
      assert t == Step(tF, last, total);
      var k := tF.processed + 1;
      if last.Some? && ShouldPersist(k, total) {
        var doc := request.(progress := Progress(k, total));
        assert h.state.request.(progress := Progress(k, total)) == doc;
        assert next.written == [doc] && next.state.request == doc;
        assert t.persistedAt == tF.persistedAt + [k];
        ProgressDocsAppend(request, tF.persistedAt, k, total);
      } else {
        assert next.written == [] && next.state.request == h.state.request;
        assert t.persistedAt == tF.persistedAt;
        assert docsF + [] == docsF;
      }
    }
  }

  /** The in-memory request after the progress writes `docs`: the last one written. */
  function LastDoc(request: ProcessingRequest, docs: seq<ProcessingRequest>): ProcessingRequest {
    if docs == [] then request else docs[|docs| - 1]
  }

  /** The `data` handler of the second read stream, on one row. A rejected progress
      write is caught by the handler and changes nothing else. */
  method HandleRow(store: Store, s: RowState, row: Row, totalRows: nat, outcome: ImageOutcome)
    returns (s': RowState)
    requires store.Valid()
    requires totalRows > 0
    modifies store
    ensures store.Valid()
    ensures var h := RowStep(s, RowResultOf(row, outcome), totalRows);
      && s' == h.state
      && store.writes == old(store.writes) + h.written
      && store.jobs == if h.written != [] && |old(store.writes)| !in store.failing
                       then old(store.jobs)[s.request.requestId := s'.request] else old(store.jobs)
  {
    s' := s;
    if UrlsColumn !in row {
      // `row['Input Image Urls'].split` throws; the catch only logs
      return;
    }
    var imageUrls := Split(row[UrlsColumn], ',');
    var processedImages := ImageProcessor.ProcessImages(imageUrls, outcome);
    var results := s.results + [RowResult(if NameColumn in row then Some(row[NameColumn]) else None,
                                          imageUrls, processedImages)];
    var processedRows := s.processed + 1;
    s' := RowState(s.request, results, processedRows);
    if processedRows % 5 == 0 || processedRows == totalRows {
      var request := s.request.(progress := Progress(processedRows, totalRows));
      s' := RowState(request, results, processedRows);
      // a rejected write is caught and logged by the handler
      var _ := store.Save(request);
    }
  }

  /** HandleRow seen from the whole run: when the stored document is the last accepted
      of the earlier writes `written`, it stays so with this row's writes added. */
  method HandleRowLogged(store: Store, s: RowState, row: Row, totalRows: nat, outcome: ImageOutcome,
                         ghost base: map<string, ProcessingRequest>, ghost prev: ProcessingRequest,
                         ghost start: nat, ghost written: seq<ProcessingRequest>)
    returns (s': RowState)
    requires store.Valid()
    requires totalRows > 0
    requires |store.writes| == start + |written|
    requires store.jobs == base[s.request.requestId := LastWritten(prev, written, start, store.failing)]
    modifies store
    ensures store.Valid()
    ensures var h := RowStep(s, RowResultOf(row, outcome), totalRows);
      && s' == h.state
      && store.writes == old(store.writes) + h.written
      && store.jobs == base[s.request.requestId := LastWritten(prev, written + h.written, start, store.failing)]
  {
    ghost var h := RowStep(s, RowResultOf(row, outcome), totalRows);
    s' := HandleRow(store, s, row, totalRows, outcome);
    if h.written == [] {
      assert written + h.written == written;
    } else {
      LastWrittenSnoc(prev, written, s'.request, start, store.failing);
    }
  }

  /** The second read stream: every row through the `data` handler, in order. */
  method ProcessRows(store: Store, request: ProcessingRequest, rows: seq<Row>, totalRows: nat, outcome: ImageOutcome)
    returns (s: RowState)
    requires store.Valid()
    requires totalRows == |rows| && request.requestId in store.jobs
    modifies store
    ensures store.Valid()
    ensures var tally := TallyRows(rows, totalRows, outcome);
      var docs := ProgressDocs(request, tally.persistedAt, totalRows);
      && s == RowState(LastDoc(request, docs), tally.results, tally.processed)
      && store.writes == old(store.writes) + docs
      && store.jobs == old(store.jobs)[request.requestId := LastWritten(old(store.jobs)[request.requestId], docs,
                                                                         old(|store.writes|), store.failing)]
  {
    ghost var prev := store.jobs[request.requestId];
    ghost var start := |store.writes|;
    ghost var base := store.jobs;
    var s0 := RowState(request, [], 0);
    s := s0;
    ghost var written: seq<ProcessingRequest> := [];
    ghost var results := Handlers(rows, outcome);
    assert base == base[request.requestId := prev];
    for i := 0 to |rows|
      invariant store.Valid()
      invariant RowsLoop(s0, results[..i], totalRows) == Handled(s, written)
      invariant s.request.requestId == request.requestId
      invariant store.writes == old(store.writes) + written
      invariant store.jobs == base[request.requestId := LastWritten(prev, written, start, store.failing)]
    {
      assert results[..i + 1][..i] == results[..i];
      HandlersAt(rows, outcome, i);
      ghost var next := RowStep(s, results[i], totalRows);
      s := HandleRowLogged(store, s, rows[i], totalRows, outcome, base, prev, start, written);
      written := written + next.written;
    }
    assert results[..|rows|] == results;
    RowsLoopMatchesTally(request, results, totalRows);
  }

  /** `processCSV(requestId, filename)`: the file's content is `source`. */
  method ProcessCSV(store: Store, requestId: string, source: Source, outcome: ImageOutcome, now: int)
    returns (r: Outcome<string>)
    requires store.Valid()
    modifies store
    ensures store.Valid()
    ensures var run := CsvRun(old(store.Find(requestId)), old(|store.writes|), store.failing, store.failure,
                              source, outcome, now);
      && r == run.outcome
      && store.writes == old(store.writes) + run.writes
      && store.jobs == if requestId in old(store.jobs)
                       then old(store.jobs)[requestId := LastWritten(old(store.jobs)[requestId], run.writes,
                                                                    old(|store.writes|), store.failing)]
                       else old(store.jobs)
  {
    var found := store.Find(requestId);
    if found.None? {
      return Fail(NotFoundMessage);
    }
    r := StartProcessing(store, found.value, source, outcome, now);
  }

  /** processCSV for a request that exists: store it as `processing`, then read the file;
      a rejected write goes to the catch block. */
  method StartProcessing(store: Store, request: ProcessingRequest, source: Source, outcome: ImageOutcome, now: int)
    returns (r: Outcome<string>)
    requires store.Valid()
    requires request.requestId in store.jobs && store.jobs[request.requestId] == request
    modifies store
    ensures store.Valid()
    ensures var run := FoundRun(request, old(|store.writes|), store.failing, store.failure, source, outcome, now);
      && r == run.outcome
      && store.writes == old(store.writes) + run.writes
      && store.jobs == old(store.jobs)[request.requestId := LastWritten(request, run.writes, old(|store.writes|),
                                                                         store.failing)]
  {
    var start := |store.writes|;
    var processing := request.(status := Processing);
    var ok := store.Save(processing);
    if !ok {
      r := FailRequest(store, request.requestId, store.failure(start));
      ghost var failed := request.(status := Failed, error := Some(store.failure(start)));
      LastWrittenSnoc(request, [processing], failed, start, store.failing);
      assert [processing][..0] == [];
      return;
    }
    r := ContinueProcessing(store, processing, request, old(store.writes), old(store.jobs), source, outcome, now);
  }

  /** processCSV once its `processing` write, attempt number |history|, was accepted over
      the earlier document `prev`. */
  method ContinueProcessing(store: Store, processing: ProcessingRequest, ghost prev: ProcessingRequest,
                            ghost history: seq<ProcessingRequest>, ghost base: map<string, ProcessingRequest>,
                            source: Source, outcome: ImageOutcome, now: int)
    returns (r: Outcome<string>)
    requires store.Valid()
    requires store.writes == history + [processing] && |history| !in store.failing
    requires store.jobs == base[processing.requestId := processing]
    modifies store
    ensures store.Valid()
    ensures var rest := SourceRun(processing, |history| + 1, store.failing, store.failure, source, outcome, now);
      && r == rest.outcome
      && store.writes == history + ([processing] + rest.writes)
      && store.jobs == base[processing.requestId := LastWritten(prev, [processing] + rest.writes, |history|,
                                                                store.failing)]
  {
    ghost var rest := SourceRun(processing, |history| + 1, store.failing, store.failure, source, outcome, now);
    r := ReadSource(store, processing, source, outcome, now);
    WritesAssociate(history, [processing], rest.writes);
    LastWrittenAppend(prev, [processing], rest.writes, |history|, store.failing);
    assert [processing][..0] == [];
    UpdateTwice(base, processing.requestId, processing,
                LastWritten(processing, rest.writes, |history| + 1, store.failing));
  }

  /** processCSV's try block once the request is stored as `processing`: a file-stream
      error ends the process, a parse error goes to the catch block, a readable file is
      processed. */
  method ReadSource(store: Store, request: ProcessingRequest, source: Source, outcome: ImageOutcome, now: int)
    returns (r: Outcome<string>)
    requires store.Valid()
    requires request.requestId in store.jobs && store.jobs[request.requestId] == request
    modifies store
    ensures store.Valid()
    ensures var run := SourceRun(request, old(|store.writes|), store.failing, store.failure, source, outcome, now);
      && r == run.outcome
      && store.writes == old(store.writes) + run.writes
      && store.jobs == old(store.jobs)[request.requestId := LastWritten(request, run.writes, old(|store.writes|),
                                                                         store.failing)]
  {
    if source.FileError? {
      assert old(store.writes) + [] == old(store.writes);
      assert old(store.jobs) == old(store.jobs)[request.requestId := request];
      return Crash(source.message);
    }
    if source.ParseError? {
      ghost var start := |store.writes|;
      r := FailRequest(store, request.requestId, source.message);
      ghost var failed := request.(status := Failed, error := Some(source.message));
      LastWrittenSnoc(request, [], failed, start, store.failing);
      assert [] + [failed] == [failed];
      assert old(store.jobs) == old(store.jobs)[request.requestId := request];
      return;
    }
    r := ProcessFile(store, request, source.rows, outcome, now);
  }

  /** The rest of processCSV's try block once the request is `processing` and the file
      is readable: count the rows, handle them, and write the completed request. */
  method ProcessFile(store: Store, request: ProcessingRequest, rows: seq<Row>, outcome: ImageOutcome, now: int)
    returns (r: Outcome<string>)
    requires store.Valid()
    requires request.requestId in store.jobs && store.jobs[request.requestId] == request
    modifies store
    ensures store.Valid()
    ensures var run := RowsRun(request, old(|store.writes|), store.failing, store.failure, rows, outcome, now);
      && r == run.outcome
      && store.writes == old(store.writes) + run.writes
      && store.jobs == old(store.jobs)[request.requestId := LastWritten(request, run.writes, old(|store.writes|),
                                                                         store.failing)]
  {
    ghost var start := |store.writes|;
    ghost var processing := request;
    var requestId := request.requestId;

    // First count total rows
    var totalRows := CountRows(rows);

    // Process the CSV
    var s := ProcessRows(store, request, rows, totalRows, outcome);
    ghost var tally := TallyRows(rows, |rows|, outcome);
    ghost var docs := ProgressDocs(processing, tally.persistedAt, |rows|);

    // Final update
    var completed := s.request.(status := Completed, completedAt := Some(now), results := s.results);
    assert completed == Completion(processing, docs, tally.results, now);
    RowsRunSplits(processing, start, store.failing, store.failure, rows, outcome, now);
    r := SaveCompleted(store, completed, processing, docs, start, old(store.writes), old(store.jobs));
  }

  /** The first read stream: it only counts the rows. */
  method CountRows(rows: seq<Row>) returns (totalRows: nat)
    ensures totalRows == |rows|
  {
    totalRows := 0;
    for i := 0 to |rows|
      invariant totalRows == i
    {
      totalRows := totalRows + 1;
    }
  }

  /** The final `save()` of processCSV's try block, after the progress writes `docs` of
      the request, which was `prev` before them and whose first write was attempt number
      `start`; a rejected write goes to the catch block. */
  method SaveCompleted(store: Store, completed: ProcessingRequest, ghost prev: ProcessingRequest,
                       ghost docs: seq<ProcessingRequest>, ghost start: nat,
                       ghost history: seq<ProcessingRequest>, ghost base: map<string, ProcessingRequest>)
    returns (r: Outcome<string>)
    requires store.Valid()
    requires store.writes == history + docs && |history| == start
    requires store.jobs == base[completed.requestId := LastWritten(prev, docs, start, store.failing)]
    modifies store
    ensures store.Valid()
    ensures var run := FinalSave(LastWritten(prev, docs, start, store.failing), completed, start + |docs|,
                                 store.failing, store.failure);
      && r == run.outcome
      && store.writes == history + (docs + run.writes)
      && store.jobs == base[completed.requestId := LastWritten(prev, docs + run.writes, start, store.failing)]
  {
    ghost var current := LastWritten(prev, docs, start, store.failing);
    ghost var run := FinalSave(current, completed, start + |docs|, store.failing, store.failure);
    r := SaveFinal(store, completed, current, base);
    WritesAssociate(history, docs, run.writes);
    LastWrittenAppend(prev, docs, run.writes, start, store.failing);
  }

  /** The final write itself, the stored document being `current`. */
  method SaveFinal(store: Store, completed: ProcessingRequest, ghost current: ProcessingRequest,
                   ghost base: map<string, ProcessingRequest>)
    returns (r: Outcome<string>)
    requires store.Valid()
    requires store.jobs == base[completed.requestId := current]
    modifies store
    ensures store.Valid()
    ensures var run := FinalSave(current, completed, old(|store.writes|), store.failing, store.failure);
      && r == run.outcome
      && store.writes == old(store.writes) + run.writes
      && store.jobs == base[completed.requestId := LastWritten(current, run.writes, old(|store.writes|),
                                                               store.failing)]
  {
    var start := |store.writes|;
    var ok := store.Save(completed);
    if !ok {
      ghost var failed := current.(status := Failed, error := Some(store.failure(start)));
      r := FailRequest(store, completed.requestId, store.failure(start));
      LastWrittenSnoc(current, [completed], failed, start, store.failing);
      assert [completed][..0] == [];
      return;
    }
    r := Pass;
  }

  /** The catch block: re-read the request, and if it exists mark it failed with the
      error's message; then rethrow. */
  method FailRequest(store: Store, requestId: string, message: string) returns (r: Outcome<string>)
    requires store.Valid()
    modifies store
    ensures store.Valid()
    ensures requestId !in old(store.jobs) ==> r == Fail(message) && unchanged(store)
    ensures requestId in old(store.jobs) ==>
      var run := RecordFailure(old(store.jobs)[requestId], old(|store.writes|), store.failing, store.failure, message);
      && r == run.outcome
      && store.writes == old(store.writes) + run.writes
      && store.jobs == if old(|store.writes|) in store.failing then old(store.jobs)
                       else old(store.jobs)[requestId := run.writes[0]]
  {
    var found := store.Find(requestId);
    if found.None? {
      return Fail(message);
    }
    var attempt := |store.writes|;
    var ok := store.Save(found.value.(status := Failed, error := Some(message)));
    r := Fail(if ok then message else store.failure(attempt));
  }
}
