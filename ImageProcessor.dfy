/** The image service: `processImages` (one reference or `null` per URL, used by the CSV
    pipeline), `processProductImages` (the product-based job, which keeps only the images
    that succeeded) and `triggerWebhook`. Downloading, decoding, resizing, encoding and
    writing an image are not modelled; their combined success or failure for a URL is
    an input. */
module ImageProcessor {
  import opened Wrappers
  import opened Strings
  import opened Domain
  import opened JobStore

  // ---------------------------------------------------------------------------
  // processImages

  /** What downloading, transforming and writing the image at a URL comes to: None when
      any step threw, Some(t) when all succeeded, t being the `Date.now()` the output
      file was named with. */
  type ImageOutcome = string -> Option<nat>

  /** The name of the file a processed image is written to inside `uploads`. */
  function ProcessedFilename(url: string, stamp: nat): string {
    ProcessedPrefix + Decimal(stamp) + "_" + Basename(url)
  }

  const ProcessedPrefix := "processed_"

  /** The directory part of every recorded reference. */
  const UploadsPrefix := "/uploads/"

  /** The reference recorded for a processed image. */
  function ProcessedRef(url: string, stamp: nat): string {
    UploadsPrefix + ProcessedFilename(url, stamp)
  }

  /** The recorded reference names the file that was written: it lies directly in
      `/uploads/`, its basename is the written file's name, and that name keeps the source
      URL's basename at its end. */
  lemma ProcessedRefNamesWrittenFile(url: string, stamp: nat)
    ensures var r := ProcessedRef(url, stamp);
      && StartsWith(r, UploadsPrefix + ProcessedPrefix)
      && Basename(r) == ProcessedFilename(url, stamp)
      && EndsWith(r, "_" + Basename(url))
  {
    var d, tail := Decimal(stamp), "_" + Basename(url);
    var name := ProcessedFilename(url, stamp);
    ProcessedFilenameHasNoSlash(url, stamp);
    ConcatAssociates(ProcessedPrefix + d, "_", Basename(url));
    ConcatAssociates(ProcessedPrefix, d, tail);
    var r := ProcessedRef(url, stamp);
    ConcatAssociates(UploadsPrefix, ProcessedPrefix, d + tail);
    ConcatStartsAndEnds(UploadsPrefix + ProcessedPrefix, d + tail);
    ConcatAssociates(UploadsPrefix, ProcessedPrefix + d, tail);
    ConcatStartsAndEnds(UploadsPrefix + (ProcessedPrefix + d), tail);
    BasenameOfDirectChild(UploadsPrefix, name);
  }

  lemma ProcessedFilenameHasNoSlash(url: string, stamp: nat)
    ensures '/' !in ProcessedFilename(url, stamp)
  {
    var d := Decimal(stamp);
    assert '/' !in d by {
      forall i | 0 <= i < |d| ensures d[i] != '/' {
        assert IsDigit(d[i]);
      }
    }
    assert '/' !in ProcessedPrefix;
    ConcatAssociates(ProcessedPrefix + d, "_", Basename(url));
  }

  /** A name without '/' placed after a directory ending in '/' is its own basename. */
  lemma {:induction false} BasenameOfDirectChild(dir: string, name: string)
    requires |dir| > 0 && dir[|dir| - 1] == '/' && '/' !in name && name != []
    ensures Basename(dir + name) == name
  {
    var p := dir + name;
    assert DropTrailingSlashes(p) == p;
    LastSegmentOfDirectChild(dir, name);
  }

  lemma {:induction false} LastSegmentOfDirectChild(dir: string, name: string)
    requires |dir| > 0 && dir[|dir| - 1] == '/' && '/' !in name
    ensures LastSegment(dir + name) == name
    decreases |name|
  {
    var p := dir + name;
    if name == [] {
      assert p == dir;
    } else {
      assert p[..|p| - 1] == dir + name[..|name| - 1];
      LastSegmentOfDirectChild(dir, name[..|name| - 1]);
      assert name[..|name| - 1] + [name[|name| - 1]] == name;
    }
  }

  /** The entry `processImages` records for one URL. */
  function EntryFor(url: string, outcome: ImageOutcome): Option<string> {
    match outcome(url)
    case None => None
    case Some(stamp) => Some(ProcessedRef(url, stamp))
  }

  /** The list `processImages` returns: one entry per input URL, in input order, `null`
      exactly where that URL failed. */
  function ProcessedUrls(urls: seq<string>, outcome: ImageOutcome): (refs: seq<Option<string>>)
    ensures |refs| == |urls|
    ensures forall i :: 0 <= i < |urls| ==> (refs[i].None? <==> outcome(urls[i]).None?)
    ensures forall i :: 0 <= i < |urls| && outcome(urls[i]).Some? ==>
      refs[i] == Some(ProcessedRef(urls[i], outcome(urls[i]).value))
  {
    seq(|urls|, i requires 0 <= i < |urls| => EntryFor(urls[i], outcome))
  }

  /** A failure at one URL changes no other entry: two runs whose outcomes agree on every
      URL but the one at index j agree on every entry but entry j. */
  lemma FailureIsIsolated(urls: seq<string>, o1: ImageOutcome, o2: ImageOutcome, j: nat)
    requires j < |urls|
    requires forall i :: 0 <= i < |urls| && i != j ==> o1(urls[i]) == o2(urls[i])
    ensures |ProcessedUrls(urls, o1)| == |ProcessedUrls(urls, o2)|
    ensures forall i :: 0 <= i < |urls| && i != j ==> ProcessedUrls(urls, o1)[i] == ProcessedUrls(urls, o2)[i]
  {
  }

  /** `processImages(imageUrls)`: each URL in turn; a failure is caught and recorded as
      `null`, a success as the reference of the file written. */
  method ProcessImages(imageUrls: seq<string>, outcome: ImageOutcome) returns (processedUrls: seq<Option<string>>)
    ensures processedUrls == ProcessedUrls(imageUrls, outcome)
  {
    processedUrls := [];
    for i := 0 to |imageUrls|
      invariant |processedUrls| == i
      invariant forall k :: 0 <= k < i ==> processedUrls[k] == EntryFor(imageUrls[k], outcome)
    {
      var url := imageUrls[i];
      match outcome(url)
      case None =>
        processedUrls := processedUrls + [None];
      case Some(stamp) =>
        var filename := "processed_" + Decimal(stamp) + "_" + Basename(url);
        processedUrls := processedUrls + [Some("/uploads/" + filename)];
    }
  }

  // ---------------------------------------------------------------------------
  // The simulated output URL of processProductImages

  predicate OccursAt(s: string, pattern: string, k: nat) {
    k + |pattern| <= |s| && s[k..k + |pattern|] == pattern
  }

  /** The first position at or after `from` where `pattern` occurs in s. */
  function IndexFrom(s: string, pattern: string, from: nat): (r: Option<nat>)
    ensures r.Some? ==>
      from <= r.value && OccursAt(s, pattern, r.value)
        && forall k: nat :: from <= k < r.value ==> !OccursAt(s, pattern, k)
    ensures r.None? ==> forall k: nat :: from <= k ==> !OccursAt(s, pattern, k)
    decreases |s| - from
  {
    if from + |pattern| > |s| then None
    else if OccursAt(s, pattern, from) then Some(from)
    else IndexFrom(s, pattern, from + 1)
  }

  /** `s.indexOf(pattern)`, None for -1. */
  function IndexOf(s: string, pattern: string): (r: Option<nat>)
    ensures r.Some? ==> OccursAt(s, pattern, r.value) && forall k: nat :: k < r.value ==> !OccursAt(s, pattern, k)
    ensures r.None? ==> forall k: nat :: !OccursAt(s, pattern, k)
  {
    IndexFrom(s, pattern, 0)
  }

  /** `s.replace(pattern, replacement)` with a string pattern: the first occurrence only,
      case-sensitive (the replacement has no `$` patterns). */
  function ReplaceFirst(s: string, pattern: string, replacement: string): string {
    match IndexOf(s, pattern)
    case None => s
    case Some(i) => s[..i] + replacement + s[i + |pattern|..]
  }

  const Jpg: string := ".jpg"
  const ProcessedSuffix: string := "-processed"

  /** `inputUrl.replace('.jpg', '-processed.jpg')`. */
  function SimulatedOutputUrl(url: string): string {
    ReplaceFirst(url, Jpg, ProcessedSuffix + Jpg)
  }

  /** A URL without ".jpg" is kept as it is. Otherwise "-processed" is inserted before the
      first ".jpg" and nowhere else: the output is 10 characters longer and removing
      those 10 characters gives the input back. */
  lemma SimulatedOutputUrlInsertsBeforeFirstJpg(url: string)
    ensures IndexOf(url, Jpg).None? ==> SimulatedOutputUrl(url) == url
    ensures IndexOf(url, Jpg).Some? ==>
      var i := IndexOf(url, Jpg).value;
      var out := SimulatedOutputUrl(url);
      && out == url[..i] + ProcessedSuffix + url[i..]
      && |out| == |url| + 10
      && out[..i] + out[i + 10..] == url
  {
    match IndexOf(url, Jpg)
    case None =>
    case Some(i) =>
      var out := SimulatedOutputUrl(url);
      assert url[i..i + 4] == Jpg;
      assert url[i..] == Jpg + url[i + 4..];
      assert out == url[..i] + ProcessedSuffix + url[i..];
      assert out[..i] == url[..i];
      assert out[i + 10..] == url[i..];
      assert url[..i] + url[i..] == url;
  }

  /** The match is case-sensitive: ".JPG" is not replaced. */
  lemma UpperCaseJpgIsKept()
    ensures SimulatedOutputUrl("http://a/B.JPG") == "http://a/B.JPG"
  {
    var s := "http://a/B.JPG";
    assert forall i :: 0 <= i < |s| ==> s[i] != 'j';
    forall k: nat ensures !OccursAt(s, Jpg, k) {
      if k + 4 <= |s| {
        assert s[k..k + 4][1] == s[k + 1] != Jpg[1];
      }
    }
  }

  // ---------------------------------------------------------------------------
  // processProductImages

  /** The `outputImageUrls` processProductImages assigns to a product whose images are
      `urls`: the simulated output of each URL whose image succeeded, in input order. */
  function ProductOutputs(urls: seq<string>, succeeds: string -> bool): (out: seq<string>)
    ensures |out| <= |urls|
    decreases |urls|
  {
    if urls == [] then []
    else
      var last := urls[|urls| - 1];
      ProductOutputs(urls[..|urls| - 1], succeeds) + (if succeeds(last) then [SimulatedOutputUrl(last)] else [])
  }

  /** The positions of the URLs whose image succeeded, in increasing order. */
  function SucceededIndices(urls: seq<string>, succeeds: string -> bool): (idx: seq<nat>)
    ensures forall k :: 0 <= k < |idx| ==> idx[k] < |urls| && succeeds(urls[idx[k]])
    ensures forall k, l :: 0 <= k < l < |idx| ==> idx[k] < idx[l]
    ensures forall i :: 0 <= i < |urls| && succeeds(urls[i]) ==> i in idx
    decreases |urls|
  {
    if urls == [] then []
    else
      var n := |urls| - 1;
      var front := urls[..n];
      var rest := SucceededIndices(front, succeeds);
      assert forall i :: 0 <= i < n ==> urls[i] == front[i];
      rest + (if succeeds(urls[n]) then [n] else [])
  }

  /** The outputs are exactly the simulated URLs of the succeeded inputs, in input order. */
  lemma {:induction false} ProductOutputsFollowSuccesses(urls: seq<string>, succeeds: string -> bool)
    ensures var out := ProductOutputs(urls, succeeds);
      var idx := SucceededIndices(urls, succeeds);
      |out| == |idx| && forall k :: 0 <= k < |out| ==> out[k] == SimulatedOutputUrl(urls[idx[k]])
    decreases |urls|
  {
    if urls != [] {
      var n := |urls| - 1;
      var front := urls[..n];
      ProductOutputsFollowSuccesses(front, succeeds);
      var out, idx := ProductOutputs(front, succeeds), SucceededIndices(front, succeeds);
      var extra := if succeeds(urls[n]) then [SimulatedOutputUrl(urls[n])] else [];
      var extraIdx: seq<nat> := if succeeds(urls[n]) then [n] else [];
      assert ProductOutputs(urls, succeeds) == out + extra;
      assert SucceededIndices(urls, succeeds) == idx + extraIdx;
      forall k | 0 <= k < |out|
        ensures (out + extra)[k] == SimulatedOutputUrl(urls[(idx + extraIdx)[k]])
      {
        assert front[idx[k]] == urls[idx[k]];
      }
    }
  }

  /** Nothing is dropped exactly when every image succeeded. */
  lemma {:induction false} ProductOutputsKeepAllIffNoFailure(urls: seq<string>, succeeds: string -> bool)
    ensures |ProductOutputs(urls, succeeds)| == |urls| <==> forall i :: 0 <= i < |urls| ==> succeeds(urls[i])
    decreases |urls|
  {
    if urls != [] {
      var n := |urls| - 1;
      var front := urls[..n];
      var out := ProductOutputs(front, succeeds);
      assert ProductOutputs(urls, succeeds) == out + (if succeeds(urls[n]) then [SimulatedOutputUrl(urls[n])] else []);
      if succeeds(urls[n]) {
        ProductOutputsKeepAllIffNoFailure(front, succeeds);
        assert forall i :: 0 <= i < n ==> front[i] == urls[i];
      } else {
        assert |ProductOutputs(urls, succeeds)| < |urls|;
      }
    }
  }

  /** The products with their `outputImageUrls` assigned. */
  function UpdatedProducts(products: seq<Product>, succeeds: string -> bool): (updated: seq<Product>)
    ensures |updated| == |products|
    ensures forall i :: 0 <= i < |products| ==>
      updated[i].inputImageUrls == products[i].inputImageUrls
      && updated[i].outputImageUrls == ProductOutputs(products[i].inputImageUrls, succeeds)
  {
    seq(|products|, i requires 0 <= i < |products| =>
      products[i].(outputImageUrls := ProductOutputs(products[i].inputImageUrls, succeeds)))
  }

  /** The catch block of processProductImages: the stored request, re-read, is marked
      failed (no error message is recorded) and the error is rethrown; when that write is
      rejected, its own error is what escapes. */
  function MarkFailed(current: ProcessingRequest, attempt: nat, failing: set<nat>, failure: nat -> string,
                      message: string): Run
  {
    Run([current.(status := Failed)], Fail(if attempt in failing then failure(attempt) else message))
  }

  /** What processProductImages does, given the stored request (None when the id is
      unknown) and the position `start` of its first write. */
  function ProductsRun(stored: Option<ProcessingRequest>, start: nat, failing: set<nat>, failure: nat -> string,
                       succeeds: string -> bool): Run
  {
    match stored
    case None => Run([], Fail(NotFoundMessage))
    case Some(request) => FoundProductsRun(request, start, failing, failure, succeeds)
  }

  /** processProductImages on the stored request `request`: it is written as `processing`
      (attempt number `start`) and, when that write is accepted, completed. */
  function FoundProductsRun(request: ProcessingRequest, start: nat, failing: set<nat>, failure: nat -> string,
                            succeeds: string -> bool): Run
  {
    var processing := request.(status := Processing);
    if start in failing then
      After([processing], MarkFailed(request, start + 1, failing, failure, failure(start)))
    else
      After([processing], CompletionRun(processing, start + 1, failing, failure, succeeds))
  }

  /** The rest of processProductImages once the request is stored as `processing`, the
      next write being attempt number `start`: the outputs are assigned and the request
      written as completed. */
  function CompletionRun(processing: ProcessingRequest, start: nat, failing: set<nat>, failure: nat -> string,
                         succeeds: string -> bool): Run
  {
    var completed := processing.(status := Completed, products := UpdatedProducts(processing.products, succeeds));
    if start in failing then After([completed], MarkFailed(processing, start + 1, failing, failure, failure(start)))
    else Run([completed], Pass)
  }

  /** An unknown id throws "Request not found" and writes nothing. */
  lemma ProductsRunUnknownId(start: nat, failing: set<nat>, failure: nat -> string, succeeds: string -> bool)
    ensures ProductsRun(None, start, failing, failure, succeeds) == Run([], Fail(NotFoundMessage))
  {
  }

  /** `processing` is written before any product is touched, and `completed` after all. */
  lemma ProductsRunWritesInOrder(request: ProcessingRequest, start: nat, failing: set<nat>, failure: nat -> string,
                                 succeeds: string -> bool)
    ensures var run := ProductsRun(Some(request), start, failing, failure, succeeds);
      && |run.writes| >= 2
      && run.writes[0] == request.(status := Processing)
      && (start !in failing ==>
           run.writes[1] == request.(status := Completed, products := UpdatedProducts(request.products, succeeds)))
  {
  }

  /** Image failures never fail the job: the run returns normally exactly when both of
      its writes are accepted, whichever images fail; it then leaves the request completed
      with the outputs assigned. */
  lemma ProductsRunPassesIffWritesAccepted(request: ProcessingRequest, start: nat, failing: set<nat>,
                                           failure: nat -> string, succeeds: string -> bool)
    ensures var run := ProductsRun(Some(request), start, failing, failure, succeeds);
      && (run.outcome.Pass? <==> start !in failing && start + 1 !in failing)
      && (run.outcome.Pass? ==>
           LastWritten(request, run.writes, start, failing)
             == request.(status := Completed, products := UpdatedProducts(request.products, succeeds)))
  {
  }

  /** A run that throws ends with the catch block's write, which marks the request failed
      with the error field as it was. When that write is accepted it is what is stored and
      the rejected write before it is the one whose error escapes; when it is rejected,
      its own error escapes. */
  lemma ProductsRunFailureMarksFailed(request: ProcessingRequest, start: nat, failing: set<nat>,
                                      failure: nat -> string, succeeds: string -> bool)
    ensures var run := ProductsRun(Some(request), start, failing, failure, succeeds);
      var last := start + |run.writes| - 1;
      run.outcome.Fail? ==>
        && |run.writes| >= 2 && last - 1 in failing
        && run.writes[|run.writes| - 1].status == Failed
        && run.writes[|run.writes| - 1].error == request.error
        && (last in failing ==> run.outcome.error == failure(last))
        && (last !in failing ==>
              run.outcome.error == failure(last - 1) && LastWritten(request, run.writes, start, failing).status == Failed)
  {
  }

  // ---------------------------------------------------------------------------
  // Webhook

  /** The body posted to the webhook, with the URL it is posted to. */
  datatype Notification = Notification(url: string, requestId: string, status: Status, products: seq<Product>)

  /** `triggerWebhook(requestId)`: nothing when `WEBHOOK_URL` is unset or empty; otherwise
      a post of the stored request's status and products. When the request is missing,
      reading its status throws and the throw is swallowed: no post. A failed post is
      swallowed too, so the outcome of the post is not an input: nothing it does reaches
      the caller or the store. */
  method TriggerWebhook(store: Store, requestId: string, webhookUrl: Option<string>)
    returns (post: Option<Notification>)
    ensures webhookUrl.None? || webhookUrl == Some("") ==> post.None?
    ensures post.Some? <==> webhookUrl.Some? && webhookUrl.value != "" && requestId in store.jobs
    ensures post.Some? ==>
      post.value == Notification(webhookUrl.value, requestId, store.jobs[requestId].status, store.jobs[requestId].products)
  {
    if webhookUrl.None? || webhookUrl.value == "" {
      return None;
    }
    var found := store.Find(requestId);
    if found.None? {
      return None;
    }
    post := Some(Notification(webhookUrl.value, requestId, found.value.status, found.value.products));
  }

  /** `processProductImages(requestId)`. */
  method ProcessProductImages(store: Store, requestId: string, succeeds: string -> bool, webhookUrl: Option<string>)
    returns (outcome: Outcome<string>, post: Option<Notification>)
    requires store.Valid()
    modifies store
    ensures store.Valid()
    ensures var run := ProductsRun(old(store.Find(requestId)), old(|store.writes|), store.failing, store.failure, succeeds);
      && outcome == run.outcome
      && store.writes == old(store.writes) + run.writes
      && store.jobs == if requestId in old(store.jobs)
                       then old(store.jobs)[requestId := LastWritten(old(store.jobs)[requestId], run.writes,
                                                                    old(|store.writes|), store.failing)]
                       else old(store.jobs)
    ensures outcome.Fail? ==> post.None?
    ensures outcome.Pass? ==>
      post == if webhookUrl.None? || webhookUrl == Some("") then None
              else Some(Notification(webhookUrl.value, requestId, Completed,
                                     UpdatedProducts(old(store.jobs)[requestId].products, succeeds)))
  {
    post := None;
    var found := store.Find(requestId);
    if found.None? {
      outcome := Fail(NotFoundMessage);
      return;
    }
    outcome := StartProducts(store, found.value, succeeds);
    if outcome.Pass? {
      post := TriggerWebhook(store, requestId, webhookUrl);
    }
  }

  /** The try block of processProductImages on a stored request: write it as
      `processing`, then complete it; a rejected write goes to the catch block. A run
      that passes leaves the completed request stored. */
  method StartProducts(store: Store, request: ProcessingRequest, succeeds: string -> bool)
    returns (outcome: Outcome<string>)
    requires store.Valid()
    requires request.requestId in store.jobs && store.jobs[request.requestId] == request
    modifies store
    ensures store.Valid()
    ensures var run := FoundProductsRun(request, old(|store.writes|), store.failing, store.failure, succeeds);
      && outcome == run.outcome
      && store.writes == old(store.writes) + run.writes
      && store.jobs == old(store.jobs)[request.requestId := LastWritten(request, run.writes, old(|store.writes|),
                                                                         store.failing)]
    ensures outcome.Pass? ==>
      store.jobs[request.requestId]
      == request.(status := Completed, products := UpdatedProducts(request.products, succeeds))
  {
    var start := |store.writes|;
    var processing := request.(status := Processing);
    var ok := store.Save(processing);
    if !ok {
      outcome := FailRequest(store, request.requestId, store.failure(start));
      LastWrittenSnoc(request, [processing], request.(status := Failed), start, store.failing);
      assert [processing] == [] + [processing];
      return;
    }
    outcome := ContinueProducts(store, processing, request, old(store.writes), old(store.jobs), succeeds);
  }

  /** processProductImages once its `processing` write, attempt number |history|, was
      accepted over the earlier document `prev`. */
  method ContinueProducts(store: Store, processing: ProcessingRequest, ghost prev: ProcessingRequest,
                          ghost history: seq<ProcessingRequest>, ghost base: map<string, ProcessingRequest>,
                          succeeds: string -> bool)
    returns (outcome: Outcome<string>)
    requires store.Valid()
    requires store.writes == history + [processing] && |history| !in store.failing
    requires store.jobs == base[processing.requestId := processing]
    modifies store
    ensures store.Valid()
    ensures var rest := CompletionRun(processing, |history| + 1, store.failing, store.failure, succeeds);
      && outcome == rest.outcome
      && store.writes == history + ([processing] + rest.writes)
      && store.jobs == base[processing.requestId := LastWritten(prev, [processing] + rest.writes, |history|,
                                                                store.failing)]
    ensures outcome.Pass? ==>
      store.jobs[processing.requestId]
      == processing.(status := Completed, products := UpdatedProducts(processing.products, succeeds))
  {
    ghost var rest := CompletionRun(processing, |history| + 1, store.failing, store.failure, succeeds);
    outcome := CompleteProducts(store, processing, succeeds);
    WritesAssociate(history, [processing], rest.writes);
    LastWrittenAppend(prev, [processing], rest.writes, |history|, store.failing);
    assert [processing][..0] == [];
    UpdateTwice(base, processing.requestId, processing,
                LastWritten(processing, rest.writes, |history| + 1, store.failing));
  }

  /** processProductImages after the `processing` write: assign the outputs and write the
      completed request; a rejected write goes to the catch block. */
  method CompleteProducts(store: Store, request: ProcessingRequest, succeeds: string -> bool)
    returns (outcome: Outcome<string>)
    requires store.Valid()
    requires request.requestId in store.jobs && store.jobs[request.requestId] == request
    modifies store
    ensures store.Valid()
    ensures var run := CompletionRun(request, old(|store.writes|), store.failing, store.failure, succeeds);
      && outcome == run.outcome
      && store.writes == old(store.writes) + run.writes
      && store.jobs == old(store.jobs)[request.requestId := LastWritten(request, run.writes, old(|store.writes|),
                                                                         store.failing)]
    ensures outcome.Pass? ==>
      store.jobs[request.requestId]
      == request.(status := Completed, products := UpdatedProducts(request.products, succeeds))
  {
    var start := |store.writes|;
    var products := AssignOutputs(request.products, succeeds);
    var completed := request.(status := Completed, products := products);
    var ok := store.Save(completed);
    if !ok {
      assert store.jobs == old(store.jobs)[request.requestId := request];
      outcome := FailRequest(store, request.requestId, store.failure(start));
      LastWrittenSnoc(request, [completed], request.(status := Failed), start, store.failing);
      assert [completed][..0] == [];
      return;
    }
    outcome := Pass;
  }

  /** The loop over the products of processProductImages. */
  method AssignOutputs(products: seq<Product>, succeeds: string -> bool) returns (updated: seq<Product>)
    ensures updated == UpdatedProducts(products, succeeds)
  {
    updated := [];
    for p := 0 to |products|
      invariant updated == UpdatedProducts(products[..p], succeeds)
    {
      var outputUrls := ProcessUrls(products[p].inputImageUrls, succeeds);
      updated := updated + [products[p].(outputImageUrls := outputUrls)];
    }
    assert products[..|products|] == products;
  }

  /** The loop over the image URLs of one product: each image's success decides whether
      its simulated output is kept. */
  method ProcessUrls(urls: seq<string>, succeeds: string -> bool) returns (outputUrls: seq<string>)
    ensures outputUrls == ProductOutputs(urls, succeeds)
  {
    outputUrls := [];
    for u := 0 to |urls|
      invariant outputUrls == ProductOutputs(urls[..u], succeeds)
    {
      assert urls[..u + 1][..u] == urls[..u];
      if succeeds(urls[u]) {
        outputUrls := outputUrls + [SimulatedOutputUrl(urls[u])];
      }
    }
    assert urls[..|urls|] == urls;
  }

  /** The catch block: re-read the request, mark it failed if it exists, rethrow. */
  method FailRequest(store: Store, requestId: string, message: string) returns (outcome: Outcome<string>)
    requires store.Valid()
    modifies store
    ensures store.Valid()
    ensures requestId !in old(store.jobs) ==> outcome == Fail(message) && unchanged(store)
    ensures requestId in old(store.jobs) ==>
      var run := MarkFailed(old(store.jobs)[requestId], old(|store.writes|), store.failing, store.failure, message);
      && outcome == run.outcome
      && store.writes == old(store.writes) + run.writes
      && store.jobs == if old(|store.writes|) in store.failing then old(store.jobs)
                       else old(store.jobs)[requestId := run.writes[0]]
  {
    var found := store.Find(requestId);
    if found.None? {
      return Fail(message);
    }
    var attempt := |store.writes|;
    var ok := store.Save(found.value.(status := Failed));
    outcome := Fail(if ok then message else store.failure(attempt));
  }
}
