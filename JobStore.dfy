/** The database collection of processing requests, keyed by request id. Every write
    (a `save()` of a document or a `create()`) is recorded, in order, and a write is
    rejected exactly when its position in that order is one of `failing`; the rejected
    write at position k throws `failure(k)`. Reads (`findOne`) always succeed. */
module JobStore {
  import opened Wrappers
  import opened Domain

  /** What a service run did to the store: the documents it asked the store to write,
      in order, and whether it returned (Pass) or threw (Fail(message)). */
  datatype Run = Run(writes: seq<ProcessingRequest>, outcome: Outcome<string>)

  /** The writes of `run` preceded by `first`. */
  function After(first: seq<ProcessingRequest>, run: Run): (r: Run)
    ensures r.outcome == run.outcome && r.writes == first + run.writes
  {
    Run(first + run.writes, run.outcome)
  }

  /** Two runs of writes in a row are one. */
  lemma AfterAfter(a: seq<ProcessingRequest>, b: seq<ProcessingRequest>, run: Run)
    ensures After(a, After(b, run)) == After(a + b, run)
  {
    assert a + (b + run.writes) == (a + b) + run.writes;
  }

  /** The stored document of one id after the writes `docs` of that id were attempted,
      the first of them as attempt number `start`: the last write that was accepted, or
      `prev` when none was. */
  function LastWritten(prev: ProcessingRequest, docs: seq<ProcessingRequest>, start: nat,
                       failing: set<nat>): ProcessingRequest
    decreases |docs|
  {
    if docs == [] then prev
    else if start + |docs| - 1 !in failing then docs[|docs| - 1]
    else LastWritten(prev, docs[..|docs| - 1], start, failing)
  }

  /** The stored document is the earlier one or one of the documents written. */
  lemma {:induction false} LastWrittenIsOneOf(prev: ProcessingRequest, docs: seq<ProcessingRequest>, start: nat,
                                               failing: set<nat>)
    ensures LastWritten(prev, docs, start, failing) == prev || LastWritten(prev, docs, start, failing) in docs
    decreases |docs|
  {
    if docs != [] && start + |docs| - 1 in failing {
      LastWrittenIsOneOf(prev, docs[..|docs| - 1], start, failing);
    }
  }

  /** A write history can be replayed in two parts. */
  lemma {:induction false} LastWrittenAppend(prev: ProcessingRequest, docs: seq<ProcessingRequest>,
                                              more: seq<ProcessingRequest>, start: nat, failing: set<nat>)
    ensures LastWritten(prev, docs + more, start, failing)
         == LastWritten(LastWritten(prev, docs, start, failing), more, start + |docs|, failing)
    decreases |more|
  {
    if more == [] {
      assert docs + more == docs;
    } else {
      var all := docs + more;
      assert all[..|all| - 1] == docs + more[..|more| - 1];
      LastWrittenAppend(prev, docs, more[..|more| - 1], start, failing);
    }
  }

  /** One more write: it becomes the stored document unless it is rejected. */
  lemma LastWrittenSnoc(prev: ProcessingRequest, docs: seq<ProcessingRequest>, doc: ProcessingRequest,
                        start: nat, failing: set<nat>)
    ensures LastWritten(prev, docs + [doc], start, failing)
         == if start + |docs| in failing then LastWritten(prev, docs, start, failing) else doc
  {
    assert (docs + [doc])[..|docs|] == docs;
  }

  /** Write histories concatenate associatively. */
  lemma WritesAssociate(a: seq<ProcessingRequest>, b: seq<ProcessingRequest>, c: seq<ProcessingRequest>)
    ensures (a + b) + c == a + (b + c)
  {
  }

  /** A second update of one key overrides the first. */
  lemma UpdateTwice(m: map<string, ProcessingRequest>, k: string, v: ProcessingRequest, w: ProcessingRequest)
    ensures m[k := v][k := w] == m[k := w]
  {
  }

  class Store {
    var jobs: map<string, ProcessingRequest>
    /** Every document a write was attempted with, accepted or not. */
    var writes: seq<ProcessingRequest>
    /** The positions (in `writes`) of the writes the database rejects. */
    const failing: set<nat>
    /** The message of the error each rejected write throws, by its position. */
    const failure: nat -> string

    ghost predicate Valid()
      reads this
    {
      forall id :: id in jobs ==> jobs[id].requestId == id
    }

    constructor (initial: map<string, ProcessingRequest>, failing: set<nat>, failure: nat -> string)
      requires forall id :: id in initial ==> initial[id].requestId == id
      ensures Valid()
      ensures jobs == initial && writes == [] && this.failing == failing && this.failure == failure
    {
      jobs := initial;
      writes := [];
      this.failing := failing;
      this.failure := failure;
    }

    /** `findOne({ requestId })`. */
    function Find(id: string): (found: Option<ProcessingRequest>)
      reads this
      ensures found.Some? <==> id in jobs
      ensures found.Some? ==> found.value == jobs[id]
    {
      if id in jobs then Some(jobs[id]) else None
    }

    /** `doc.save()`: replaces the stored document of its id, unless the write is rejected. */
    method Save(doc: ProcessingRequest) returns (ok: bool)
      requires Valid()
      modifies this
      ensures Valid()
      ensures ok == (|old(writes)| !in failing)
      ensures writes == old(writes) + [doc]
      ensures jobs == if ok then old(jobs)[doc.requestId := doc] else old(jobs)
    {
      ok := |writes| !in failing;
      writes := writes + [doc];
      if ok {
        jobs := jobs[doc.requestId := doc];
      }
    }

    /** `create(doc)` for an id not yet in use: inserts the document, unless the write is
        rejected. */
    method Create(doc: ProcessingRequest) returns (ok: bool)
      requires Valid()
      requires doc.requestId !in jobs
      modifies this
      ensures Valid()
      ensures ok == (|old(writes)| !in failing)
      ensures writes == old(writes) + [doc]
      ensures jobs == if ok then old(jobs)[doc.requestId := doc] else old(jobs)
      ensures ok ==> jobs.Keys == old(jobs).Keys + {doc.requestId}
    {
      ok := |writes| !in failing;
      writes := writes + [doc];
      if ok {
        jobs := jobs[doc.requestId := doc];
      }
    }
  }
}
