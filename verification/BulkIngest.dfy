/** Bulk ingest jobs: documents handed to the batch processor chunk by chunk, and the counters kept
    on the way (services/mddbd/bulk_ingest_job.go, batch_handler.go, batch.go). */
module BulkIngest {
  import opened ByteStrings

  /** What the batch processor makes of one document. */
  datatype Outcome = Added | Updated | Rejected(error: string)

  datatype Response = Response(added: nat, updated: nat, failed: nat, errors: seq<string>)

  // ---- counting outcomes ---------------------------------------------------------------------------

  ghost function AddedIn(os: seq<Outcome>): nat {
    if os == [] then 0 else AddedIn(os[..|os| - 1]) + if os[|os| - 1].Added? then 1 else 0
  }

  ghost function UpdatedIn(os: seq<Outcome>): nat {
    if os == [] then 0 else UpdatedIn(os[..|os| - 1]) + if os[|os| - 1].Updated? then 1 else 0
  }

  ghost function RejectedIn(os: seq<Outcome>): nat {
    if os == [] then 0 else RejectedIn(os[..|os| - 1]) + if os[|os| - 1].Rejected? then 1 else 0
  }

  ghost function ErrorsIn(os: seq<Outcome>): seq<string> {
    if os == [] then []
    else ErrorsIn(os[..|os| - 1]) + if os[|os| - 1].Rejected? then [os[|os| - 1].error] else []
  }

  lemma {:induction false} OutcomesAddUp(os: seq<Outcome>)
    ensures AddedIn(os) + UpdatedIn(os) + RejectedIn(os) == |os|
    ensures RejectedIn(os) == |os| <==> forall o | o in os :: o.Rejected?
    ensures |ErrorsIn(os)| == RejectedIn(os)
  {
    if os != [] {
      var init, last := os[..|os| - 1], os[|os| - 1];
      OutcomesAddUp(init);
      assert os == init + [last];
      assert forall o :: o in os <==> o in init || o == last;
    }
  }

  lemma {:induction false} OutcomesOf(a: seq<Outcome>, b: seq<Outcome>)
    ensures AddedIn(a + b) == AddedIn(a) + AddedIn(b) && UpdatedIn(a + b) == UpdatedIn(a) + UpdatedIn(b)
    ensures RejectedIn(a + b) == RejectedIn(a) + RejectedIn(b)
  {
    if b == [] {
      assert a + b == a;
    } else {
      assert (a + b)[..|a + b| - 1] == a + b[..|b| - 1];
      OutcomesOf(a, b[..|b| - 1]);
    }
  }

  ghost function AddedAt(os: seq<Outcome>): set<nat> { set i: nat | i < |os| && os[i].Added? }

  ghost function UpdatedAt(os: seq<Outcome>): set<nat> { set i: nat | i < |os| && os[i].Updated? }

  ghost function RejectedAt(os: seq<Outcome>): set<nat> { set i: nat | i < |os| && os[i].Rejected? }

  lemma OneMoreAt(os: seq<Outcome>, o: Outcome)
    ensures AddedAt(os + [o]) == AddedAt(os) + if o.Added? then {|os|} else {}
    ensures UpdatedAt(os + [o]) == UpdatedAt(os) + if o.Updated? then {|os|} else {}
    ensures RejectedAt(os + [o]) == RejectedAt(os) + if o.Rejected? then {|os|} else {}
  {
  }

  /** The counts are of places in the batch, each outcome in its own count. */
  lemma {:induction false} CountsArePlaces(os: seq<Outcome>)
    ensures AddedIn(os) == |AddedAt(os)| && UpdatedIn(os) == |UpdatedAt(os)| && RejectedIn(os) == |RejectedAt(os)|
    ensures forall e :: e in ErrorsIn(os) <==> Rejected(e) in os
  {
    if os != [] {
      var front, last := os[..|os| - 1], os[|os| - 1];
      CountsArePlaces(front);
      assert os == front + [last];
      OneMoreAt(front, last);
    }
  }

  ghost function Counted(os: seq<Outcome>): Response {
    Response(AddedIn(os), UpdatedIn(os), RejectedIn(os), ErrorsIn(os))
  }

  // ---- one batch --------------------------------------------------------------------------------------

  /** The commit loop; when the transaction fails every document does. */
  method CommitBatch(os: seq<Outcome>, txError: Option<string>) returns (r: Response)
    ensures txError.None? ==> r == Counted(os)
    ensures r.added == |set i: nat | i < |os| && os[i].Added?|
    ensures r.updated == |set i: nat | i < |os| && os[i].Updated?|
    ensures txError.None? ==> r.failed == |set i: nat | i < |os| && os[i].Rejected?|
    ensures forall e :: Rejected(e) in os ==> e in r.errors
    ensures txError.Some? ==> r.failed == |os| && r.errors == ErrorsIn(os) + ["transaction error: " + txError.value]
  {
    r := Response(0, 0, 0, []);
    for i := 0 to |os|
      invariant r == Counted(os[..i])
    {
      assert os[..i + 1][..i] == os[..i];
      match os[i] {
        case Rejected(e) => r := r.(failed := r.failed + 1, errors := r.errors + [e]);
        case Updated => r := r.(updated := r.updated + 1);
        case Added => r := r.(added := r.added + 1);
      }
    }
    assert os[..|os|] == os;
    CountsArePlaces(os);
    if txError.Some? {
      r := r.(failed := |os|, errors := r.errors + ["transaction error: " + txError.value]);
    }
  }

  /** An error for the whole batch exactly when no document landed. */
  method ProcessBatchWithDocs(os: seq<Outcome>, txError: Option<string>) returns (r: Response, err: Option<string>)
    ensures err.Some? <==> txError.Some? || (os != [] && forall o | o in os :: o.Rejected?)
    ensures err.None? ==> r == Counted(os)
    ensures err == BatchError(os, txError)
  {
    r := CommitBatch(os, txError);
    OutcomesAddUp(os);
    if r.failed == |os| && |r.errors| > 0 {
      return r, Some("all documents failed: " + r.errors[0]);
    }
    err := None;
  }

  ghost function BatchError(os: seq<Outcome>, txError: Option<string>): Option<string> {
    OutcomesAddUp(os);
    var errors := ErrorsIn(os) + if txError.Some? then ["transaction error: " + txError.value] else [];
    if txError.Some? || (os != [] && RejectedIn(os) == |os|) then Some("all documents failed: " + errors[0]) else None
  }

  // ---- a capped list of errors ---------------------------------------------------------------------------

  const ERROR_CAP: nat := 50

  ghost function FirstOf(xs: seq<string>, limit: nat): seq<string> {
    if |xs| <= limit then xs else xs[..limit]
  }

  function AppendCapped(errors: seq<string>, s: string, limit: nat): seq<string> {
    if |errors| >= limit then errors else errors + [s]
  }

  /** Appending one by one under a cap keeps the first of all that came. */
  lemma CappedIsFirst(all: seq<string>, s: string, limit: nat)
    ensures AppendCapped(FirstOf(all, limit), s, limit) == FirstOf(all + [s], limit)
  {
  }

  method AppendAll(errors0: seq<string>, more: seq<string>, ghost all: seq<string>) returns (errors: seq<string>)
    requires errors0 == FirstOf(all, ERROR_CAP)
    ensures errors == FirstOf(all + more, ERROR_CAP)
  {
    errors := errors0;
    assert all + more[..0] == all;
    for i := 0 to |more|
      invariant errors == FirstOf(all + more[..i], ERROR_CAP)
    {
      CappedIsFirst(all + more[..i], more[i], ERROR_CAP);
      assert all + more[..i + 1] == (all + more[..i]) + [more[i]];
      errors := AppendCapped(errors, more[i], ERROR_CAP);
    }
    assert more[..|more|] == more;
  }

  // ---- the job --------------------------------------------------------------------------------------------

  const CHUNK: nat := 500

  /** The error of a chunk's transaction; chunks without an entry commit. */
  function TxError(txErrors: map<nat, string>, n: nat): Option<string> {
    if n in txErrors then Some(txErrors[n]) else None
  }

  /** Outcomes as they count for the job: a failed transaction fails its whole chunk. */
  ghost function Effective(os: seq<Outcome>, txErrors: map<nat, string>): (r: seq<Outcome>)
    ensures |r| == |os|
  {
    seq(|os|, i requires 0 <= i < |os| => if TxError(txErrors, i / CHUNK).Some? then Rejected("") else os[i])
  }

  /** Errors of the first n chunks, in order; a job may have fewer. */
  ghost function ErrorsThrough(os: seq<Outcome>, txErrors: map<nat, string>, n: nat): seq<string> {
    if n == 0 then []
    else ErrorsThrough(os, txErrors, n - 1)
         + if CHUNK * (n - 1) < |os| then ChunkErrors(ChunkAt(os, n - 1), TxError(txErrors, n - 1)) else []
  }

  /** The n-th chunk of the job's documents. */
  function ChunkAt<T>(xs: seq<T>, n: nat): (r: seq<T>)
    requires CHUNK * n < |xs|
    ensures 0 < |r| <= CHUNK
  {
    xs[CHUNK * n..if CHUNK * n + CHUNK > |xs| then |xs| else CHUNK * n + CHUNK]
  }

  ghost function ChunkErrors(os: seq<Outcome>, txError: Option<string>): seq<string> {
    if BatchError(os, txError).Some? then [BatchError(os, txError).value] else ErrorsIn(os)
  }

  function EndOf(n: nat, total: nat): (r: nat)
    ensures r <= total
  {
    if CHUNK * n > total then total else CHUNK * n
  }

  lemma ChunkFollows<T>(xs: seq<T>, n: nat)
    requires CHUNK * n < |xs|
    ensures xs[..EndOf(n, |xs|)] + ChunkAt(xs, n) == xs[..EndOf(n + 1, |xs|)]
  {
  }

  lemma ErrorsNext(os: seq<Outcome>, txErrors: map<nat, string>, n: nat)
    requires CHUNK * n < |os|
    ensures ErrorsThrough(os, txErrors, n + 1) == ErrorsThrough(os, txErrors, n)
            + ChunkErrors(ChunkAt(os, n), TxError(txErrors, n))
  {
  }

  /** What a chunk adds to the outcomes that count. */
  lemma EffectiveChunk(os: seq<Outcome>, txErrors: map<nat, string>, n: nat)
    requires CHUNK * n < |os|
    ensures var all, chunk := Effective(os, txErrors), ChunkAt(os, n);
            var part := all[CHUNK * n..EndOf(n + 1, |os|)];
            && all[..EndOf(n + 1, |os|)] == all[..CHUNK * n] + part && |part| == |chunk|
            && (TxError(txErrors, n).None? ==> part == chunk)
            && (TxError(txErrors, n).Some? ==> forall o | o in part :: o.Rejected?)
  {
    forall i | CHUNK * n <= i < EndOf(n + 1, |os|) ensures i / CHUNK == n {}
  }

  lemma ChunkCounts(os: seq<Outcome>, txErrors: map<nat, string>, n: nat)
    requires CHUNK * n < |os|
    ensures var all, chunk := Effective(os, txErrors), ChunkAt(os, n);
            var before, after := all[..CHUNK * n], all[..EndOf(n + 1, |os|)];
            var bad := BatchError(chunk, TxError(txErrors, n)).Some?;
            && AddedIn(after) == AddedIn(before) + (if bad then 0 else AddedIn(chunk))
            && UpdatedIn(after) == UpdatedIn(before) + (if bad then 0 else UpdatedIn(chunk))
            && RejectedIn(after) == RejectedIn(before) + (if bad then |chunk| else RejectedIn(chunk))
  {
    var all, chunk := Effective(os, txErrors), ChunkAt(os, n);
    var part := all[CHUNK * n..EndOf(n + 1, |os|)];
    EffectiveChunk(os, txErrors, n);
    OutcomesOf(all[..CHUNK * n], part);
    OutcomesAddUp(part);
    OutcomesAddUp(chunk);
  }

  datatype Status = Pending | Processing | Completed | FailedJob | Cancelled

  datatype Counters = Counters(processed: nat, added: nat, updated: nat, failed: nat)

  ghost predicate Balanced(c: Counters) { c.added + c.updated + c.failed == c.processed }

  /** The counters after the first n chunks. */
  ghost function CountersAfter(os: seq<Outcome>, txErrors: map<nat, string>, n: nat): Counters {
    var part := Effective(os, txErrors)[..EndOf(n, |os|)];
    Counters(|part|, AddedIn(part), UpdatedIn(part), RejectedIn(part))
  }

  /** The counters once one more chunk is in: all of it failed, or what its outcomes say. */
  ghost function ChunkAdded(c: Counters, chunk: seq<Outcome>, bad: bool): Counters {
    Counters(c.processed + |chunk|,
             c.added + if bad then 0 else AddedIn(chunk),
             c.updated + if bad then 0 else UpdatedIn(chunk),
             c.failed + if bad then |chunk| else RejectedIn(chunk))
  }

  lemma CountersNext(os: seq<Outcome>, txErrors: map<nat, string>, n: nat)
    requires CHUNK * n < |os|
    ensures CountersAfter(os, txErrors, n + 1)
         == ChunkAdded(CountersAfter(os, txErrors, n), ChunkAt(os, n),
                       BatchError(ChunkAt(os, n), TxError(txErrors, n)).Some?)
  {
    ChunkCounts(os, txErrors, n);
    assert EndOf(n, |os|) == CHUNK * n;
  }

  lemma CountersBalance(os: seq<Outcome>, txErrors: map<nat, string>, n: nat)
    ensures Balanced(CountersAfter(os, txErrors, n))
  {
    OutcomesAddUp(Effective(os, txErrors)[..EndOf(n, |os|)]);
  }

  class BulkJob<D> {
    var status: Status
    var total: nat
    var processed: nat
    var added: nat
    var updated: nat
    var failed: nat
    var errors: seq<string>
    ghost var saves: seq<Counters>
    ghost var handed: seq<D>

    constructor Submit(docs: seq<D>)
      ensures Fresh(docs)
    {
      status, total, processed, added, updated, failed, errors := Pending, |docs|, 0, 0, 0, 0, [];
      saves, handed := [], [];
    }

    /** A job as it is queued; it may have been cancelled since. */
    ghost predicate Fresh(docs: seq<D>)
      reads this
    {
      && (status == Pending || status == Cancelled) && total == |docs| && Now() == Counters(0, 0, 0, 0)
      && errors == [] && saves == [] && handed == []
    }

    ghost function Now(): Counters
      reads this
    {
      Counters(processed, added, updated, failed)
    }

    method Save()
      modifies this`saves
      ensures saves == old(saves) + [Now()]
    {
      saves := saves + [Counters(processed, added, updated, failed)];
    }

    /** The first n chunks are done: counters, errors, and the documents handed over so far. */
    ghost predicate Done(docs: seq<D>, os: seq<Outcome>, txErrors: map<nat, string>, n: nat)
      reads this
    {
      && |os| == |docs| == total && Now() == CountersAfter(os, txErrors, n)
      && handed == docs[..EndOf(n, |docs|)]
      && errors == FirstOf(ErrorsThrough(os, txErrors, n), ERROR_CAP)
      && forall c | c in saves :: Balanced(c)
    }

    /** One chunk through the batch processor: its counters and its errors. */
    method CountChunk(chunk: seq<Outcome>, txError: Option<string>, ghost all: seq<string>)
      requires errors == FirstOf(all, ERROR_CAP)
      modifies this`processed, this`added, this`updated, this`failed, this`errors
      ensures Now() == ChunkAdded(old(Now()), chunk, BatchError(chunk, txError).Some?)
      ensures errors == FirstOf(all + ChunkErrors(chunk, txError), ERROR_CAP)
    {
      var r, err := ProcessBatchWithDocs(chunk, txError);
      if err.Some? {
        failed := failed + |chunk|;
        CappedIsFirst(all, err.value, ERROR_CAP);
        errors := AppendCapped(errors, err.value, ERROR_CAP);
      } else {
        added, updated, failed := added + r.added, updated + r.updated, failed + r.failed;
        errors := AppendAll(errors, r.errors, all);
      }
      processed := processed + |chunk|;
    }

    method ProcessChunk(docs: seq<D>, os: seq<Outcome>, txErrors: map<nat, string>, n: nat)
      requires Done(docs, os, txErrors, n) && CHUNK * n < |docs|
      modifies this
      ensures Done(docs, os, txErrors, n + 1) && status == old(status)
    {
      ChunkFollows(docs, n);
      handed := handed + ChunkAt(docs, n);
      CountersNext(os, txErrors, n);
      CountersBalance(os, txErrors, n + 1);
      ErrorsNext(os, txErrors, n);
      CountChunk(ChunkAt(os, n), TxError(txErrors, n), ErrorsThrough(os, txErrors, n));
      Save();
    }

    /** The whole job. Every document is handed over once, in order; the counters balance at every
        save and end at the total; the job fails exactly when every document did; of the errors the
        first 50 are kept. A job cancelled while it waited is left as it is. */
    method Process(docs: seq<D>, os: seq<Outcome>, txErrors: map<nat, string>)
      requires Fresh(docs) && |os| == |docs|
      modifies this
      ensures old(status) == Cancelled ==> status == Cancelled && Fresh(docs)
      ensures old(status) == Pending ==>
                && handed == docs && processed == total == |docs|
                && Balanced(Now()) && (forall c | c in saves :: Balanced(c))
                && Placed(os, txErrors, Now())
                && errors == FirstOf(ErrorsThrough(os, txErrors, |docs|), ERROR_CAP) && |errors| <= ERROR_CAP
                && (status == FailedJob || status == Completed)
                && (status == FailedJob <==> AllFailed(os, txErrors))
    {
      if status == Cancelled {
        return;
      }
      status := Processing;
      Save();
      var i, n := 0, 0;
      while i < |docs|
        invariant i == CHUNK * n && Done(docs, os, txErrors, n)
        decreases |docs| - i
      {
        ProcessChunk(docs, os, txErrors, n);
        i, n := i + CHUNK, n + 1;
      }
      Finish(docs, os, txErrors, n);
    }

    /** The last save, after all chunks. */
    method Finish(docs: seq<D>, os: seq<Outcome>, txErrors: map<nat, string>, ghost n: nat)
      requires Done(docs, os, txErrors, n) && CHUNK * n >= |docs|
      modifies this
      ensures handed == docs && processed == total == |docs|
      ensures Balanced(Now()) && (forall c | c in saves :: Balanced(c))
      ensures Placed(os, txErrors, Now())
      ensures errors == FirstOf(ErrorsThrough(os, txErrors, |docs|), ERROR_CAP) && |errors| <= ERROR_CAP
      ensures status == FailedJob || status == Completed
      ensures status == FailedJob <==> AllFailed(os, txErrors)
    {
      Finished(os, txErrors, n);
      status := if failed == total then FailedJob else Completed;
      Save();
    }
  }

  /** Every document failed, by itself or with its chunk. */
  ghost predicate AllFailed(os: seq<Outcome>, txErrors: map<nat, string>) {
    forall i | 0 <= i < |os| :: os[i].Rejected? || i / 500 in txErrors
  }

  /** The outcomes counted at their places, and every place of a failed chunk as failed. */
  ghost predicate Placed(os: seq<Outcome>, txErrors: map<nat, string>, c: Counters) {
    && c.added == |set i: nat | i < |os| && os[i].Added? && i / 500 !in txErrors|
    && c.updated == |set i: nat | i < |os| && os[i].Updated? && i / 500 !in txErrors|
    && c.failed == |set i: nat | i < |os| && (os[i].Rejected? || i / 500 in txErrors)|
  }

  /** So a whole job counts. */
  lemma EffectivePlaces(os: seq<Outcome>, txErrors: map<nat, string>)
    ensures Placed(os, txErrors, CountersAfter(os, txErrors, |os|))
  {
    var all := Effective(os, txErrors);
    CountsArePlaces(all);
    assert EndOf(|os|, |os|) == |os| && all[..|os|] == all;
    assert AddedAt(all) == set i: nat | i < |os| && os[i].Added? && i / 500 !in txErrors;
    assert UpdatedAt(all) == set i: nat | i < |os| && os[i].Updated? && i / 500 !in txErrors;
    assert RejectedAt(all) == set i: nat | i < |os| && (os[i].Rejected? || i / 500 in txErrors);
  }

  lemma NoMoreErrors(os: seq<Outcome>, txErrors: map<nat, string>, n: nat)
    requires CHUNK * n >= |os|
    ensures ErrorsThrough(os, txErrors, n + 1) == ErrorsThrough(os, txErrors, n)
  {
  }

  /** Past the last chunk no error is added. */
  lemma {:induction false} ErrorsSettle(os: seq<Outcome>, txErrors: map<nat, string>, a: nat, b: nat)
    requires CHUNK * a >= |os| && a <= b
    ensures ErrorsThrough(os, txErrors, b) == ErrorsThrough(os, txErrors, a)
    decreases b - a
  {
    if a < b {
      NoMoreErrors(os, txErrors, a);
      ErrorsSettle(os, txErrors, a + 1, b);
    }
  }

  lemma ErrorsAreAll(os: seq<Outcome>, txErrors: map<nat, string>, n: nat)
    requires CHUNK * n >= |os|
    ensures ErrorsThrough(os, txErrors, n) == ErrorsThrough(os, txErrors, |os|)
  {
    if n <= |os| {
      ErrorsSettle(os, txErrors, n, |os|);
    } else {
      ErrorsSettle(os, txErrors, |os|, n);
    }
  }

  /** Past the last chunk nothing changes. */
  lemma Finished(os: seq<Outcome>, txErrors: map<nat, string>, n: nat)
    requires CHUNK * n >= |os|
    ensures CountersAfter(os, txErrors, n) == CountersAfter(os, txErrors, |os|)
    ensures ErrorsThrough(os, txErrors, n) == ErrorsThrough(os, txErrors, |os|)
    ensures Balanced(CountersAfter(os, txErrors, n)) && EndOf(n, |os|) == |os|
    ensures CountersAfter(os, txErrors, n).failed == |os| <==> AllFailed(os, txErrors)
    ensures Placed(os, txErrors, CountersAfter(os, txErrors, n))
  {
    ErrorsAreAll(os, txErrors, n);
    EffectivePlaces(os, txErrors);
    var all := Effective(os, txErrors);
    assert all[..|os|] == all;
    OutcomesAddUp(all);
    forall i | 0 <= i < |os| ensures all[i].Rejected? <==> os[i].Rejected? || i / 500 in txErrors {}
    assert (forall o | o in all :: o.Rejected?) <==> forall i | 0 <= i < |all| :: all[i].Rejected?;
  }
}
