/** Batch add against single adds: documents are prepared against the store as it was read, then
    committed together (services/mddbd/batch.go, services/mddbd/batch_final.go). */
module Batch {
  import opened ByteStrings
  import opened Keys
  import opened Store
  import opened Indexes
  import WorkerPool

  lemma SameKeySameID(coll: string, id1: string, id2: string)
    requires DocKey(coll, id1) == DocKey(coll, id2)
    ensures id1 == id2
  {
    assert id1 == DocKey(coll, id1)[|DocPrefix(coll)|..] && id2 == DocKey(coll, id2)[|DocPrefix(coll)|..];
  }

  // ---- distinct documents: the batch is the single adds, one after the other ----------------

  /** Accepted documents of a batch have different ids. */
  ghost predicate DistinctTargets(cfg: Config, coll: string, rs: seq<BatchRequest>) {
    forall i, j | 0 <= i < j < |rs| && Writable(cfg, coll, rs[i]) && Writable(cfg, coll, rs[j]) ::
      GenID(coll, rs[i].key, rs[i].lang) != GenID(coll, rs[j].key, rs[j].lang)
  }

  /** No accepted request of the batch is for the document. */
  ghost predicate Unnamed(cfg: Config, coll: string, rs: seq<BatchRequest>, id: string) {
    forall r | r in rs && Writable(cfg, coll, r) :: GenID(coll, r.key, r.lang) != id
  }

  lemma {:induction false} UnnamedStays(cfg: Config, s: Buckets, coll: string, rs: seq<BatchRequest>, now: Time,
                                        id: string)
    requires Unnamed(cfg, coll, rs, id)
    ensures Existing(WriteAll(cfg, s, coll, rs, now), coll, id) == Existing(s, coll, id)
    ensures DocKey(coll, id) in WriteAll(cfg, s, coll, rs, now).docs <==> DocKey(coll, id) in s.docs
  {
    if rs != [] {
      var front, r := rs[..|rs| - 1], rs[|rs| - 1];
      UnnamedStays(cfg, s, coll, front, now, id);
      assert r in rs;
      if Writable(cfg, coll, r) && Target(coll, r.key, r.lang) == DocKey(coll, id) {
        SameKeySameID(coll, GenID(coll, r.key, r.lang), id);
      }
    }
  }

  /** For a batch without two accepted documents of one id, committing what was prepared
      leaves all four buckets as adding the documents one by one does. */
  lemma {:induction false} BatchIsSequential(cfg: Config, s: Buckets, coll: string, rs: seq<BatchRequest>, now: Time)
    requires DistinctTargets(cfg, coll, rs)
    ensures BatchAdd(cfg, s, coll, rs, now) == WriteAll(cfg, s, coll, rs, now)
  {
    if rs != [] {
      var front, r := rs[..|rs| - 1], rs[|rs| - 1];
      assert rs == front + [r];
      BatchIsSequential(cfg, s, coll, front, now);
      BatchOneMore(cfg, s, coll, front, r, now);
      if Writable(cfg, coll, r) {
        UnnamedStays(cfg, s, coll, front, now, GenID(coll, r.key, r.lang));
      }
    }
  }

  /** Prepared by any number of workers in any order, uncancelled, the batch still commits to
      what single adds would leave. */
  lemma ConcurrentBatchIsSequential(cfg: Config, s: Buckets, coll: string, rs: seq<BatchRequest>, now: Time,
                                    workers: nat, schedule: seq<WorkerPool.Event>, q: WorkerPool.Pool<Processed>)
    requires DistinctTargets(cfg, coll, rs) && workers > 0
    requires var f := (i: nat) => if i < |rs| then ProcessDocument(cfg, s, coll, rs[i], now) else Refused;
             WorkerPool.Reaches(WorkerPool.Start<Processed>(|rs|, workers), schedule, q, f)
    requires WorkerPool.Finished(q) && !q.cancelled
    ensures |q.slots| == |rs| && forall i | 0 <= i < |rs| :: q.slots[i].Some?
    ensures CommitAll(cfg, s, coll, seq(|rs|, i requires 0 <= i < |rs| => q.slots[i].value), now)
            == WriteAll(cfg, s, coll, rs, now)
  {
    var f := (i: nat) => if i < |rs| then ProcessDocument(cfg, s, coll, rs[i], now) else Refused;
    WorkerPool.UncancelledBatchIsComplete(|rs|, workers, schedule, q, f);
    assert forall i | 0 <= i < |rs| :: q.slots[i] == Some(f(i));
    assert seq(|rs|, i requires 0 <= i < |rs| => q.slots[i].value) == ProcessAll(cfg, s, coll, rs, now);
    BatchIsSequential(cfg, s, coll, rs, now);
  }

  // ---- repeated documents: only the metadata index can differ --------------------------------

  function AddedAtNext(e: Doc, now: Time): int { if e.addedAt == 0 then now else e.addedAt }

  /** Same documents, key index and revisions; and the batch still knows each AddedAt. */
  ghost predicate SameButIndex(s: Buckets, a: Buckets, b: Buckets, coll: string, now: Time) {
    && a.docs == b.docs && a.byKey == b.byKey && a.rev == b.rev
    && forall id {:trigger Existing(b, coll, id)} ::
      AddedAtNext(Existing(b, coll, id), now) == AddedAtNext(Existing(s, coll, id), now)
  }

  lemma SameButIndexStep(cfg: Config, s: Buckets, a: Buckets, b: Buckets, coll: string, r: BatchRequest, now: Time)
    requires SameButIndex(s, a, b, coll, now)
    ensures SameButIndex(s, CommitOne(cfg, a, coll, ProcessDocument(cfg, s, coll, r, now), now),
                         Write(cfg, b, coll, r, now), coll, now)
  {
    if Writable(cfg, coll, r) {
      var id := GenID(coll, r.key, r.lang);
      var p := ProcessDocument(cfg, s, coll, r, now);
      assert p.doc == AddedDoc(b, coll, r, now);
      var b' := Write(cfg, b, coll, r, now);
      forall x {:trigger Existing(b', coll, x)}
        ensures AddedAtNext(Existing(b', coll, x), now) == AddedAtNext(Existing(s, coll, x), now)
      {
        if DocKey(coll, x) == DocKey(coll, id) {
          SameKeySameID(coll, x, id);
        } else {
          assert Existing(b', coll, x) == Existing(b, coll, x);
        }
      }
    }
  }

  lemma {:induction false} BatchOffIndex(cfg: Config, s: Buckets, coll: string, rs: seq<BatchRequest>, now: Time)
    ensures SameButIndex(s, BatchAdd(cfg, s, coll, rs, now), WriteAll(cfg, s, coll, rs, now), coll, now)
  {
    if rs != [] {
      var front, r := rs[..|rs| - 1], rs[|rs| - 1];
      assert rs == front + [r];
      BatchOffIndex(cfg, s, coll, front, now);
      BatchOneMore(cfg, s, coll, front, r, now);
      SameButIndexStep(cfg, s, BatchAdd(cfg, s, coll, front, now), WriteAll(cfg, s, coll, front, now), coll, r, now);
    }
  }

  /** Whatever the batch repeats, documents, key index and revisions come out as one by one. */
  lemma AnyBatchAgreesOffIndex(cfg: Config, s: Buckets, coll: string, rs: seq<BatchRequest>, now: Time)
    ensures var a, b := BatchAdd(cfg, s, coll, rs, now), WriteAll(cfg, s, coll, rs, now);
            a.docs == b.docs && a.byKey == b.byKey && a.rev == b.rev
  {
    BatchOffIndex(cfg, s, coll, rs, now);
  }

  // ---- the index keys of one document, version by version ---------------------------------------

  /** The metadata a batch gives a document, version by version. */
  ghost function Versions(cfg: Config, coll: string, rs: seq<BatchRequest>, id: string): seq<Meta> {
    if rs == [] then []
    else
      var r := rs[|rs| - 1];
      Versions(cfg, coll, rs[..|rs| - 1], id)
      + if Writable(cfg, coll, r) && GenID(coll, r.key, r.lang) == id then [r.meta] else []
  }

  /** The current version: the last one, or what was stored. */
  ghost function Current(m0: Meta, ms: seq<Meta>): Meta {
    if ms == [] then m0 else ms[|ms| - 1]
  }

  ghost function StoredMeta(s: Buckets, coll: string, id: string): Meta { Existing(s, coll, id).meta }

  /** One document's versions indexed as a batch does: each against what was stored at first. */
  ghost function BatchSlice(coll: string, id: string, idx: set<string>, m0: Meta, ms: seq<Meta>): set<string> {
    if ms == [] then idx
    else
      var before, m := BatchSlice(coll, id, idx, m0, ms[..|ms| - 1]), ms[|ms| - 1];
      if m != m0 then (before - MetaKeys(coll, m0, id)) + MetaKeys(coll, m, id) else before
  }

  /** And one by one: each against the version before it. */
  ghost function SingleSlice(coll: string, id: string, idx: set<string>, m0: Meta, ms: seq<Meta>): set<string> {
    if ms == [] then idx
    else
      var before, m, last := SingleSlice(coll, id, idx, m0, ms[..|ms| - 1]), ms[|ms| - 1], Current(m0, ms[..|ms| - 1]);
      if m != last then (before - MetaKeys(coll, last, id)) + MetaKeys(coll, m, id) else before
  }

  /** Keys of the versions that differ from what was stored. */
  ghost function ChangedKeys(coll: string, id: string, m0: Meta, ms: seq<Meta>): set<string> {
    if ms == [] then {}
    else
      var m := ms[|ms| - 1];
      ChangedKeys(coll, id, m0, ms[..|ms| - 1]) + if m != m0 then MetaKeys(coll, m, id) else {}
  }

  /** How many versions there are up to the last that differs from what was stored. */
  ghost function ChangedThrough(m0: Meta, ms: seq<Meta>): (j: nat)
    ensures j <= |ms| && (j > 0 ==> ms[j - 1] != m0)
    ensures forall i | j <= i < |ms| :: ms[i] == m0
  {
    if ms == [] then 0 else if ms[|ms| - 1] != m0 then |ms| else ChangedThrough(m0, ms[..|ms| - 1])
  }

  /** What a batch leaves in the index of a document is the keys of its last version: those of the
      last changed version and, of the changed versions before it, what was not stored already. */
  ghost predicate Covered(coll: string, id: string, m0: Meta, ms: seq<Meta>) {
    var j := ChangedThrough(m0, ms);
    j > 0 ==>
      (ChangedKeys(coll, id, m0, ms[..j - 1]) - MetaKeys(coll, m0, id)) + MetaKeys(coll, ms[j - 1], id)
      == MetaKeys(coll, ms[|ms| - 1], id)
  }

  /** Trailing versions equal to what was stored change nothing. */
  lemma {:induction false} ChangedEnd(coll: string, id: string, idx: set<string>, m0: Meta, ms: seq<Meta>)
    ensures var changed := ms[..ChangedThrough(m0, ms)];
            && ChangedKeys(coll, id, m0, ms) == ChangedKeys(coll, id, m0, changed)
            && BatchSlice(coll, id, idx, m0, ms) == BatchSlice(coll, id, idx, m0, changed)
  {
    if ms != [] && ms[|ms| - 1] == m0 {
      var front := ms[..|ms| - 1];
      ChangedEnd(coll, id, idx, m0, front);
      assert ms[..ChangedThrough(m0, front)] == front[..ChangedThrough(m0, front)];
    } else {
      assert ms[..|ms|] == ms;
    }
  }

  /** Every changed version drops the stored keys and adds its own. */
  lemma {:induction false} SliceSoFar(coll: string, id: string, idx: set<string>, m0: Meta, ms: seq<Meta>)
    ensures var k0 := MetaKeys(coll, m0, id);
            BatchSlice(coll, id, idx, m0, ms) - k0 == (idx - k0) + (ChangedKeys(coll, id, m0, ms) - k0)
  {
    if ms != [] {
      var front, m := ms[..|ms| - 1], ms[|ms| - 1];
      SliceSoFar(coll, id, idx, m0, front);
      DropAgain(BatchSlice(coll, id, idx, m0, front), idx, ChangedKeys(coll, id, m0, front),
                MetaKeys(coll, m0, id), MetaKeys(coll, m, id));
    }
  }

  lemma DropAgain(b: set<string>, idx: set<string>, c: set<string>, k0: set<string>, k: set<string>)
    requires b - k0 == (idx - k0) + (c - k0)
    ensures ((b - k0) + k) - k0 == (idx - k0) + ((c + k) - k0)
  {
    forall x ensures x in ((b - k0) + k) - k0 <==> x in (idx - k0) + ((c + k) - k0) {
      assert x in b - k0 <==> x in (idx - k0) + (c - k0);
    }
  }

  lemma BatchSliceIs(coll: string, id: string, idx: set<string>, m0: Meta, ms: seq<Meta>)
    ensures var j, k0 := ChangedThrough(m0, ms), MetaKeys(coll, m0, id);
            BatchSlice(coll, id, idx, m0, ms) ==
              if j == 0 then idx
              else (idx - k0) + (ChangedKeys(coll, id, m0, ms[..j - 1]) - k0) + MetaKeys(coll, ms[j - 1], id)
  {
    var j := ChangedThrough(m0, ms);
    ChangedEnd(coll, id, idx, m0, ms);
    if j > 0 {
      assert ms[..j][..j - 1] == ms[..j - 1];
      SliceSoFar(coll, id, idx, m0, ms[..j - 1]);
    }
  }

  /** All changed keys are those up to the last changed version. */
  lemma ChangedSoFar(coll: string, id: string, m0: Meta, ms: seq<Meta>)
    ensures var j := ChangedThrough(m0, ms);
            ChangedKeys(coll, id, m0, ms)
            == if j == 0 then {} else ChangedKeys(coll, id, m0, ms[..j - 1]) + MetaKeys(coll, ms[j - 1], id)
  {
    var j := ChangedThrough(m0, ms);
    ChangedEnd(coll, id, {}, m0, ms);
    if j > 0 {
      assert ms[..j][..j - 1] == ms[..j - 1];
      ChangedLast(coll, id, m0, ms[..j]);
    } else {
      assert ms[..j] == [];
    }
  }

  lemma ChangedLast(coll: string, id: string, m0: Meta, ms: seq<Meta>)
    requires ms != [] && ms[|ms| - 1] != m0
    ensures ChangedKeys(coll, id, m0, ms) == ChangedKeys(coll, id, m0, ms[..|ms| - 1])
            + MetaKeys(coll, ms[|ms| - 1], id)
  {
  }

  lemma {:induction false} SingleSliceIs(coll: string, id: string, idx: set<string>, m0: Meta, ms: seq<Meta>)
    ensures SingleSlice(coll, id, idx, m0, ms) ==
              if ChangedThrough(m0, ms) == 0 then idx
              else (idx - (MetaKeys(coll, m0, id) + ChangedKeys(coll, id, m0, ms))) + MetaKeys(coll, ms[|ms| - 1], id)
  {
    if ms != [] {
      var front := ms[..|ms| - 1];
      SingleSliceIs(coll, id, idx, m0, front);
      CurrentIsCounted(coll, id, m0, front);
    }
  }

  lemma CurrentIsCounted(coll: string, id: string, m0: Meta, ms: seq<Meta>)
    ensures MetaKeys(coll, Current(m0, ms), id) <= MetaKeys(coll, m0, id) + ChangedKeys(coll, id, m0, ms)
    ensures ChangedThrough(m0, ms) == 0 ==> Current(m0, ms) == m0 && ChangedKeys(coll, id, m0, ms) == {}
  {
    ChangedSoFar(coll, id, m0, ms);
  }

  ghost function AllKeys(coll: string, id: string, m0: Meta, ms: seq<Meta>): set<string> {
    MetaKeys(coll, m0, id) + ChangedKeys(coll, id, m0, ms)
  }

  /** The two ways agree on the document's own keys exactly when its versions are covered, and then
      they agree on every key. */
  lemma SlicesAgreeIff(coll: string, id: string, idx: set<string>, m0: Meta, ms: seq<Meta>)
    ensures var a, b := BatchSlice(coll, id, idx, m0, ms), SingleSlice(coll, id, idx, m0, ms);
            && (Covered(coll, id, m0, ms) <==> forall k | k in AllKeys(coll, id, m0, ms) :: k in a <==> k in b)
            && (Covered(coll, id, m0, ms) ==> a == b)
  {
    BatchSliceIs(coll, id, idx, m0, ms);
    SingleSliceIs(coll, id, idx, m0, ms);
    ChangedSoFar(coll, id, m0, ms);
    CurrentIsCounted(coll, id, m0, ms);
    var j := ChangedThrough(m0, ms);
    if j > 0 {
      SetsAgreeIff(idx, MetaKeys(coll, m0, id), ChangedKeys(coll, id, m0, ms[..j - 1]), MetaKeys(coll, ms[j - 1], id),
                   MetaKeys(coll, ms[|ms| - 1], id));
    }
  }

  lemma SetsAgreeIff(idx: set<string>, k0: set<string>, c: set<string>, kj: set<string>, kn: set<string>)
    requires kn <= k0 + c + kj
    ensures var a, b := (idx - k0) + (c - k0) + kj, (idx - (k0 + (c + kj))) + kn;
            && ((c - k0) + kj == kn <==> forall k | k in k0 + (c + kj) :: k in a <==> k in b)
            && ((c - k0) + kj == kn ==> a == b)
  {
    var a, b, all, left := (idx - k0) + (c - k0) + kj, (idx - (k0 + (c + kj))) + kn, k0 + (c + kj), (c - k0) + kj;
    forall k | k in all ensures (k in a <==> k in left) && (k in b <==> k in kn) {}
    if forall k | k in all :: k in a <==> k in b {
      assert left == kn;
    }
  }

  // ---- a batch, document by document -----------------------------------------------------------------

  /** The index keys a request can drop or put. */
  ghost function Touches(s: Buckets, coll: string, r: BatchRequest): set<string> {
    var id := GenID(coll, r.key, r.lang);
    MetaKeys(coll, StoredMeta(s, coll, id), id) + MetaKeys(coll, r.meta, id)
  }

  /** Requests for different documents touch different index keys. */
  ghost predicate KeysApart(cfg: Config, s: Buckets, coll: string, rs: seq<BatchRequest>) {
    forall r, q | r in rs && q in rs && Writable(cfg, coll, r) && Writable(cfg, coll, q)
                  && GenID(coll, r.key, r.lang) != GenID(coll, q.key, q.lang) ::
      Touches(s, coll, r) !! Touches(s, coll, q)
  }

  /** No request for another document touches the key. */
  ghost predicate OnlyOwner(cfg: Config, s: Buckets, coll: string, rs: seq<BatchRequest>, id: string, k: string) {
    forall r | r in rs && Writable(cfg, coll, r) && GenID(coll, r.key, r.lang) != id :: k !in Touches(s, coll, r)
  }

  lemma OldKeysAre(s: Buckets, coll: string, id: string)
    requires WellNamed(s) && Plain(coll) && id != ""
    ensures OldKeys(coll, Existing(s, coll, id)) == MetaKeys(coll, StoredMeta(s, coll, id), id)
  {
    if DocKey(coll, id) in s.docs {
      StoredUnderID(s, coll, id);
    }
  }

  lemma IDNotEmpty(coll: string, key: string, lang: string)
    ensures GenID(coll, key, lang) != ""
  {
    assert |GenID(coll, key, lang)| > 0;
  }

  lemma {:induction false} BatchKey(cfg: Config, s: Buckets, coll: string, rs: seq<BatchRequest>, now: Time,
                                    id: string, k: string)
    requires WellNamed(s) && Plain(coll) && OnlyOwner(cfg, s, coll, rs, id, k)
    ensures k in BatchAdd(cfg, s, coll, rs, now).idx
            <==> k in BatchSlice(coll, id, s.idx, StoredMeta(s, coll, id), Versions(cfg, coll, rs, id))
  {
    if rs != [] {
      var front, r := rs[..|rs| - 1], rs[|rs| - 1];
      assert rs == front + [r] && r in rs;
      BatchKey(cfg, s, coll, front, now, id, k);
      BatchOneMore(cfg, s, coll, front, r, now);
      var x, ms := GenID(coll, r.key, r.lang), Versions(cfg, coll, front, id);
      assert ms + [] == ms;
      if Writable(cfg, coll, r) {
        IDNotEmpty(coll, r.key, r.lang);
        OldKeysAre(s, coll, x);
        if x == id {
          assert (ms + [r.meta])[..|ms|] == ms;
        }
      }
    }
  }

  lemma {:induction false} VersionIsRequested(cfg: Config, coll: string, rs: seq<BatchRequest>, id: string, m: Meta)
    requires m in Versions(cfg, coll, rs, id)
    ensures exists q :: q in rs && Writable(cfg, coll, q) && GenID(coll, q.key, q.lang) == id && q.meta == m
  {
    var front, r := rs[..|rs| - 1], rs[|rs| - 1];
    assert rs == front + [r];
    if m in Versions(cfg, coll, front, id) {
      VersionIsRequested(cfg, coll, front, id, m);
      var q :| q in front && Writable(cfg, coll, q) && GenID(coll, q.key, q.lang) == id && q.meta == m;
      assert q in rs;
    } else {
      assert r in rs;
    }
  }

  /** After some of the batch one by one, a document has its last version so far. */
  lemma {:induction false} VersionSoFar(cfg: Config, s: Buckets, coll: string, rs: seq<BatchRequest>, now: Time,
                                        id: string)
    requires WellNamed(s) && Plain(coll) && id != ""
    ensures var e := Existing(WriteAll(cfg, s, coll, rs, now), coll, id);
            var m := Current(StoredMeta(s, coll, id), Versions(cfg, coll, rs, id));
            e.meta == m && OldKeys(coll, e) == MetaKeys(coll, m, id)
  {
    if rs == [] {
      OldKeysAre(s, coll, id);
    } else {
      var front, r := rs[..|rs| - 1], rs[|rs| - 1];
      VersionSoFar(cfg, s, coll, front, now, id);
      if Writable(cfg, coll, r) && Target(coll, r.key, r.lang) == DocKey(coll, id) {
        SameKeySameID(coll, GenID(coll, r.key, r.lang), id);
      }
    }
  }

  lemma {:induction false} SingleKey(cfg: Config, s: Buckets, coll: string, rs: seq<BatchRequest>, now: Time,
                                     id: string, k: string)
    requires WellNamed(s) && Plain(coll) && OnlyOwner(cfg, s, coll, rs, id, k)
    ensures k in WriteAll(cfg, s, coll, rs, now).idx
            <==> k in SingleSlice(coll, id, s.idx, StoredMeta(s, coll, id), Versions(cfg, coll, rs, id))
  {
    if rs != [] {
      var front, r := rs[..|rs| - 1], rs[|rs| - 1];
      assert rs == front + [r] && r in rs;
      SingleKey(cfg, s, coll, front, now, id, k);
      var x, ms := GenID(coll, r.key, r.lang), Versions(cfg, coll, front, id);
      assert ms + [] == ms;
      if Writable(cfg, coll, r) {
        IDNotEmpty(coll, r.key, r.lang);
        VersionSoFar(cfg, s, coll, front, now, x);
        if x == id {
          assert (ms + [r.meta])[..|ms|] == ms;
        } else {
          OtherVersion(cfg, s, coll, rs, x, id, k);
        }
      }
    }
  }

  /** No earlier version of another document touches the key either. */
  lemma OtherVersion(cfg: Config, s: Buckets, coll: string, rs: seq<BatchRequest>, x: string, id: string, k: string)
    requires rs != [] && OnlyOwner(cfg, s, coll, rs, id, k) && x != id
    requires var r := rs[|rs| - 1]; Writable(cfg, coll, r) && GenID(coll, r.key, r.lang) == x
    ensures k !in MetaKeys(coll, Current(StoredMeta(s, coll, x), Versions(cfg, coll, rs[..|rs| - 1], x)), x)
  {
    var front, r := rs[..|rs| - 1], rs[|rs| - 1];
    assert rs == front + [r] && r in rs;
    var ms := Versions(cfg, coll, front, x);
    if ms != [] {
      var m := ms[|ms| - 1];
      VersionIsRequested(cfg, coll, front, x, m);
      var q :| q in front && Writable(cfg, coll, q) && GenID(coll, q.key, q.lang) == x && q.meta == m;
      assert q in rs;
    }
  }

  /** Every document the batch writes is covered by its versions. */
  ghost predicate Tidy(cfg: Config, s: Buckets, coll: string, rs: seq<BatchRequest>) {
    forall r | r in rs && Writable(cfg, coll, r) :: TidyFor(cfg, s, coll, rs, GenID(coll, r.key, r.lang))
  }

  ghost predicate TidyFor(cfg: Config, s: Buckets, coll: string, rs: seq<BatchRequest>, id: string) {
    Covered(coll, id, StoredMeta(s, coll, id), Versions(cfg, coll, rs, id))
  }

  lemma OwnerIsOnly(cfg: Config, s: Buckets, coll: string, rs: seq<BatchRequest>, r: BatchRequest, k: string)
    requires KeysApart(cfg, s, coll, rs) && r in rs && Writable(cfg, coll, r) && k in Touches(s, coll, r)
    ensures OnlyOwner(cfg, s, coll, rs, GenID(coll, r.key, r.lang), k)
  {
  }

  /** Both ways give the key the same fate: it is one tidy document's, or nobody's. */
  lemma TidyKey(cfg: Config, s: Buckets, coll: string, rs: seq<BatchRequest>, now: Time, k: string)
    requires WellNamed(s) && Plain(coll) && KeysApart(cfg, s, coll, rs) && Tidy(cfg, s, coll, rs)
    ensures k in BatchAdd(cfg, s, coll, rs, now).idx <==> k in WriteAll(cfg, s, coll, rs, now).idx
  {
    var id := "";
    if r :| r in rs && Writable(cfg, coll, r) && k in Touches(s, coll, r) {
      id := GenID(coll, r.key, r.lang);
      OwnerIsOnly(cfg, s, coll, rs, r, k);
      assert TidyFor(cfg, s, coll, rs, id);
    } else {
      NoVersions(cfg, coll, rs);
    }
    BatchKey(cfg, s, coll, rs, now, id, k);
    SingleKey(cfg, s, coll, rs, now, id, k);
    SlicesAgreeIff(coll, id, s.idx, StoredMeta(s, coll, id), Versions(cfg, coll, rs, id));
  }

  lemma {:induction false} NoVersions(cfg: Config, coll: string, rs: seq<BatchRequest>)
    ensures Versions(cfg, coll, rs, "") == []
  {
    if rs != [] {
      NoVersions(cfg, coll, rs[..|rs| - 1]);
      IDNotEmpty(coll, rs[|rs| - 1].key, rs[|rs| - 1].lang);
    }
  }

  lemma {:induction false} AllKeysTouched(cfg: Config, s: Buckets, coll: string, rs: seq<BatchRequest>,
                                          r: BatchRequest, k: string)
    requires r in rs && Writable(cfg, coll, r)
    requires var id := GenID(coll, r.key, r.lang);
             k in AllKeys(coll, id, StoredMeta(s, coll, id), Versions(cfg, coll, rs, id))
    ensures exists q :: q in rs && Writable(cfg, coll, q) && GenID(coll, q.key, q.lang) == GenID(coll, r.key, r.lang)
                        && k in Touches(s, coll, q)
  {
    var id := GenID(coll, r.key, r.lang);
    if k !in MetaKeys(coll, StoredMeta(s, coll, id), id) {
      var m := ChangedBy(coll, id, StoredMeta(s, coll, id), Versions(cfg, coll, rs, id), k);
      VersionIsRequested(cfg, coll, rs, id, m);
    }
  }

  lemma {:induction false} ChangedBy(coll: string, id: string, m0: Meta, ms: seq<Meta>, k: string) returns (m: Meta)
    requires k in ChangedKeys(coll, id, m0, ms)
    ensures m in ms && k in MetaKeys(coll, m, id)
  {
    m := ms[|ms| - 1];
    if k in ChangedKeys(coll, id, m0, ms[..|ms| - 1]) {
      m := ChangedBy(coll, id, m0, ms[..|ms| - 1], k);
    }
  }

  lemma AgreedIsTidy(cfg: Config, s: Buckets, coll: string, rs: seq<BatchRequest>, now: Time, r: BatchRequest)
    requires WellNamed(s) && Plain(coll) && KeysApart(cfg, s, coll, rs) && r in rs && Writable(cfg, coll, r)
    requires BatchAdd(cfg, s, coll, rs, now).idx == WriteAll(cfg, s, coll, rs, now).idx
    ensures TidyFor(cfg, s, coll, rs, GenID(coll, r.key, r.lang))
  {
    var id := GenID(coll, r.key, r.lang);
    var m0, ms := StoredMeta(s, coll, id), Versions(cfg, coll, rs, id);
    forall k | k in AllKeys(coll, id, m0, ms)
      ensures k in BatchSlice(coll, id, s.idx, m0, ms) <==> k in SingleSlice(coll, id, s.idx, m0, ms)
    {
      AllKeysTouched(cfg, s, coll, rs, r, k);
      var q :| q in rs && Writable(cfg, coll, q) && GenID(coll, q.key, q.lang) == id && k in Touches(s, coll, q);
      OwnerIsOnly(cfg, s, coll, rs, q, k);
      BatchKey(cfg, s, coll, rs, now, id, k);
      SingleKey(cfg, s, coll, rs, now, id, k);
    }
    SlicesAgreeIff(coll, id, s.idx, m0, ms);
  }

  /** A batch, however it repeats documents, leaves all four buckets as single adds do exactly when
      every document it writes is covered by its versions. */
  lemma BatchAgreesIff(cfg: Config, s: Buckets, coll: string, rs: seq<BatchRequest>, now: Time)
    requires WellNamed(s) && Plain(coll) && KeysApart(cfg, s, coll, rs)
    ensures BatchAdd(cfg, s, coll, rs, now) == WriteAll(cfg, s, coll, rs, now) <==> Tidy(cfg, s, coll, rs)
  {
    var a, b := BatchAdd(cfg, s, coll, rs, now), WriteAll(cfg, s, coll, rs, now);
    AnyBatchAgreesOffIndex(cfg, s, coll, rs, now);
    if Tidy(cfg, s, coll, rs) {
      forall k ensures k in a.idx <==> k in b.idx {
        TidyKey(cfg, s, coll, rs, now, k);
      }
      assert a.idx == b.idx;
    }
    if a == b {
      forall r | r in rs && Writable(cfg, coll, r) ensures TidyFor(cfg, s, coll, rs, GenID(coll, r.key, r.lang)) {
        AgreedIsTidy(cfg, s, coll, rs, now, r);
      }
    }
  }

  /** A batch of distinct documents is always tidy. */
  lemma DistinctIsTidy(cfg: Config, s: Buckets, coll: string, rs: seq<BatchRequest>)
    requires DistinctTargets(cfg, coll, rs)
    ensures Tidy(cfg, s, coll, rs)
  {
    forall r | r in rs && Writable(cfg, coll, r) ensures TidyFor(cfg, s, coll, rs, GenID(coll, r.key, r.lang)) {
      OneVersion(cfg, coll, rs, GenID(coll, r.key, r.lang));
      SlicesOfOne(s, coll, GenID(coll, r.key, r.lang), Versions(cfg, coll, rs, GenID(coll, r.key, r.lang)));
    }
  }

  lemma SlicesOfOne(s: Buckets, coll: string, id: string, ms: seq<Meta>)
    requires |ms| <= 1
    ensures Covered(coll, id, StoredMeta(s, coll, id), ms)
  {
    var m0 := StoredMeta(s, coll, id);
    if ChangedThrough(m0, ms) > 0 {
      assert ms[..0] == [];
    }
  }

  lemma {:induction false} OneVersion(cfg: Config, coll: string, rs: seq<BatchRequest>, id: string)
    requires DistinctTargets(cfg, coll, rs)
    ensures |Versions(cfg, coll, rs, id)| <= 1
  {
    if rs != [] {
      var front, r := rs[..|rs| - 1], rs[|rs| - 1];
      OneVersion(cfg, coll, front, id);
      if Writable(cfg, coll, r) && GenID(coll, r.key, r.lang) == id && Versions(cfg, coll, front, id) != [] {
        VersionIsRequested(cfg, coll, front, id, Versions(cfg, coll, front, id)[0]);
      }
    }
  }

  /** Names or metadata without pipes, stored and requested, keep the keys apart. */
  ghost predicate PlainBatch(s: Buckets, rs: seq<BatchRequest>) {
    || (PlainlyNamed(s) && forall r | r in rs :: PlainlyNamedRequest(r))
    || (WellTagged(s) && forall r | r in rs :: PlainMeta(r.meta))
  }

  lemma PlainKeysApart(cfg: Config, s: Buckets, coll: string, rs: seq<BatchRequest>)
    requires WellNamed(s) && Plain(coll) && PlainBatch(s, rs)
    ensures KeysApart(cfg, s, coll, rs)
  {
    forall r, q, k | r in rs && q in rs && k in Touches(s, coll, r) && k in Touches(s, coll, q)
      ensures GenID(coll, r.key, r.lang) == GenID(coll, q.key, q.lang)
    {
      OneToucher(s, coll, rs, r, q, k);
    }
  }

  lemma OneToucher(s: Buckets, coll: string, rs: seq<BatchRequest>, r: BatchRequest, q: BatchRequest, k: string)
    requires WellNamed(s) && Plain(coll) && PlainBatch(s, rs) && r in rs && q in rs
    requires k in Touches(s, coll, r) && k in Touches(s, coll, q)
    ensures GenID(coll, r.key, r.lang) == GenID(coll, q.key, q.lang)
  {
    var id1, id2 := GenID(coll, r.key, r.lang), GenID(coll, q.key, q.lang);
    var m1 := if k in MetaKeys(coll, r.meta, id1) then r.meta else StoredMeta(s, coll, id1);
    var m2 := if k in MetaKeys(coll, q.meta, id2) then q.meta else StoredMeta(s, coll, id2);
    var k1, v1 :| k1 in m1 && v1 in m1[k1] && k == MetaKey(coll, k1, v1, id1);
    var k2, v2 :| k2 in m2 && v2 in m2[k2] && k == MetaKey(coll, k2, v2, id2);
    if PlainlyNamed(s) && forall x | x in rs :: PlainlyNamedRequest(x) {
      MetaKeyOwner(coll, k1, v1, id1, coll, k2, v2, id2);
    } else {
      assert PlainMeta(m1) && PlainMeta(m2);
      MetaKeyInjective(coll, k1, v1, id1, coll, k2, v2, id2);
    }
  }

  // ---- the extreme-mode preparation -----------------------------------------------------------

  function NamedIDs(coll: string, rs: seq<BatchRequest>): set<string> {
    set r | r in rs && r.key != "" && r.lang != "" :: GenID(coll, r.key, r.lang)
  }

  /** Everything the batch will need, read at once. */
  function ReadAll(s: Buckets, coll: string, rs: seq<BatchRequest>): map<string, Doc> {
    map id | id in NamedIDs(coll, rs) && DocKey(coll, id) in s.docs :: s.docs[DocKey(coll, id)]
  }

  lemma ReadOneMore(s: Buckets, coll: string, rs: seq<BatchRequest>, i: nat)
    requires i < |rs|
    ensures var r, before := rs[i], ReadAll(s, coll, rs[..i]);
            var id := GenID(coll, r.key, r.lang);
            ReadAll(s, coll, rs[..i + 1]) ==
              if r.key != "" && r.lang != "" && DocKey(coll, id) in s.docs
              then before[id := s.docs[DocKey(coll, id)]] else before
  {
    var r := rs[i];
    assert rs[..i + 1] == rs[..i] + [r];
    assert NamedIDs(coll, rs[..i + 1])
        == NamedIDs(coll, rs[..i]) + if r.key != "" && r.lang != "" then {GenID(coll, r.key, r.lang)} else {};
  }

  /** One read transaction for the whole batch. */
  method BatchReadAll(s: Buckets, coll: string, rs: seq<BatchRequest>) returns (read: map<string, Doc>)
    ensures read == ReadAll(s, coll, rs)
  {
    read := map[];
    for i := 0 to |rs|
      invariant read == ReadAll(s, coll, rs[..i])
    {
      ReadOneMore(s, coll, rs, i);
      if rs[i].key != "" && rs[i].lang != "" {
        var docID := GenID(coll, rs[i].key, rs[i].lang);
        if DocKey(coll, docID) in s.docs {
          read := read[docID := s.docs[DocKey(coll, docID)]];
        }
      }
    }
    assert rs[..|rs|] == rs;
  }

  /** Preparation from what was read, without the store. */
  function ProcessFast(cfg: Config, read: map<string, Doc>, coll: string, r: BatchRequest, now: Time): Processed {
    if r.key == "" || r.lang == "" || !cfg.schema(coll, r.meta) then Refused
    else
      var id := GenID(coll, r.key, r.lang);
      var existing := if id in read then read[id] else NO_DOC;
      Ready(Doc(id, r.key, r.lang, r.meta, r.content, if existing.addedAt == 0 then now else existing.addedAt, now, 0),
            existing, id in read, r.saveRev)
  }

  /** The extreme-mode preparation yields what the standard one yields. */
  lemma FastIsStandard(cfg: Config, s: Buckets, coll: string, rs: seq<BatchRequest>, r: BatchRequest, now: Time)
    requires r in rs
    ensures ProcessFast(cfg, ReadAll(s, coll, rs), coll, r, now) == ProcessDocument(cfg, s, coll, r, now)
  {
    if r.key != "" && r.lang != "" {
      assert GenID(coll, r.key, r.lang) in NamedIDs(coll, rs);
    }
  }

  /** The extreme mode as a whole: read at once, prepared by any number of workers in any order,
      uncancelled, and committed, a batch of distinct documents leaves what single adds leave. */
  lemma ConcurrentFastIsSequential(cfg: Config, s: Buckets, coll: string, rs: seq<BatchRequest>, now: Time,
                                   workers: nat, schedule: seq<WorkerPool.Event>, q: WorkerPool.Pool<Processed>)
    requires DistinctTargets(cfg, coll, rs) && workers > 0
    requires var f := (i: nat) =>
                        if i < |rs| then ProcessFast(cfg, ReadAll(s, coll, rs), coll, rs[i], now) else Refused;
             WorkerPool.Reaches(WorkerPool.Start<Processed>(|rs|, workers), schedule, q, f)
    requires WorkerPool.Finished(q) && !q.cancelled
    ensures |q.slots| == |rs| && forall i | 0 <= i < |rs| :: q.slots[i].Some?
    ensures CommitAll(cfg, s, coll, seq(|rs|, i requires 0 <= i < |rs| => q.slots[i].value), now)
            == WriteAll(cfg, s, coll, rs, now)
  {
    var f := (i: nat) => if i < |rs| then ProcessFast(cfg, ReadAll(s, coll, rs), coll, rs[i], now) else Refused;
    WorkerPool.UncancelledBatchIsComplete(|rs|, workers, schedule, q, f);
    forall i | 0 <= i < |rs| ensures q.slots[i] == Some(ProcessDocument(cfg, s, coll, rs[i], now)) {
      assert q.slots[i] == Some(f(i));
      FastIsStandard(cfg, s, coll, rs, rs[i], now);
    }
    assert seq(|rs|, i requires 0 <= i < |rs| => q.slots[i].value) == ProcessAll(cfg, s, coll, rs, now);
    BatchIsSequential(cfg, s, coll, rs, now);
  }
}
