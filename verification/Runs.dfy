/** Whole runs of transactions over the store, from any store they start with. */
module Runs {
  import opened ByteStrings
  import opened Keys
  import opened Store
  import opened Indexes
  import opened Batch
  import opened Revisions
  import opened BatchHistory

  /** The collection an operation works on. */
  function CollectionOf(op: Op): string { op.coll }

  /** Keys and languages that a write would store have no pipe. */
  ghost predicate PlainlyNamedOp(op: Op) {
    match op
    case OpAdd(_, r) => PlainlyNamedRequest(r)
    case OpBatchAdd(_, rs) => forall r | r in rs :: PlainlyNamedRequest(r)
    case _ => true
  }

  /** Metadata in the request has no pipe. */
  ghost predicate WellTaggedOp(op: Op) {
    match op
    case OpAdd(_, r) => PlainMeta(r.meta)
    case OpBatchAdd(_, rs) => forall r | r in rs :: PlainMeta(r.meta)
    case OpUpdate(_, _, _, p) => p.meta.Some? ==> PlainMeta(p.meta.value)
    case _ => true
  }

  ghost predicate PlainCollections(run: seq<Event>) {
    forall e | e in run :: Plain(CollectionOf(e.op))
  }

  ghost predicate PlainlyNamedRun(run: seq<Event>) {
    PlainCollections(run) && forall e | e in run :: PlainlyNamedOp(e.op)
  }

  ghost predicate WellTaggedRun(run: seq<Event>) {
    PlainCollections(run) && forall e | e in run :: WellTaggedOp(e.op)
  }

  // ---- names ---------------------------------------------------------------------------------

  lemma {:induction false} WriteAllKeepsNames(cfg: Config, s: Buckets, coll: string, rs: seq<BatchRequest>, now: Time)
    requires WellNamed(s) && Plain(coll)
    ensures var t := WriteAll(cfg, s, coll, rs, now);
            && WellNamed(t)
            && (PlainlyNamed(s) && (forall r | r in rs :: PlainlyNamedRequest(r)) ==> PlainlyNamed(t))
            && (WellTagged(s) && (forall r | r in rs :: PlainMeta(r.meta)) ==> WellTagged(t))
  {
    if rs != [] {
      var front, r := rs[..|rs| - 1], rs[|rs| - 1];
      assert rs == front + [r] && r in rs && forall q | q in front :: q in rs;
      WriteAllKeepsNames(cfg, s, coll, front, now);
      if Writable(cfg, coll, r) {
        WriteKeepsNames(cfg, WriteAll(cfg, s, coll, front, now), coll, r, now);
      }
    }
  }

  lemma SameDocsSameNames(s: Buckets, t: Buckets)
    requires s.docs == t.docs
    ensures WellNamed(s) ==> WellNamed(t)
    ensures (PlainlyNamed(s) <==> PlainlyNamed(t)) && (WellTagged(s) <==> WellTagged(t))
  {
    if WellNamed(s) {
      forall x | x in t.docs ensures NamedRight(x, t.docs[x]) {
        assert NamedRight(x, s.docs[x]);
      }
    }
  }

  lemma StepKeepsNames(cfg: Config, s: Buckets, op: Op, now: Time)
    requires WellNamed(s) && Plain(CollectionOf(op))
    ensures WellNamed(Step(cfg, s, op, now))
    ensures PlainlyNamed(s) && PlainlyNamedOp(op) ==> PlainlyNamed(Step(cfg, s, op, now))
    ensures WellTagged(s) && WellTaggedOp(op) ==> WellTagged(Step(cfg, s, op, now))
  {
    match op
    case OpAdd(c, r) =>
      if Accepted(cfg, c, r) {
        WriteKeepsNames(cfg, s, c, r, now);
      }
    case OpBatchAdd(c, rs) =>
      WriteAllKeepsNames(cfg, s, c, rs, now);
      AnyBatchAgreesOffIndex(cfg, s, c, rs, now);
      SameDocsSameNames(WriteAll(cfg, s, c, rs, now), BatchAdd(cfg, s, c, rs, now));
    case OpUpdate(c, k, l, p) =>
      if PatchAccepted(cfg, c, k, l, p) && Found(s, c, k, l, now).Some? {
        UpdateShape(cfg, s, c, k, l, p, now);
      }
    case OpDelete(c, k, l) =>
      if Target(c, k, l) in s.docs {
        DeleteIsOwned(s, c, k, l);
        RemoveKeepsNames(s, {Target(c, k, l)}, {ByKeyKey(c, k, l)});
      }
    case OpBatchDelete(c, ns) =>
      BatchDeleteIsOwned(s, c, ns);
      RemoveKeepsNames(s, HitDocs(s, c, ns), HitEntries(s, c, ns));
    case OpDeleteCollection(c) =>
      DeleteCollectionIsOwned(s, c);
      RemoveKeepsNames(s, CollectionKeys(s, c), EntriesIn(s, c));
    case OpTruncate(c, keep) =>
      SameDocsSameNames(s, Step(cfg, s, op, now));
  }

  lemma {:induction false} NamesAlways(s: Buckets, run: seq<Event>, n: nat)
    requires n <= |run| && WellNamed(s) && PlainCollections(run)
    ensures WellNamed(After(s, run, n))
    ensures PlainlyNamed(s) && PlainlyNamedRun(run) ==> PlainlyNamed(After(s, run, n))
    ensures WellTagged(s) && WellTaggedRun(run) ==> WellTagged(After(s, run, n))
  {
    if n > 0 {
      NamesAlways(s, run, n - 1);
      var e := run[n - 1];
      assert e in run;
      StepKeepsNames(e.cfg, After(s, run, n - 1), e.op, e.now);
    }
  }

  // ---- the metadata index stays exact exactly as long as every batch is tidy --------------------

  lemma WriteKeepsIndex(cfg: Config, s: Buckets, coll: string, r: AddRequest, now: Time)
    requires WellNamed(s) && Separate(s) && IndexExact(s) && Plain(coll)
    ensures IndexExact(Write(cfg, s, coll, r, now))
  {
    if Writable(cfg, coll, r) {
      WriteKeepsIndexIff(cfg, s, coll, r, now);
      SeparateUndisturbed(s, Target(coll, r.key, r.lang), MetaKeys(coll, r.meta, GenID(coll, r.key, r.lang)));
    }
  }

  lemma {:induction false} WriteAllKeepsIndex(cfg: Config, s: Buckets, coll: string, rs: seq<BatchRequest>, now: Time)
    requires WellNamed(s) && IndexExact(s) && Plain(coll) && PlainBatch(s, rs)
    ensures IndexExact(WriteAll(cfg, s, coll, rs, now))
  {
    if rs != [] {
      var front, r := rs[..|rs| - 1], rs[|rs| - 1];
      assert rs == front + [r] && forall q | q in front :: q in rs;
      WriteAllKeepsIndex(cfg, s, coll, front, now);
      WriteAllKeepsNames(cfg, s, coll, front, now);
      WriteKeepsIndex(cfg, WriteAll(cfg, s, coll, front, now), coll, r, now);
    }
  }

  /** The documents determine an exact index. */
  lemma SameDocsSameIndex(s: Buckets, t: Buckets)
    requires s.docs == t.docs && IndexExact(t)
    ensures IndexExact(s) <==> s.idx == t.idx
  {
    if IndexExact(s) {
      forall k ensures k in s.idx <==> k in t.idx {
        assert k in s.idx <==> exists dk :: dk in s.docs && k in KeysOwned(s.docs, dk);
      }
    }
  }

  /** A batch keeps the metadata index exact exactly when its versions are covered. */
  lemma BatchKeepsIndexIff(cfg: Config, s: Buckets, coll: string, rs: seq<BatchRequest>, now: Time)
    requires WellNamed(s) && IndexExact(s) && Plain(coll) && PlainBatch(s, rs)
    ensures IndexExact(BatchAdd(cfg, s, coll, rs, now)) <==> Tidy(cfg, s, coll, rs)
  {
    PlainKeysApart(cfg, s, coll, rs);
    BatchAgreesIff(cfg, s, coll, rs, now);
    AnyBatchAgreesOffIndex(cfg, s, coll, rs, now);
    WriteAllKeepsIndex(cfg, s, coll, rs, now);
    SameDocsSameIndex(BatchAdd(cfg, s, coll, rs, now), WriteAll(cfg, s, coll, rs, now));
  }

  ghost predicate TidyOp(cfg: Config, s: Buckets, op: Op) {
    op.OpBatchAdd? ==> Tidy(cfg, s, op.coll, op.reqs)
  }

  lemma UpdateKeepsIndex(cfg: Config, s: Buckets, coll: string, key: string, lang: string, p: Patch, now: Time)
    requires WellNamed(s) && Separate(s) && IndexExact(s) && Plain(coll)
    ensures IndexExact(Update(cfg, s, coll, key, lang, p, now))
  {
    if PatchAccepted(cfg, coll, key, lang, p) && Found(s, coll, key, lang, now).Some? {
      UpdateKeepsIndexIff(cfg, s, coll, key, lang, p, now);
      var f := Found(s, coll, key, lang, now).value;
      SeparateUndisturbed(s, DocKey(coll, f.id), MetaKeys(coll, Patched(f, p, now).meta, f.id));
    }
  }

  lemma RemovalKeepsIndex(cfg: Config, s: Buckets, op: Op, now: Time)
    requires WellNamed(s) && Separate(s) && IndexExact(s) && Plain(CollectionOf(op))
    requires op.OpDelete? || op.OpBatchDelete? || op.OpDeleteCollection?
    ensures IndexExact(Step(cfg, s, op, now))
  {
    match op
    case OpDelete(c, k, l) =>
      if Target(c, k, l) in s.docs {
        DeleteIsOwned(s, c, k, l);
        RemoveKeepsIndex(s, {Target(c, k, l)}, {ByKeyKey(c, k, l)});
      }
    case OpBatchDelete(c, ns) =>
      BatchDeleteIsOwned(s, c, ns);
      RemoveKeepsIndex(s, HitDocs(s, c, ns), HitEntries(s, c, ns));
    case OpDeleteCollection(c) =>
      DeleteCollectionIsOwned(s, c);
      RemoveKeepsIndex(s, CollectionKeys(s, c), EntriesIn(s, c));
  }

  lemma StepKeepsIndexIff(cfg: Config, s: Buckets, op: Op, now: Time)
    requires WellNamed(s) && IndexExact(s) && Plain(CollectionOf(op))
    requires (PlainlyNamed(s) && PlainlyNamedOp(op)) || (WellTagged(s) && WellTaggedOp(op))
    ensures IndexExact(Step(cfg, s, op, now)) <==> TidyOp(cfg, s, op)
  {
    match op
    case OpAdd(c, r) => WriteKeepsIndex(cfg, s, c, r, now);
    case OpBatchAdd(c, rs) => BatchKeepsIndexIff(cfg, s, c, rs, now);
    case OpUpdate(c, k, l, p) => UpdateKeepsIndex(cfg, s, c, k, l, p, now);
    case OpTruncate(c, keep) => SameDocsSameIndex(Step(cfg, s, op, now), s);
    case _ => RemovalKeepsIndex(cfg, s, op, now);
  }

  /** The index is exact at the start and after each of the first n transactions. */
  ghost predicate ExactThrough(s: Buckets, run: seq<Event>, n: nat)
    requires n <= |run|
  {
    IndexExact(After(s, run, n)) && (n > 0 ==> ExactThrough(s, run, n - 1))
  }

  /** Each batch among the first n transactions is tidy for the store it meets. */
  ghost predicate TidyThrough(s: Buckets, run: seq<Event>, n: nat)
    requires n <= |run|
  {
    n > 0 ==> TidyThrough(s, run, n - 1) && TidyOp(run[n - 1].cfg, After(s, run, n - 1), run[n - 1].op)
  }

  ghost predicate PlainStart(s: Buckets, run: seq<Event>) {
    WellNamed(s) && ((PlainlyNamed(s) && PlainlyNamedRun(run)) || (WellTagged(s) && WellTaggedRun(run)))
  }

  /** In every run whose collections are pipe-free, and whose names or whose metadata are, `idxmeta`
      holds exactly the keys of the stored documents after every transaction if and only if it did
      at the start and every batch is tidy. */
  lemma {:induction false} IndexExactIff(s: Buckets, run: seq<Event>, n: nat)
    requires n <= |run| && PlainStart(s, run)
    ensures ExactThrough(s, run, n) <==> IndexExact(s) && TidyThrough(s, run, n)
  {
    if n > 0 {
      IndexExactIff(s, run, n - 1);
      var e := run[n - 1];
      assert e in run;
      NamesAlways(s, run, n - 1);
      if ExactThrough(s, run, n - 1) {
        StepKeepsIndexIff(e.cfg, After(s, run, n - 1), e.op, e.now);
      }
    }
  }

  // ---- the key index agrees exactly as long as nothing is re-spelled ----------------------------

  /** Requests of the batch spell each document as it is stored and as the others do. */
  ghost predicate AllSpelled(cfg: Config, s: Buckets, coll: string, rs: seq<BatchRequest>) {
    && (forall r | r in rs && Writable(cfg, coll, r) :: SameSpelling(s, coll, r.key, r.lang))
    && (forall r, q | r in rs && q in rs && Writable(cfg, coll, r) && Writable(cfg, coll, q)
                      && GenID(coll, r.key, r.lang) == GenID(coll, q.key, q.lang) ::
          Joined(r.key, r.lang) == Joined(q.key, q.lang))
  }

  /** Two spellings of one document both have entries. */
  ghost predicate TwoEntries(s: Buckets, coll: string, n: Name, m: Name) {
    && ByKeyKey(coll, n.key, n.lang) in s.byKey && ByKeyKey(coll, m.key, m.lang) in s.byKey
    && Joined(n.key, n.lang) != Joined(m.key, m.lang)
    && GenID(coll, n.key, n.lang) == GenID(coll, m.key, m.lang)
  }

  lemma TwoEntriesDisagree(s: Buckets, coll: string, n: Name, m: Name)
    requires WellNamed(s) && Plain(coll) && TwoEntries(s, coll, n, m)
    ensures !KeysAgree(s)
  {
    if KeysAgree(s) {
      var ent := Entries(s.docs);
      var x :| x in ent && ByKeyKey(coll, n.key, n.lang) == ent[x].0;
      var y :| y in ent && ByKeyKey(coll, m.key, m.lang) == ent[y].0;
      EntryOfTarget(s, x, coll, n.key, n.lang);
      EntryOfTarget(s, y, coll, m.key, m.lang);
    }
  }

  lemma {:induction false} EntriesGrow(cfg: Config, s: Buckets, coll: string, rs: seq<BatchRequest>, now: Time)
    ensures s.byKey.Keys <= WriteAll(cfg, s, coll, rs, now).byKey.Keys
    ensures forall r | r in rs && Writable(cfg, coll, r) ::
              ByKeyKey(coll, r.key, r.lang) in WriteAll(cfg, s, coll, rs, now).byKey
  {
    if rs != [] {
      var front, r := rs[..|rs| - 1], rs[|rs| - 1];
      assert rs == front + [r];
      EntriesGrow(cfg, s, coll, front, now);
    }
  }

  /** What the batch wrote last for a document is spelled as all its requests for it. */
  lemma {:induction false} SpelledAsWritten(cfg: Config, s: Buckets, coll: string, rs: seq<BatchRequest>, now: Time,
                                            q: BatchRequest)
    requires WellNamed(s) && Plain(coll) && AllSpelled(cfg, s, coll, rs) && q in rs && Writable(cfg, coll, q)
    ensures var t, dk := WriteAll(cfg, s, coll, rs, now), Target(coll, q.key, q.lang);
            dk in t.docs && JoinedName(t.docs[dk]) == Joined(q.key, q.lang)
  {
    var front, r := rs[..|rs| - 1], rs[|rs| - 1];
    assert rs == front + [r] && r in rs;
    WriteAllKeepsNames(cfg, s, coll, front, now);
    if Writable(cfg, coll, r) && Target(coll, r.key, r.lang) == Target(coll, q.key, q.lang) {
      SameKeySameID(coll, GenID(coll, r.key, r.lang), GenID(coll, q.key, q.lang));
    } else {
      assert q in front && AllSpelled(cfg, s, coll, front);
      SpelledAsWritten(cfg, s, coll, front, now, q);
    }
  }

  lemma {:induction false} SpelledBatchAgrees(cfg: Config, s: Buckets, coll: string, rs: seq<BatchRequest>, now: Time)
    requires WellNamed(s) && KeysAgree(s) && Plain(coll) && AllSpelled(cfg, s, coll, rs)
    ensures KeysAgree(WriteAll(cfg, s, coll, rs, now))
  {
    if rs != [] {
      var front, r := rs[..|rs| - 1], rs[|rs| - 1];
      assert rs == front + [r] && r in rs && AllSpelled(cfg, s, coll, front);
      SpelledBatchAgrees(cfg, s, coll, front, now);
      WriteAllKeepsNames(cfg, s, coll, front, now);
      var b := WriteAll(cfg, s, coll, front, now);
      if Writable(cfg, coll, r) {
        SpelledNext(cfg, s, coll, front, r, now);
        WriteKeepsKeysIff(cfg, b, coll, r, now);
      }
    }
  }

  lemma SpelledNext(cfg: Config, s: Buckets, coll: string, front: seq<BatchRequest>, r: BatchRequest, now: Time)
    requires WellNamed(s) && Plain(coll) && AllSpelled(cfg, s, coll, front + [r]) && Writable(cfg, coll, r)
    ensures SameSpelling(WriteAll(cfg, s, coll, front, now), coll, r.key, r.lang)
  {
    var id := GenID(coll, r.key, r.lang);
    assert r in front + [r];
    if Unnamed(cfg, coll, front, id) {
      UnnamedStays(cfg, s, coll, front, now, id);
    } else {
      var q :| q in front && Writable(cfg, coll, q) && GenID(coll, q.key, q.lang) == id;
      assert q in front + [r] && AllSpelled(cfg, s, coll, front);
      SpelledAsWritten(cfg, s, coll, front, now, q);
    }
  }

  /** A batch, whatever it repeats, keeps `bykey` in agreement exactly when it spells each document
      in one way, the stored one if there is one. */
  lemma BatchKeepsKeysIff(cfg: Config, s: Buckets, coll: string, rs: seq<BatchRequest>, now: Time)
    requires WellNamed(s) && KeysAgree(s) && Plain(coll)
    ensures KeysAgree(WriteAll(cfg, s, coll, rs, now)) <==> AllSpelled(cfg, s, coll, rs)
  {
    var t := WriteAll(cfg, s, coll, rs, now);
    if AllSpelled(cfg, s, coll, rs) {
      SpelledBatchAgrees(cfg, s, coll, rs, now);
    } else {
      EntriesGrow(cfg, s, coll, rs, now);
      WriteAllKeepsNames(cfg, s, coll, rs, now);
      if r :| r in rs && Writable(cfg, coll, r) && !SameSpelling(s, coll, r.key, r.lang) {
        StoredEntry(s, coll, r.key, r.lang);
        var d := s.docs[Target(coll, r.key, r.lang)];
        TwoEntriesDisagree(t, coll, Name(d.key, d.lang), Name(r.key, r.lang));
      } else {
        var r, q :| r in rs && q in rs && Writable(cfg, coll, r) && Writable(cfg, coll, q)
          && GenID(coll, r.key, r.lang) == GenID(coll, q.key, q.lang) && Joined(r.key, r.lang) != Joined(q.key, q.lang);
        TwoEntriesDisagree(t, coll, Name(r.key, r.lang), Name(q.key, q.lang));
      }
    }
  }

  lemma StoredEntry(s: Buckets, coll: string, key: string, lang: string)
    requires WellNamed(s) && KeysAgree(s) && Plain(coll) && Target(coll, key, lang) in s.docs
    ensures var d := s.docs[Target(coll, key, lang)];
            ByKeyKey(coll, d.key, d.lang) in s.byKey && GenID(coll, d.key, d.lang) == GenID(coll, key, lang)
  {
    var dk := Target(coll, key, lang);
    StoredUnderID(s, coll, GenID(coll, key, lang));
    assert NamedRight(dk, s.docs[dk]);
    assert Entries(s.docs)[dk].0 in s.byKey;
  }

  /** The operation spells every name it meets as it is stored. */
  ghost predicate SpelledRight(cfg: Config, s: Buckets, op: Op) {
    match op
    case OpAdd(c, r) => Accepted(cfg, c, r) ==> SameSpelling(s, c, r.key, r.lang)
    case OpBatchAdd(c, rs) => AllSpelled(cfg, s, c, rs)
    case OpDelete(c, k, l) => SameSpelling(s, c, k, l)
    case OpBatchDelete(c, ns) => SpelledOnce(s, c, ns)
    case _ => true
  }

  lemma StepKeepsKeysIff(cfg: Config, s: Buckets, op: Op, now: Time)
    requires WellNamed(s) && KeysAgree(s) && Plain(CollectionOf(op))
    ensures KeysAgree(Step(cfg, s, op, now)) <==> SpelledRight(cfg, s, op)
  {
    match op
    case OpAdd(c, r) =>
      if Accepted(cfg, c, r) {
        WriteKeepsKeysIff(cfg, s, c, r, now);
      }
    case OpBatchAdd(c, rs) =>
      AnyBatchAgreesOffIndex(cfg, s, c, rs, now);
      BatchKeepsKeysIff(cfg, s, c, rs, now);
    case OpUpdate(c, k, l, p) => UpdateKeepsKeys(cfg, s, c, k, l, p, now);
    case OpDelete(c, k, l) => DeleteKeepsKeysIff(s, c, k, l);
    case OpBatchDelete(c, ns) => BatchDeleteKeepsKeysIff(s, c, ns);
    case OpDeleteCollection(c) =>
      if c != "" {
        DeleteCollectionKeepsKeys(s, c);
      }
    case OpTruncate(c, keep) =>
      assert Step(cfg, s, op, now).docs == s.docs && Step(cfg, s, op, now).byKey == s.byKey;
  }

  /** `bykey` agrees with `docs` at the start and after each of the first n transactions. */
  ghost predicate AgreesThrough(s: Buckets, run: seq<Event>, n: nat)
    requires n <= |run|
  {
    KeysAgree(After(s, run, n)) && (n > 0 ==> AgreesThrough(s, run, n - 1))
  }

  /** Each of the first n transactions spells the names it meets as they are stored then. */
  ghost predicate SpelledThrough(s: Buckets, run: seq<Event>, n: nat)
    requires n <= |run|
  {
    n > 0 ==> SpelledThrough(s, run, n - 1) && SpelledRight(run[n - 1].cfg, After(s, run, n - 1), run[n - 1].op)
  }

  /** `docs` and `bykey` stay one-to-one through a run exactly when they were so at the start and
      every transaction spells the names it meets as they are stored. */
  lemma {:induction false} KeysAgreeIff(s: Buckets, run: seq<Event>, n: nat)
    requires n <= |run| && WellNamed(s) && PlainCollections(run)
    ensures AgreesThrough(s, run, n) <==> KeysAgree(s) && SpelledThrough(s, run, n)
  {
    if n > 0 {
      KeysAgreeIff(s, run, n - 1);
      var e := run[n - 1];
      assert e in run;
      NamesAlways(s, run, n - 1);
      if AgreesThrough(s, run, n - 1) {
        StepKeepsKeysIff(e.cfg, After(s, run, n - 1), e.op, e.now);
      }
    }
  }

  // ---- the newest revision is the document exactly as long as every write is recorded -------------

  /** Every write the operation makes is recorded, and nothing it deletes, trims or truncates takes
      the newest revision of a document that stays. */
  ghost predicate Recorded(cfg: Config, s: Buckets, op: Op, now: Time) {
    match op
    case OpAdd(c, r) => Accepted(cfg, c, r) ==> WriteRecorded(cfg, s, c, r, now)
    case OpBatchAdd(c, rs) =>
      if Untrimmed(cfg, s, c, rs) then BatchKept(cfg, s, c, rs, now) else BatchRecorded(cfg, s, c, rs, now)
    case OpUpdate(c, k, l, p) =>
      var f := Found(s, c, k, l, now);
      PatchAccepted(cfg, c, k, l, p) && f.Some? ==>
        f.value.updatedAt <= now && WriteSpares(cfg, s, c, Patched(f.value, p, now), now)
    case OpDelete(c, k, l) => Target(c, k, l) in s.docs ==> NoneBegun(s, {Target(c, k, l)})
    case OpBatchDelete(c, ns) => NoneBegun(s, HitDocs(s, c, ns))
    case OpTruncate(c, keep) =>
      c != "" && keep >= 0 ==> forall x | x in CollectionKeys(s, c) :: CutsSpare(s, c, keep, x)
    case _ => true
  }

  lemma StepKeepsHistoryIff(cfg: Config, s: Buckets, op: Op, now: Time)
    requires WellNamed(s) && HistorySound(s) && Plain(CollectionOf(op))
    ensures HistorySound(Step(cfg, s, op, now)) <==> Recorded(cfg, s, op, now)
  {
    match op
    case OpAdd(c, r) =>
      if Accepted(cfg, c, r) {
        WriteKeepsHistoryIff(cfg, s, c, r, now);
      }
    case OpBatchAdd(c, rs) =>
      AnyBatchAgreesOffIndex(cfg, s, c, rs, now);
      SameHistory(WriteAll(cfg, s, c, rs, now), BatchAdd(cfg, s, c, rs, now));
      if Untrimmed(cfg, s, c, rs) {
        UntrimmedBatchIff(cfg, s, c, rs, now);
      } else {
        BatchKeepsHistoryIff(cfg, s, c, rs, now);
      }
    case OpUpdate(c, k, l, p) =>
      if PatchAccepted(cfg, c, k, l, p) && Found(s, c, k, l, now).Some? {
        UpdateKeepsHistoryIff(cfg, s, c, k, l, p, now);
      }
    case OpDelete(c, k, l) =>
      if Target(c, k, l) in s.docs {
        DeleteIsOwned(s, c, k, l);
        RemoveKeepsHistoryIff(s, {Target(c, k, l)}, {ByKeyKey(c, k, l)});
      }
    case OpBatchDelete(c, ns) =>
      BatchDeleteIsOwned(s, c, ns);
      RemoveKeepsHistoryIff(s, HitDocs(s, c, ns), HitEntries(s, c, ns));
    case OpDeleteCollection(c) =>
      DeleteCollectionKeepsHistory(s, c);
    case OpTruncate(c, keep) =>
      TruncateKeepsHistoryIff(s, c, keep);
  }

  /** At the start and after each of the first n transactions every newest revision is its document. */
  ghost predicate SoundThrough(s: Buckets, run: seq<Event>, n: nat)
    requires n <= |run|
  {
    HistorySound(After(s, run, n)) && (n > 0 ==> SoundThrough(s, run, n - 1))
  }

  ghost predicate RecordedThrough(s: Buckets, run: seq<Event>, n: nat)
    requires n <= |run|
  {
    n > 0 ==>
      && RecordedThrough(s, run, n - 1)
      && Recorded(run[n - 1].cfg, After(s, run, n - 1), run[n - 1].op, run[n - 1].now)
  }

  /** The newest revision of every stored document is that document, at every point of a run,
      exactly when it was at the start and every transaction of the run is recorded. */
  lemma {:induction false} HistorySoundIff(s: Buckets, run: seq<Event>, n: nat)
    requires n <= |run| && WellNamed(s) && PlainCollections(run)
    ensures SoundThrough(s, run, n) <==> HistorySound(s) && RecordedThrough(s, run, n)
  {
    if n > 0 {
      HistorySoundIff(s, run, n - 1);
      var e := run[n - 1];
      assert e in run;
      NamesAlways(s, run, n - 1);
      if SoundThrough(s, run, n - 1) {
        StepKeepsHistoryIff(e.cfg, After(s, run, n - 1), e.op, e.now);
      }
    }
  }

  /** The empty store is a fair start for all three. */
  lemma EmptyStart()
    ensures WellNamed(EMPTY) && PlainlyNamed(EMPTY) && WellTagged(EMPTY)
    ensures IndexExact(EMPTY) && KeysAgree(EMPTY) && HistorySound(EMPTY)
  {
  }
}
