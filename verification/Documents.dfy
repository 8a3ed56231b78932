/** What a stored document says: its fields after one request and over whole runs, told by the
    requests themselves, and until when it is found. */
module Documents {
  import opened ByteStrings
  import opened Keys
  import opened Store
  import opened Indexes
  import opened Batch
  import opened BatchHistory
  import opened Runs
  import opened Search

  // ---- what requests say -----------------------------------------------------------------------

  /** What a request says of a document, or what is known of it; nothing said of a field is None. */
  datatype Words = Words(name: Option<Name>, meta: Option<Meta>, content: Option<string>, expiresAt: Option<int>,
                         updatedAt: Option<int>)

  const SILENT := Words(None, None, None, None, None)

  function Newer<T>(later: Option<T>, earlier: Option<T>): Option<T> { if later.Some? then later else earlier }

  /** The newer words, and the older ones where those are silent. */
  function Over(newer: Words, older: Words): Words {
    Words(Newer(newer.name, older.name), Newer(newer.meta, older.meta), Newer(newer.content, older.content),
          Newer(newer.expiresAt, older.expiresAt), Newer(newer.updatedAt, older.updatedAt))
  }

  /** All that a document says but its id and when it was first added. */
  function Fields(d: Doc): Words {
    Words(Some(Name(d.key, d.lang)), Some(d.meta), Some(d.content), Some(d.expiresAt), Some(d.updatedAt))
  }

  /** Key, language and metadata that a write accepts. */
  ghost predicate Taken(cfg: Config, coll: string, r: AddRequest) {
    r.key != "" && r.lang != "" && cfg.schema(coll, r.meta)
  }

  ghost function Deadline(ttl: int, now: Time): int { if ttl > 0 then now + ttl else 0 }

  function Wording(r: AddRequest, deadline: int, now: Time): Words {
    Words(Some(Name(r.key, r.lang)), Some(r.meta), Some(r.content), Some(deadline), Some(now))
  }

  /** The last request of a batch for a document has the word. */
  ghost function BatchSays(cfg: Config, coll: string, rs: seq<BatchRequest>, now: Time, dk: string): Words {
    if rs == [] then SILENT
    else
      var r := rs[|rs| - 1];
      if Taken(cfg, coll, r) && Target(coll, r.key, r.lang) == dk then Wording(r, 0, now)
      else BatchSays(cfg, coll, rs[..|rs| - 1], now, dk)
  }

  /** An update reaches the document its key-index entry leads to, unless that has expired. */
  ghost predicate Reaches(cfg: Config, s: Buckets, coll: string, key: string, lang: string, p: Patch, now: Time,
                          dk: string)
  {
    && coll != "" && key != "" && lang != "" && (p.meta.Some? || p.content.Some? || p.ttl.Some?)
    && (p.meta.Some? ==> cfg.schema(coll, p.meta.value))
    && ByKeyKey(coll, key, lang) in s.byKey && DocKey(coll, s.byKey[ByKeyKey(coll, key, lang)]) == dk
    && dk in s.docs && (s.docs[dk].expiresAt <= 0 || now <= s.docs[dk].expiresAt)
  }

  ghost function PatchWording(p: Patch, now: Time): Words {
    Words(None, p.meta, p.content, if p.ttl.Some? then Some(Deadline(p.ttl.value, now)) else None, Some(now))
  }

  /** What a transaction says of a document. */
  ghost function Says(cfg: Config, s: Buckets, op: Op, now: Time, dk: string): Words {
    match op
    case OpAdd(c, r) =>
      if c != "" && Taken(cfg, c, r) && Target(c, r.key, r.lang) == dk
      then Wording(r, Deadline(r.ttl, now), now) else SILENT
    case OpBatchAdd(c, rs) => BatchSays(cfg, c, rs, now, dk)
    case OpUpdate(c, k, l, p) => if Reaches(cfg, s, c, k, l, p, now, dk) then PatchWording(p, now) else SILENT
    case _ => SILENT
  }

  /** A transaction writes the document anew, whether or not it was there. */
  ghost predicate Writes(cfg: Config, op: Op, dk: string) {
    match op
    case OpAdd(c, r) => c != "" && Taken(cfg, c, r) && Target(c, r.key, r.lang) == dk
    case OpBatchAdd(c, rs) => Names(cfg, c, rs, dk)
    case _ => false
  }

  ghost predicate Names(cfg: Config, coll: string, rs: seq<BatchRequest>, dk: string) {
    exists r :: r in rs && Taken(cfg, coll, r) && Target(coll, r.key, r.lang) == dk
  }

  /** A transaction takes the document away. */
  ghost predicate TakesAway(op: Op, dk: string) {
    match op
    case OpDelete(c, k, l) => Target(c, k, l) == dk
    case OpBatchDelete(c, ns) => Named(c, ns, dk)
    case OpDeleteCollection(c) => c != "" && DocPrefix(c) <= dk
    case _ => false
  }

  /** A transaction says nothing of the document and leaves it in place. */
  ghost predicate Quiet(cfg: Config, s: Buckets, op: Op, now: Time, dk: string) {
    !TakesAway(op, dk) && !Writes(cfg, op, dk) && Says(cfg, s, op, now, dk) == SILENT
  }

  // ---- one transaction ------------------------------------------------------------------------------

  /** The document is as it was. */
  ghost predicate Untouched(s: Buckets, t: Buckets, dk: string) {
    (dk in t.docs <==> dk in s.docs) && (dk in s.docs ==> t.docs[dk] == s.docs[dk])
  }

  /** A document that stays keeps the time of its first add, unless that is 0. */
  ghost predicate KeepsAddedAt(s: Buckets, t: Buckets, dk: string, now: Time) {
    dk in t.docs ==> t.docs[dk].addedAt == if dk in s.docs && s.docs[dk].addedAt != 0 then s.docs[dk].addedAt else now
  }

  lemma WriteSays(cfg: Config, s: Buckets, coll: string, r: AddRequest, now: Time, dk: string)
    ensures var t := Write(cfg, s, coll, r, now);
            if Taken(cfg, coll, r) && Target(coll, r.key, r.lang) == dk
            then && dk in t.docs && Fields(t.docs[dk]) == Wording(r, Deadline(r.ttl, now), now)
                 && KeepsAddedAt(s, t, dk, now)
            else Untouched(s, t, dk)
  {
  }

  lemma NamesOneMore(cfg: Config, coll: string, front: seq<BatchRequest>, r: BatchRequest, dk: string)
    ensures Names(cfg, coll, front + [r], dk)
            <==> Names(cfg, coll, front, dk) || (Taken(cfg, coll, r) && Target(coll, r.key, r.lang) == dk)
  {
    if q :| q in front && Taken(cfg, coll, q) && Target(coll, q.key, q.lang) == dk {
      assert q in front + [r];
    }
    assert r in front + [r];
  }

  lemma {:induction false} WriteAllSays(cfg: Config, s: Buckets, coll: string, rs: seq<BatchRequest>, now: Time,
                                        dk: string)
    ensures var t := WriteAll(cfg, s, coll, rs, now);
            if Names(cfg, coll, rs, dk)
            then && dk in t.docs && Fields(t.docs[dk]) == BatchSays(cfg, coll, rs, now, dk)
                 && KeepsAddedAt(s, t, dk, now)
            else Untouched(s, t, dk) && BatchSays(cfg, coll, rs, now, dk) == SILENT
  {
    if rs != [] {
      var front, r := rs[..|rs| - 1], rs[|rs| - 1];
      WriteAllSays(cfg, s, coll, front, now, dk);
      WriteSays(cfg, WriteAll(cfg, s, coll, front, now), coll, r, now, dk);
      assert rs == front + [r];
      NamesOneMore(cfg, coll, front, r, dk);
    }
  }

  /** After a batch a document is as the last accepted request for it says; its other requests leave nothing
      but the time of the first add. */
  lemma BatchStores(cfg: Config, s: Buckets, coll: string, rs: seq<BatchRequest>, now: Time, i: nat)
    requires i < |rs| && rs[i].key != "" && rs[i].lang != "" && cfg.schema(coll, rs[i].meta)
    requires forall j | i < j < |rs| && GenID(coll, rs[j].key, rs[j].lang) == GenID(coll, rs[i].key, rs[i].lang) ::
               rs[j].key == "" || rs[j].lang == "" || !cfg.schema(coll, rs[j].meta)
    ensures var t, r, dk := BatchAdd(cfg, s, coll, rs, now), rs[i], DocKey(coll, GenID(coll, rs[i].key, rs[i].lang));
            && dk in t.docs && t.docs[dk].key == r.key && t.docs[dk].lang == r.lang
            && t.docs[dk].meta == r.meta && t.docs[dk].content == r.content
            && t.docs[dk].updatedAt == now && t.docs[dk].expiresAt == 0
            && t.docs[dk].addedAt == if dk in s.docs && s.docs[dk].addedAt != 0 then s.docs[dk].addedAt else now
  {
    var dk := Target(coll, rs[i].key, rs[i].lang);
    AnyBatchAgreesOffIndex(cfg, s, coll, rs, now);
    WriteAllSays(cfg, s, coll, rs, now, dk);
    LastHasTheWord(cfg, coll, rs, now, i);
    assert rs[i] in rs && Names(cfg, coll, rs, dk);
  }

  lemma {:induction false} LastHasTheWord(cfg: Config, coll: string, rs: seq<BatchRequest>, now: Time, i: nat)
    requires i < |rs| && Taken(cfg, coll, rs[i])
    requires forall j | i < j < |rs| && GenID(coll, rs[j].key, rs[j].lang) == GenID(coll, rs[i].key, rs[i].lang) ::
               !Taken(cfg, coll, rs[j])
    ensures BatchSays(cfg, coll, rs, now, Target(coll, rs[i].key, rs[i].lang)) == Wording(rs[i], 0, now)
  {
    if i < |rs| - 1 {
      var front, last := rs[..|rs| - 1], rs[|rs| - 1];
      LastHasTheWord(cfg, coll, front, now, i);
      if Target(coll, last.key, last.lang) == Target(coll, rs[i].key, rs[i].lang) {
        SameKeySameID(coll, GenID(coll, last.key, last.lang), GenID(coll, rs[i].key, rs[i].lang));
      }
    }
  }

  /** Each transaction leaves of each document what it says, and the rest as it was. */
  lemma StepSays(cfg: Config, s: Buckets, op: Op, now: Time, dk: string)
    requires WellNamed(s) && Plain(CollectionOf(op))
    ensures var t := Step(cfg, s, op, now);
            if TakesAway(op, dk) then dk !in t.docs
            else if Writes(cfg, op, dk) then dk in t.docs && Fields(t.docs[dk]) == Says(cfg, s, op, now, dk)
            else && (dk in t.docs <==> dk in s.docs)
                 && (dk in s.docs ==> && Fields(t.docs[dk]) == Over(Says(cfg, s, op, now, dk), Fields(s.docs[dk]))
                                      && t.docs[dk].addedAt == s.docs[dk].addedAt)
    ensures Writes(cfg, op, dk) ==> KeepsAddedAt(s, Step(cfg, s, op, now), dk, now)
    ensures Quiet(cfg, s, op, now, dk) ==> Untouched(s, Step(cfg, s, op, now), dk)
  {
    match op
    case OpAdd(c, r) => WriteSays(cfg, s, c, r, now, dk);
    case OpBatchAdd(c, rs) =>
      AnyBatchAgreesOffIndex(cfg, s, c, rs, now);
      WriteAllSays(cfg, s, c, rs, now, dk);
    case OpUpdate(c, k, l, p) => UpdateSays(cfg, s, c, k, l, p, now, dk);
    case OpDelete(c, k, l) =>
    case OpBatchDelete(c, ns) => NamedGo(s, c, ns);
    case OpDeleteCollection(c) =>
    case OpTruncate(c, keep) =>
  }

  lemma UpdateSays(cfg: Config, s: Buckets, coll: string, key: string, lang: string, p: Patch, now: Time, dk: string)
    requires WellNamed(s) && Plain(coll)
    ensures var t := Update(cfg, s, coll, key, lang, p, now);
            if Reaches(cfg, s, coll, key, lang, p, now, dk)
            then && dk in t.docs && Fields(t.docs[dk]) == Over(PatchWording(p, now), Fields(s.docs[dk]))
                 && t.docs[dk].addedAt == s.docs[dk].addedAt
            else Untouched(s, t, dk)
  {
    if PatchAccepted(cfg, coll, key, lang, p) && Found(s, coll, key, lang, now).Some? {
      UpdateShape(cfg, s, coll, key, lang, p, now);
      var f := Found(s, coll, key, lang, now).value;
      var at := DocKey(coll, s.byKey[ByKeyKey(coll, key, lang)]);
      CollOfDocKey(coll, s.byKey[ByKeyKey(coll, key, lang)]);
      assert NamedRight(at, f);
    }
  }

  // ---- whole runs ---------------------------------------------------------------------------------------

  /** What the requests of a run tell of a document in the end; None when it is not there. */
  ghost function Told(s: Buckets, run: seq<Event>, n: nat, dk: string): Option<Words>
    requires n <= |run|
  {
    if n == 0 then (if dk in s.docs then Some(Fields(s.docs[dk])) else None)
    else
      var e, b, before := run[n - 1], After(s, run, n - 1), Told(s, run, n - 1, dk);
      if TakesAway(e.op, dk) then None
      else if Writes(e.cfg, e.op, dk) then Some(Says(e.cfg, b, e.op, e.now, dk))
      else if before.Some? then Some(Over(Says(e.cfg, b, e.op, e.now, dk), before.value))
      else None
  }

  /** After every run in pipe-free collections a document is stored exactly when a request has written
      it, or it was there at first, and none has taken it away since; and each of its fields is as the
      last request set it that said anything of the field. */
  lemma {:induction false} StoredIsTold(s: Buckets, run: seq<Event>, n: nat, dk: string)
    requires n <= |run| && WellNamed(s) && PlainCollections(run)
    ensures var t := After(s, run, n);
            Told(s, run, n, dk) == if dk in t.docs then Some(Fields(t.docs[dk])) else None
  {
    if n > 0 {
      StoredIsTold(s, run, n - 1, dk);
      NamesAlways(s, run, n - 1);
      var e := run[n - 1];
      assert e in run;
      StepSays(e.cfg, After(s, run, n - 1), e.op, e.now, dk);
    }
  }

  /** No transaction from number i on concerns the document. */
  ghost predicate LeftAlone(s: Buckets, run: seq<Event>, i: nat, n: nat, dk: string)
    requires i <= n <= |run|
  {
    n > i ==> LeftAlone(s, run, i, n - 1, dk)
              && Quiet(run[n - 1].cfg, After(s, run, n - 1), run[n - 1].op, run[n - 1].now, dk)
  }

  lemma QuietEvent(s: Buckets, run: seq<Event>, n: nat, dk: string)
    requires n < |run| && WellNamed(s) && PlainCollections(run)
    requires Quiet(run[n].cfg, After(s, run, n), run[n].op, run[n].now, dk)
    ensures Untouched(After(s, run, n), After(s, run, n + 1), dk)
  {
    NamesAlways(s, run, n);
    var e := run[n];
    assert e in run;
    StepSays(e.cfg, After(s, run, n), e.op, e.now, dk);
  }

  lemma UntouchedTwice(a: Buckets, b: Buckets, c: Buckets, dk: string)
    requires Untouched(a, b, dk) && Untouched(b, c, dk)
    ensures Untouched(a, c, dk)
  {
  }

  /** Until a request concerns it a document stays what it is. */
  lemma {:induction false} StaysUntilTold(s: Buckets, run: seq<Event>, i: nat, n: nat, dk: string)
    requires i <= n <= |run| && WellNamed(s) && PlainCollections(run) && LeftAlone(s, run, i, n, dk)
    ensures Untouched(After(s, run, i), After(s, run, n), dk)
    decreases n
  {
    if n > i {
      StaysUntilTold(s, run, i, n - 1, dk);
      QuietEvent(s, run, n - 1, dk);
      UntouchedTwice(After(s, run, i), After(s, run, n - 1), After(s, run, n), dk);
    }
  }

  /** No transaction takes the document away. */
  ghost predicate NeverTaken(run: seq<Event>, n: nat, dk: string)
    requires n <= |run|
  {
    n > 0 ==> NeverTaken(run, n - 1, dk) && !TakesAway(run[n - 1].op, dk)
  }

  /** Through any run that never takes a document away, the time of its first add stays. */
  lemma {:induction false} AddedAtStays(s: Buckets, run: seq<Event>, n: nat, dk: string)
    requires n <= |run| && WellNamed(s) && PlainCollections(run) && NeverTaken(run, n, dk)
    requires dk in s.docs && s.docs[dk].addedAt != 0
    ensures dk in After(s, run, n).docs && After(s, run, n).docs[dk].addedAt == s.docs[dk].addedAt
  {
    if n > 0 {
      AddedAtStays(s, run, n - 1, dk);
      NamesAlways(s, run, n - 1);
      var e := run[n - 1];
      assert e in run;
      StepSays(e.cfg, After(s, run, n - 1), e.op, e.now, dk);
    }
  }

  // ---- until when a document is found ---------------------------------------------------------------------

  /** A document added at a moment with a time to live is found by a search exactly until that time has
      passed, and with none at every moment, as long as no request concerns it; and so a partial update
      finds it, where documents and key index agree. */
  lemma FoundUntil(s: Buckets, run: seq<Event>, i: nat, n: nat, now: Time, filter: Filter)
    requires i < n <= |run| && WellNamed(s) && PlainCollections(run)
    requires run[i].op.OpAdd? && run[i].op.coll != "" && Taken(run[i].cfg, run[i].op.coll, run[i].op.req)
    requires var c, r := run[i].op.coll, run[i].op.req;
             LeftAlone(s, run, i + 1, n, Target(c, r.key, r.lang))
    ensures var c, r, t := run[i].op.coll, run[i].op.req, After(s, run, n);
            var dk, alive := Target(c, r.key, r.lang), r.ttl <= 0 || now <= run[i].now + r.ttl;
            && dk in t.docs && t.docs[dk].content == r.content && t.docs[dk].meta == r.meta
            && (ShownAt(t, c, filter, now, dk) <==> Seems(t.docs[dk], filter) && alive)
            && (KeysAgree(t) ==> (Found(t, c, r.key, r.lang, now) == if alive then Some(t.docs[dk]) else None))
  {
    var c, r, t, e := run[i].op.coll, run[i].op.req, After(s, run, n), run[i];
    var dk := Target(c, r.key, r.lang);
    assert e in run;
    NamesAlways(s, run, i);
    StepSays(e.cfg, After(s, run, i), e.op, e.now, dk);
    assert dk in After(s, run, i + 1).docs
        && Fields(After(s, run, i + 1).docs[dk]) == Wording(r, Deadline(r.ttl, e.now), e.now);
    StaysUntilTold(s, run, i + 1, n, dk);
    NamesAlways(s, run, n);
    FoundInTime(t, c, r, e.now, now, filter);
  }

  lemma FoundInTime(t: Buckets, c: string, r: AddRequest, since: Time, now: Time, filter: Filter)
    requires WellNamed(t) && Plain(c) && Target(c, r.key, r.lang) in t.docs
    requires Fields(t.docs[Target(c, r.key, r.lang)]) == Wording(r, Deadline(r.ttl, since), since)
    ensures var dk, alive := Target(c, r.key, r.lang), r.ttl <= 0 || now <= since + r.ttl;
            && (ShownAt(t, c, filter, now, dk) <==> Seems(t.docs[dk], filter) && alive)
            && (KeysAgree(t) ==> (Found(t, c, r.key, r.lang, now) == if alive then Some(t.docs[dk]) else None))
  {
    var dk := Target(c, r.key, r.lang);
    CollOfDocKey(c, GenID(c, r.key, r.lang));
    assert NamedRight(dk, t.docs[dk]);
    if KeysAgree(t) {
      assert Entries(t.docs)[dk] == (ByKeyKey(c, r.key, r.lang), t.docs[dk].id);
    }
  }
}
