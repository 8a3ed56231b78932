/** Whole batches and the revision history: when the newest revision of every document is still the
    document after a batch, whatever the batch repeats. */
module BatchHistory {
  import opened ByteStrings
  import opened Keys
  import opened Store
  import opened Indexes
  import opened Batch
  import opened Revisions

  // ---- request by request -----------------------------------------------------------------------------

  /** After the batch the newest revision of the document is d: the last request that saved one
      saved d and none was later then, or d was stored before; and every trim since has spared it. */
  ghost predicate EndsAs(cfg: Config, s: Buckets, coll: string, rs: seq<BatchRequest>, now: Time, id: string, d: Doc) {
    if rs == [] then DocKey(coll, id) in s.docs && s.docs[DocKey(coll, id)] == d
    else
      var front, r := rs[..|rs| - 1], rs[|rs| - 1];
      if !Writable(cfg, coll, r) || !r.saveRev then EndsAs(cfg, s, coll, front, now, id, d)
      else
        var b := WriteAll(cfg, s, coll, front, now);
        var doc := AddedDoc(b, coll, r, now);
        && IsTime(d.updatedAt)
        && (if doc.id == id then d == doc && NoLater(b.rev, coll, id, now) else EndsAs(cfg, s, coll, front, now, id, d))
        && TrimSpares(cfg, PutRevision(b.rev, coll, doc, now), coll, doc.id, RevKey(coll, id, d.updatedAt))
  }

  /** The requests for the document are stamped as d is. */
  ghost predicate StampedAs(cfg: Config, coll: string, rs: seq<BatchRequest>, now: Time, id: string, d: Doc) {
    forall r | r in rs && Writable(cfg, coll, r) && GenID(coll, r.key, r.lang) == id :: d.updatedAt == now
  }

  lemma {:induction false} BatchNewestIff(cfg: Config, s: Buckets, coll: string, rs: seq<BatchRequest>, now: Time,
                                          id: string, d: Doc)
    requires WellNamed(s) && HistorySound(s) && Plain(coll) && StampedAs(cfg, coll, rs, now, id, d)
    ensures NewestIs(WriteAll(cfg, s, coll, rs, now).rev, coll, id, d) <==> EndsAs(cfg, s, coll, rs, now, id, d)
  {
    if rs == [] {
      NewestIsStored(s, coll, id, d);
    } else {
      var front, r := rs[..|rs| - 1], rs[|rs| - 1];
      assert r in rs && forall q | q in front :: q in rs;
      BatchNewestIff(cfg, s, coll, front, now, id, d);
      var b := WriteAll(cfg, s, coll, front, now);
      if Writable(cfg, coll, r) && r.saveRev {
        SavedNext(cfg, b, coll, AddedDoc(b, coll, r, now), now, id, d);
      }
    }
  }

  lemma SavedNext(cfg: Config, b: Buckets, coll: string, doc: Doc, now: Time, id: string, d: Doc)
    requires Plain(coll) && doc.updatedAt == now && (doc.id == id ==> d.updatedAt == now)
    ensures NewestIs(AddRevision(cfg, b.rev, coll, doc, now), coll, id, d)
            <==> && IsTime(d.updatedAt)
                 && (if doc.id == id then d == doc && NoLater(b.rev, coll, id, now) else NewestIs(b.rev, coll, id, d))
                 && TrimSpares(cfg, PutRevision(b.rev, coll, doc, now), coll, doc.id, RevKey(coll, id, d.updatedAt))
  {
    if doc.id != id {
      if IsTime(d.updatedAt) {
        OtherAfterWrite(cfg, b.rev, coll, doc, now, coll, id, d);
      }
    } else if d == doc {
      OwnAfterWrite(cfg, b.rev, coll, doc, now);
    } else {
      TrimmedIff(cfg, PutRevision(b.rev, coll, doc, now), coll, doc.id, coll, id, d);
    }
  }

  /** Every document of the collection ends the batch as its own newest revision. */
  ghost predicate BatchRecorded(cfg: Config, s: Buckets, coll: string, rs: seq<BatchRequest>, now: Time) {
    var t := WriteAll(cfg, s, coll, rs, now);
    forall x | x in t.docs && CollOf(x) == coll :: EndsAs(cfg, s, coll, rs, now, t.docs[x].id, t.docs[x])
  }

  /** What writing one by one does to names, orphans and other collections. */
  lemma {:induction false} WriteAllShape(cfg: Config, s: Buckets, coll: string, rs: seq<BatchRequest>, now: Time)
    requires WellNamed(s) && HistorySound(s) && Plain(coll)
    ensures var t := WriteAll(cfg, s, coll, rs, now);
            && WellNamed(t) && NoOrphans(t)
            && (forall x | x in t.docs && CollOf(x) != coll :: HistoryOf(t, x))
            && (forall x | x in t.docs && CollOf(x) == coll :: StampedAs(cfg, coll, rs, now, t.docs[x].id, t.docs[x]))
  {
    if rs == [] {
      forall x | x in s.docs ensures HistoryOf(s, x) {}
    } else {
      var front, r := rs[..|rs| - 1], rs[|rs| - 1];
      assert rs == front + [r];
      WriteAllShape(cfg, s, coll, front, now);
      var b := WriteAll(cfg, s, coll, front, now);
      if Writable(cfg, coll, r) {
        WriteKeepsNames(cfg, b, coll, r, now);
        WritePlaced(cfg, b, coll, r, now);
        WriteKeepsOwners(cfg, b, coll, r, now);
        forall x | x in b.docs && CollOf(x) != coll ensures HistoryOf(Write(cfg, b, coll, r, now), x) {
          ElsewhereKept(cfg, b, coll, r, now, x);
        }
        forall x | x in Write(cfg, b, coll, r, now).docs && CollOf(x) == coll
          ensures var d := Write(cfg, b, coll, r, now).docs[x]; StampedAs(cfg, coll, rs, now, d.id, d)
        {
          StampedNext(cfg, b, coll, front, r, now, x);
        }
      }
    }
  }

  lemma WriteKeepsOwners(cfg: Config, b: Buckets, coll: string, r: AddRequest, now: Time)
    requires WellNamed(b) && NoOrphans(b) && Plain(coll) && Writable(cfg, coll, r)
    ensures NoOrphans(Write(cfg, b, coll, r, now))
  {
    WritePlaced(cfg, b, coll, r, now);
    var doc := AddedDoc(b, coll, r, now);
    AddRevisionKeys(cfg, b.rev, coll, doc, now);
    PutNoOrphans(b, Write(cfg, b, coll, r, now), Target(coll, r.key, r.lang), doc, now);
  }

  lemma ElsewhereKept(cfg: Config, b: Buckets, coll: string, r: AddRequest, now: Time, x: string)
    requires WellNamed(b) && Plain(coll) && Writable(cfg, coll, r) && x in b.docs && CollOf(x) != coll
             && HistoryOf(b, x)
    ensures x in Write(cfg, b, coll, r, now).docs && HistoryOf(Write(cfg, b, coll, r, now), x)
  {
    WritePlaced(cfg, b, coll, r, now);
    var doc, c, d := AddedDoc(b, coll, r, now), CollOf(x), b.docs[x];
    StoredName(b, x);
    OtherAfterWrite(cfg, b.rev, coll, doc, now, c, d.id, d);
    RevisionUnderIff(coll, doc.id, c, d.id, d.updatedAt);
  }

  lemma StampedNext(cfg: Config, b: Buckets, coll: string, front: seq<BatchRequest>, r: BatchRequest, now: Time,
                    x: string)
    requires WellNamed(b) && Plain(coll) && Writable(cfg, coll, r)
    requires forall y | y in b.docs && CollOf(y) == coll :: StampedAs(cfg, coll, front, now, b.docs[y].id, b.docs[y])
    requires x in Write(cfg, b, coll, r, now).docs && CollOf(x) == coll
    ensures var d := Write(cfg, b, coll, r, now).docs[x]; StampedAs(cfg, coll, front + [r], now, d.id, d)
  {
    WritePlaced(cfg, b, coll, r, now);
    if x != Target(coll, r.key, r.lang) {
      StoredName(b, x);
      assert StampedAs(cfg, coll, front, now, b.docs[x].id, b.docs[x]);
    }
  }

  /** A batch, whatever it repeats, keeps a sound history exactly when every document of the
      collection ends it as its own newest revision. */
  lemma BatchKeepsHistoryIff(cfg: Config, s: Buckets, coll: string, rs: seq<BatchRequest>, now: Time)
    requires WellNamed(s) && HistorySound(s) && Plain(coll)
    ensures HistorySound(WriteAll(cfg, s, coll, rs, now)) <==> BatchRecorded(cfg, s, coll, rs, now)
  {
    WriteAllShape(cfg, s, coll, rs, now);
    var t := WriteAll(cfg, s, coll, rs, now);
    forall x | x in t.docs && CollOf(x) == coll
      ensures HistoryOf(t, x) <==> EndsAs(cfg, s, coll, rs, now, t.docs[x].id, t.docs[x])
    {
      BatchNewestIff(cfg, s, coll, rs, now, t.docs[x].id, t.docs[x]);
    }
  }

  // ---- what can be told before the batch ------------------------------------------------------------------

  /** The last version a batch gives a document, or the last one it saves a revision of. */
  function LastVersion(cfg: Config, s: Buckets, coll: string, rs: seq<BatchRequest>, now: Time, id: string,
                       saved: bool): Option<Doc>
  {
    if rs == [] then None
    else
      var r := rs[|rs| - 1];
      if Writable(cfg, coll, r) && GenID(coll, r.key, r.lang) == id && (saved ==> r.saveRev)
      then Some(ProcessDocument(cfg, s, coll, r, now).doc)
      else LastVersion(cfg, s, coll, rs[..|rs| - 1], now, id, saved)
  }

  /** The last version is saved and not stamped before the stored document; or nothing is saved, and the
      last version is the stored document. */
  ghost predicate KeptFor(cfg: Config, s: Buckets, coll: string, rs: seq<BatchRequest>, now: Time, id: string) {
    var v, w := LastVersion(cfg, s, coll, rs, now, id, false), LastVersion(cfg, s, coll, rs, now, id, true);
    var dk := DocKey(coll, id);
    if w.Some? then v == w && (dk in s.docs ==> s.docs[dk].updatedAt <= now)
    else dk in s.docs && v == Some(s.docs[dk])
  }

  ghost predicate BatchKept(cfg: Config, s: Buckets, coll: string, rs: seq<BatchRequest>, now: Time) {
    forall r | r in rs && Writable(cfg, coll, r) :: KeptFor(cfg, s, coll, rs, now, GenID(coll, r.key, r.lang))
  }

  /** The id is stored in the collection, or the batch names it. */
  ghost predicate InPlay(cfg: Config, s: Buckets, coll: string, rs: seq<BatchRequest>, id: string) {
    DocKey(coll, id) in s.docs || !Unnamed(cfg, coll, rs, id)
  }

  /** No id in play begins another. */
  ghost predicate LoneIds(cfg: Config, s: Buckets, coll: string, rs: seq<BatchRequest>) {
    forall a, b | InPlay(cfg, s, coll, rs, a) && InPlay(cfg, s, coll, rs, b) && Begins(a, b) :: a == b
  }

  /** No revision but a document's own older ones can be trimmed: there is no cap, or no id begins another. */
  ghost predicate Untrimmed(cfg: Config, s: Buckets, coll: string, rs: seq<BatchRequest>) {
    (coll in cfg.maxRevisions && cfg.maxRevisions[coll] > 0) ==> LoneIds(cfg, s, coll, rs)
  }

  lemma PlayGrows(cfg: Config, s: Buckets, coll: string, front: seq<BatchRequest>, r: BatchRequest, id: string)
    requires InPlay(cfg, s, coll, front, id)
    ensures InPlay(cfg, s, coll, front + [r], id)
  {
    if q :| q in front && Writable(cfg, coll, q) && GenID(coll, q.key, q.lang) == id {
      assert q in front + [r];
    }
  }

  lemma UntrimmedFront(cfg: Config, s: Buckets, coll: string, front: seq<BatchRequest>, r: BatchRequest)
    requires Untrimmed(cfg, s, coll, front + [r])
    ensures Untrimmed(cfg, s, coll, front)
  {
    forall id | InPlay(cfg, s, coll, front, id) ensures InPlay(cfg, s, coll, front + [r], id) {
      PlayGrows(cfg, s, coll, front, r, id);
    }
  }

  /** After the batch a document is its last version, or as it was. */
  lemma {:induction false} FinalVersion(cfg: Config, s: Buckets, coll: string, rs: seq<BatchRequest>, now: Time,
                                        id: string)
    ensures var t, v := WriteAll(cfg, s, coll, rs, now), LastVersion(cfg, s, coll, rs, now, id, false);
            var dk := DocKey(coll, id);
            if v.Some? then dk in t.docs && t.docs[dk] == v.value
            else (dk in t.docs <==> dk in s.docs) && (dk in s.docs ==> t.docs[dk] == s.docs[dk])
  {
    if rs != [] {
      var front, r := rs[..|rs| - 1], rs[|rs| - 1];
      FinalVersion(cfg, s, coll, front, now, id);
      WrittenIsPrepared(cfg, s, coll, front, r, now);
      if Writable(cfg, coll, r) && Target(coll, r.key, r.lang) == DocKey(coll, id) {
        SameKeySameID(coll, GenID(coll, r.key, r.lang), id);
      }
    }
  }

  /** What a single add would write after the others is what the batch prepared. */
  lemma WrittenIsPrepared(cfg: Config, s: Buckets, coll: string, front: seq<BatchRequest>, r: BatchRequest, now: Time)
    ensures Writable(cfg, coll, r) ==>
              AddedDoc(WriteAll(cfg, s, coll, front, now), coll, r, now) == ProcessDocument(cfg, s, coll, r, now).doc
  {
    BatchOffIndex(cfg, s, coll, front, now);
    var id := GenID(coll, r.key, r.lang);
    assert AddedAtNext(Existing(WriteAll(cfg, s, coll, front, now), coll, id), now)
      == AddedAtNext(Existing(s, coll, id), now);
  }

  lemma {:induction false} LastIsNamed(cfg: Config, s: Buckets, coll: string, rs: seq<BatchRequest>, now: Time,
                                       id: string)
    ensures LastVersion(cfg, s, coll, rs, now, id, false).Some? <==> !Unnamed(cfg, coll, rs, id)
    ensures LastVersion(cfg, s, coll, rs, now, id, true).Some? ==> !Unnamed(cfg, coll, rs, id)
    ensures forall saved :: LastVersion(cfg, s, coll, rs, now, id, saved).Some? ==>
              LastVersion(cfg, s, coll, rs, now, id, saved).value.updatedAt == now
  {
    if rs != [] {
      var front, r := rs[..|rs| - 1], rs[|rs| - 1];
      assert rs == front + [r] && r in rs;
      LastIsNamed(cfg, s, coll, front, now, id);
    }
  }

  /** Documents of the collection after the batch are in play. */
  lemma WrittenInPlay(cfg: Config, s: Buckets, coll: string, rs: seq<BatchRequest>, now: Time, x: string)
    requires WellNamed(s) && Plain(coll) && WellNamed(WriteAll(cfg, s, coll, rs, now))
    requires x in WriteAll(cfg, s, coll, rs, now).docs && CollOf(x) == coll
    ensures InPlay(cfg, s, coll, rs, WriteAll(cfg, s, coll, rs, now).docs[x].id)
  {
    var t := WriteAll(cfg, s, coll, rs, now);
    StoredName(t, x);
    FinalVersion(cfg, s, coll, rs, now, t.docs[x].id);
    LastIsNamed(cfg, s, coll, rs, now, t.docs[x].id);
  }

  // ---- the keys of one document through the batch -----------------------------------------------------------

  /** Revisions of the document after some of the batch are stored ones or the batch's own. */
  lemma {:induction false} OldOrNow(cfg: Config, s: Buckets, coll: string, rs: seq<BatchRequest>, now: Time,
                                    id: string, t: Time)
    requires Plain(coll) && RevKey(coll, id, t) in WriteAll(cfg, s, coll, rs, now).rev
    ensures RevKey(coll, id, t) in s.rev || t == now
  {
    if rs != [] {
      var front, r := rs[..|rs| - 1], rs[|rs| - 1];
      var b := WriteAll(cfg, s, coll, front, now);
      if Writable(cfg, coll, r) && r.saveRev {
        var doc := AddedDoc(b, coll, r, now);
        AddRevisionKeys(cfg, b.rev, coll, doc, now);
        if RevKey(coll, id, t) == RevKey(coll, doc.id, now) {
          RevKeyInjective(coll, id, t, coll, doc.id, now);
        }
      }
      if RevKey(coll, id, t) in b.rev {
        OldOrNow(cfg, s, coll, front, now, id, t);
      }
    }
  }

  /** Under the prefix of an id that begins no other lie its own revisions only. */
  lemma OwnUnderPrefix(b: Buckets, coll: string, id: string, g: string) returns (t: Time)
    requires WellNamed(b) && NoOrphans(b) && Plain(coll) && g in b.rev && IsRevOf(g, coll, id)
    requires forall x | x in b.docs && CollOf(x) == coll && b.docs[x].id != id :: !Begins(id, b.docs[x].id)
    ensures g == RevKey(coll, id, t)
  {
    var y :| OwnedBy(b, g, y);
    t :| g == RevKey(CollOf(y), b.docs[y].id, t);
    StoredName(b, y);
    RevisionUnderIff(coll, id, CollOf(y), b.docs[y].id, t);
  }

  lemma NamedInPlay(cfg: Config, s: Buckets, coll: string, front: seq<BatchRequest>, r: BatchRequest)
    requires Writable(cfg, coll, r)
    ensures InPlay(cfg, s, coll, front + [r], GenID(coll, r.key, r.lang))
  {
    assert r in front + [r];
  }

  /** The id that the next request names begins no other stored before it. */
  lemma LoneLater(cfg: Config, s: Buckets, coll: string, front: seq<BatchRequest>, r: BatchRequest, now: Time)
    requires WellNamed(s) && Plain(coll) && WellNamed(WriteAll(cfg, s, coll, front, now))
    requires LoneIds(cfg, s, coll, front + [r]) && Writable(cfg, coll, r)
    ensures var b, id := WriteAll(cfg, s, coll, front, now), GenID(coll, r.key, r.lang);
            forall x | x in b.docs && CollOf(x) == coll && b.docs[x].id != id :: !Begins(id, b.docs[x].id)
  {
    var b, id := WriteAll(cfg, s, coll, front, now), GenID(coll, r.key, r.lang);
    NamedInPlay(cfg, s, coll, front, r);
    forall x | x in b.docs && CollOf(x) == coll && b.docs[x].id != id ensures !Begins(id, b.docs[x].id) {
      WrittenInPlay(cfg, s, coll, front, now, x);
      PlayGrows(cfg, s, coll, front, r, b.docs[x].id);
    }
  }

  /** No key under the document's prefix sorts after a stamp that is not before any of its own. */
  lemma NoneSortsAfter(b: Buckets, put: map<string, Doc>, coll: string, id: string, now: Time, top: Time)
    requires WellNamed(b) && NoOrphans(b) && Plain(coll)
    requires forall x | x in b.docs && CollOf(x) == coll && b.docs[x].id != id :: !Begins(id, b.docs[x].id)
    requires forall g | g in put :: g in b.rev || g == RevKey(coll, id, now)
    requires NoLater(b.rev, coll, id, top) && now <= top
    ensures LaterKeys(put, coll, id, RevKey(coll, id, top)) == {}
  {
    forall g | g in put && IsRevOf(g, coll, id) ensures !Less(RevKey(coll, id, top), g) {
      var u := now;
      if g != RevKey(coll, id, now) {
        u := OwnUnderPrefix(b, coll, id, g);
      }
      RevKeyOrder(coll, id, top, u);
    }
  }

  /** In a batch that trims no other document's revisions a later stored revision stays. */
  lemma {:induction false} TopStays(cfg: Config, s: Buckets, coll: string, rs: seq<BatchRequest>, now: Time,
                                    id: string, top: Time)
    requires WellNamed(s) && HistorySound(s) && Plain(coll) && Untrimmed(cfg, s, coll, rs) && DocKey(coll, id) in s.docs
    requires RevKey(coll, id, top) in s.rev && NoLater(s.rev, coll, id, top) && now < top
    ensures RevKey(coll, id, top) in WriteAll(cfg, s, coll, rs, now).rev
  {
    if rs != [] {
      var front, r := rs[..|rs| - 1], rs[|rs| - 1];
      assert rs == front + [r];
      UntrimmedFront(cfg, s, coll, front, r);
      TopStays(cfg, s, coll, front, now, id, top);
      if Writable(cfg, coll, r) && r.saveRev {
        TopSpared(cfg, s, coll, front, r, now, id, top);
      }
    }
  }

  lemma TopSpared(cfg: Config, s: Buckets, coll: string, front: seq<BatchRequest>, r: BatchRequest, now: Time,
                  id: string, top: Time)
    requires WellNamed(s) && HistorySound(s) && Plain(coll) && Untrimmed(cfg, s, coll, front + [r])
             && DocKey(coll, id) in s.docs
    requires NoLater(s.rev, coll, id, top) && now < top && Writable(cfg, coll, r) && r.saveRev
    requires RevKey(coll, id, top) in WriteAll(cfg, s, coll, front, now).rev
    ensures RevKey(coll, id, top) in Write(cfg, WriteAll(cfg, s, coll, front, now), coll, r, now).rev
  {
    var b := WriteAll(cfg, s, coll, front, now);
    var doc := AddedDoc(b, coll, r, now);
    var put, k := PutRevision(b.rev, coll, doc, now), RevKey(coll, id, top);
    if coll in cfg.maxRevisions && cfg.maxRevisions[coll] > 0 {
      NamedInPlay(cfg, s, coll, front, r);
      if doc.id == id {
        WriteAllShape(cfg, s, coll, front, now);
        LoneLater(cfg, s, coll, front, r, now);
        StillNoLater(cfg, s, coll, front, now, id, top);
        NoneSortsAfter(b, put, coll, id, now, top);
      } else {
        RevisionUnderIff(coll, doc.id, coll, id, top);
      }
      KeptIff(put, coll, doc.id, cfg.maxRevisions[coll], k);
    }
  }

  lemma StillNoLater(cfg: Config, s: Buckets, coll: string, rs: seq<BatchRequest>, now: Time, id: string, top: Time)
    requires Plain(coll) && NoLater(s.rev, coll, id, top) && now <= top
    ensures NoLater(WriteAll(cfg, s, coll, rs, now).rev, coll, id, top)
  {
    forall t: Time | RevKey(coll, id, t) in WriteAll(cfg, s, coll, rs, now).rev ensures t <= top {
      OldOrNow(cfg, s, coll, rs, now, id, t);
    }
  }

  /** Whether a document has a revision after `now` does not change on the way. */
  lemma LaterStays(cfg: Config, s: Buckets, coll: string, rs: seq<BatchRequest>, now: Time, id: string)
    requires WellNamed(s) && HistorySound(s) && Plain(coll) && Untrimmed(cfg, s, coll, rs)
    ensures NoLater(WriteAll(cfg, s, coll, rs, now).rev, coll, id, now) <==> NoLater(s.rev, coll, id, now)
  {
    NoLaterIff(s, coll, id, now);
    if NoLater(s.rev, coll, id, now) {
      StillNoLater(cfg, s, coll, rs, now, id, now);
    } else {
      var dk := DocKey(coll, id);
      StoredUnderID(s, coll, id);
      CollOfDocKey(coll, id);
      assert HistoryOf(s, dk);
      TopStays(cfg, s, coll, rs, now, id, s.docs[dk].updatedAt);
    }
  }

  // ---- the condition ------------------------------------------------------------------------------------------

  /** The document's last saved version is d, with none stored later; or it was stored as d and none is saved. */
  ghost predicate SavedAs(cfg: Config, s: Buckets, coll: string, rs: seq<BatchRequest>, now: Time, id: string, d: Doc) {
    var w := LastVersion(cfg, s, coll, rs, now, id, true);
    if w.Some? then w.value == d && NoLater(s.rev, coll, id, now)
    else DocKey(coll, id) in s.docs && s.docs[DocKey(coll, id)] == d
  }

  /** One saved request: its trim spares the revision in question. */
  lemma SparesInPlay(cfg: Config, s: Buckets, coll: string, front: seq<BatchRequest>, r: BatchRequest, now: Time,
                     id: string, t: Time)
    requires WellNamed(s) && HistorySound(s) && Plain(coll) && Untrimmed(cfg, s, coll, front + [r])
    requires Writable(cfg, coll, r) && InPlay(cfg, s, coll, front + [r], id)
    requires GenID(coll, r.key, r.lang) == id ==> t == now && NoLater(s.rev, coll, id, now)
    ensures var b := WriteAll(cfg, s, coll, front, now);
            var doc := AddedDoc(b, coll, r, now);
            TrimSpares(cfg, PutRevision(b.rev, coll, doc, now), coll, doc.id, RevKey(coll, id, t))
  {
    var b := WriteAll(cfg, s, coll, front, now);
    var doc := AddedDoc(b, coll, r, now);
    if coll in cfg.maxRevisions && cfg.maxRevisions[coll] > 0 {
      NamedInPlay(cfg, s, coll, front, r);
      if doc.id == id {
        WriteAllShape(cfg, s, coll, front, now);
        LoneLater(cfg, s, coll, front, r, now);
        StillNoLater(cfg, s, coll, front, now, id, now);
        NoneSortsAfter(b, PutRevision(b.rev, coll, doc, now), coll, id, now, now);
      } else {
        RevisionUnderIff(coll, doc.id, coll, id, t);
      }
    }
  }

  /** Then the trace of a document ends as its last saved version, or as it was stored. */
  lemma {:induction false} EndsAsSaved(cfg: Config, s: Buckets, coll: string, rs: seq<BatchRequest>, now: Time,
                                       id: string, d: Doc)
    requires WellNamed(s) && HistorySound(s) && Plain(coll) && Untrimmed(cfg, s, coll, rs)
    ensures EndsAs(cfg, s, coll, rs, now, id, d) <==> SavedAs(cfg, s, coll, rs, now, id, d)
  {
    if rs != [] {
      var front, r := rs[..|rs| - 1], rs[|rs| - 1];
      assert rs == front + [r];
      UntrimmedFront(cfg, s, coll, front, r);
      EndsAsSaved(cfg, s, coll, front, now, id, d);
      if Writable(cfg, coll, r) && r.saveRev {
        EndsNext(cfg, s, coll, front, r, now, id, d);
      }
    }
  }

  lemma EndsNext(cfg: Config, s: Buckets, coll: string, front: seq<BatchRequest>, r: BatchRequest, now: Time,
                 id: string, d: Doc)
    requires WellNamed(s) && HistorySound(s) && Plain(coll) && Untrimmed(cfg, s, coll, front + [r])
    requires Writable(cfg, coll, r) && r.saveRev
    requires EndsAs(cfg, s, coll, front, now, id, d) <==> SavedAs(cfg, s, coll, front, now, id, d)
    ensures EndsAs(cfg, s, coll, front + [r], now, id, d) <==> SavedAs(cfg, s, coll, front + [r], now, id, d)
  {
    assert (front + [r])[..|front|] == front;
    var b := WriteAll(cfg, s, coll, front, now);
    WrittenIsPrepared(cfg, s, coll, front, r, now);
    if GenID(coll, r.key, r.lang) == id {
      UntrimmedFront(cfg, s, coll, front, r);
      LaterStays(cfg, s, coll, front, now, id);
      NamedInPlay(cfg, s, coll, front, r);
      if NoLater(s.rev, coll, id, now) {
        SparesInPlay(cfg, s, coll, front, r, now, id, now);
      }
    } else if SavedAs(cfg, s, coll, front, now, id, d) {
      SavedInPlay(cfg, s, coll, front, now, id, d);
      PlayGrows(cfg, s, coll, front, r, id);
      SparesInPlay(cfg, s, coll, front, r, now, id, d.updatedAt);
    }
  }

  lemma SavedInPlay(cfg: Config, s: Buckets, coll: string, rs: seq<BatchRequest>, now: Time, id: string, d: Doc)
    requires WellNamed(s) && HistorySound(s) && Plain(coll) && SavedAs(cfg, s, coll, rs, now, id, d)
    ensures InPlay(cfg, s, coll, rs, id) && IsTime(d.updatedAt)
  {
    LastIsNamed(cfg, s, coll, rs, now, id);
    if DocKey(coll, id) in s.docs {
      assert HistoryOf(s, DocKey(coll, id));
    }
  }

  /** A batch in a collection without a cap, or where no id begins another, keeps a sound history
      exactly when for every document it writes the last version is saved and no older than what was
      stored, or nothing is saved and the last version is what was stored. */
  lemma UntrimmedBatchIff(cfg: Config, s: Buckets, coll: string, rs: seq<BatchRequest>, now: Time)
    requires WellNamed(s) && HistorySound(s) && Plain(coll) && Untrimmed(cfg, s, coll, rs)
    ensures HistorySound(WriteAll(cfg, s, coll, rs, now)) <==> BatchKept(cfg, s, coll, rs, now)
  {
    var t := WriteAll(cfg, s, coll, rs, now);
    BatchKeepsHistoryIff(cfg, s, coll, rs, now);
    WriteAllShape(cfg, s, coll, rs, now);
    forall x | x in t.docs && CollOf(x) == coll
      ensures EndsAs(cfg, s, coll, rs, now, t.docs[x].id, t.docs[x]) <==>
              (!Unnamed(cfg, coll, rs, t.docs[x].id) ==> KeptFor(cfg, s, coll, rs, now, t.docs[x].id))
    {
      StoredName(t, x);
      EndIsKept(cfg, s, coll, rs, now, t.docs[x].id);
    }
    if BatchRecorded(cfg, s, coll, rs, now) {
      forall r | r in rs && Writable(cfg, coll, r) ensures KeptFor(cfg, s, coll, rs, now, GenID(coll, r.key, r.lang)) {
        NamedIsStored(cfg, s, coll, rs, now, r);
      }
    }
    if BatchKept(cfg, s, coll, rs, now) {
      forall x | x in t.docs && CollOf(x) == coll ensures EndsAs(cfg, s, coll, rs, now, t.docs[x].id, t.docs[x]) {
        if r :| r in rs && Writable(cfg, coll, r) && GenID(coll, r.key, r.lang) == t.docs[x].id {
          assert KeptFor(cfg, s, coll, rs, now, GenID(coll, r.key, r.lang));
        }
      }
    }
  }

  lemma EndIsKept(cfg: Config, s: Buckets, coll: string, rs: seq<BatchRequest>, now: Time, id: string)
    requires WellNamed(s) && HistorySound(s) && Plain(coll) && Untrimmed(cfg, s, coll, rs)
    requires DocKey(coll, id) in WriteAll(cfg, s, coll, rs, now).docs
    ensures EndsAs(cfg, s, coll, rs, now, id, WriteAll(cfg, s, coll, rs, now).docs[DocKey(coll, id)]) <==>
            (!Unnamed(cfg, coll, rs, id) ==> KeptFor(cfg, s, coll, rs, now, id))
  {
    var d := WriteAll(cfg, s, coll, rs, now).docs[DocKey(coll, id)];
    EndsAsSaved(cfg, s, coll, rs, now, id, d);
    FinalVersion(cfg, s, coll, rs, now, id);
    LastIsNamed(cfg, s, coll, rs, now, id);
    NoLaterIff(s, coll, id, now);
  }

  lemma NamedIsStored(cfg: Config, s: Buckets, coll: string, rs: seq<BatchRequest>, now: Time, r: BatchRequest)
    requires WellNamed(WriteAll(cfg, s, coll, rs, now)) && Plain(coll) && r in rs && Writable(cfg, coll, r)
    ensures var t, dk := WriteAll(cfg, s, coll, rs, now), Target(coll, r.key, r.lang);
            dk in t.docs && CollOf(dk) == coll && t.docs[dk].id == GenID(coll, r.key, r.lang)
  {
    var id := GenID(coll, r.key, r.lang);
    FinalVersion(cfg, s, coll, rs, now, id);
    LastIsNamed(cfg, s, coll, rs, now, id);
    CollOfDocKey(coll, id);
    StoredUnderID(WriteAll(cfg, s, coll, rs, now), coll, id);
  }
}
