/** The write paths as the server runs them: each transaction edits the four buckets step by
    step and notes every edit in the operation log, which is flushed on commit. */
module Server {
  import opened ByteStrings
  import opened Keys
  import opened Store
  import opened Batch
  import opened Binlog
  import opened KeyBuilding

  // ---- metadata comparison (services/mddbd/metadata.go) -----------------------------------

  /** Same keys, and under every key the same values in the same order. */
  method MetadataEqual(a: Meta, b: Meta) returns (equal: bool)
    ensures equal <==> a == b
  {
    if |a| != |b| {
      return false;
    }
    var todo := a.Keys;
    while todo != {}
      invariant todo <= a.Keys
      invariant forall k | k in a.Keys - todo :: k in b && b[k] == a[k]
      decreases |todo|
    {
      var k :| k in todo;
      if k !in b {
        return false;
      }
      if |a[k]| != |b[k]| {
        return false;
      }
      for i := 0 to |a[k]|
        invariant forall j | 0 <= j < i :: a[k][j] == b[k][j]
      {
        if a[k][i] != b[k][i] {
          return false;
        }
      }
      todo := todo - {k};
    }
    SubsetOfSameSize(a.Keys, b.Keys);
    return true;
  }

  lemma SubsetOfSameSize<T>(a: set<T>, b: set<T>)
    requires a <= b && |a| == |b|
    ensures a == b
  {
    assert |b - a| == |b| - |a|;
  }

  /** Whether the metadata index has to be rewritten. */
  method MetadataChanged(existing: Meta, next: Meta) returns (changed: bool)
    ensures changed <==> existing != next
  {
    if |existing| == 0 && |next| > 0 {
      return true;
    }
    if |existing| == 0 && |next| == 0 {
      return false;
    }
    var equal := MetadataEqual(existing, next);
    return !equal;
  }

  /** The index keys of one metadata key's values. */
  function ValueKeys(coll: string, mk: string, vals: seq<string>, id: string): set<string> {
    set mv | mv in vals :: MetaKey(coll, mk, mv, id)
  }

  /** The index keys of some metadata keys. */
  ghost function SomeMetaKeys(coll: string, meta: Meta, mks: set<string>, id: string): set<string> {
    set mk, mv | mk in mks && mk in meta && mv in meta[mk] :: MetaKey(coll, mk, mv, id)
  }

  lemma OneMoreMetaKey(coll: string, meta: Meta, mks: set<string>, mk: string, id: string)
    requires mk in meta
    ensures SomeMetaKeys(coll, meta, mks + {mk}, id) == SomeMetaKeys(coll, meta, mks, id)
            + ValueKeys(coll, mk, meta[mk], id)
  {
  }

  lemma AllMetaKeys(coll: string, meta: Meta, id: string)
    ensures SomeMetaKeys(coll, meta, meta.Keys, id) == MetaKeys(coll, meta, id)
  {
  }

  lemma OneMoreValue(coll: string, mk: string, vals: seq<string>, i: nat, id: string)
    requires i < |vals|
    ensures ValueKeys(coll, mk, vals[..i + 1], id) == ValueKeys(coll, mk, vals[..i], id)
            + {MetaKey(coll, mk, vals[i], id)}
  {
    assert vals[..i + 1] == vals[..i] + [vals[i]];
  }

  class Server {
    /** The configuration in force; it changes between transactions. */
    var cfg: Config
    var docs: map<string, Doc>
    var byKey: map<string, string>
    var idx: set<string>
    var rev: map<string, Doc>
    /** Edits noted by the transaction under way. */
    var ops: seq<LogOp>
    var binlog: seq<LogOp>
    /** The buckets a follower started from. */
    ghost var start: Buckets

    function State(): Buckets
      reads this
    {
      Buckets(docs, byKey, idx, rev)
    }

    /** The follower's buckets after replaying the log so far. */
    ghost function Follower(): Buckets
      reads this
    {
      Replay(start, binlog)
    }

    /** The edits noted lead from the follower's buckets to the current ones. */
    ghost predicate InTransaction()
      reads this
    {
      Replay(Follower(), ops) == State()
    }

    /** No transaction under way, and a follower that has replayed the log has the same buckets. */
    ghost predicate Valid()
      reads this
    {
      ops == [] && Follower() == State()
    }

    constructor (cfg: Config)
      ensures this.cfg == cfg && Valid() && State() == EMPTY && start == EMPTY
    {
      this.cfg := cfg;
      docs, byKey, idx, rev := map[], map[], {}, map[];
      ops, binlog, start := [], [], EMPTY;
    }

    /** The configuration in force from now on. */
    method Configure(next: Config)
      modifies `cfg
      ensures cfg == next
    {
      cfg := next;
    }

    // ---- edits ------------------------------------------------------------------------------

    method PutDocument(k: string, d: Doc)
      requires InTransaction()
      modifies `docs, `ops
      ensures InTransaction() && docs == old(docs)[k := d]
    {
      ReplayOneMore(Follower(), ops, PutDocOp(k, d));
      docs, ops := docs[k := d], ops + [PutDocOp(k, d)];
    }

    method DeleteDocument(k: string)
      requires InTransaction()
      modifies `docs, `ops
      ensures InTransaction() && docs == old(docs) - {k}
    {
      ReplayOneMore(Follower(), ops, DelDocOp(k));
      docs, ops := docs - {k}, ops + [DelDocOp(k)];
    }

    method PutEntry(k: string, id: string)
      requires InTransaction()
      modifies `byKey, `ops
      ensures InTransaction() && byKey == old(byKey)[k := id]
    {
      ReplayOneMore(Follower(), ops, PutKeyOp(k, id));
      byKey, ops := byKey[k := id], ops + [PutKeyOp(k, id)];
    }

    method DeleteEntry(k: string)
      requires InTransaction()
      modifies `byKey, `ops
      ensures InTransaction() && byKey == old(byKey) - {k}
    {
      ReplayOneMore(Follower(), ops, DelKeyOp(k));
      byKey, ops := byKey - {k}, ops + [DelKeyOp(k)];
    }

    method PutIndex(k: string)
      requires InTransaction()
      modifies `idx, `ops
      ensures InTransaction() && idx == old(idx) + {k}
    {
      ReplayOneMore(Follower(), ops, PutIndexOp(k));
      idx, ops := idx + {k}, ops + [PutIndexOp(k)];
    }

    method DeleteIndex(k: string)
      requires InTransaction()
      modifies `idx, `ops
      ensures InTransaction() && idx == old(idx) - {k}
    {
      ReplayOneMore(Follower(), ops, DelIndexOp(k));
      idx, ops := idx - {k}, ops + [DelIndexOp(k)];
    }

    method PutRevision(k: string, d: Doc)
      requires InTransaction()
      modifies `rev, `ops
      ensures InTransaction() && rev == old(rev)[k := d]
    {
      ReplayOneMore(Follower(), ops, PutRevOp(k, d));
      rev, ops := rev[k := d], ops + [PutRevOp(k, d)];
    }

    method DeleteRevision(k: string)
      requires InTransaction()
      modifies `rev, `ops
      ensures InTransaction() && rev == old(rev) - {k}
    {
      ReplayOneMore(Follower(), ops, DelRevOp(k));
      rev, ops := rev - {k}, ops + [DelRevOp(k)];
    }

    /** Commit: the noted edits go to the log. */
    method Flush()
      requires InTransaction()
      modifies `ops, `binlog
      ensures Valid() && binlog == old(binlog) + old(ops)
    {
      ReplayJoined(start, binlog, ops);
      binlog, ops := binlog + ops, [];
    }

    // ---- loops shared by the transactions -------------------------------------------------------

    method DropValueKeys(coll: string, mk: string, vals: seq<string>, id: string)
      requires InTransaction()
      modifies `idx, `ops
      ensures InTransaction() && idx == old(idx) - ValueKeys(coll, mk, vals, id)
    {
      for i := 0 to |vals|
        invariant InTransaction()
        invariant idx == old(idx) - ValueKeys(coll, mk, vals[..i], id)
      {
        OneMoreValue(coll, mk, vals, i, id);
        DeleteIndex(MetaKey(coll, mk, vals[i], id));
      }
      assert vals[..|vals|] == vals;
    }

    method DropIndexKeys(coll: string, meta: Meta, id: string)
      requires InTransaction()
      modifies `idx, `ops
      ensures InTransaction() && idx == old(idx) - MetaKeys(coll, meta, id)
    {
      var todo := meta.Keys;
      while todo != {}
        invariant InTransaction() && todo <= meta.Keys
        invariant idx == old(idx) - SomeMetaKeys(coll, meta, meta.Keys - todo, id)
        decreases |todo|
      {
        var mk :| mk in todo;
        DropValueKeys(coll, mk, meta[mk], id);
        OneMoreMetaKey(coll, meta, meta.Keys - todo, mk, id);
        assert meta.Keys - (todo - {mk}) == (meta.Keys - todo) + {mk};
        todo := todo - {mk};
      }
      AllMetaKeys(coll, meta, id);
      assert meta.Keys - {} == meta.Keys;
    }

    method PutValueKeys(coll: string, mk: string, vals: seq<string>, id: string)
      requires InTransaction()
      modifies `idx, `ops
      ensures InTransaction() && idx == old(idx) + ValueKeys(coll, mk, vals, id)
    {
      for i := 0 to |vals|
        invariant InTransaction()
        invariant idx == old(idx) + ValueKeys(coll, mk, vals[..i], id)
      {
        OneMoreValue(coll, mk, vals, i, id);
        PutIndex(MetaKey(coll, mk, vals[i], id));
      }
      assert vals[..|vals|] == vals;
    }

    method PutIndexKeys(coll: string, meta: Meta, id: string)
      requires InTransaction()
      modifies `idx, `ops
      ensures InTransaction() && idx == old(idx) + MetaKeys(coll, meta, id)
    {
      var todo := meta.Keys;
      while todo != {}
        invariant InTransaction() && todo <= meta.Keys
        invariant idx == old(idx) + SomeMetaKeys(coll, meta, meta.Keys - todo, id)
        decreases |todo|
      {
        var mk :| mk in todo;
        PutValueKeys(coll, mk, meta[mk], id);
        OneMoreMetaKey(coll, meta, meta.Keys - todo, mk, id);
        assert meta.Keys - (todo - {mk}) == (meta.Keys - todo) + {mk};
        todo := todo - {mk};
      }
      AllMetaKeys(coll, meta, id);
      assert meta.Keys - {} == meta.Keys;
    }

    /** Deletes the listed revisions one by one. */
    method DeleteRevisions(ks: seq<string>)
      requires InTransaction()
      modifies `rev, `ops
      ensures InTransaction() && rev == old(rev) - Elements(ks)
    {
      for i := 0 to |ks|
        invariant InTransaction() && rev == old(rev) - Elements(ks[..i])
      {
        DeleteRevision(ks[i]);
        assert ks[..i + 1] == ks[..i] + [ks[i]];
        assert Elements(ks[..i + 1]) == Elements(ks[..i]) + {ks[i]};
      }
      assert ks[..|ks|] == ks;
    }

    /** Collects a document's revisions in key order and deletes all but the newest `keep`. */
    method CutRevisions(coll: string, id: string, keep: nat)
      requires InTransaction()
      modifies `rev, `ops
      ensures InTransaction() && rev == KeepNewest(old(rev), coll, id, keep)
    {
      var ks := InOrder(RevKeysOf(rev, coll, id));
      if |ks| > keep {
        DeleteRevisions(ks[..|ks| - keep]);
      } else {
        assert rev - {} == rev;
      }
    }

    /** The cap of revision_retention.go: a collection without a positive cap is not trimmed. */
    method TrimRevisions(coll: string, id: string)
      requires InTransaction()
      modifies `rev, `ops
      ensures InTransaction() && rev == Trim(cfg, old(rev), coll, id)
    {
      if coll in cfg.maxRevisions && cfg.maxRevisions[coll] > 0 {
        CutRevisions(coll, id, cfg.maxRevisions[coll]);
      }
    }

    /** Re-indexes the metadata of a changed document: old keys out, new keys in. */
    method ReindexMetadata(coll: string, existing: Doc, doc: Doc)
      requires InTransaction()
      modifies `idx, `ops
      ensures InTransaction() && idx == Reindex(old(idx), coll, existing, doc)
    {
      var changed := MetadataChanged(existing.meta, doc.meta);
      if changed {
        if existing.id != "" {
          DropIndexKeys(coll, existing.meta, existing.id);
        }
        PutIndexKeys(coll, doc.meta, doc.id);
      }
    }

    method SaveRevision(coll: string, doc: Doc, now: Time)
      requires InTransaction()
      modifies `rev, `ops
      ensures InTransaction() && rev == AddRevision(cfg, old(rev), coll, doc, now)
    {
      PutRevision(RevKey(coll, doc.id, now), doc);
      TrimRevisions(coll, doc.id);
    }

    /** The edits of one write: document, key index, metadata index and, if wanted, a revision. */
    method WriteDocument(coll: string, existing: Doc, doc: Doc, saveRev: bool, now: Time)
      requires InTransaction()
      modifies `docs, `byKey, `idx, `rev, `ops
      ensures InTransaction() && State() == PutDoc(cfg, old(State()), coll, existing, doc, saveRev, now)
    {
      PutDocument(DocKey(coll, doc.id), doc);
      PutEntry(ByKeyKey(coll, doc.key, doc.lang), doc.id);
      ReindexMetadata(coll, existing, doc);
      if saveRev {
        SaveRevision(coll, doc, now);
      }
    }

    // ---- add -----------------------------------------------------------------------------------

    /** Adds or replaces a document; refuses without touching anything. */
    method AddDocument(coll: string, r: AddRequest, now: Time) returns (saved: Option<Doc>, isNew: bool)
      requires Valid()
      modifies `docs, `byKey, `idx, `rev, `ops, `binlog
      ensures Valid() && old(binlog) <= binlog
      ensures State() == Add(cfg, old(State()), coll, r, now)
      ensures saved == if Accepted(cfg, coll, r) then Some(AddedDoc(old(State()), coll, r, now)) else None
      ensures saved.Some? <==> coll != "" && r.key != "" && r.lang != "" && cfg.schema(coll, r.meta)
      ensures saved.None? ==> State() == old(State()) && !isNew
      ensures saved.Some? ==>
                var id, d := GenID(coll, r.key, r.lang), saved.value;
                var dk := DocKey(coll, id);
                && d.id == id && d.key == r.key && d.lang == r.lang && d.meta == r.meta && d.content == r.content
                && d.updatedAt == now && d.expiresAt == (if r.ttl > 0 then now + r.ttl else 0)
                && (isNew <==> dk !in old(docs) || old(docs)[dk].addedAt == 0)
                && d.addedAt == (if isNew then now else old(docs)[dk].addedAt)
                && docs == old(docs)[dk := d] && byKey == old(byKey)[ByKeyKey(coll, r.key, r.lang) := id]
                && rev == if r.saveRev then Trim(cfg, old(rev)[RevKey(coll, id, now) := d], coll, id) else old(rev)
    {
      if coll == "" || r.key == "" || r.lang == "" {
        return None, false;
      }
      if !cfg.schema(coll, r.meta) {
        return None, false;
      }
      var docID := GenID(coll, r.key, r.lang);
      var existing := NO_DOC;
      if DocKey(coll, docID) in docs {
        existing := docs[DocKey(coll, docID)];
      }
      var added := existing.addedAt;
      isNew := false;
      if added == 0 {
        added := now;
        isNew := true;
      }
      var expires := 0;
      if r.ttl > 0 {
        expires := now + r.ttl;
      }
      var doc := Doc(docID, r.key, r.lang, r.meta, r.content, added, now, expires);
      WriteDocument(coll, existing, doc, r.saveRev, now);
      Flush();
      saved := Some(doc);
    }

    // ---- update ---------------------------------------------------------------------------------

    /** Partial update through the key index; absent and expired documents are not found. */
    method UpdateDocument(coll: string, key: string, lang: string, p: Patch, now: Time) returns (saved: Option<Doc>)
      requires Valid()
      modifies `docs, `idx, `rev, `ops, `binlog
      ensures Valid() && old(binlog) <= binlog
      ensures State() == Update(cfg, old(State()), coll, key, lang, p, now)
      ensures var f := Found(old(State()), coll, key, lang, now);
              saved == if PatchAccepted(cfg, coll, key, lang, p) && f.Some?
                       then Some(Patched(f.value, p, now)) else None
      ensures var bk := ByKeyKey(coll, key, lang);
              saved.Some? <==>
                && coll != "" && key != "" && lang != "" && (p.meta.Some? || p.content.Some? || p.ttl.Some?)
                && (p.meta.Some? ==> cfg.schema(coll, p.meta.value))
                && bk in byKey && DocKey(coll, byKey[bk]) in old(docs)
                && (old(docs)[DocKey(coll, byKey[bk])].expiresAt <= 0
                    || now <= old(docs)[DocKey(coll, byKey[bk])].expiresAt)
      ensures saved.None? ==> State() == old(State())
      ensures saved.Some? ==>
                var was, d := old(docs)[DocKey(coll, byKey[ByKeyKey(coll, key, lang)])], saved.value;
                && d.id == was.id && d.key == was.key && d.lang == was.lang && d.addedAt == was.addedAt
                && d.updatedAt == now
                && d.meta == (if p.meta.Some? then p.meta.value else was.meta)
                && d.content == (if p.content.Some? then p.content.value else was.content)
                && (p.ttl.None? ==> d.expiresAt == was.expiresAt)
                && (p.ttl.Some? ==> d.expiresAt == if p.ttl.value > 0 then now + p.ttl.value else 0)
                && docs == old(docs)[DocKey(coll, d.id) := d]
                && rev == Trim(cfg, old(rev)[RevKey(coll, d.id, now) := d], coll, d.id)
    {
      if coll == "" || key == "" || lang == "" {
        return None;
      }
      if p.meta.None? && p.content.None? && p.ttl.None? {
        return None;
      }
      if p.meta.Some? && !cfg.schema(coll, p.meta.value) {
        return None;
      }
      var bk := ByKeyKey(coll, key, lang);
      if bk !in byKey {
        return None;
      }
      if DocKey(coll, byKey[bk]) !in docs {
        return None;
      }
      var existing := docs[DocKey(coll, byKey[bk])];
      if existing.expiresAt > 0 && existing.expiresAt < now {
        return None;
      }
      var doc, metaDidChange := PatchDocument(existing, p, now);
      WriteBack(coll, existing, doc, metaDidChange, now);
      Flush();
      saved := Some(doc);
    }

    /** The patched document, and whether its metadata differ from the stored ones. */
    method PatchDocument(existing: Doc, p: Patch, now: Time) returns (doc: Doc, metaDidChange: bool)
      ensures doc == Patched(existing, p, now)
      ensures metaDidChange <==> doc.meta != existing.meta
    {
      doc := existing.(updatedAt := now);
      metaDidChange := false;
      if p.meta.Some? {
        metaDidChange := MetadataChanged(doc.meta, p.meta.value);
        doc := doc.(meta := p.meta.value);
      }
      if p.content.Some? {
        doc := doc.(content := p.content.value);
      }
      if p.ttl.Some? {
        doc := doc.(expiresAt := if p.ttl.value > 0 then now + p.ttl.value else 0);
      }
    }

    /** The edits of an update; the key index is left alone. */
    method WriteBack(coll: string, existing: Doc, doc: Doc, metaDidChange: bool, now: Time)
      requires InTransaction()
      modifies `docs, `idx, `rev, `ops
      ensures InTransaction() && docs == old(docs)[DocKey(coll, doc.id) := doc]
      ensures idx == if metaDidChange
                     then (old(idx) - MetaKeys(coll, existing.meta, doc.id)) + MetaKeys(coll, doc.meta, doc.id)
                     else old(idx)
      ensures rev == AddRevision(cfg, old(rev), coll, doc, now)
    {
      PutDocument(DocKey(coll, doc.id), doc);
      if metaDidChange {
        DropIndexKeys(coll, existing.meta, doc.id);
        PutIndexKeys(coll, doc.meta, doc.id);
      }
      SaveRevision(coll, doc, now);
    }

    // ---- batch add ----------------------------------------------------------------------------------

    /** Commits prepared documents in one transaction and counts them. */
    method CommitBatch(coll: string, processed: seq<Processed>, now: Time)
      returns (added: nat, updated: nat, failed: nat, committed: seq<Processed>)
      requires Valid()
      modifies `docs, `byKey, `idx, `rev, `ops, `binlog
      ensures Valid() && old(binlog) <= binlog
      ensures State() == CommitAll(cfg, old(State()), coll, processed, now)
      ensures committed == ReadyOnes(processed) && |committed| == added + updated
      ensures updated == UpdatesAmong(processed) && added + updated + failed == |processed|
      ensures updated == |set i: nat | i < |processed| && processed[i].Ready? && processed[i].isUpdate|
      ensures failed == |set i: nat | i < |processed| && processed[i].Refused?|
      ensures forall p :: p in committed <==> p in processed && p.Ready?
    {
      added, updated, failed, committed := 0, 0, 0, [];
      for i := 0 to |processed|
        invariant InTransaction() && binlog == old(binlog)
        invariant State() == CommitAll(cfg, old(State()), coll, processed[..i], now)
        invariant committed == ReadyOnes(processed[..i]) && |committed| == added + updated
        invariant updated == UpdatesAmong(processed[..i]) && added + updated + failed == i
      {
        var p := processed[i];
        CommitOneMore(cfg, old(State()), coll, processed[..i], p, now);
        assert processed[..i + 1] == processed[..i] + [p];
        ReadyOneMore(processed[..i], p);
        if p.Refused? {
          failed := failed + 1;
        } else {
          WriteDocument(coll, p.existing, p.doc, p.saveRev, now);
          if p.isUpdate {
            updated := updated + 1;
          } else {
            added := added + 1;
          }
          committed := committed + [p];
        }
      }
      assert processed[..|processed|] == processed;
      CountsArePlaces(processed);
      Flush();
    }

    /** The edits of one prepared document, its keys assembled piece by piece and nothing noted. */
    method WriteFast(coll: string, p: Processed, now: Time)
      requires p.Ready?
      modifies `docs, `byKey, `idx, `rev
      ensures State() == CommitOne(cfg, old(State()), coll, p, now)
    {
      var docKeyBuf := "doc|";
      docKeyBuf := docKeyBuf + coll;
      docKeyBuf := docKeyBuf + "|";
      docKeyBuf := docKeyBuf + p.doc.id;
      var byKeyBuf := "bykey|";
      byKeyBuf := byKeyBuf + coll;
      byKeyBuf := byKeyBuf + "|";
      byKeyBuf := byKeyBuf + p.doc.key;
      byKeyBuf := byKeyBuf + "|";
      byKeyBuf := byKeyBuf + p.doc.lang;
      docs, byKey := docs[docKeyBuf := p.doc], byKey[byKeyBuf := p.doc.id];
      ReindexFast(coll, p.existing, p.doc);
      if p.saveRev {
        var revKeyBuf := "rev|";
        revKeyBuf := revKeyBuf + coll;
        revKeyBuf := revKeyBuf + "|";
        revKeyBuf := revKeyBuf + p.doc.id;
        revKeyBuf := revKeyBuf + "|";
        var stamp := new char[20];
        var out, at := FormatTimestamp(now, stamp, 0, 20);
        StampedIsStamp(now);
        revKeyBuf := revKeyBuf + out[at..at + 20];
        assert revKeyBuf == RevKey(coll, p.doc.id, now);
        rev := rev[revKeyBuf := p.doc];
        TrimUnlogged(coll, p.doc.id);
      }
    }

    /** The extreme-mode commit: the same edits without the
        operation log. Afterwards a follower has the leader's buckets only if nothing changed. */
    method CommitBatchFast(coll: string, processed: seq<Processed>, now: Time)
      returns (added: nat, updated: nat, failed: nat, committed: seq<Processed>)
      requires Valid()
      modifies `docs, `byKey, `idx, `rev
      ensures State() == CommitAll(cfg, old(State()), coll, processed, now)
      ensures Valid() <==> State() == old(State())
      ensures committed == ReadyOnes(processed) && |committed| == added + updated
      ensures updated == UpdatesAmong(processed) && added + updated + failed == |processed|
      ensures updated == |set i: nat | i < |processed| && processed[i].Ready? && processed[i].isUpdate|
      ensures failed == |set i: nat | i < |processed| && processed[i].Refused?|
      ensures forall p :: p in committed <==> p in processed && p.Ready?
    {
      added, updated, failed, committed := 0, 0, 0, [];
      for i := 0 to |processed|
        invariant State() == CommitAll(cfg, old(State()), coll, processed[..i], now)
        invariant committed == ReadyOnes(processed[..i]) && |committed| == added + updated
        invariant updated == UpdatesAmong(processed[..i]) && added + updated + failed == i
      {
        var p := processed[i];
        CommitOneMore(cfg, old(State()), coll, processed[..i], p, now);
        assert processed[..i + 1] == processed[..i] + [p];
        ReadyOneMore(processed[..i], p);
        if p.Refused? {
          failed := failed + 1;
        } else {
          WriteFast(coll, p, now);
          if p.isUpdate {
            updated := updated + 1;
          } else {
            added := added + 1;
          }
          committed := committed + [p];
        }
      }
      assert processed[..|processed|] == processed;
      CountsArePlaces(processed);
    }

    /** The extreme mode as a whole: read everything named, prepare each document from what was
        read, commit. It leaves what the standard batch leaves. */
    method AddBatchFast(coll: string, rs: seq<BatchRequest>, now: Time)
      returns (added: nat, updated: nat, failed: nat, committed: seq<Processed>)
      requires Valid()
      modifies `docs, `byKey, `idx, `rev
      ensures State() == BatchAdd(cfg, old(State()), coll, rs, now)
      ensures DistinctTargets(cfg, coll, rs) ==> State() == WriteAll(cfg, old(State()), coll, rs, now)
      ensures var ps := ProcessAll(cfg, old(State()), coll, rs, now);
              && committed == ReadyOnes(ps) && |committed| == added + updated
              && updated == UpdatesAmong(ps) && added + updated + failed == |rs|
      ensures updated == |set i: nat | i < |rs| && rs[i].key != "" && rs[i].lang != "" && cfg.schema(coll, rs[i].meta)
                                  && DocKey(coll, GenID(coll, rs[i].key, rs[i].lang)) in old(docs)|
      ensures failed == |set i: nat | i < |rs|
                                 && (rs[i].key == "" || rs[i].lang == "" || !cfg.schema(coll, rs[i].meta))|
    {
      var read := BatchReadAll(State(), coll, rs);
      var processed := PrepareFast(cfg, State(), coll, rs, read, now);
      added, updated, failed, committed := CommitBatchFast(coll, processed, now);
      PlacesOfRequests(cfg, old(State()), coll, rs, now);
      if DistinctTargets(cfg, coll, rs) {
        BatchIsSequential(cfg, old(State()), coll, rs, now);
      }
    }

    method ReindexFast(coll: string, existing: Doc, doc: Doc)
      modifies `idx
      ensures idx == Reindex(old(idx), coll, existing, doc)
    {
      var changed := MetadataChanged(existing.meta, doc.meta);
      if changed {
        if existing.id != "" {
          var gone := AssembleKeys(coll, existing.meta, existing.id);
          idx := idx - gone;
        }
        var put := AssembleKeys(coll, doc.meta, doc.id);
        idx := idx + put;
      }
    }

    /** The cap applied without noting the deletions. */
    method TrimUnlogged(coll: string, id: string)
      modifies `rev
      ensures rev == Trim(cfg, old(rev), coll, id)
    {
      if coll in cfg.maxRevisions && cfg.maxRevisions[coll] > 0 {
        var keep := cfg.maxRevisions[coll];
        var ks := InOrder(RevKeysOf(rev, coll, id));
        if |ks| > keep {
          rev := rev - Elements(ks[..|ks| - keep]);
        } else {
          assert rev - {} == rev;
        }
      }
    }

    // ---- delete -----------------------------------------------------------------------------------------

    /** The edits of one removal. */
    method RemoveDocument(coll: string, dk: string, meta: Meta, id: string, bk: string)
      requires InTransaction()
      modifies `docs, `byKey, `idx, `rev, `ops
      ensures InTransaction() && State() == RemoveOne(old(State()), coll, dk, meta, id, bk)
    {
      DeleteDocument(dk);
      DeleteEntry(bk);
      var ks := InOrder(RevKeysOf(rev, coll, id));
      DeleteRevisions(ks);
      assert Elements(ks) == RevKeysOf(old(rev), coll, id);
      DropIndexKeys(coll, meta, id);
    }

    /** Single delete; a missing document is an error and changes nothing. */
    method DeleteOne(coll: string, key: string, lang: string) returns (found: bool)
      requires Valid()
      modifies `docs, `byKey, `idx, `rev, `ops, `binlog
      ensures Valid() && old(binlog) <= binlog
      ensures State() == Delete(old(State()), coll, key, lang)
      ensures docs == old(docs) - {DocKey(coll, GenID(coll, key, lang))}
      ensures byKey == if found then old(byKey) - {ByKeyKey(coll, key, lang)} else old(byKey)
      ensures rev == if !found then old(rev)
                     else map k | k in old(rev) && !(RevPrefix(coll, GenID(coll, key, lang)) <= k) :: old(rev)[k]
      ensures found <==> DocKey(coll, GenID(coll, key, lang)) in old(docs)
    {
      var docID := GenID(coll, key, lang);
      var dk, bk := DocKey(coll, docID), ByKeyKey(coll, key, lang);
      if dk !in docs {
        return false;
      }
      RemoveNone(State(), coll);
      RemoveOneMore(State(), coll, map[], {}, dk, docID, bk);
      assert map[][dk := docID] == map[dk := docID] && {} + {bk} == {bk};
      RemoveDocument(coll, dk, docs[dk].meta, docID, bk);
      Flush();
      found := true;
    }

    method LookUpAll(coll: string, names: seq<Name>) returns (metas: seq<Option<Meta>>)
      ensures |metas| == |names| && forall j | 0 <= j < |names| :: metas[j] == LookUp(State(), coll, names[j])
    {
      metas := [];
      for i := 0 to |names|
        invariant |metas| == i
        invariant forall j | 0 <= j < i :: metas[j] == LookUp(State(), coll, names[j])
      {
        metas := metas + [LookUp(State(), coll, names[i])];
      }
    }

    /** One document of a batch delete, by what its lookup found in `s`. */
    method RemoveHit(ghost s: Buckets, coll: string, ghost names: seq<Name>, n: Name, meta: Meta)
      requires InTransaction() && State() == BatchDelete(s, coll, names)
      requires Hit(s, coll, n) && LookUp(s, coll, n) == Some(meta)
      modifies `docs, `byKey, `idx, `rev, `ops
      ensures InTransaction() && State() == BatchDelete(s, coll, names + [n])
    {
      var docID := GenID(coll, n.key, n.lang);
      ghost var ids := IdsHit(s, coll, names);
      OneMoreName(s, coll, names, n);
      ByIDOneMore(coll, ids, docID);
      ByIDAgrees(coll, ids, docID);
      RemoveOneMore(s, coll, ByID(coll, ids), HitEntries(s, coll, names), DocKey(coll, docID), docID,
          ByKeyKey(coll, n.key, n.lang));
      RemoveDocument(coll, DocKey(coll, docID), meta, docID, ByKeyKey(coll, n.key, n.lang));
    }

    /** One name of a batch delete: what was found is removed. */
    method RemoveLookedUp(ghost s: Buckets, coll: string, ghost names: seq<Name>, n: Name, meta: Option<Meta>)
      requires InTransaction() && State() == BatchDelete(s, coll, names) && meta == LookUp(s, coll, n)
      modifies `docs, `byKey, `idx, `rev, `ops
      ensures InTransaction() && State() == BatchDelete(s, coll, names + [n])
    {
      if meta.Some? {
        RemoveHit(s, coll, names, n, meta.value);
      } else {
        MissedName(s, coll, names, n);
      }
    }

    /** Batch delete: every document is looked up first, then all are removed together. */
    method DeleteBatch(coll: string, names: seq<Name>) returns (deleted: nat, notFound: nat, failed: nat)
      requires Valid()
      modifies `docs, `byKey, `idx, `rev, `ops, `binlog
      ensures Valid() && old(binlog) <= binlog
      ensures State() == BatchDelete(old(State()), coll, names)
      ensures forall dk :: dk in docs <==> dk in old(docs) && !Named(coll, names, dk)
      ensures forall dk | dk in docs :: docs[dk] == old(docs)[dk]
      ensures deleted + notFound + failed == |names|
      ensures deleted == |HitsAmong(old(State()), coll, names)| && failed == BlanksAmong(names)
      ensures deleted == |set i: nat | i < |names| && names[i].key != "" && names[i].lang != ""
                                       && DocKey(coll, GenID(coll, names[i].key, names[i].lang)) in old(docs)|
      ensures failed == |set i: nat | i < |names| && (names[i].key == "" || names[i].lang == "")|
    {
      var metas := LookUpAll(coll, names);
      deleted, notFound, failed := CommitDelete(State(), coll, names, metas);
      NamedGo(old(State()), coll, names);
      NamesArePlaces(old(State()), coll, names);
      Flush();
    }

    method CommitDelete(ghost s: Buckets, coll: string, names: seq<Name>, metas: seq<Option<Meta>>)
      returns (deleted: nat, notFound: nat, failed: nat)
      requires InTransaction() && State() == s
      requires |metas| == |names| && forall j | 0 <= j < |names| :: metas[j] == LookUp(s, coll, names[j])
      modifies `docs, `byKey, `idx, `rev, `ops
      ensures InTransaction() && State() == BatchDelete(s, coll, names)
      ensures deleted + notFound + failed == |names|
      ensures deleted == |HitsAmong(s, coll, names)| && failed == BlanksAmong(names)
    {
      deleted, notFound, failed := 0, 0, 0;
      NoNames(s, coll);
      assert names[..0] == [];
      for i := 0 to |names|
        invariant InTransaction() && State() == BatchDelete(s, coll, names[..i])
        invariant deleted + notFound + failed == i
        invariant deleted == |HitsAmong(s, coll, names[..i])| && failed == BlanksAmong(names[..i])
      {
        var n := names[i];
        assert names[..i + 1] == names[..i] + [n];
        CountName(s, coll, names[..i], n);
        assert metas[i] == LookUp(s, coll, n);
        RemoveLookedUp(s, coll, names[..i], n, metas[i]);
        if n.key == "" || n.lang == "" {
          failed := failed + 1;
        } else if metas[i].None? {
          notFound := notFound + 1;
        } else {
          deleted := deleted + 1;
        }
      }
      assert names[..|names|] == names;
    }

    /** The document under one key of a collection, which goes by its own id and names. */
    method RemoveUnder(ghost s: Buckets, coll: string, ghost before: set<string>, dk: string)
      requires InTransaction() && before <= s.docs.Keys && dk in s.docs && dk !in before
      requires State() == RemoveSet(s, coll, before)
      modifies `docs, `byKey, `idx, `rev, `ops
      ensures InTransaction()
      ensures State() == RemoveSet(s, coll, before + {dk})
    {
      var doc := docs[dk];
      assert IdsUnder(s, before + {dk}) == IdsUnder(s, before)[dk := doc.id];
      assert EntriesUnder(s, coll, before + {dk}) == EntriesUnder(s, coll, before)
        + {ByKeyKey(coll, doc.key, doc.lang)};
      RemoveOneMore(s, coll, IdsUnder(s, before), EntriesUnder(s, coll, before), dk, doc.id,
          ByKeyKey(coll, doc.key, doc.lang));
      RemoveDocument(coll, dk, doc.meta, doc.id, ByKeyKey(coll, doc.key, doc.lang));
    }

    /** Deletes every document of a collection, in key order, and then its configuration; a request
        without a collection is refused. */
    method DeleteAll(coll: string) returns (deleted: nat)
      requires Valid()
      modifies `docs, `byKey, `idx, `rev, `ops, `binlog, `cfg
      ensures Valid() && old(binlog) <= binlog
      ensures coll == "" ==> State() == old(State()) && cfg == old(cfg) && deleted == 0
      ensures coll != "" ==>
                && State() == DeleteCollection(old(State()), coll)
                && (forall dk :: dk in docs <==> dk in old(docs) && !(DocPrefix(coll) <= dk))
                && (forall dk | dk in docs :: docs[dk] == old(docs)[dk])
                && cfg == old(cfg).(maxRevisions := old(cfg).maxRevisions - {coll})
                && deleted == |CollectionKeys(old(State()), coll)|
    {
      if coll == "" {
        return 0;
      }
      var ks := InOrder(CollectionKeys(State(), coll));
      RemoveSetEnds(State(), coll);
      assert Elements(ks) == CollectionKeys(State(), coll);
      RemoveEach(State(), coll, ks);
      Flush();
      cfg := cfg.(maxRevisions := cfg.maxRevisions - {coll});
      deleted := |ks|;
    }

    method RemoveEach(ghost s: Buckets, coll: string, ks: seq<string>)
      requires InTransaction() && State() == s && Ascending(ks) && Elements(ks) <= s.docs.Keys
      modifies `docs, `byKey, `idx, `rev, `ops
      ensures InTransaction() && State() == RemoveSet(s, coll, Elements(ks))
    {
      RemoveSetEnds(s, coll);
      assert ks[..0] == [];
      for i := 0 to |ks|
        invariant InTransaction()
        invariant Elements(ks[..i]) <= s.docs.Keys
        invariant State() == RemoveSet(s, coll, Elements(ks[..i]))
      {
        NextKey(ks, i);
        assert ks[i] in Elements(ks);
        RemoveUnder(s, coll, Elements(ks[..i]), ks[i]);
      }
      assert ks[..|ks|] == ks;
    }

    // ---- truncate ------------------------------------------------------------------------------------------

    /** Cuts the history of every document of a collection to its newest `keep` revisions. */
    method TruncateAll(coll: string, keep: int)
      requires Valid()
      modifies `rev, `ops, `binlog
      ensures Valid() && old(binlog) <= binlog
      ensures State() == Truncate(old(State()), coll, keep)
    {
      if coll == "" {
        return;
      }
      var ks := InOrder(CollectionKeys(State(), coll));
      if keep >= 0 {
        CutEach(coll, ks, keep);
      }
      Flush();
    }

    method CutEach(coll: string, ks: seq<string>, keep: nat)
      requires InTransaction() && forall dk | dk in ks :: dk in docs
      modifies `rev, `ops
      ensures InTransaction() && rev == CutAll(docs, old(rev), coll, ks, keep)
    {
      for i := 0 to |ks|
        invariant InTransaction() && rev == CutAll(docs, old(rev), coll, ks[..i], keep)
      {
        assert ks[..i + 1] == ks[..i] + [ks[i]];
        CutOneMore(docs, old(rev), coll, ks[..i], ks[i], keep);
        CutRevisions(coll, docs[ks[i]].id, keep);
      }
      assert ks[..|ks|] == ks;
    }
  }

  /** Every document of a batch prepared from what was read of `s`. */
  method PrepareFast(cfg: Config, ghost s: Buckets, coll: string, rs: seq<BatchRequest>, read: map<string, Doc>,
                     now: Time)
    returns (processed: seq<Processed>)
    requires read == ReadAll(s, coll, rs)
    ensures processed == ProcessAll(cfg, s, coll, rs, now)
  {
    processed := [];
    for i := 0 to |rs|
      invariant |processed| == i
      invariant forall j | 0 <= j < i :: processed[j] == ProcessDocument(cfg, s, coll, rs[j], now)
    {
      FastIsStandard(cfg, s, coll, rs, rs[i], now);
      processed := processed + [ProcessFast(cfg, read, coll, rs[i], now)];
    }
  }

  /** Where a batch has updates, and where it has refusals. */
  function UpdatePlaces(ps: seq<Processed>): set<nat> {
    set i: nat | i < |ps| && ps[i].Ready? && ps[i].isUpdate
  }

  function RefusalPlaces(ps: seq<Processed>): set<nat> { set i: nat | i < |ps| && ps[i].Refused? }

  lemma OneMorePlace(front: seq<Processed>, p: Processed)
    ensures UpdatePlaces(front + [p]) == UpdatePlaces(front) + if p.Ready? && p.isUpdate then {|front|} else {}
    ensures RefusalPlaces(front + [p]) == RefusalPlaces(front) + if p.Refused? then {|front|} else {}
  {
  }

  /** The counters of a commit count places in the batch. */
  lemma {:induction false} CountsArePlaces(ps: seq<Processed>)
    ensures UpdatesAmong(ps) == |UpdatePlaces(ps)| && |ps| - |ReadyOnes(ps)| == |RefusalPlaces(ps)|
    ensures forall p :: p in ReadyOnes(ps) <==> p in ps && p.Ready?
  {
    if ps != [] {
      var front, p := ps[..|ps| - 1], ps[|ps| - 1];
      CountsArePlaces(front);
      assert ps == front + [p];
      OneMorePlace(front, p);
      ReadyOneMore(front, p);
    }
  }

  /** A prepared document is an update when it was stored before the batch. */
  lemma PlacesOfRequests(cfg: Config, s: Buckets, coll: string, rs: seq<BatchRequest>, now: Time)
    ensures var ps := ProcessAll(cfg, s, coll, rs, now);
            && UpdatePlaces(ps)
               == (set i: nat | i < |rs| && rs[i].key != "" && rs[i].lang != "" && cfg.schema(coll, rs[i].meta)
                                && DocKey(coll, GenID(coll, rs[i].key, rs[i].lang)) in s.docs)
            && RefusalPlaces(ps)
               == (set i: nat | i < |rs| && (rs[i].key == "" || rs[i].lang == "" || !cfg.schema(coll, rs[i].meta)))
  {
  }

  /** What the lookup phase of a batch delete learns about one request. */
  function LookUp(s: Buckets, coll: string, n: Name): Option<Meta> {
    if Hit(s, coll, n) then Some(s.docs[DocKey(coll, GenID(coll, n.key, n.lang))].meta) else None
  }

  function HitsAmong(s: Buckets, coll: string, names: seq<Name>): seq<Name> {
    if names == [] then []
    else
      var last := names[|names| - 1];
      HitsAmong(s, coll, names[..|names| - 1]) + if Hit(s, coll, last) then [last] else []
  }

  /** How many names lack the key or the language. */
  function BlanksAmong(names: seq<Name>): nat {
    if names == [] then 0
    else
      var last := names[|names| - 1];
      BlanksAmong(names[..|names| - 1]) + if last.key == "" || last.lang == "" then 1 else 0
  }

  function HitPlaces(s: Buckets, coll: string, names: seq<Name>): set<nat> {
    set i: nat | i < |names| && names[i].key != "" && names[i].lang != ""
                 && DocKey(coll, GenID(coll, names[i].key, names[i].lang)) in s.docs
  }

  function BlankPlaces(names: seq<Name>): set<nat> {
    set i: nat | i < |names| && (names[i].key == "" || names[i].lang == "")
  }

  lemma OneMoreNamePlace(s: Buckets, coll: string, front: seq<Name>, n: Name)
    ensures HitPlaces(s, coll, front + [n]) == HitPlaces(s, coll, front) + if Hit(s, coll, n) then {|front|} else {}
    ensures BlankPlaces(front + [n]) == BlankPlaces(front) + if n.key == "" || n.lang == "" then {|front|} else {}
  {
  }

  /** The counters of a batch delete count places in it. */
  lemma {:induction false} NamesArePlaces(s: Buckets, coll: string, names: seq<Name>)
    ensures |HitsAmong(s, coll, names)| == |HitPlaces(s, coll, names)| && BlanksAmong(names) == |BlankPlaces(names)|
  {
    if names != [] {
      var front, n := names[..|names| - 1], names[|names| - 1];
      NamesArePlaces(s, coll, front);
      assert names == front + [n];
      OneMoreNamePlace(s, coll, front, n);
      CountName(s, coll, front, n);
    }
  }

  lemma NoNames(s: Buckets, coll: string)
    ensures BatchDelete(s, coll, []) == s
  {
    RemoveNone(s, coll);
    assert ByID(coll, IdsHit(s, coll, [])) == map[] && HitEntries(s, coll, []) == {};
  }

  lemma OneMoreName(s: Buckets, coll: string, names: seq<Name>, n: Name)
    ensures HitsAmong(s, coll, names + [n]) == HitsAmong(s, coll, names) + (if Hit(s, coll, n) then [n] else [])
    ensures Hit(s, coll, n) ==>
              && IdsHit(s, coll, names + [n]) == IdsHit(s, coll, names) + {GenID(coll, n.key, n.lang)}
              && HitEntries(s, coll, names + [n]) == HitEntries(s, coll, names) + {ByKeyKey(coll, n.key, n.lang)}
    ensures !Hit(s, coll, n) ==>
              && IdsHit(s, coll, names + [n]) == IdsHit(s, coll, names)
              && HitEntries(s, coll, names + [n]) == HitEntries(s, coll, names)
  {
    assert (names + [n])[..|names|] == names;
  }

  /** A name that hits nothing changes nothing. */
  lemma MissedName(s: Buckets, coll: string, names: seq<Name>, n: Name)
    requires !Hit(s, coll, n)
    ensures BatchDelete(s, coll, names + [n]) == BatchDelete(s, coll, names)
  {
    OneMoreName(s, coll, names, n);
  }

  lemma CountName(s: Buckets, coll: string, names: seq<Name>, n: Name)
    ensures |HitsAmong(s, coll, names + [n])| == |HitsAmong(s, coll, names)| + if Hit(s, coll, n) then 1 else 0
    ensures BlanksAmong(names + [n]) == BlanksAmong(names) + if n.key == "" || n.lang == "" then 1 else 0
  {
    assert (names + [n])[..|names|] == names;
  }

  lemma NextKey(ks: seq<string>, i: nat)
    requires Ascending(ks) && i < |ks|
    ensures Elements(ks[..i + 1]) == Elements(ks[..i]) + {ks[i]}
    ensures ks[i] !in Elements(ks[..i]) && ks[i] in ks
  {
    assert ks[..i + 1] == ks[..i] + [ks[i]];
    forall j | 0 <= j < i ensures ks[j] != ks[i] {
      LessAsymmetric(ks[j], ks[i]);
    }
  }

  lemma ByIDAgrees(coll: string, ids: set<string>, id: string)
    ensures DocKey(coll, id) in ByID(coll, ids) ==> ByID(coll, ids)[DocKey(coll, id)] == id
  {
    assert DocKey(coll, id)[|DocPrefix(coll)|..] == id;
  }

  ghost function IdsUnder(s: Buckets, dks: set<string>): map<string, string>
    requires dks <= s.docs.Keys
  {
    map dk | dk in dks :: s.docs[dk].id
  }

  ghost function EntriesUnder(s: Buckets, coll: string, dks: set<string>): set<string>
    requires dks <= s.docs.Keys
  {
    set dk | dk in dks :: ByKeyKey(coll, s.docs[dk].key, s.docs[dk].lang)
  }

  /** Some documents of a collection go by their own ids and names. */
  ghost function RemoveSet(s: Buckets, coll: string, dks: set<string>): Buckets
    requires dks <= s.docs.Keys
  {
    Remove(s, coll, IdsUnder(s, dks), EntriesUnder(s, coll, dks))
  }

  lemma RemoveSetEnds(s: Buckets, coll: string)
    ensures RemoveSet(s, coll, Elements([])) == s
    ensures RemoveSet(s, coll, CollectionKeys(s, coll)) == DeleteCollection(s, coll)
  {
    RemoveNone(s, coll);
    assert IdsUnder(s, Elements([])) == map[] && EntriesUnder(s, coll, Elements([])) == {};
  }

  /** The index keys of a document, assembled one by one in a reused buffer. */
  method AssembleKeys(coll: string, meta: Meta, id: string) returns (ks: set<string>)
    ensures ks == MetaKeys(coll, meta, id)
  {
    ks := {};
    var buf := "";
    var todo := meta.Keys;
    while todo != {}
      invariant todo <= meta.Keys
      invariant ks == SomeMetaKeys(coll, meta, meta.Keys - todo, id)
      decreases |todo|
    {
      var mk :| mk in todo;
      var vals := meta[mk];
      ghost var before := ks;
      for i := 0 to |vals|
        invariant ks == before + ValueKeys(coll, mk, vals[..i], id)
      {
        OneMoreValue(coll, mk, vals, i, id);
        buf := "meta|";
        buf := buf + coll;
        buf := buf + "|";
        buf := buf + mk;
        buf := buf + "|";
        buf := buf + vals[i];
        buf := buf + "|";
        buf := buf + id;
        assert buf == MetaKey(coll, mk, vals[i], id);
        ks := ks + {buf};
      }
      assert vals[..|vals|] == vals;
      OneMoreMetaKey(coll, meta, meta.Keys - todo, mk, id);
      assert meta.Keys - (todo - {mk}) == (meta.Keys - todo) + {mk};
      todo := todo - {mk};
    }
    AllMetaKeys(coll, meta, id);
    assert meta.Keys - {} == meta.Keys;
  }

  /** The documents of a batch that were not refused. */
  function ReadyOnes(ps: seq<Processed>): seq<Processed> {
    if ps == [] then []
    else ReadyOnes(ps[..|ps| - 1]) + if ps[|ps| - 1].Ready? then [ps[|ps| - 1]] else []
  }

  /** How many of them replace a stored document. */
  function UpdatesAmong(ps: seq<Processed>): nat {
    if ps == [] then 0
    else UpdatesAmong(ps[..|ps| - 1]) + if ps[|ps| - 1].Ready? && ps[|ps| - 1].isUpdate then 1 else 0
  }

  lemma ReadyOneMore(ps: seq<Processed>, p: Processed)
    ensures ReadyOnes(ps + [p]) == ReadyOnes(ps) + if p.Ready? then [p] else []
    ensures UpdatesAmong(ps + [p]) == UpdatesAmong(ps) + if p.Ready? && p.isUpdate then 1 else 0
  {
    assert (ps + [p])[..|ps|] == ps;
  }
}
