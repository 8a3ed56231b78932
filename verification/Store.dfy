/** The four buckets and what one transaction does to them, as functions on values
    (services/mddbd/document_ops.go, http_handlers_meta.go, batch.go, batchdelete.go,
    http_handlers_delete.go, http_handlers.go, revision_retention.go). */
module Store {
  import opened ByteStrings
  import opened Keys

  type Meta = map<string, seq<string>>

  datatype Doc = Doc(id: string, key: string, lang: string, meta: Meta, content: string,
                     addedAt: int, updatedAt: int, expiresAt: int)

  const NO_DOC := Doc("", "", "", map[], "", 0, 0, 0)

  /** A stored value stands for its bytes; every entry of `idx` has the value "1". */
  datatype Buckets = Buckets(docs: map<string, Doc>, byKey: map<string, string>,
                             idx: set<string>, rev: map<string, Doc>)

  const EMPTY := Buckets(map[], map[], {}, map[])

  /** Schema validation and the MaxRevisions setting, per collection. */
  datatype Config = Config(schema: (string, Meta) -> bool, maxRevisions: map<string, int>)

  // ---- metadata index -----------------------------------------------------------------

  predicate HasPair(meta: Meta, mk: string, mv: string) {
    mk in meta && mv in meta[mk]
  }

  /** The index keys of one document. */
  function MetaKeys(coll: string, meta: Meta, id: string): set<string> {
    set mk, mv | mk in meta && mv in meta[mk] :: MetaKey(coll, mk, mv, id)
  }

  /** Index keys removed before a changed document is indexed again. */
  function OldKeys(coll: string, existing: Doc): set<string> {
    if existing.id != "" then MetaKeys(coll, existing.meta, existing.id) else {}
  }

  function Reindex(idx: set<string>, coll: string, existing: Doc, doc: Doc): set<string> {
    if existing.meta != doc.meta then (idx - OldKeys(coll, existing)) + MetaKeys(coll, doc.meta, doc.id) else idx
  }

  // ---- revisions ------------------------------------------------------------------------

  function RevKeysOf(rev: map<string, Doc>, coll: string, id: string): set<string> {
    set k | k in rev && IsRevOf(k, coll, id)
  }

  function Elements(ks: seq<string>): set<string> { set k | k in ks }

  /** The oldest keys of an ascending list, all but the newest `keep`. */
  ghost function Oldest(ks: seq<string>, keep: nat): set<string> {
    if |ks| <= keep then {} else Elements(ks[..|ks| - keep])
  }

  /** The history of one document cut to its newest `keep` revisions. */
  ghost function KeepNewest(rev: map<string, Doc>, coll: string, id: string, keep: nat): map<string, Doc> {
    rev - Oldest(InOrder(RevKeysOf(rev, coll, id)), keep)
  }

  /** Trimming after a write; no cap when the setting is absent or not positive. */
  ghost function Trim(cfg: Config, rev: map<string, Doc>, coll: string, id: string): map<string, Doc> {
    if coll in cfg.maxRevisions && cfg.maxRevisions[coll] > 0
    then KeepNewest(rev, coll, id, cfg.maxRevisions[coll])
    else rev
  }

  ghost function AddRevision(cfg: Config, rev: map<string, Doc>, coll: string, doc: Doc, now: Time): map<string, Doc> {
    Trim(cfg, rev[RevKey(coll, doc.id, now) := doc], coll, doc.id)
  }

  // ---- writing one document ----------------------------------------------------------------

  function Existing(s: Buckets, coll: string, id: string): Doc {
    if DocKey(coll, id) in s.docs then s.docs[DocKey(coll, id)] else NO_DOC
  }

  /** The new version of a document; AddedAt survives from the old one unless it is 0. */
  function NextDoc(existing: Doc, id: string, key: string, lang: string, meta: Meta, content: string,
                   expiresAt: int, now: Time): Doc
  {
    Doc(id, key, lang, meta, content, if existing.addedAt == 0 then now else existing.addedAt, now, expiresAt)
  }

  /** Storing `doc` over `existing`: document, key index, metadata index, revision. */
  ghost function PutDoc(cfg: Config, s: Buckets, coll: string, existing: Doc, doc: Doc, saveRev: bool,
                        now: Time): Buckets
  {
    Buckets(s.docs[DocKey(coll, doc.id) := doc],
            s.byKey[ByKeyKey(coll, doc.key, doc.lang) := doc.id],
            Reindex(s.idx, coll, existing, doc),
            if saveRev then AddRevision(cfg, s.rev, coll, doc, now) else s.rev)
  }

  datatype AddRequest = AddRequest(key: string, lang: string, meta: Meta, content: string, ttl: int, saveRev: bool)

  predicate Writable(cfg: Config, coll: string, r: AddRequest) {
    r.key != "" && r.lang != "" && cfg.schema(coll, r.meta)
  }

  predicate Accepted(cfg: Config, coll: string, r: AddRequest) { coll != "" && Writable(cfg, coll, r) }

  function AddedDoc(s: Buckets, coll: string, r: AddRequest, now: Time): Doc {
    var id := GenID(coll, r.key, r.lang);
    NextDoc(Existing(s, coll, id), id, r.key, r.lang, r.meta, r.content, if r.ttl > 0 then now + r.ttl else 0, now)
  }

  /** The write itself, whatever the collection is called. */
  ghost function Write(cfg: Config, s: Buckets, coll: string, r: AddRequest, now: Time): Buckets {
    if Writable(cfg, coll, r)
    then var doc := AddedDoc(s, coll, r, now); PutDoc(cfg, s, coll, Existing(s, coll, doc.id), doc, r.saveRev, now)
    else s
  }

  /** A single add also refuses an empty collection name. */
  ghost function Add(cfg: Config, s: Buckets, coll: string, r: AddRequest, now: Time): Buckets {
    if coll != "" then Write(cfg, s, coll, r, now) else s
  }

  // ---- batch add -----------------------------------------------------------------------------

  /** Documents of a batch carry no time to live. */
  type BatchRequest = r: AddRequest | r.ttl == 0 witness AddRequest("", "", map[], "", 0, false)

  /** A prepared document, or a refused one. */
  datatype Processed =
    | Refused
    | Ready(doc: Doc, existing: Doc, isUpdate: bool, saveRev: bool)

  /** Preparation reads the version stored before the batch. */
  function ProcessDocument(cfg: Config, s: Buckets, coll: string, r: BatchRequest, now: Time): Processed {
    if Writable(cfg, coll, r) then
      var id := GenID(coll, r.key, r.lang);
      var existing := Existing(s, coll, id);
      Ready(NextDoc(existing, id, r.key, r.lang, r.meta, r.content, 0, now), existing, DocKey(coll, id) in s.docs,
          r.saveRev)
    else Refused
  }

  function ProcessAll(cfg: Config, s: Buckets, coll: string, rs: seq<BatchRequest>, now: Time): (ps: seq<Processed>)
    ensures |ps| == |rs|
    ensures forall i | 0 <= i < |rs| :: ps[i] == ProcessDocument(cfg, s, coll, rs[i], now)
  {
    seq(|rs|, i requires 0 <= i < |rs| => ProcessDocument(cfg, s, coll, rs[i], now))
  }

  ghost function CommitOne(cfg: Config, s: Buckets, coll: string, p: Processed, now: Time): Buckets {
    if p.Ready? then PutDoc(cfg, s, coll, p.existing, p.doc, p.saveRev, now) else s
  }

  ghost function CommitAll(cfg: Config, s: Buckets, coll: string, ps: seq<Processed>, now: Time): Buckets {
    if ps == [] then s else CommitOne(cfg, CommitAll(cfg, s, coll, ps[..|ps| - 1], now), coll, ps[|ps| - 1], now)
  }

  lemma CommitOneMore(cfg: Config, s: Buckets, coll: string, ps: seq<Processed>, p: Processed, now: Time)
    ensures CommitAll(cfg, s, coll, ps + [p], now) == CommitOne(cfg, CommitAll(cfg, s, coll, ps, now), coll, p, now)
  {
    assert (ps + [p])[..|ps|] == ps;
  }

  /** All documents are prepared against the store as it was, then committed together. */
  ghost function BatchAdd(cfg: Config, s: Buckets, coll: string, rs: seq<BatchRequest>, now: Time): Buckets {
    CommitAll(cfg, s, coll, ProcessAll(cfg, s, coll, rs, now), now)
  }

  /** The same documents written one by one. */
  ghost function WriteAll(cfg: Config, s: Buckets, coll: string, rs: seq<BatchRequest>, now: Time): Buckets {
    if rs == [] then s else Write(cfg, WriteAll(cfg, s, coll, rs[..|rs| - 1], now), coll, rs[|rs| - 1], now)
  }

  lemma BatchOneMore(cfg: Config, s: Buckets, coll: string, rs: seq<BatchRequest>, r: BatchRequest, now: Time)
    ensures BatchAdd(cfg, s, coll, rs + [r], now)
         == CommitOne(cfg, BatchAdd(cfg, s, coll, rs, now), coll, ProcessDocument(cfg, s, coll, r, now), now)
    ensures WriteAll(cfg, s, coll, rs + [r], now) == Write(cfg, WriteAll(cfg, s, coll, rs, now), coll, r, now)
  {
    assert (rs + [r])[..|rs|] == rs;
    var ps := ProcessAll(cfg, s, coll, rs, now);
    CommitOneMore(cfg, s, coll, ps, ProcessDocument(cfg, s, coll, r, now), now);
    assert ProcessAll(cfg, s, coll, rs + [r], now) == ps + [ProcessDocument(cfg, s, coll, r, now)];
  }

  // ---- partial update ------------------------------------------------------------------------

  datatype Patch = Patch(meta: Option<Meta>, content: Option<string>, ttl: Option<int>)

  predicate Expired(d: Doc, now: Time) { 0 < d.expiresAt < now }

  /** The document a partial update finds, through the key index. */
  function Found(s: Buckets, coll: string, key: string, lang: string, now: Time): Option<Doc> {
    var bk := ByKeyKey(coll, key, lang);
    if bk in s.byKey && DocKey(coll, s.byKey[bk]) in s.docs && !Expired(s.docs[DocKey(coll, s.byKey[bk])], now)
    then Some(s.docs[DocKey(coll, s.byKey[bk])])
    else None
  }

  function Patched(d: Doc, p: Patch, now: Time): Doc {
    d.(updatedAt := now,
       meta := if p.meta.Some? then p.meta.value else d.meta,
       content := if p.content.Some? then p.content.value else d.content,
       expiresAt := if p.ttl.None? then d.expiresAt else if p.ttl.value > 0 then now + p.ttl.value else 0)
  }

  predicate PatchAccepted(cfg: Config, coll: string, key: string, lang: string, p: Patch) {
    coll != "" && key != "" && lang != "" && (p.meta.Some? || p.content.Some? || p.ttl.Some?)
    && (p.meta.Some? ==> cfg.schema(coll, p.meta.value))
  }

  /** The update writes the document back and always saves a revision; the key index stays. */
  ghost function Update(cfg: Config, s: Buckets, coll: string, key: string, lang: string, p: Patch,
                        now: Time): Buckets
  {
    var f := Found(s, coll, key, lang, now);
    if PatchAccepted(cfg, coll, key, lang, p) && f.Some? then
      var doc := Patched(f.value, p, now);
      Buckets(s.docs[DocKey(coll, doc.id) := doc],
              s.byKey,
              if f.value.meta != doc.meta
              then (s.idx - MetaKeys(coll, f.value.meta, doc.id)) + MetaKeys(coll, doc.meta, doc.id)
              else s.idx,
              AddRevision(cfg, s.rev, coll, doc, now))
    else s
  }

  // ---- removing documents ------------------------------------------------------------------------

  /** One document goes: its record, a key-index entry, its index keys and its revisions. */
  ghost function RemoveOne(s: Buckets, coll: string, dk: string, meta: Meta, id: string, bk: string): Buckets {
    Buckets(s.docs - {dk}, s.byKey - {bk}, s.idx - MetaKeys(coll, meta, id), s.rev - RevKeysOf(s.rev, coll, id))
  }

  /** The index key is not one of a document that goes. */
  ghost predicate IndexKept(s: Buckets, coll: string, gone: map<string, string>, k: string) {
    forall dk | dk in gone && dk in s.docs :: k !in MetaKeys(coll, s.docs[dk].meta, gone[dk])
  }

  /** The revision key is not one of a document that goes. */
  ghost predicate RevKept(coll: string, gone: map<string, string>, k: string) {
    forall dk | dk in gone :: !IsRevOf(k, coll, gone[dk])
  }

  /** Documents of one collection go (`gone` maps each to the id it goes by) with their index
      keys and revisions, and so do the key-index entries `bks`. */
  ghost function Remove(s: Buckets, coll: string, gone: map<string, string>, bks: set<string>): Buckets {
    Buckets(s.docs - gone.Keys,
            s.byKey - bks,
            set k | k in s.idx && IndexKept(s, coll, gone, k),
            map k | k in s.rev && RevKept(coll, gone, k) :: s.rev[k])
  }

  lemma RemoveNone(s: Buckets, coll: string)
    ensures Remove(s, coll, map[], {}) == s
  {
    var t := Remove(s, coll, map[], {});
    assert t.docs == s.docs && t.byKey == s.byKey && t.idx == s.idx && t.rev == s.rev;
  }

  /** Removing one more document, by the metadata it had at first. */
  lemma RemoveOneMore(s: Buckets, coll: string, gone: map<string, string>, bks: set<string>, dk: string, id: string,
                      bk: string)
    requires dk in s.docs && (dk in gone ==> gone[dk] == id)
    ensures RemoveOne(Remove(s, coll, gone, bks), coll, dk, s.docs[dk].meta, id, bk)
         == Remove(s, coll, gone[dk := id], bks + {bk})
  {
    var a := RemoveOne(Remove(s, coll, gone, bks), coll, dk, s.docs[dk].meta, id, bk);
    var b := Remove(s, coll, gone[dk := id], bks + {bk});
    assert a.docs == b.docs;
    assert a.byKey == b.byKey;
    OneMoreGoneIndex(s, coll, gone, bks, dk, id, bk);
    OneMoreGoneRev(s, coll, gone, bks, dk, id, bk);
  }

  lemma OneMoreGoneIndex(s: Buckets, coll: string, gone: map<string, string>, bks: set<string>, dk: string,
                         id: string, bk: string)
    requires dk in s.docs && (dk in gone ==> gone[dk] == id)
    ensures Remove(s, coll, gone, bks).idx - MetaKeys(coll, s.docs[dk].meta, id)
            == Remove(s, coll, gone[dk := id], bks + {bk}).idx
  {
    var more := gone[dk := id];
    var keys := MetaKeys(coll, s.docs[dk].meta, id);
    forall k ensures IndexKept(s, coll, more, k) <==> k !in keys && IndexKept(s, coll, gone, k) {
      assert more[dk] == id;
      if !IndexKept(s, coll, gone, k) {
        var x :| x in gone && x in s.docs && k in MetaKeys(coll, s.docs[x].meta, gone[x]);
        assert x in more && more[x] == gone[x];
      }
    }
  }

  lemma OneMoreGoneRev(s: Buckets, coll: string, gone: map<string, string>, bks: set<string>, dk: string, id: string,
                       bk: string)
    requires dk in gone ==> gone[dk] == id
    ensures var r := Remove(s, coll, gone, bks).rev;
            r - RevKeysOf(r, coll, id) == Remove(s, coll, gone[dk := id], bks + {bk}).rev
  {
    var more := gone[dk := id];
    forall k ensures RevKept(coll, more, k) <==> !IsRevOf(k, coll, id) && RevKept(coll, gone, k) {
      assert more[dk] == id;
      if !RevKept(coll, gone, k) {
        var x :| x in gone && IsRevOf(k, coll, gone[x]);
        assert x in more && more[x] == gone[x];
      }
    }
  }

  /** Single delete; the key-index entry removed is the one the request spells. */
  ghost function Delete(s: Buckets, coll: string, key: string, lang: string): Buckets {
    var id := GenID(coll, key, lang);
    if DocKey(coll, id) in s.docs then Remove(s, coll, map[DocKey(coll, id) := id], {ByKeyKey(coll, key, lang)}) else s
  }

  datatype Name = Name(key: string, lang: string)

  predicate Hit(s: Buckets, coll: string, n: Name) {
    n.key != "" && n.lang != "" && DocKey(coll, GenID(coll, n.key, n.lang)) in s.docs
  }

  function IdsHit(s: Buckets, coll: string, names: seq<Name>): set<string> {
    set n | n in names && Hit(s, coll, n) :: GenID(coll, n.key, n.lang)
  }

  /** Documents of a collection by their ids. */
  ghost function ByID(coll: string, ids: set<string>): map<string, string> {
    map dk | dk in (set id | id in ids :: DocKey(coll, id)) :: dk[|DocPrefix(coll)|..]
  }

  ghost function HitEntries(s: Buckets, coll: string, names: seq<Name>): set<string> {
    set n | n in names && Hit(s, coll, n) :: ByKeyKey(coll, n.key, n.lang)
  }

  ghost function BatchDelete(s: Buckets, coll: string, names: seq<Name>): Buckets {
    Remove(s, coll, ByID(coll, IdsHit(s, coll, names)), HitEntries(s, coll, names))
  }

  /** Some request of a batch delete that lacks neither key nor language means the document. */
  ghost predicate Named(coll: string, names: seq<Name>, dk: string) {
    exists n :: n in names && n.key != "" && n.lang != "" && dk == DocKey(coll, GenID(coll, n.key, n.lang))
  }

  lemma NamedGo(s: Buckets, coll: string, names: seq<Name>)
    ensures var t := BatchDelete(s, coll, names);
            && (forall dk :: dk in t.docs <==> dk in s.docs && !Named(coll, names, dk))
            && (forall dk | dk in t.docs :: t.docs[dk] == s.docs[dk])
  {
    var ids := IdsHit(s, coll, names);
    forall dk | dk in s.docs ensures dk in ByID(coll, ids) <==> Named(coll, names, dk) {
      if n :| n in names && n.key != "" && n.lang != "" && dk == DocKey(coll, GenID(coll, n.key, n.lang)) {
        assert Hit(s, coll, n) && GenID(coll, n.key, n.lang) in ids;
      }
      if id :| id in ids && dk == DocKey(coll, id) {
        var n :| n in names && Hit(s, coll, n) && id == GenID(coll, n.key, n.lang);
      }
    }
  }

  lemma ByIDOneMore(coll: string, ids: set<string>, id: string)
    ensures ByID(coll, ids + {id}) == ByID(coll, ids)[DocKey(coll, id) := id]
  {
    assert DocKey(coll, id)[|DocPrefix(coll)|..] == id;
  }

  function CollectionKeys(s: Buckets, coll: string): set<string> {
    set dk | dk in s.docs && DocPrefix(coll) <= dk
  }

  ghost function DeleteCollection(s: Buckets, coll: string): Buckets {
    Remove(s, coll, map dk | dk in CollectionKeys(s, coll) :: s.docs[dk].id,
           set dk | dk in CollectionKeys(s, coll) :: ByKeyKey(coll, s.docs[dk].key, s.docs[dk].lang))
  }

  // ---- truncation -----------------------------------------------------------------------------------

  /** Histories of the listed documents cut one after the other. */
  ghost function CutAll(docs: map<string, Doc>, rev: map<string, Doc>, coll: string, dks: seq<string>,
                        keep: nat): map<string, Doc>
    requires forall dk | dk in dks :: dk in docs
    decreases |dks|
  {
    if dks == [] then rev
    else CutAll(docs, KeepNewest(rev, coll, docs[dks[0]].id, keep), coll, dks[1..], keep)
  }

  lemma {:induction false} CutOneMore(docs: map<string, Doc>, rev: map<string, Doc>, coll: string, dks: seq<string>,
                                      dk: string, keep: nat)
    requires dk in docs && forall x | x in dks :: x in docs
    ensures CutAll(docs, rev, coll, dks + [dk], keep)
            == KeepNewest(CutAll(docs, rev, coll, dks, keep), coll, docs[dk].id, keep)
    decreases |dks|
  {
    if dks == [] {
      assert dks + [dk] == [dk];
    } else {
      assert (dks + [dk])[1..] == dks[1..] + [dk];
      CutOneMore(docs, KeepNewest(rev, coll, docs[dks[0]].id, keep), coll, dks[1..], dk, keep);
    }
  }

  ghost function Truncate(s: Buckets, coll: string, keep: int): Buckets {
    if coll != "" && keep >= 0
    then s.(rev := CutAll(s.docs, s.rev, coll, InOrder(CollectionKeys(s, coll)), keep))
    else s
  }

  // ---- runs -------------------------------------------------------------------------------------------

  datatype Op =
    | OpAdd(coll: string, req: AddRequest)
    | OpUpdate(coll: string, key: string, lang: string, patch: Patch)
    | OpBatchAdd(coll: string, reqs: seq<BatchRequest>)
    | OpDelete(coll: string, key: string, lang: string)
    | OpBatchDelete(coll: string, names: seq<Name>)
    | OpDeleteCollection(coll: string)
    | OpTruncate(coll: string, keep: int)

  /** One committed transaction; a refused or failing one changes nothing. */
  ghost function Step(cfg: Config, s: Buckets, op: Op, now: Time): Buckets {
    match op
    case OpAdd(c, r) => Add(cfg, s, c, r, now)
    case OpUpdate(c, k, l, p) => Update(cfg, s, c, k, l, p, now)
    case OpBatchAdd(c, rs) => BatchAdd(cfg, s, c, rs, now)
    case OpDelete(c, k, l) => Delete(s, c, k, l)
    case OpBatchDelete(c, ns) => BatchDelete(s, c, ns)
    case OpDeleteCollection(c) => if c != "" then DeleteCollection(s, c) else s
    case OpTruncate(c, keep) => Truncate(s, c, keep)
  }

  /** A transaction at a moment, under the configuration of that moment. */
  datatype Event = Event(op: Op, now: Time, cfg: Config)

  /** The store after the first n events of a run that starts with s. */
  ghost function After(s: Buckets, run: seq<Event>, n: nat): Buckets
    requires n <= |run|
  {
    if n == 0 then s else Step(run[n - 1].cfg, After(s, run, n - 1), run[n - 1].op, run[n - 1].now)
  }
}
