/** The secondary indexes of the store: when one transaction keeps `idxmeta` and `bykey`
    in agreement with `docs`, and what that gives over whole runs. */
module Indexes {
  import opened ByteStrings
  import opened Keys
  import opened Store

  ghost predicate PlainMeta(meta: Meta) {
    forall mk | mk in meta :: Plain(mk) && forall mv | mv in meta[mk] :: Plain(mv)
  }

  // ---- what every stored document looks like ---------------------------------------------

  /** A document sits under its own id, which its collection and names determine. */
  ghost predicate NamedRight(dk: string, d: Doc) {
    var c := CollOf(dk);
    Plain(c) && dk == DocKey(c, d.id) && d.id == GenID(c, d.key, d.lang)
  }

  ghost predicate WellNamed(s: Buckets) {
    forall dk {:trigger NamedRight(dk, s.docs[dk])} | dk in s.docs :: NamedRight(dk, s.docs[dk])
  }

  /** No stored key or language has a pipe. */
  ghost predicate PlainlyNamed(s: Buckets) {
    forall dk | dk in s.docs :: Plain(s.docs[dk].key) && Plain(s.docs[dk].lang)
  }

  /** No stored metadata has a pipe. */
  ghost predicate WellTagged(s: Buckets) {
    forall dk | dk in s.docs :: PlainMeta(s.docs[dk].meta)
  }

  /** The index keys a stored document owns. */
  ghost function KeysOwned(docs: map<string, Doc>, dk: string): set<string> {
    if dk in docs then MetaKeys(CollOf(dk), docs[dk].meta, docs[dk].id) else {}
  }

  // ---- the metadata index -------------------------------------------------------------------

  /** `idxmeta` holds the keys of the stored documents and no others. */
  ghost predicate IndexExact(s: Buckets) {
    forall k :: k in s.idx <==> exists dk :: dk in s.docs && k in KeysOwned(s.docs, dk)
  }

  /** No other document owns a key that `dk` owns and that is not kept. */
  ghost predicate Undisturbed(docs: map<string, Doc>, dk: string, keep: set<string>) {
    forall k, other | k in KeysOwned(docs, dk) && k !in keep && other in docs && other != dk ::
      k !in KeysOwned(docs, other)
  }

  /** Replacing one document and swapping its index keys keeps the index exact exactly
      when no key taken out belonged to another document as well. */
  lemma ReplaceIff(s: Buckets, t: Buckets, dk: string, d: Doc)
    requires IndexExact(s)
    requires t.docs == s.docs[dk := d]
    requires t.idx == (s.idx - KeysOwned(s.docs, dk)) + KeysOwned(t.docs, dk)
    ensures IndexExact(t) <==> Undisturbed(s.docs, dk, KeysOwned(t.docs, dk))
  {
    var own := KeysOwned(t.docs, dk);
    if Undisturbed(s.docs, dk, own) {
      forall k ensures k in t.idx <==> exists x :: x in t.docs && k in KeysOwned(t.docs, x) {
        if k in t.idx && k !in own {
          var x :| x in s.docs && k in KeysOwned(s.docs, x);
          assert x in t.docs && k in KeysOwned(t.docs, x);
        }
        if x :| x in t.docs && k in KeysOwned(t.docs, x) {
          if x != dk {
            assert x in s.docs && k in KeysOwned(s.docs, x);
          }
        }
      }
    } else {
      var k, other :| k in KeysOwned(s.docs, dk) && k !in own && other in s.docs && other != dk
        && k in KeysOwned(s.docs, other);
      assert k !in t.idx;
      assert other in t.docs && k in KeysOwned(t.docs, other);
    }
  }

  /** Documents `victims` go with the index keys and the revisions they own. */
  ghost function RemoveOwned(s: Buckets, victims: set<string>, bks: set<string>): Buckets {
    Buckets(s.docs - victims,
            s.byKey - bks,
            set k | k in s.idx && forall dk | dk in victims :: k !in KeysOwned(s.docs, dk),
            map k | k in s.rev && (forall dk | dk in victims && dk in s.docs :: !IsRevOf(k, CollOf(dk), s.docs[dk].id))
              :: s.rev[k])
  }

  /** Removing documents keeps the index exact exactly when no survivor shares a key with them. */
  lemma RemoveIff(s: Buckets, victims: set<string>, bks: set<string>)
    requires IndexExact(s)
    ensures IndexExact(RemoveOwned(s, victims, bks))
            <==> forall v, x, k | v in victims && x in s.docs && x !in victims && k in KeysOwned(s.docs, x) ::
                   k !in KeysOwned(s.docs, v)
  {
    var t := RemoveOwned(s, victims, bks);
    forall x | x in t.docs ensures KeysOwned(t.docs, x) == KeysOwned(s.docs, x) {}
    if forall v, x, k | v in victims && x in s.docs && x !in victims && k in KeysOwned(s.docs, x) ::
        k !in KeysOwned(s.docs, v)
    {
      forall k ensures k in t.idx <==> exists x :: x in t.docs && k in KeysOwned(t.docs, x) {
        if k in t.idx {
          var x :| x in s.docs && k in KeysOwned(s.docs, x);
          assert x in t.docs && k in KeysOwned(t.docs, x);
        }
        if x :| x in t.docs && k in KeysOwned(t.docs, x) {
          assert x in s.docs && x !in victims;
        }
      }
    } else {
      var v, x, k :| v in victims && x in s.docs && x !in victims && k in KeysOwned(s.docs, x)
        && k in KeysOwned(s.docs, v);
      assert x in t.docs && k in KeysOwned(t.docs, x) && k !in t.idx;
    }
  }

  /** Plain names or plain metadata: either is enough to tell index keys apart. */
  ghost predicate Separate(s: Buckets) { PlainlyNamed(s) || WellTagged(s) }

  lemma SeparateKeysDisjoint(s: Buckets, x: string, y: string, k: string)
    requires WellNamed(s) && Separate(s)
    requires x in s.docs && y in s.docs && k in KeysOwned(s.docs, x) && k in KeysOwned(s.docs, y)
    ensures x == y
  {
    var dx, dy, cx, cy := s.docs[x], s.docs[y], CollOf(x), CollOf(y);
    assert NamedRight(x, dx) && NamedRight(y, dy);
    var mk1, mv1 :| mk1 in dx.meta && mv1 in dx.meta[mk1] && k == MetaKey(cx, mk1, mv1, dx.id);
    var mk2, mv2 :| mk2 in dy.meta && mv2 in dy.meta[mk2] && k == MetaKey(cy, mk2, mv2, dy.id);
    if PlainlyNamed(s) {
      LowerKeepsPipes(cx);
      LowerKeepsPipes(cy);
      assert Plain(dx.key) && Plain(dx.lang) && Plain(dy.key) && Plain(dy.lang);
      MetaKeyOwner(cx, mk1, mv1, dx.id, cy, mk2, mv2, dy.id);
    } else {
      assert PlainMeta(dx.meta) && PlainMeta(dy.meta);
      MetaKeyInjective(cx, mk1, mv1, dx.id, cy, mk2, mv2, dy.id);
    }
  }

  lemma SeparateUndisturbed(s: Buckets, dk: string, keep: set<string>)
    requires WellNamed(s) && Separate(s)
    ensures Undisturbed(s.docs, dk, keep)
  {
    forall k, other | k in KeysOwned(s.docs, dk) && k !in keep && other in s.docs && other != dk
      ensures k !in KeysOwned(s.docs, other)
    {
      if k in KeysOwned(s.docs, other) {
        SeparateKeysDisjoint(s, dk, other, k);
      }
    }
  }

  // ---- the key index -------------------------------------------------------------------------

  ghost function OwnEntry(docs: map<string, Doc>, dk: string): string
    requires dk in docs
  {
    ByKeyKey(CollOf(dk), docs[dk].key, docs[dk].lang)
  }

  /** Own entry and id of every stored document. */
  ghost function Entries(docs: map<string, Doc>): map<string, (string, string)> {
    map dk | dk in docs :: (OwnEntry(docs, dk), docs[dk].id)
  }

  /** Every document has its own entry, which leads to it, and there are no other entries. */
  ghost predicate Agree(ent: map<string, (string, string)>, byKey: map<string, string>) {
    && (forall dk | dk in ent :: ent[dk].0 in byKey && byKey[ent[dk].0] == ent[dk].1)
    && (forall bk | bk in byKey :: exists dk :: dk in ent && bk == ent[dk].0)
  }

  ghost predicate KeysAgree(s: Buckets) {
    Agree(Entries(s.docs), s.byKey)
  }

  ghost predicate Distinct(ent: map<string, (string, string)>) {
    forall x, y | x in ent && y in ent && ent[x].0 == ent[y].0 :: x == y
  }

  lemma SetEntryIff(ent: map<string, (string, string)>, byKey: map<string, string>, dk: string, bk: string, id: string)
    requires Agree(ent, byKey) && Distinct(ent) && Distinct(ent[dk := (bk, id)])
    ensures Agree(ent[dk := (bk, id)], byKey[bk := id]) <==> (dk in ent ==> ent[dk].0 == bk)
  {
    var ent', byKey' := ent[dk := (bk, id)], byKey[bk := id];
    assert ent'[dk].0 == bk;
    if dk in ent ==> ent[dk].0 == bk {
      forall b | b in byKey' ensures exists x :: x in ent' && b == ent'[x].0 {
        if b != bk {
          var x :| x in ent && b == ent[x].0;
          assert x in ent' && b == ent'[x].0;
        }
      }
    } else {
      assert ent[dk].0 in byKey';
    }
  }

  /** Of the entries in use, exactly the victims' are among `bks`. */
  ghost predicate EntriesOf(ent: map<string, (string, string)>, victims: set<string>, bks: set<string>) {
    forall dk | dk in ent :: ent[dk].0 in bks <==> dk in victims
  }

  lemma RemoveEntriesIff(ent: map<string, (string, string)>, byKey: map<string, string>,
                         victims: set<string>, bks: set<string>)
    requires Agree(ent, byKey) && Distinct(ent) && victims <= ent.Keys
    ensures Agree(ent - victims, byKey - bks) <==> EntriesOf(ent, victims, bks)
  {
    var ent', byKey' := ent - victims, byKey - bks;
    if EntriesOf(ent, victims, bks) {
      forall b | b in byKey' ensures exists x :: x in ent' && b == ent'[x].0 {
        var x :| x in ent && b == ent[x].0;
        assert x in ent' && b == ent'[x].0;
      }
    } else {
      var dk :| dk in ent && !(ent[dk].0 in bks <==> dk in victims);
      if dk in victims {
        assert ent[dk].0 in byKey';
      } else {
        assert dk in ent';
      }
    }
  }

  /** Entry and document determine each other. */
  lemma EntriesInjective(s: Buckets, x: string, y: string)
    requires WellNamed(s)
    requires x in s.docs && y in s.docs && OwnEntry(s.docs, x) == OwnEntry(s.docs, y)
    ensures x == y
  {
    var dx, dy := s.docs[x], s.docs[y];
    assert NamedRight(x, dx) && NamedRight(y, dy);
    SameEntryIff(CollOf(x), dx.key, dx.lang, CollOf(y), dy.key, dy.lang);
    SameIDIff(CollOf(x), dx.key, dx.lang, dy.key, dy.lang);
  }

  lemma EntriesDistinct(s: Buckets)
    requires WellNamed(s)
    ensures Distinct(Entries(s.docs))
  {
    forall x, y | x in Entries(s.docs) && y in Entries(s.docs) && Entries(s.docs)[x].0 == Entries(s.docs)[y].0
      ensures x == y
    {
      EntriesInjective(s, x, y);
    }
  }

  // ---- one add --------------------------------------------------------------------------------

  ghost predicate PlainlyNamedRequest(r: AddRequest) { Plain(r.key) && Plain(r.lang) }

  function Target(coll: string, key: string, lang: string): string {
    DocKey(coll, GenID(coll, key, lang))
  }

  lemma WriteShape(cfg: Config, s: Buckets, coll: string, r: AddRequest, now: Time)
    requires WellNamed(s) && Plain(coll) && Writable(cfg, coll, r)
    ensures var t, dk := Write(cfg, s, coll, r, now), Target(coll, r.key, r.lang);
            && CollOf(dk) == coll
            && t.docs == s.docs[dk := AddedDoc(s, coll, r, now)]
            && t.byKey == s.byKey[ByKeyKey(coll, r.key, r.lang) := GenID(coll, r.key, r.lang)]
            && (dk in s.docs ==> s.docs[dk].id == GenID(coll, r.key, r.lang))
  {
    var id := GenID(coll, r.key, r.lang);
    CollOfDocKey(coll, id);
    var dk := DocKey(coll, id);
    if dk in s.docs {
      assert NamedRight(dk, s.docs[dk]);
      DocKeyInjective(coll, id, coll, s.docs[dk].id);
    }
  }

  lemma WriteKeepsNames(cfg: Config, s: Buckets, coll: string, r: AddRequest, now: Time)
    requires WellNamed(s) && Plain(coll) && Writable(cfg, coll, r)
    ensures var t := Write(cfg, s, coll, r, now);
            && WellNamed(t)
            && (PlainlyNamed(s) && PlainlyNamedRequest(r) ==> PlainlyNamed(t))
            && (WellTagged(s) && PlainMeta(r.meta) ==> WellTagged(t))
  {
    WriteShape(cfg, s, coll, r, now);
    var t, dk := Write(cfg, s, coll, r, now), Target(coll, r.key, r.lang);
    forall x | x in t.docs ensures NamedRight(x, t.docs[x]) {
      if x != dk {
        assert NamedRight(x, s.docs[x]);
      }
    }
  }

  lemma WriteIndexShape(cfg: Config, s: Buckets, coll: string, r: AddRequest, now: Time)
    requires WellNamed(s) && Plain(coll) && Writable(cfg, coll, r) && IndexExact(s)
    ensures var t, dk := Write(cfg, s, coll, r, now), Target(coll, r.key, r.lang);
            t.idx == (s.idx - KeysOwned(s.docs, dk)) + KeysOwned(t.docs, dk)
  {
    WriteShape(cfg, s, coll, r, now);
    var t, dk := Write(cfg, s, coll, r, now), Target(coll, r.key, r.lang);
    var id := GenID(coll, r.key, r.lang);
    var e, d := Existing(s, coll, id), AddedDoc(s, coll, r, now);
    assert KeysOwned(t.docs, dk) == MetaKeys(coll, d.meta, d.id);
    if dk in s.docs {
      assert |id| > 0;
      assert KeysOwned(s.docs, dk) == OldKeys(coll, e);
      assert KeysOwned(s.docs, dk) <= s.idx;
    } else {
      assert OldKeys(coll, e) == {};
    }
    if e.meta == d.meta && dk !in s.docs {
      assert MetaKeys(coll, d.meta, d.id) == {};
    }
  }

  /** One add keeps the metadata index exact exactly when the keys it drops are nobody else's. */
  lemma WriteKeepsIndexIff(cfg: Config, s: Buckets, coll: string, r: AddRequest, now: Time)
    requires WellNamed(s) && Plain(coll) && Writable(cfg, coll, r) && IndexExact(s)
    ensures IndexExact(Write(cfg, s, coll, r, now))
            <==> Undisturbed(s.docs, Target(coll, r.key, r.lang), MetaKeys(coll, r.meta, GenID(coll, r.key, r.lang)))
  {
    WriteShape(cfg, s, coll, r, now);
    WriteIndexShape(cfg, s, coll, r, now);
    ReplaceIff(s, Write(cfg, s, coll, r, now), Target(coll, r.key, r.lang), AddedDoc(s, coll, r, now));
  }

  /** The request spells the document it meets, if any, as it is stored: key and language joined
      read the same. */
  ghost predicate SameSpelling(s: Buckets, coll: string, key: string, lang: string) {
    var dk := Target(coll, key, lang);
    dk in s.docs ==> JoinedName(s.docs[dk]) == Joined(key, lang)
  }

  function JoinedName(d: Doc): string { Joined(d.key, d.lang) }

  lemma EntriesAfterPut(docs: map<string, Doc>, dk: string, d: Doc)
    ensures Entries(docs[dk := d]) == Entries(docs)[dk := (ByKeyKey(CollOf(dk), d.key, d.lang), d.id)]
  {
  }

  lemma EntriesAfterRemove(docs: map<string, Doc>, victims: set<string>)
    ensures Entries(docs - victims) == Entries(docs) - victims
  {
  }

  /** One add keeps `bykey` in agreement exactly when it does not re-spell a stored document. */
  lemma WriteKeepsKeysIff(cfg: Config, s: Buckets, coll: string, r: AddRequest, now: Time)
    requires WellNamed(s) && KeysAgree(s) && Plain(coll) && Writable(cfg, coll, r)
    ensures KeysAgree(Write(cfg, s, coll, r, now)) <==> SameSpelling(s, coll, r.key, r.lang)
  {
    WriteShape(cfg, s, coll, r, now);
    WriteKeepsNames(cfg, s, coll, r, now);
    var t, dk := Write(cfg, s, coll, r, now), Target(coll, r.key, r.lang);
    EntriesDistinct(s);
    EntriesDistinct(t);
    PutKeysIff(s, t, dk, AddedDoc(s, coll, r, now));
    if dk in s.docs {
      SameEntryIff(coll, s.docs[dk].key, s.docs[dk].lang, coll, r.key, r.lang);
    }
  }

  lemma PutKeysIff(s: Buckets, t: Buckets, dk: string, d: Doc)
    requires KeysAgree(s) && Distinct(Entries(s.docs)) && Distinct(Entries(t.docs))
    requires t.docs == s.docs[dk := d] && t.byKey == s.byKey[ByKeyKey(CollOf(dk), d.key, d.lang) := d.id]
    ensures KeysAgree(t) <==> (dk in s.docs ==> OwnEntry(s.docs, dk) == ByKeyKey(CollOf(dk), d.key, d.lang))
  {
    EntriesAfterPut(s.docs, dk, d);
    SetEntryIff(Entries(s.docs), s.byKey, dk, ByKeyKey(CollOf(dk), d.key, d.lang), d.id);
  }

  // ---- one update --------------------------------------------------------------------------------

  /** The update writes back exactly the document it found. */
  lemma UpdateShape(cfg: Config, s: Buckets, coll: string, key: string, lang: string, p: Patch, now: Time)
    requires WellNamed(s) && Plain(coll)
    requires PatchAccepted(cfg, coll, key, lang, p) && Found(s, coll, key, lang, now).Some?
    ensures var f := Found(s, coll, key, lang, now).value;
            var t, dk := Update(cfg, s, coll, key, lang, p, now), DocKey(coll, f.id);
            && CollOf(dk) == coll && dk in s.docs && s.docs[dk] == f
            && t.docs == s.docs[dk := Patched(f, p, now)] && t.byKey == s.byKey
            && WellNamed(t)
            && (PlainlyNamed(s) ==> PlainlyNamed(t))
            && (WellTagged(s) && (p.meta.Some? ==> PlainMeta(p.meta.value)) ==> WellTagged(t))
  {
    var id := s.byKey[ByKeyKey(coll, key, lang)];
    var dk := DocKey(coll, id);
    CollOfDocKey(coll, id);
    assert NamedRight(dk, s.docs[dk]);
    var t := Update(cfg, s, coll, key, lang, p, now);
    forall x | x in t.docs ensures NamedRight(x, t.docs[x]) {
      if x != dk {
        assert NamedRight(x, s.docs[x]);
      }
    }
  }

  lemma UpdateKeepsIndexIff(cfg: Config, s: Buckets, coll: string, key: string, lang: string, p: Patch, now: Time)
    requires WellNamed(s) && Plain(coll) && IndexExact(s)
    requires PatchAccepted(cfg, coll, key, lang, p) && Found(s, coll, key, lang, now).Some?
    ensures var f := Found(s, coll, key, lang, now).value;
            IndexExact(Update(cfg, s, coll, key, lang, p, now))
            <==> Undisturbed(s.docs, DocKey(coll, f.id), MetaKeys(coll, Patched(f, p, now).meta, f.id))
  {
    UpdateShape(cfg, s, coll, key, lang, p, now);
    var f := Found(s, coll, key, lang, now).value;
    var t, dk := Update(cfg, s, coll, key, lang, p, now), DocKey(coll, f.id);
    assert KeysOwned(s.docs, dk) <= s.idx;
    ReplaceIff(s, t, dk, Patched(f, p, now));
  }

  lemma UpdateKeepsKeys(cfg: Config, s: Buckets, coll: string, key: string, lang: string, p: Patch, now: Time)
    requires WellNamed(s) && Plain(coll) && KeysAgree(s)
    ensures KeysAgree(Update(cfg, s, coll, key, lang, p, now))
  {
    if PatchAccepted(cfg, coll, key, lang, p) && Found(s, coll, key, lang, now).Some? {
      UpdateShape(cfg, s, coll, key, lang, p, now);
      var f := Found(s, coll, key, lang, now).value;
      EntriesSame(s.docs, DocKey(coll, f.id), Patched(f, p, now));
    }
  }

  lemma EntriesSame(docs: map<string, Doc>, dk: string, d: Doc)
    requires dk in docs && docs[dk].id == d.id && docs[dk].key == d.key && docs[dk].lang == d.lang
    ensures Entries(docs[dk := d]) == Entries(docs)
  {
    EntriesAfterPut(docs, dk, d);
    assert Entries(docs)[dk] == (ByKeyKey(CollOf(dk), d.key, d.lang), d.id);
  }

  // ---- removals --------------------------------------------------------------------------------------

  /** The ids in `gone` are those of stored documents of the collection. */
  ghost predicate GoneRight(s: Buckets, coll: string, gone: map<string, string>) {
    forall dk | dk in gone :: dk in s.docs && CollOf(dk) == coll && s.docs[dk].id == gone[dk]
  }

  lemma RemoveIsOwned(s: Buckets, coll: string, gone: map<string, string>, bks: set<string>)
    requires GoneRight(s, coll, gone)
    ensures Remove(s, coll, gone, bks) == RemoveOwned(s, gone.Keys, bks)
  {
    assert forall dk | dk in gone :: KeysOwned(s.docs, dk) == MetaKeys(coll, s.docs[dk].meta, gone[dk]);
    var a, b := Remove(s, coll, gone, bks), RemoveOwned(s, gone.Keys, bks);
    assert a.idx == b.idx;
    assert a.rev == b.rev;
  }

  lemma ByIDRight(s: Buckets, coll: string, ids: set<string>)
    requires WellNamed(s) && Plain(coll) && forall id | id in ids :: DocKey(coll, id) in s.docs
    ensures GoneRight(s, coll, ByID(coll, ids))
    ensures forall dk :: dk in ByID(coll, ids) <==> exists id :: id in ids && dk == DocKey(coll, id)
  {
    forall dk | dk in ByID(coll, ids)
      ensures dk in s.docs && CollOf(dk) == coll && s.docs[dk].id == ByID(coll, ids)[dk]
    {
      var id :| id in ids && dk == DocKey(coll, id);
      StoredUnderID(s, coll, id);
      assert dk[|DocPrefix(coll)|..] == id;
    }
  }

  lemma StoredUnderID(s: Buckets, coll: string, id: string)
    requires WellNamed(s) && Plain(coll) && DocKey(coll, id) in s.docs
    ensures CollOf(DocKey(coll, id)) == coll && s.docs[DocKey(coll, id)].id == id
  {
    CollOfDocKey(coll, id);
    assert NamedRight(DocKey(coll, id), s.docs[DocKey(coll, id)]);
    DocKeyInjective(coll, id, coll, s.docs[DocKey(coll, id)].id);
  }

  /** The three removals, as removals of owned keys. */
  lemma DeleteIsOwned(s: Buckets, coll: string, key: string, lang: string)
    requires WellNamed(s) && Plain(coll) && Target(coll, key, lang) in s.docs
    ensures Delete(s, coll, key, lang) == RemoveOwned(s, {Target(coll, key, lang)}, {ByKeyKey(coll, key, lang)})
  {
    var id := GenID(coll, key, lang);
    StoredUnderID(s, coll, id);
    var gone := map[DocKey(coll, id) := id];
    RemoveIsOwned(s, coll, gone, {ByKeyKey(coll, key, lang)});
    assert gone.Keys == {Target(coll, key, lang)};
  }

  ghost function HitDocs(s: Buckets, coll: string, names: seq<Name>): set<string> {
    set n | n in names && Hit(s, coll, n) :: Target(coll, n.key, n.lang)
  }

  lemma BatchDeleteIsOwned(s: Buckets, coll: string, names: seq<Name>)
    requires WellNamed(s) && Plain(coll)
    ensures BatchDelete(s, coll, names) == RemoveOwned(s, HitDocs(s, coll, names), HitEntries(s, coll, names))
    ensures HitDocs(s, coll, names) <= s.docs.Keys
  {
    var ids := IdsHit(s, coll, names);
    ByIDRight(s, coll, ids);
    RemoveIsOwned(s, coll, ByID(coll, ids), HitEntries(s, coll, names));
    forall dk ensures dk in ByID(coll, ids) <==> dk in HitDocs(s, coll, names) {
      if dk in HitDocs(s, coll, names) {
        var n :| n in names && Hit(s, coll, n) && dk == Target(coll, n.key, n.lang);
        assert GenID(coll, n.key, n.lang) in ids;
      }
    }
    assert ByID(coll, ids).Keys == HitDocs(s, coll, names);
  }

  lemma InCollection(s: Buckets, coll: string, x: string)
    requires WellNamed(s) && Plain(coll) && x in CollectionKeys(s, coll)
    ensures CollOf(x) == coll
  {
    assert NamedRight(x, s.docs[x]);
    DocKeyInjective(coll, "", CollOf(x), s.docs[x].id);
  }

  ghost function EntriesIn(s: Buckets, coll: string): set<string> {
    set dk | dk in CollectionKeys(s, coll) :: ByKeyKey(coll, s.docs[dk].key, s.docs[dk].lang)
  }

  lemma DeleteCollectionIsOwned(s: Buckets, coll: string)
    requires WellNamed(s) && Plain(coll)
    ensures DeleteCollection(s, coll) == RemoveOwned(s, CollectionKeys(s, coll), EntriesIn(s, coll))
  {
    var gone := map dk | dk in CollectionKeys(s, coll) :: s.docs[dk].id;
    forall dk | dk in gone ensures CollOf(dk) == coll {
      InCollection(s, coll, dk);
    }
    RemoveIsOwned(s, coll, gone, EntriesIn(s, coll));
    assert gone.Keys == CollectionKeys(s, coll);
  }

  lemma RemoveKeepsNames(s: Buckets, victims: set<string>, bks: set<string>)
    requires WellNamed(s)
    ensures WellNamed(RemoveOwned(s, victims, bks))
    ensures PlainlyNamed(s) ==> PlainlyNamed(RemoveOwned(s, victims, bks))
    ensures WellTagged(s) ==> WellTagged(RemoveOwned(s, victims, bks))
  {
    var t := RemoveOwned(s, victims, bks);
    forall x | x in t.docs ensures NamedRight(x, t.docs[x]) {
      assert NamedRight(x, s.docs[x]);
    }
  }

  lemma RemoveKeepsIndex(s: Buckets, victims: set<string>, bks: set<string>)
    requires WellNamed(s) && Separate(s) && IndexExact(s) && victims <= s.docs.Keys
    ensures IndexExact(RemoveOwned(s, victims, bks))
  {
    forall v, x, k | v in victims && x in s.docs && x !in victims && k in KeysOwned(s.docs, x)
      ensures k !in KeysOwned(s.docs, v)
    {
      if k in KeysOwned(s.docs, v) {
        SeparateKeysDisjoint(s, v, x, k);
      }
    }
    RemoveIff(s, victims, bks);
  }

  /** Removing documents and entries keeps agreement exactly when the entries removed are
      those of the removed documents, up to entries nobody has. */
  lemma RemoveKeepsKeysIff(s: Buckets, victims: set<string>, bks: set<string>)
    requires WellNamed(s) && KeysAgree(s) && victims <= s.docs.Keys
    ensures KeysAgree(RemoveOwned(s, victims, bks)) <==> EntriesOf(Entries(s.docs), victims, bks)
  {
    EntriesDistinct(s);
    EntriesAfterRemove(s.docs, victims);
    RemoveEntriesIff(Entries(s.docs), s.byKey, victims, bks);
  }

  /** An entry spelled for a document belongs to no other document. */
  lemma EntryOfTarget(s: Buckets, dk: string, coll: string, key: string, lang: string)
    requires WellNamed(s) && Plain(coll) && dk in s.docs
    ensures Entries(s.docs)[dk].0 == ByKeyKey(coll, key, lang)
            <==> dk == Target(coll, key, lang) && JoinedName(s.docs[dk]) == Joined(key, lang)
  {
    var d := s.docs[dk];
    assert NamedRight(dk, d);
    SameEntryIff(CollOf(dk), d.key, d.lang, coll, key, lang);
    CollOfDocKey(coll, GenID(coll, key, lang));
    if CollOf(dk) == coll && JoinedName(d) == Joined(key, lang) {
      SameIDIff(coll, d.key, d.lang, key, lang);
    }
  }

  lemma OneVictim(ent: map<string, (string, string)>, dk: string, bk: string, spelled: bool)
    requires dk in ent && forall x | x in ent :: ent[x].0 == bk <==> x == dk && spelled
    ensures EntriesOf(ent, {dk}, {bk}) <==> spelled
  {
    assert ent[dk].0 in {bk} <==> spelled;
  }

  /** A delete keeps agreement exactly when it spells the names as they are stored. */
  lemma DeleteKeepsKeysIff(s: Buckets, coll: string, key: string, lang: string)
    requires WellNamed(s) && KeysAgree(s) && Plain(coll)
    ensures KeysAgree(Delete(s, coll, key, lang)) <==> SameSpelling(s, coll, key, lang)
  {
    var dk, bk := Target(coll, key, lang), ByKeyKey(coll, key, lang);
    if dk in s.docs {
      DeleteIsOwned(s, coll, key, lang);
      RemoveKeepsKeysIff(s, {dk}, {bk});
      DeleteEntries(s, coll, key, lang, bk);
    }
  }

  lemma DeleteEntries(s: Buckets, coll: string, key: string, lang: string, bk: string)
    requires WellNamed(s) && Plain(coll) && Target(coll, key, lang) in s.docs
    requires bk == ByKeyKey(coll, key, lang)
    ensures EntriesOf(Entries(s.docs), {Target(coll, key, lang)}, {bk}) <==> SameSpelling(s, coll, key, lang)
  {
    var dk, ent := Target(coll, key, lang), Entries(s.docs);
    var spelled := JoinedName(s.docs[dk]) == Joined(key, lang);
    forall x | x in ent ensures ent[x].0 == bk <==> x == dk && spelled {
      EntryOfTarget(s, x, coll, key, lang);
    }
    OneVictim(ent, dk, bk, spelled);
  }

  /** The name reads as the document is stored. */
  ghost predicate Spells(n: Name, d: Doc) { Joined(n.key, n.lang) == JoinedName(d) }

  /** Every document the batch hits is spelled as stored by one of the requests that hit it. */
  ghost predicate SpelledOnce(s: Buckets, coll: string, names: seq<Name>) {
    forall n | n in names && Hit(s, coll, n) :: SpelledBy(s, coll, names, Target(coll, n.key, n.lang))
  }

  ghost predicate SpelledBy(s: Buckets, coll: string, names: seq<Name>, dk: string) {
    dk in s.docs && exists m :: m in names && Hit(s, coll, m) && Spells(m, s.docs[dk])
  }

  lemma BatchEntry(s: Buckets, coll: string, names: seq<Name>, dk: string)
    requires WellNamed(s) && Plain(coll) && dk in s.docs
    ensures Entries(s.docs)[dk].0 in HitEntries(s, coll, names)
            <==> dk in HitDocs(s, coll, names) && SpelledBy(s, coll, names, dk)
  {
    if Entries(s.docs)[dk].0 in HitEntries(s, coll, names) {
      var n :| n in names && Hit(s, coll, n) && Entries(s.docs)[dk].0 == ByKeyKey(coll, n.key, n.lang);
      EntryOfTarget(s, dk, coll, n.key, n.lang);
      assert Spells(n, s.docs[dk]);
    }
    if dk in HitDocs(s, coll, names) && SpelledBy(s, coll, names, dk) {
      SpelledIsHit(s, coll, names, dk);
    }
  }

  lemma SpelledIsHit(s: Buckets, coll: string, names: seq<Name>, dk: string)
    requires WellNamed(s) && Plain(coll) && dk in HitDocs(s, coll, names) && SpelledBy(s, coll, names, dk)
    ensures Entries(s.docs)[dk].0 in HitEntries(s, coll, names)
  {
    var n :| n in names && Hit(s, coll, n) && dk == Target(coll, n.key, n.lang);
    CollOfDocKey(coll, GenID(coll, n.key, n.lang));
    var d := s.docs[dk];
    assert NamedRight(dk, d);
    var m :| m in names && Hit(s, coll, m) && Spells(m, d);
    SameIDIff(coll, d.key, d.lang, m.key, m.lang);
    EntryOfTarget(s, dk, coll, m.key, m.lang);
  }

  lemma BatchDeleteKeepsKeysIff(s: Buckets, coll: string, names: seq<Name>)
    requires WellNamed(s) && KeysAgree(s) && Plain(coll)
    ensures KeysAgree(BatchDelete(s, coll, names)) <==> SpelledOnce(s, coll, names)
  {
    BatchDeleteIsOwned(s, coll, names);
    RemoveKeepsKeysIff(s, HitDocs(s, coll, names), HitEntries(s, coll, names));
    forall dk | dk in s.docs {
      BatchEntry(s, coll, names, dk);
    }
    if !SpelledOnce(s, coll, names) {
      var n :| n in names && Hit(s, coll, n) && !SpelledBy(s, coll, names, Target(coll, n.key, n.lang));
      assert Target(coll, n.key, n.lang) in HitDocs(s, coll, names);
    }
  }

  /** Deleting a collection uses the stored spelling and always keeps agreement. */
  lemma DeleteCollectionKeepsKeys(s: Buckets, coll: string)
    requires WellNamed(s) && KeysAgree(s) && Plain(coll)
    ensures KeysAgree(DeleteCollection(s, coll))
  {
    var victims, bks := CollectionKeys(s, coll), EntriesIn(s, coll);
    forall dk | dk in s.docs ensures Entries(s.docs)[dk].0 in bks <==> dk in victims {
      if dk in victims {
        InCollection(s, coll, dk);
      }
      if Entries(s.docs)[dk].0 in bks {
        var x :| x in victims && OwnEntry(s.docs, dk) == ByKeyKey(coll, s.docs[x].key, s.docs[x].lang);
        InCollection(s, coll, x);
        EntriesInjective(s, dk, x);
      }
    }
    DeleteCollectionIsOwned(s, coll);
    RemoveKeepsKeysIff(s, victims, bks);
  }
}
