/** Revision history: what trimming and truncation keep, and when the newest revision of a
    stored document is the document itself. */
module Revisions {
  import opened ByteStrings
  import opened Keys
  import opened Store
  import opened Indexes

  // ---- keeping the newest N -----------------------------------------------------------------

  lemma LastIsGreatest(ks: seq<string>, k: string)
    requires Ascending(ks) && k in ks
    ensures k == ks[|ks| - 1] || Less(k, ks[|ks| - 1])
  {
  }

  lemma ElementsOfAscending(ks: seq<string>)
    requires Ascending(ks)
    ensures |Elements(ks)| == |ks|
    decreases |ks|
  {
    if ks != [] {
      var front, last := ks[..|ks| - 1], ks[|ks| - 1];
      ElementsOfAscending(front);
      if last in front {
        var i :| 0 <= i < |front| && front[i] == last;
        LessAsymmetric(ks[i], ks[|ks| - 1]);
      }
      forall k ensures k in Elements(ks) <==> k in Elements(front) + {last} {
        if k in ks && k != last {
          var i :| 0 <= i < |ks| && ks[i] == k;
          assert front[i] == k;
        }
      }
      assert Elements(ks) == Elements(front) + {last};
    }
  }

  lemma CutOrder(ks: seq<string>, keep: nat, k: string, g: string)
    requires Ascending(ks) && |ks| > keep && k in ks && k !in Oldest(ks, keep) && g in Oldest(ks, keep)
    ensures Less(g, k)
  {
    var cut := ks[..|ks| - keep];
    assert Oldest(ks, keep) == Elements(cut);
    var i :| 0 <= i < |ks| && ks[i] == k;
    var j :| 0 <= j < |cut| && cut[j] == g;
    assert ks[j] == g;
    forall x | 0 <= x < |cut| ensures ks[x] in Oldest(ks, keep) {
      assert cut[x] == ks[x];
    }
  }

  /** Cutting a set of keys at its oldest members. */
  lemma OldestCut(keys: set<string>, keep: nat)
    ensures var cut := Oldest(InOrder(keys), keep);
            && cut <= keys
            && |keys - cut| == (if |keys| <= keep then |keys| else keep)
            && forall k, g | k in keys - cut && g in cut :: Less(g, k)
  {
    if |keys| > keep {
      OldestSize(keys, InOrder(keys), keep);
      OldestFirst(keys, InOrder(keys), keep);
    }
  }

  lemma OldestSize(keys: set<string>, ks: seq<string>, keep: nat)
    requires Ascending(ks) && |ks| == |keys| > keep && forall k :: k in ks <==> k in keys
    ensures Oldest(ks, keep) <= keys && |keys - Oldest(ks, keep)| == keep
  {
    var low := ks[..|ks| - keep];
    ElementsOfAscending(low);
    forall k | k in low ensures k in keys {
      assert k in ks;
    }
  }

  lemma OldestFirst(keys: set<string>, ks: seq<string>, keep: nat)
    requires Ascending(ks) && |ks| > keep && forall k :: k in ks <==> k in keys
    ensures forall k, g | k in keys - Oldest(ks, keep) && g in Oldest(ks, keep) :: Less(g, k)
  {
    forall k, g | k in keys - Oldest(ks, keep) && g in Oldest(ks, keep) ensures Less(g, k) {
      CutOrder(ks, keep, k, g);
    }
  }

  /** Of a document's revisions exactly the newest `keep` stay: the count is right and every
      revision kept sorts after every revision removed. Other keys are not touched. */
  lemma KeepNewestKeeps(rev: map<string, Doc>, coll: string, id: string, keep: nat)
    ensures var before := RevKeysOf(rev, coll, id);
            var kept := KeepNewest(rev, coll, id, keep);
            var after := RevKeysOf(kept, coll, id);
            && after <= before
            && |after| == (if |before| <= keep then |before| else keep)
            && (forall k, g | k in after && g in before - after :: Less(g, k))
            && (forall k | k in rev && k !in before :: k in kept)
            && (forall k | k in kept :: k in rev && kept[k] == rev[k])
  {
    var before := RevKeysOf(rev, coll, id);
    OldestCut(before, keep);
    assert RevKeysOf(KeepNewest(rev, coll, id, keep), coll, id) == before - Oldest(InOrder(before), keep);
  }

  /** In terms of time: the revisions kept are the latest ones. */
  lemma KeepNewestByTime(rev: map<string, Doc>, coll: string, id: string, keep: nat, early: Time, late: Time)
    requires RevKey(coll, id, early) in rev && RevKey(coll, id, late) in rev && early <= late
    requires RevKey(coll, id, early) in KeepNewest(rev, coll, id, keep)
    ensures RevKey(coll, id, late) in KeepNewest(rev, coll, id, keep)
  {
    KeepNewestKeeps(rev, coll, id, keep);
    var k, g := RevKey(coll, id, early), RevKey(coll, id, late);
    var before := RevKeysOf(rev, coll, id);
    var after := RevKeysOf(KeepNewest(rev, coll, id, keep), coll, id);
    assert k in before && g in before && k in after;
    if g !in after {
      assert Less(g, k);
      RevKeyOrder(coll, id, late, early);
    }
  }

  /** Keys under the document's prefix that sort after k. */
  ghost function LaterKeys(rev: map<string, Doc>, coll: string, id: string, k: string): set<string> {
    set g | g in RevKeysOf(rev, coll, id) && Less(k, g)
  }

  /** Keeping the newest `keep` under the prefix leaves k alone: it is not under the prefix, or fewer
      than `keep` keys there sort after it. */
  ghost predicate Spared(rev: map<string, Doc>, coll: string, id: string, keep: nat, k: string) {
    IsRevOf(k, coll, id) ==> |LaterKeys(rev, coll, id, k)| < keep
  }

  lemma SubsetSize(a: set<string>, b: set<string>)
    requires a <= b
    ensures |a| <= |b|
  {
    assert |b - a| == |b| - |a|;
  }

  /** Exactly the spared keys stay. */
  lemma KeptIff(rev: map<string, Doc>, coll: string, id: string, keep: nat, k: string)
    ensures k in KeepNewest(rev, coll, id, keep) <==> k in rev && Spared(rev, coll, id, keep, k)
  {
    KeepNewestKeeps(rev, coll, id, keep);
    if k in RevKeysOf(rev, coll, id) {
      var before, after, later := RevKeysOf(rev, coll, id), RevKeysOf(KeepNewest(rev, coll, id, keep), coll, id),
          LaterKeys(rev, coll, id, k);
      if k in after {
        LaterAreKept(rev, coll, id, keep, k);
        SubsetSize(later + {k}, after);
        LessIrreflexive(k);
      } else {
        forall g | g in after ensures g in later {
          assert Less(k, g);
        }
        SubsetSize(after, later);
        assert |before| > keep;
      }
    }
  }

  lemma LessIrreflexive(k: string)
    ensures !Less(k, k)
  {
    if Less(k, k) {
      LessAsymmetric(k, k);
    }
  }

  lemma LaterAreKept(rev: map<string, Doc>, coll: string, id: string, keep: nat, k: string)
    requires k in RevKeysOf(KeepNewest(rev, coll, id, keep), coll, id)
    ensures LaterKeys(rev, coll, id, k) <= RevKeysOf(KeepNewest(rev, coll, id, keep), coll, id)
  {
    KeepNewestKeeps(rev, coll, id, keep);
    var before, after := RevKeysOf(rev, coll, id), RevKeysOf(KeepNewest(rev, coll, id, keep), coll, id);
    forall g | g in LaterKeys(rev, coll, id, k) ensures g in after {
      if g in before - after {
        assert Less(g, k);
        LessAsymmetric(g, k);
      }
    }
  }

  /** A later key under the same prefixes is spared whenever an earlier one is. */
  lemma LaterIsSpared(rev: map<string, Doc>, coll: string, id: string, keep: nat, early: string, late: string)
    requires Spared(rev, coll, id, keep, early) && Less(early, late)
    requires IsRevOf(late, coll, id) ==> IsRevOf(early, coll, id)
    ensures Spared(rev, coll, id, keep, late)
  {
    if IsRevOf(late, coll, id) {
      var a, b := LaterKeys(rev, coll, id, late), LaterKeys(rev, coll, id, early);
      forall g | g in a ensures g in b {
        LessTransitive(early, late, g);
      }
      SubsetSize(a, b);
    }
  }

  /** A positive MaxRevisions bounds the history after each write. */
  lemma CapHolds(cfg: Config, rev: map<string, Doc>, coll: string, doc: Doc, now: Time)
    requires coll in cfg.maxRevisions && cfg.maxRevisions[coll] > 0
    ensures |RevKeysOf(AddRevision(cfg, rev, coll, doc, now), coll, doc.id)| <= cfg.maxRevisions[coll]
  {
    KeepNewestKeeps(rev[RevKey(coll, doc.id, now) := doc], coll, doc.id, cfg.maxRevisions[coll]);
  }

  // ---- the newest revision is the document -----------------------------------------------------

  ghost predicate IsTime(t: int) { 0 <= t <= MAX_INT64 }

  /** No revision of the document is stamped after `limit`. */
  ghost predicate NoLater(rev: map<string, Doc>, coll: string, id: string, limit: int) {
    forall t: Time | RevKey(coll, id, t) in rev :: t <= limit
  }

  /** The newest revision of the document is d. */
  ghost predicate NewestIs(rev: map<string, Doc>, coll: string, id: string, d: Doc) {
    && IsTime(d.updatedAt)
    && RevKey(coll, id, d.updatedAt) in rev && rev[RevKey(coll, id, d.updatedAt)] == d
    && NoLater(rev, coll, id, d.updatedAt)
  }

  ghost predicate HistoryOf(s: Buckets, dk: string)
    requires dk in s.docs
  {
    NewestIs(s.rev, CollOf(dk), s.docs[dk].id, s.docs[dk])
  }

  ghost predicate OwnedBy(s: Buckets, k: string, dk: string) {
    dk in s.docs && exists t: Time :: k == RevKey(CollOf(dk), s.docs[dk].id, t)
  }

  /** Every revision is one of a stored document. */
  ghost predicate NoOrphans(s: Buckets) {
    forall k | k in s.rev :: exists dk :: OwnedBy(s, k, dk)
  }

  /** The newest revision of every stored document is the document, and there are no others'. */
  ghost predicate HistorySound(s: Buckets) {
    NoOrphans(s) && forall dk {:trigger HistoryOf(s, dk)} | dk in s.docs :: HistoryOf(s, dk)
  }

  /** The key of the revision that carries a stored document. */
  ghost function TopOf(coll: string, d: Doc): string
    requires IsTime(d.updatedAt)
  {
    RevKey(coll, d.id, d.updatedAt)
  }

  lemma NewestIsUnique(rev: map<string, Doc>, coll: string, id: string, d: Doc, e: Doc)
    requires NewestIs(rev, coll, id, d) && NewestIs(rev, coll, id, e)
    ensures d == e
  {
  }

  lemma StoredName(s: Buckets, dk: string)
    requires WellNamed(s) && dk in s.docs
    ensures Plain(CollOf(dk)) && dk == DocKey(CollOf(dk), s.docs[dk].id)
  {
    assert NamedRight(dk, s.docs[dk]);
  }

  /** A revision key of (coll, id) belongs to the document stored there. */
  lemma OwnerIs(s: Buckets, coll: string, id: string, t: Time)
    requires WellNamed(s) && NoOrphans(s) && Plain(coll) && RevKey(coll, id, t) in s.rev
    ensures DocKey(coll, id) in s.docs && s.docs[DocKey(coll, id)].id == id
  {
    var k := RevKey(coll, id, t);
    var x :| OwnedBy(s, k, x);
    var u: Time :| k == RevKey(CollOf(x), s.docs[x].id, u);
    StoredName(s, x);
    RevKeyInjective(coll, id, t, CollOf(x), s.docs[x].id, u);
  }

  /** In a sound store the newest revision of a name is the stored document, if there is one. */
  lemma NewestIsStored(s: Buckets, coll: string, id: string, d: Doc)
    requires WellNamed(s) && HistorySound(s) && Plain(coll)
    ensures NewestIs(s.rev, coll, id, d) <==> DocKey(coll, id) in s.docs && s.docs[DocKey(coll, id)] == d
  {
    var dk := DocKey(coll, id);
    if NewestIs(s.rev, coll, id, d) {
      OwnerIs(s, coll, id, d.updatedAt);
    }
    if dk in s.docs {
      StoredUnderID(s, coll, id);
      assert HistoryOf(s, dk);
      if NewestIs(s.rev, coll, id, d) {
        NewestIsUnique(s.rev, coll, id, d, s.docs[dk]);
      }
    }
  }

  // ---- what a reader sees ----------------------------------------------------------------------------

  /** No revision of another document under the document's prefix sorts after its newest one. */
  ghost predicate NoneBehind(s: Buckets, dk: string)
    requires dk in s.docs && IsTime(s.docs[dk].updatedAt)
  {
    var c, d := CollOf(dk), s.docs[dk];
    forall y, t: Time | y in s.docs && y != dk && CollOf(y) == c && Begins(d.id, s.docs[y].id)
      && RevKey(c, s.docs[y].id, t) in s.rev ::
      Less(RevKey(c, s.docs[y].id, t), TopOf(c, d))
  }

  lemma KeysUnderTop(s: Buckets, dk: string, k: string)
    requires WellNamed(s) && HistorySound(s) && dk in s.docs && HistoryOf(s, dk)
    requires NoneBehind(s, dk) && k in RevKeysOf(s.rev, CollOf(dk), s.docs[dk].id)
    ensures k == TopOf(CollOf(dk), s.docs[dk]) || Less(k, TopOf(CollOf(dk), s.docs[dk]))
  {
    var c, d := CollOf(dk), s.docs[dk];
    var y :| OwnedBy(s, k, y);
    var t: Time :| k == RevKey(CollOf(y), s.docs[y].id, t);
    StoredName(s, dk);
    StoredName(s, y);
    RevisionUnderIff(c, d.id, CollOf(y), s.docs[y].id, t);
    if y == dk {
      RevKeyOrder(c, d.id, t, d.updatedAt);
    }
  }

  /** The last key a cursor yields under the document's prefix is its newest revision, and so carries
      the document, exactly when no other document's revision there sorts after it. */
  lemma ReaderSeesNewestIff(s: Buckets, dk: string)
    requires WellNamed(s) && HistorySound(s) && dk in s.docs && HistoryOf(s, dk)
    ensures var ks, top := InOrder(RevKeysOf(s.rev, CollOf(dk), s.docs[dk].id)), TopOf(CollOf(dk), s.docs[dk]);
            && ks != [] && top in s.rev && s.rev[top] == s.docs[dk]
            && (ks[|ks| - 1] == top <==> NoneBehind(s, dk))
  {
    var c, d := CollOf(dk), s.docs[dk];
    var ks, top := InOrder(RevKeysOf(s.rev, c, d.id)), TopOf(c, d);
    assert IsRevOf(top, c, d.id) && top in ks;
    var last := ks[|ks| - 1];
    assert last in ks;
    LastIsGreatest(ks, top);
    if NoneBehind(s, dk) {
      KeysUnderTop(s, dk, last);
      if last != top {
        LessAsymmetric(last, top);
      }
    }
    if last == top {
      forall k | k in RevKeysOf(s.rev, c, d.id) ensures k == top || Less(k, top) {
        assert k in ks;
        LastIsGreatest(ks, k);
      }
      TopHasNoneBehind(s, dk);
    }
  }

  lemma TopHasNoneBehind(s: Buckets, dk: string)
    requires WellNamed(s) && dk in s.docs && HistoryOf(s, dk)
    requires forall k | k in RevKeysOf(s.rev, CollOf(dk), s.docs[dk].id) ::
               k == TopOf(CollOf(dk), s.docs[dk]) || Less(k, TopOf(CollOf(dk), s.docs[dk]))
    ensures NoneBehind(s, dk)
  {
    var c, d := CollOf(dk), s.docs[dk];
    StoredName(s, dk);
    forall y, t: Time | y in s.docs && y != dk && CollOf(y) == c && Begins(d.id, s.docs[y].id)
      && RevKey(c, s.docs[y].id, t) in s.rev
      ensures Less(RevKey(c, s.docs[y].id, t), TopOf(c, d))
    {
      StoredName(s, y);
      RevisionUnderIff(c, d.id, c, s.docs[y].id, t);
      if RevKey(c, s.docs[y].id, t) == TopOf(c, d) {
        RevKeyInjective(c, s.docs[y].id, t, c, d.id, d.updatedAt);
      }
    }
  }

  // ---- taking keys out ---------------------------------------------------------------------------------

  /** Of the document's revisions, those after a kept one are kept. */
  ghost predicate KeepsLater(rev: map<string, Doc>, kept: map<string, Doc>, coll: string, id: string) {
    && (forall k | k in kept :: k in rev && kept[k] == rev[k])
    && forall t: Time, u: Time | t < u && RevKey(coll, id, t) in kept && RevKey(coll, id, u) in rev ::
         RevKey(coll, id, u) in kept
  }

  /** Then the newest revision is the same exactly when it is kept. */
  lemma NewestAfterCut(rev: map<string, Doc>, kept: map<string, Doc>, coll: string, id: string, d: Doc)
    requires KeepsLater(rev, kept, coll, id) && IsTime(d.updatedAt)
    ensures NewestIs(kept, coll, id, d) <==> NewestIs(rev, coll, id, d) && RevKey(coll, id, d.updatedAt) in kept
  {
    if NewestIs(kept, coll, id, d) {
      forall t: Time | RevKey(coll, id, t) in rev ensures t <= d.updatedAt {
        assert t > d.updatedAt ==> RevKey(coll, id, t) in kept;
      }
    }
  }

  /** Later revisions of one document lie under the same prefixes. */
  lemma SameDocSpared(rev: map<string, Doc>, c: string, p: string, keep: nat, coll: string, id: string, t: Time,
                      u: Time)
    requires Plain(c) && Plain(coll) && t < u && Spared(rev, c, p, keep, RevKey(coll, id, t))
    ensures Spared(rev, c, p, keep, RevKey(coll, id, u))
  {
    RevKeyOrder(coll, id, t, u);
    RevisionUnderIff(c, p, coll, id, t);
    RevisionUnderIff(c, p, coll, id, u);
    LaterIsSpared(rev, c, p, keep, RevKey(coll, id, t), RevKey(coll, id, u));
  }

  lemma CutKeepsLater(rev: map<string, Doc>, c: string, p: string, keep: nat, coll: string, id: string)
    requires Plain(c) && Plain(coll)
    ensures KeepsLater(rev, KeepNewest(rev, c, p, keep), coll, id)
  {
    KeepNewestKeeps(rev, c, p, keep);
    forall t: Time, u: Time | t < u && RevKey(coll, id, t) in KeepNewest(rev, c, p, keep) && RevKey(coll, id, u) in rev
      ensures RevKey(coll, id, u) in KeepNewest(rev, c, p, keep)
    {
      KeptIff(rev, c, p, keep, RevKey(coll, id, t));
      KeptIff(rev, c, p, keep, RevKey(coll, id, u));
      SameDocSpared(rev, c, p, keep, coll, id, t, u);
    }
  }

  // ---- one write --------------------------------------------------------------------------------

  /** The cap set for the collection, if any, leaves k alone when `id` is trimmed. */
  ghost predicate TrimSpares(cfg: Config, rev: map<string, Doc>, coll: string, id: string, k: string) {
    coll in cfg.maxRevisions && cfg.maxRevisions[coll] > 0 ==> Spared(rev, coll, id, cfg.maxRevisions[coll], k)
  }

  ghost function PutRevision(rev: map<string, Doc>, coll: string, doc: Doc, now: Time): map<string, Doc> {
    rev[RevKey(coll, doc.id, now) := doc]
  }

  /** Writing a revision of one document and trimming leaves another's newest revision in place
      exactly when the trim spares it. */
  lemma OtherAfterWrite(cfg: Config, rev: map<string, Doc>, coll: string, doc: Doc, now: Time, c: string, id: string,
                        d: Doc)
    requires Plain(coll) && Plain(c) && (c != coll || id != doc.id) && IsTime(d.updatedAt)
    ensures NewestIs(AddRevision(cfg, rev, coll, doc, now), c, id, d)
            <==> NewestIs(rev, c, id, d)
                 && TrimSpares(cfg, PutRevision(rev, coll, doc, now), coll, doc.id, RevKey(c, id, d.updatedAt))
  {
    var put := PutRevision(rev, coll, doc, now);
    forall t: Time ensures RevKey(c, id, t) != RevKey(coll, doc.id, now) {
      if RevKey(c, id, t) == RevKey(coll, doc.id, now) {
        RevKeyInjective(c, id, t, coll, doc.id, now);
      }
    }
    assert NewestIs(put, c, id, d) <==> NewestIs(rev, c, id, d);
    TrimmedIff(cfg, put, coll, doc.id, c, id, d);
  }

  lemma TrimmedIff(cfg: Config, put: map<string, Doc>, coll: string, p: string, c: string, id: string, d: Doc)
    requires Plain(coll) && Plain(c) && IsTime(d.updatedAt)
    ensures NewestIs(Trim(cfg, put, coll, p), c, id, d)
            <==> NewestIs(put, c, id, d) && TrimSpares(cfg, put, coll, p, RevKey(c, id, d.updatedAt))
  {
    if coll in cfg.maxRevisions && cfg.maxRevisions[coll] > 0 {
      var keep := cfg.maxRevisions[coll];
      CutKeepsLater(put, coll, p, keep, c, id);
      NewestAfterCut(put, KeepNewest(put, coll, p, keep), c, id, d);
      KeptIff(put, coll, p, keep, RevKey(c, id, d.updatedAt));
    }
  }

  /** And its own revision is the newest exactly when there was no later one and the trim spares it. */
  lemma OwnAfterWrite(cfg: Config, rev: map<string, Doc>, coll: string, doc: Doc, now: Time)
    requires Plain(coll) && doc.updatedAt == now
    ensures NewestIs(AddRevision(cfg, rev, coll, doc, now), coll, doc.id, doc)
            <==> NoLater(rev, coll, doc.id, now)
                 && TrimSpares(cfg, PutRevision(rev, coll, doc, now), coll, doc.id, RevKey(coll, doc.id, now))
  {
    var put := PutRevision(rev, coll, doc, now);
    TrimmedIff(cfg, put, coll, doc.id, coll, doc.id, doc);
    forall t: Time ensures RevKey(coll, doc.id, t) == RevKey(coll, doc.id, now) <==> t == now {
      RevKeyOrder(coll, doc.id, t, now);
    }
    if NoLater(rev, coll, doc.id, now) {
      forall t: Time | RevKey(coll, doc.id, t) in put ensures t <= now {
        assert t == now || RevKey(coll, doc.id, t) in rev;
      }
    }
    if NoLater(put, coll, doc.id, now) {
      forall t: Time | RevKey(coll, doc.id, t) in rev ensures t <= now {
        assert RevKey(coll, doc.id, t) in put;
      }
    }
  }

  /** In a sound store no revision of a name is later than the document stored under it. */
  lemma NoLaterIff(s: Buckets, coll: string, id: string, now: Time)
    requires WellNamed(s) && HistorySound(s) && Plain(coll)
    ensures NoLater(s.rev, coll, id, now)
            <==> (DocKey(coll, id) in s.docs ==> s.docs[DocKey(coll, id)].updatedAt <= now)
  {
    var dk := DocKey(coll, id);
    if dk in s.docs {
      StoredUnderID(s, coll, id);
      assert HistoryOf(s, dk);
    } else if t: Time :| RevKey(coll, id, t) in s.rev {
      OwnerIs(s, coll, id, t);
    }
  }

  /** The trim of a write spares the newest revision of a stored document. */
  ghost predicate SparedByWrite(cfg: Config, s: Buckets, coll: string, doc: Doc, now: Time, x: string) {
    x in s.docs && IsTime(s.docs[x].updatedAt)
    && TrimSpares(cfg, PutRevision(s.rev, coll, doc, now), coll, doc.id, TopOf(coll, s.docs[x]))
  }

  /** It spares its own revision and the newest ones of the collection's other documents. */
  ghost predicate WriteSpares(cfg: Config, s: Buckets, coll: string, doc: Doc, now: Time) {
    && TrimSpares(cfg, PutRevision(s.rev, coll, doc, now), coll, doc.id, RevKey(coll, doc.id, now))
    && forall x | x in s.docs && CollOf(x) == coll && s.docs[x].id != doc.id :: SparedByWrite(cfg, s, coll, doc, now, x)
  }

  /** `dk` is the place of the document that is stored there now. */
  ghost predicate Placed(s: Buckets, t: Buckets, dk: string, doc: Doc) {
    && Plain(CollOf(dk)) && dk == DocKey(CollOf(dk), doc.id)
    && (dk in s.docs ==> s.docs[dk].id == doc.id) && t.docs == s.docs[dk := doc]
  }

  lemma OwnedStays(s: Buckets, t: Buckets, k: string, x: string)
    requires OwnedBy(s, k, x) && x in t.docs && t.docs[x].id == s.docs[x].id
    ensures OwnedBy(t, k, x)
  {
    var u: Time :| k == RevKey(CollOf(x), s.docs[x].id, u);
    assert k == RevKey(CollOf(x), t.docs[x].id, u);
  }

  lemma PutNoOrphans(s: Buckets, t: Buckets, dk: string, doc: Doc, now: Time)
    requires NoOrphans(s) && Placed(s, t, dk, doc)
    requires forall k | k in t.rev && k != RevKey(CollOf(dk), doc.id, now) :: k in s.rev
    ensures NoOrphans(t)
  {
    forall k | k in t.rev ensures exists x :: OwnedBy(t, k, x) {
      if k == RevKey(CollOf(dk), doc.id, now) {
        assert OwnedBy(t, k, dk);
      } else {
        var x :| OwnedBy(s, k, x);
        OwnedStays(s, t, k, x);
      }
    }
  }

  lemma AddRevisionKeys(cfg: Config, rev: map<string, Doc>, coll: string, doc: Doc, now: Time)
    ensures forall k | k in AddRevision(cfg, rev, coll, doc, now) && k != RevKey(coll, doc.id, now) :: k in rev
  {
    var put := PutRevision(rev, coll, doc, now);
    if coll in cfg.maxRevisions && cfg.maxRevisions[coll] > 0 {
      KeepNewestKeeps(put, coll, doc.id, cfg.maxRevisions[coll]);
    }
  }

  lemma OtherName(s: Buckets, dk: string, coll: string, id: string, x: string)
    requires WellNamed(s) && Plain(coll) && dk == DocKey(coll, id) && x in s.docs && x != dk
    ensures CollOf(x) != coll || s.docs[x].id != id
  {
    StoredName(s, x);
  }

  /** Storing a document with its revision keeps a sound history exactly when it is not stamped
      before what it replaces and the trim spares every newest revision. */
  lemma PutWithRevisionIff(cfg: Config, s: Buckets, t: Buckets, dk: string, doc: Doc, now: Time)
    requires WellNamed(s) && HistorySound(s) && Placed(s, t, dk, doc) && doc.updatedAt == now
    requires t.rev == AddRevision(cfg, s.rev, CollOf(dk), doc, now)
    ensures HistorySound(t)
            <==> (dk in s.docs ==> s.docs[dk].updatedAt <= now) && WriteSpares(cfg, s, CollOf(dk), doc, now)
  {
    AddRevisionKeys(cfg, s.rev, CollOf(dk), doc, now);
    PutNoOrphans(s, t, dk, doc, now);
    OwnHistory(cfg, s, t, dk, doc, now);
    OtherHistories(cfg, s, t, dk, doc, now);
    HistoriesAfterPut(s, t, dk, doc);
  }

  ghost predicate OthersSound(s: Buckets, t: Buckets, dk: string) {
    forall x {:trigger HistoryOf(t, x)} | x in s.docs && x != dk :: x in t.docs && HistoryOf(t, x)
  }

  lemma HistoriesAfterPut(s: Buckets, t: Buckets, dk: string, doc: Doc)
    requires Placed(s, t, dk, doc) && NoOrphans(t)
    ensures HistorySound(t) <==> HistoryOf(t, dk) && OthersSound(s, t, dk)
  {
  }

  lemma OtherHistories(cfg: Config, s: Buckets, t: Buckets, dk: string, doc: Doc, now: Time)
    requires WellNamed(s) && HistorySound(s) && Placed(s, t, dk, doc)
    requires t.rev == AddRevision(cfg, s.rev, CollOf(dk), doc, now)
    ensures OthersSound(s, t, dk)
            <==> forall x | x in s.docs && CollOf(x) == CollOf(dk) && s.docs[x].id != doc.id ::
              SparedByWrite(cfg, s, CollOf(dk), doc, now, x)
  {
    var c := CollOf(dk);
    forall x | x in s.docs
      ensures CollOf(x) == c ==> (x != dk <==> s.docs[x].id != doc.id)
      ensures x != dk ==> (HistoryOf(t, x) <==> (CollOf(x) == c ==> SparedByWrite(cfg, s, c, doc, now, x)))
    {
      StoredName(s, x);
      if x != dk {
        OtherHistory(cfg, s, t, dk, doc, now, x);
      }
    }
  }

  lemma OwnHistory(cfg: Config, s: Buckets, t: Buckets, dk: string, doc: Doc, now: Time)
    requires WellNamed(s) && HistorySound(s) && Placed(s, t, dk, doc) && doc.updatedAt == now
    requires t.rev == AddRevision(cfg, s.rev, CollOf(dk), doc, now)
    ensures HistoryOf(t, dk)
            <==> && (dk in s.docs ==> s.docs[dk].updatedAt <= now)
                 && TrimSpares(cfg, PutRevision(s.rev, CollOf(dk), doc, now), CollOf(dk), doc.id,
                     RevKey(CollOf(dk), doc.id, now))
  {
    OwnAfterWrite(cfg, s.rev, CollOf(dk), doc, now);
    NoLaterIff(s, CollOf(dk), doc.id, now);
  }

  lemma OtherHistory(cfg: Config, s: Buckets, t: Buckets, dk: string, doc: Doc, now: Time, x: string)
    requires WellNamed(s) && HistorySound(s) && Placed(s, t, dk, doc) && x in s.docs && x != dk
    requires t.rev == AddRevision(cfg, s.rev, CollOf(dk), doc, now)
    ensures HistoryOf(t, x) <==> (CollOf(x) == CollOf(dk) ==> SparedByWrite(cfg, s, CollOf(dk), doc, now, x))
  {
    var c, d := CollOf(x), s.docs[x];
    StoredName(s, x);
    OtherName(s, dk, CollOf(dk), doc.id, x);
    assert HistoryOf(s, x);
    OtherAfterWrite(cfg, s.rev, CollOf(dk), doc, now, c, d.id, d);
    if c != CollOf(dk) {
      RevisionUnderIff(CollOf(dk), doc.id, c, d.id, d.updatedAt);
    }
  }

  // ---- adds and updates ---------------------------------------------------------------------------

  /** The write is not stamped before the stored document, and it saves a revision unless it
      changes nothing; and the trim spares every newest revision. */
  ghost predicate WriteRecorded(cfg: Config, s: Buckets, coll: string, r: AddRequest, now: Time) {
    var dk := Target(coll, r.key, r.lang);
    && (dk in s.docs ==> s.docs[dk].updatedAt <= now)
    && if r.saveRev then WriteSpares(cfg, s, coll, AddedDoc(s, coll, r, now), now)
       else dk in s.docs && s.docs[dk] == AddedDoc(s, coll, r, now)
  }

  lemma WritePlaced(cfg: Config, s: Buckets, coll: string, r: AddRequest, now: Time)
    requires WellNamed(s) && Plain(coll) && Writable(cfg, coll, r)
    ensures var dk := Target(coll, r.key, r.lang);
            CollOf(dk) == coll && Placed(s, Write(cfg, s, coll, r, now), dk, AddedDoc(s, coll, r, now))
  {
    WriteShape(cfg, s, coll, r, now);
    CollOfDocKey(coll, GenID(coll, r.key, r.lang));
  }

  /** An add keeps a sound history exactly when it is recorded. */
  lemma WriteKeepsHistoryIff(cfg: Config, s: Buckets, coll: string, r: AddRequest, now: Time)
    requires WellNamed(s) && HistorySound(s) && Plain(coll) && Writable(cfg, coll, r)
    ensures HistorySound(Write(cfg, s, coll, r, now)) <==> WriteRecorded(cfg, s, coll, r, now)
  {
    WritePlaced(cfg, s, coll, r, now);
    var t, dk, doc := Write(cfg, s, coll, r, now), Target(coll, r.key, r.lang), AddedDoc(s, coll, r, now);
    if r.saveRev {
      PutWithRevisionIff(cfg, s, t, dk, doc, now);
    } else {
      UnsavedIff(s, t, dk, doc);
    }
  }

  /** Without a revision of its own only an unchanged document stays sound. */
  lemma UnsavedIff(s: Buckets, t: Buckets, dk: string, doc: Doc)
    requires WellNamed(s) && HistorySound(s) && Placed(s, t, dk, doc) && t.rev == s.rev
    ensures HistorySound(t) <==> dk in s.docs && s.docs[dk] == doc
  {
    NewestIsStored(s, CollOf(dk), doc.id, doc);
    assert HistoryOf(t, dk) <==> NewestIs(s.rev, CollOf(dk), doc.id, doc);
    if dk in s.docs && s.docs[dk] == doc {
      assert t.docs == s.docs;
      SameHistory(s, t);
    }
  }

  lemma SameHistory(s: Buckets, t: Buckets)
    requires t.docs == s.docs && t.rev == s.rev
    ensures HistorySound(t) <==> HistorySound(s)
  {
    forall x | x in t.docs ensures HistoryOf(t, x) <==> HistoryOf(s, x) {}
    SameOwners(s, t);
    SameOwners(t, s);
  }

  lemma SameOwners(s: Buckets, t: Buckets)
    requires t.docs == s.docs && t.rev == s.rev
    ensures NoOrphans(s) ==> NoOrphans(t)
  {
    if NoOrphans(s) {
      forall k | k in t.rev ensures exists x :: OwnedBy(t, k, x) {
        var x :| OwnedBy(s, k, x);
        OwnedStays(s, t, k, x);
      }
    }
  }

  lemma UpdateKeepsHistoryIff(cfg: Config, s: Buckets, coll: string, key: string, lang: string, p: Patch, now: Time)
    requires WellNamed(s) && HistorySound(s) && Plain(coll)
    requires PatchAccepted(cfg, coll, key, lang, p) && Found(s, coll, key, lang, now).Some?
    ensures var f := Found(s, coll, key, lang, now).value;
            HistorySound(Update(cfg, s, coll, key, lang, p, now))
            <==> f.updatedAt <= now && WriteSpares(cfg, s, coll, Patched(f, p, now), now)
  {
    UpdateShape(cfg, s, coll, key, lang, p, now);
    var f := Found(s, coll, key, lang, now).value;
    var t, dk, doc := Update(cfg, s, coll, key, lang, p, now), DocKey(coll, f.id), Patched(f, p, now);
    StoredName(s, dk);
    PutWithRevisionIff(cfg, s, t, dk, doc, now);
  }

  /** A document whose id begins no other stored id of its collection is written without harm to
      others, whatever the cap. */
  lemma LoneWriteSpares(cfg: Config, s: Buckets, coll: string, doc: Doc, now: Time)
    requires WellNamed(s) && HistorySound(s) && Plain(coll) && NoLater(s.rev, coll, doc.id, now)
    requires forall x | x in s.docs && CollOf(x) == coll && s.docs[x].id != doc.id :: !Begins(doc.id, s.docs[x].id)
    ensures WriteSpares(cfg, s, coll, doc, now)
  {
    var put := PutRevision(s.rev, coll, doc, now);
    forall x | x in s.docs && CollOf(x) == coll && s.docs[x].id != doc.id
      ensures SparedByWrite(cfg, s, coll, doc, now, x)
    {
      assert HistoryOf(s, x);
      RevisionUnderIff(coll, doc.id, coll, s.docs[x].id, s.docs[x].updatedAt);
    }
    var top := RevKey(coll, doc.id, now);
    forall g | g in RevKeysOf(put, coll, doc.id) ensures !Less(top, g) {
      LoneKey(s, coll, doc, now, g);
    }
    assert LaterKeys(put, coll, doc.id, top) == {};
  }

  lemma LoneKey(s: Buckets, coll: string, doc: Doc, now: Time, g: string)
    requires WellNamed(s) && NoOrphans(s) && Plain(coll) && NoLater(s.rev, coll, doc.id, now)
    requires forall x | x in s.docs && CollOf(x) == coll && s.docs[x].id != doc.id :: !Begins(doc.id, s.docs[x].id)
    requires g in RevKeysOf(PutRevision(s.rev, coll, doc, now), coll, doc.id)
    ensures !Less(RevKey(coll, doc.id, now), g)
  {
    LessIrreflexive(RevKey(coll, doc.id, now));
    if g in s.rev {
      var y :| OwnedBy(s, g, y);
      var t: Time :| g == RevKey(CollOf(y), s.docs[y].id, t);
      StoredName(s, y);
      RevisionUnderIff(coll, doc.id, CollOf(y), s.docs[y].id, t);
      RevKeyOrder(coll, doc.id, now, t);
    }
  }

  // ---- removals ---------------------------------------------------------------------------------------------

  /** A removed id begins the id of x, a document of the same collection. */
  ghost predicate Begun(s: Buckets, victims: set<string>, x: string) {
    x in s.docs
    && exists v :: v in victims && v in s.docs && CollOf(v) == CollOf(x) && Begins(s.docs[v].id, s.docs[x].id)
  }

  /** No removed id begins the id of a document of its collection that stays. */
  ghost predicate NoneBegun(s: Buckets, victims: set<string>) {
    forall x | x in s.docs && x !in victims :: !Begun(s, victims, x)
  }

  /** Removing documents keeps a sound history exactly when none of their ids begins a survivor's. */
  lemma RemoveKeepsHistoryIff(s: Buckets, victims: set<string>, bks: set<string>)
    requires WellNamed(s) && HistorySound(s) && victims <= s.docs.Keys
    ensures HistorySound(RemoveOwned(s, victims, bks)) <==> NoneBegun(s, victims)
  {
    var t := RemoveOwned(s, victims, bks);
    RemoveNoOrphans(s, victims, bks);
    if HistorySound(t) {
      forall x | x in s.docs && x !in victims ensures !Begun(s, victims, x) {
        SurvivorHistory(s, victims, bks, x);
        assert x in t.docs && HistoryOf(t, x);
      }
    }
    if NoneBegun(s, victims) {
      forall x | x in t.docs ensures HistoryOf(t, x) {
        SurvivorHistory(s, victims, bks, x);
      }
    }
  }

  lemma RemoveNoOrphans(s: Buckets, victims: set<string>, bks: set<string>)
    requires WellNamed(s) && NoOrphans(s) && victims <= s.docs.Keys
    ensures NoOrphans(RemoveOwned(s, victims, bks))
  {
    var t := RemoveOwned(s, victims, bks);
    forall k | k in t.rev ensures exists x :: OwnedBy(t, k, x) {
      var x :| OwnedBy(s, k, x);
      assert IsRevOf(k, CollOf(x), s.docs[x].id);
      OwnedStays(s, t, k, x);
    }
  }

  lemma SurvivorHistory(s: Buckets, victims: set<string>, bks: set<string>, x: string)
    requires WellNamed(s) && HistorySound(s) && victims <= s.docs.Keys && x in s.docs && x !in victims
    ensures HistoryOf(RemoveOwned(s, victims, bks), x) <==> !Begun(s, victims, x)
  {
    var t, c, d := RemoveOwned(s, victims, bks), CollOf(x), s.docs[x];
    StoredName(s, x);
    assert HistoryOf(s, x);
    forall v, u: Time | v in victims
      ensures IsRevOf(RevKey(c, d.id, u), CollOf(v), s.docs[v].id) <==> CollOf(v) == c && Begins(s.docs[v].id, d.id)
    {
      StoredName(s, v);
      RevisionUnderIff(CollOf(v), s.docs[v].id, c, d.id, u);
    }
    if v :| v in victims && CollOf(v) == c && Begins(s.docs[v].id, d.id) {
      assert IsRevOf(TopOf(c, d), CollOf(v), s.docs[v].id);
    }
  }

  /** The delete of a stored document, in the caller's terms. */
  lemma DeleteKeepsHistoryIff(s: Buckets, coll: string, key: string, lang: string)
    requires WellNamed(s) && HistorySound(s) && Plain(coll) && Target(coll, key, lang) in s.docs
    ensures HistorySound(Delete(s, coll, key, lang))
            <==> forall x | x in s.docs && x != Target(coll, key, lang) && CollOf(x) == coll ::
                   !Begins(GenID(coll, key, lang), s.docs[x].id)
  {
    var dk := Target(coll, key, lang);
    DeleteIsOwned(s, coll, key, lang);
    RemoveKeepsHistoryIff(s, {dk}, {ByKeyKey(coll, key, lang)});
    StoredUnderID(s, coll, GenID(coll, key, lang));
    forall x | x in s.docs && x != dk
      ensures Begun(s, {dk}, x) <==> CollOf(x) == coll && Begins(GenID(coll, key, lang), s.docs[x].id)
    {}
  }

  /** Deleting a whole collection leaves nothing of it to begin. */
  lemma DeleteCollectionKeepsHistory(s: Buckets, coll: string)
    requires WellNamed(s) && HistorySound(s) && Plain(coll)
    ensures HistorySound(DeleteCollection(s, coll))
  {
    DeleteCollectionIsOwned(s, coll);
    RemoveKeepsHistoryIff(s, CollectionKeys(s, coll), EntriesIn(s, coll));
    forall x | x in s.docs && x !in CollectionKeys(s, coll) ensures CollOf(x) != coll {
      StoredName(s, x);
    }
    forall v | v in CollectionKeys(s, coll) ensures CollOf(v) == coll {
      InCollection(s, coll, v);
    }
  }

  // ---- truncation ------------------------------------------------------------------------------------------------

  /** No id of the list begins one before it. */
  ghost predicate OuterFirst(docs: map<string, Doc>, dks: seq<string>)
    requires forall dk | dk in dks :: dk in docs
  {
    forall i, j | 0 <= i < j < |dks| :: !Begins(docs[dks[j]].id, docs[dks[i]].id)
  }

  /** A key that survived the cut under one prefix has the same later keys under another, unless the
      second prefix begins the first. */
  lemma SparedSame(rev: map<string, Doc>, coll: string, first: string, id: string, keep: nat, k: string)
    requires !Begins(id, first) && k in KeepNewest(rev, coll, first, keep)
    ensures Spared(KeepNewest(rev, coll, first, keep), coll, id, keep, k) <==> Spared(rev, coll, id, keep, k)
  {
    var kept := KeepNewest(rev, coll, first, keep);
    KeepNewestKeeps(rev, coll, first, keep);
    KeptIff(rev, coll, first, keep, k);
    if IsRevOf(k, coll, id) {
      forall g | g in LaterKeys(rev, coll, id, k) ensures g in kept {
        KeptIff(rev, coll, first, keep, g);
        if IsRevOf(g, coll, first) {
          CommonPrefix(RevPrefix(coll, first), RevPrefix(coll, id), g);
          BeginsIsPrefix(coll, first, id);
          BeginsIsPrefix(coll, id, first);
          LaterIsSpared(rev, coll, first, keep, k, g);
        }
      }
      assert LaterKeys(kept, coll, id, k) == LaterKeys(rev, coll, id, k);
    }
  }

  lemma CommonPrefix(p: string, q: string, k: string)
    requires p <= k && q <= k
    ensures p <= q || q <= p
  {
  }

  lemma BeginsIsPrefix(coll: string, id: string, other: string)
    ensures Begins(id, other) <==> RevPrefix(coll, id) <= RevPrefix(coll, other)
  {
    var p := "rev|" + coll + "|";
    assert RevPrefix(coll, id) == p + (id + "|") && RevPrefix(coll, other) == p + (other + "|");
    DropCommon(p, id + "|", other + "|");
  }

  /** Exactly the keys that every single cut spares stay. */
  lemma {:induction false} CutAllIff(docs: map<string, Doc>, rev: map<string, Doc>, coll: string, dks: seq<string>,
                                     keep: nat, k: string)
    requires (forall dk | dk in dks :: dk in docs) && OuterFirst(docs, dks)
    ensures k in CutAll(docs, rev, coll, dks, keep)
            <==> k in rev && forall dk | dk in dks :: Spared(rev, coll, docs[dk].id, keep, k)
    decreases |dks|
  {
    if dks != [] {
      var first, rest := docs[dks[0]].id, dks[1..];
      var kept := KeepNewest(rev, coll, first, keep);
      assert dks == [dks[0]] + rest;
      KeptIff(rev, coll, first, keep, k);
      CutAllIff(docs, kept, coll, rest, keep, k);
      if k in kept {
        forall dk | dk in rest
          ensures Spared(kept, coll, docs[dk].id, keep, k) <==> Spared(rev, coll, docs[dk].id, keep, k)
        {
          var j :| 0 <= j < |rest| && rest[j] == dk;
          assert dks[j + 1] == dk;
          SparedSame(rev, coll, first, docs[dk].id, keep, k);
        }
      }
    }
  }

  lemma {:induction false} CutAllOnlyRemoves(docs: map<string, Doc>, rev: map<string, Doc>, coll: string,
                                             dks: seq<string>, keep: nat)
    requires forall dk | dk in dks :: dk in docs
    ensures forall k | k in CutAll(docs, rev, coll, dks, keep) ::
              k in rev && CutAll(docs, rev, coll, dks, keep)[k] == rev[k]
    decreases |dks|
  {
    if dks != [] {
      var rev' := KeepNewest(rev, coll, docs[dks[0]].id, keep);
      KeepNewestKeeps(rev, coll, docs[dks[0]].id, keep);
      CutAllOnlyRemoves(docs, rev', coll, dks[1..], keep);
    }
  }

  lemma {:induction false} PrefixIsLess(p: string, q: string)
    requires p <= q && p != q
    ensures Less(p, q)
    decreases |p|
  {
    if p != "" {
      assert p[0] == q[0] && p[1..] <= q[1..];
      assert p == [p[0]] + p[1..] && q == [q[0]] + q[1..];
      PrefixIsLess(p[1..], q[1..]);
    }
  }

  /** In key order an id comes before those it begins. */
  lemma KeyOrderIsOuterFirst(s: Buckets, coll: string)
    requires WellNamed(s) && Plain(coll)
    ensures var dks := InOrder(CollectionKeys(s, coll));
            (forall dk | dk in dks :: dk in s.docs && CollOf(dk) == coll) && OuterFirst(s.docs, dks)
  {
    var dks := InOrder(CollectionKeys(s, coll));
    forall dk | dk in dks ensures dk in s.docs && CollOf(dk) == coll {
      InCollection(s, coll, dk);
    }
    forall i, j | 0 <= i < j < |dks| ensures !Begins(s.docs[dks[j]].id, s.docs[dks[i]].id) {
      var x, y := dks[i], dks[j];
      assert x in dks && y in dks && Less(x, y);
      StoredName(s, x);
      StoredName(s, y);
      LaterBeginsNot(coll, s.docs[x].id, s.docs[y].id);
    }
  }

  lemma LaterBeginsNot(coll: string, id: string, later: string)
    requires Less(DocKey(coll, id), DocKey(coll, later))
    ensures !Begins(later, id)
  {
    if Begins(later, id) {
      LessAsymmetric(DocKey(coll, id), DocKey(coll, later));
      BeginsMeansPrefix(later, id);
      PrefixIsLess(DocKey(coll, later), DocKey(coll, id));
    }
  }

  lemma BeginsMeansPrefix(id: string, other: string)
    requires Begins(id, other)
    ensures id <= other
  {
    assert id == (id + "|")[..|id|];
  }

  /** No cut of the collection's histories to `keep` takes the newest revision of x. */
  ghost predicate CutsSpare(s: Buckets, coll: string, keep: nat, x: string) {
    && x in s.docs && IsTime(s.docs[x].updatedAt)
    && forall y | y in CollectionKeys(s, coll) :: Spared(s.rev, coll, s.docs[y].id, keep, TopOf(coll, s.docs[x]))
  }

  lemma TruncateKeepsLater(s: Buckets, coll: string, keep: nat, c: string, id: string)
    requires WellNamed(s) && Plain(coll) && coll != "" && Plain(c)
    ensures KeepsLater(s.rev, Truncate(s, coll, keep).rev, c, id)
  {
    KeyOrderIsOuterFirst(s, coll);
    var dks := InOrder(CollectionKeys(s, coll));
    var kept := CutAll(s.docs, s.rev, coll, dks, keep);
    CutAllOnlyRemoves(s.docs, s.rev, coll, dks, keep);
    forall t: Time, u: Time | t < u && RevKey(c, id, t) in kept && RevKey(c, id, u) in s.rev
      ensures RevKey(c, id, u) in kept
    {
      CutAllIff(s.docs, s.rev, coll, dks, keep, RevKey(c, id, t));
      CutAllIff(s.docs, s.rev, coll, dks, keep, RevKey(c, id, u));
      forall dk | dk in dks ensures Spared(s.rev, coll, s.docs[dk].id, keep, RevKey(c, id, u)) {
        SameDocSpared(s.rev, coll, s.docs[dk].id, keep, c, id, t, u);
      }
    }
  }

  /** A newest revision survives the cuts of its own collection that spare it, and those of any other. */
  lemma TopAfterCuts(s: Buckets, coll: string, keep: nat, x: string)
    requires WellNamed(s) && Plain(coll) && coll != "" && x in s.docs && HistoryOf(s, x)
    ensures TopOf(CollOf(x), s.docs[x]) in Truncate(s, coll, keep).rev
            <==> (x in CollectionKeys(s, coll) ==> CutsSpare(s, coll, keep, x))
  {
    var c, d, dks := CollOf(x), s.docs[x], InOrder(CollectionKeys(s, coll));
    StoredName(s, x);
    KeyOrderIsOuterFirst(s, coll);
    CutAllIff(s.docs, s.rev, coll, dks, keep, TopOf(c, d));
    if x in CollectionKeys(s, coll) {
      InCollection(s, coll, x);
    } else {
      forall dk | dk in dks ensures Spared(s.rev, coll, s.docs[dk].id, keep, TopOf(c, d)) {
        RevisionUnderIff(coll, s.docs[dk].id, c, d.id, d.updatedAt);
      }
    }
  }

  lemma TruncatedHistory(s: Buckets, coll: string, keep: nat, x: string)
    requires WellNamed(s) && HistorySound(s) && Plain(coll) && coll != "" && x in s.docs && HistoryOf(s, x)
    ensures HistoryOf(Truncate(s, coll, keep), x) <==> (x in CollectionKeys(s, coll) ==> CutsSpare(s, coll, keep, x))
  {
    var c, d := CollOf(x), s.docs[x];
    StoredName(s, x);
    TruncateKeepsLater(s, coll, keep, c, d.id);
    NewestAfterCut(s.rev, Truncate(s, coll, keep).rev, c, d.id, d);
    TopAfterCuts(s, coll, keep, x);
  }

  /** Truncation keeps a sound history exactly when no cut takes a newest revision. */
  lemma TruncateKeepsHistoryIff(s: Buckets, coll: string, keep: int)
    requires WellNamed(s) && HistorySound(s) && Plain(coll)
    ensures HistorySound(Truncate(s, coll, keep))
            <==> (coll != "" && keep >= 0 ==> forall x | x in CollectionKeys(s, coll) :: CutsSpare(s, coll, keep, x))
  {
    if coll != "" && keep >= 0 {
      TruncateNoOrphans(s, coll, keep);
      forall x | x in s.docs
        ensures HistoryOf(Truncate(s, coll, keep), x)
                <==> (x in CollectionKeys(s, coll) ==> CutsSpare(s, coll, keep, x))
      {
        assert HistoryOf(s, x);
        TruncatedHistory(s, coll, keep, x);
      }
    }
  }

  /** Truncation takes exactly the revisions that some document of the collection has enough later ones
      of, and leaves every document with no more revisions than asked for. */
  lemma TruncateIs(s: Buckets, coll: string, keep: nat, k: string)
    requires WellNamed(s) && Plain(coll) && coll != ""
    ensures k in Truncate(s, coll, keep).rev
            <==> k in s.rev && forall x | x in CollectionKeys(s, coll) && IsRevOf(k, coll, s.docs[x].id) ::
                                 |LaterKeys(s.rev, coll, s.docs[x].id, k)| < keep
    ensures k in Truncate(s, coll, keep).rev ==> Truncate(s, coll, keep).rev[k] == s.rev[k]
    ensures forall x | x in CollectionKeys(s, coll) ::
              |RevKeysOf(Truncate(s, coll, keep).rev, coll, s.docs[x].id)| <= keep
  {
    var dks := InOrder(CollectionKeys(s, coll));
    KeyOrderIsOuterFirst(s, coll);
    CutAllIff(s.docs, s.rev, coll, dks, keep, k);
    CutAllOnlyRemoves(s.docs, s.rev, coll, dks, keep);
    forall x | x in CollectionKeys(s, coll)
      ensures |RevKeysOf(Truncate(s, coll, keep).rev, coll, s.docs[x].id)| <= keep
      ensures Spared(s.rev, coll, s.docs[x].id, keep, k)
              <==> (IsRevOf(k, coll, s.docs[x].id) ==> |LaterKeys(s.rev, coll, s.docs[x].id, k)| < keep)
    {
      CutAllCaps(s.docs, s.rev, coll, dks, keep, x);
    }
  }

  lemma {:induction false} CutAllCaps(docs: map<string, Doc>, rev: map<string, Doc>, coll: string, dks: seq<string>,
                                      keep: nat, x: string)
    requires x in dks && forall dk | dk in dks :: dk in docs
    ensures |RevKeysOf(CutAll(docs, rev, coll, dks, keep), coll, docs[x].id)| <= keep
    decreases |dks|
  {
    var kept := KeepNewest(rev, coll, docs[dks[0]].id, keep);
    if x == dks[0] {
      KeepNewestKeeps(rev, coll, docs[x].id, keep);
      CutAllOnlyRemoves(docs, kept, coll, dks[1..], keep);
      SubsetSize(RevKeysOf(CutAll(docs, rev, coll, dks, keep), coll, docs[x].id), RevKeysOf(kept, coll, docs[x].id));
    } else {
      CutAllCaps(docs, kept, coll, dks[1..], keep, x);
    }
  }

  /** Without a pipe in any name no id begins another. */
  lemma PlainNamesNeverBegin(s: Buckets, x: string, y: string)
    requires WellNamed(s) && PlainlyNamed(s) && x in s.docs && y in s.docs && CollOf(x) == CollOf(y)
    requires Begins(s.docs[x].id, s.docs[y].id)
    ensures x == y
  {
    assert NamedRight(x, s.docs[x]) && NamedRight(y, s.docs[y]);
    assert s.docs[y].id + "|" == s.docs[y].id + "|" + "";
    PlainIDPrefix(s.docs[x].id, s.docs[y].id, "");
  }

  /** Where no id begins another, a truncation spares a document exactly when it keeps anything. */
  lemma LoneCutsSpareIff(s: Buckets, coll: string, keep: nat, x: string)
    requires WellNamed(s) && HistorySound(s) && Plain(coll) && x in CollectionKeys(s, coll)
    requires forall y, z | y in s.docs && z in s.docs && y != z && CollOf(y) == CollOf(z) ::
             !Begins(s.docs[y].id, s.docs[z].id)
    ensures CutsSpare(s, coll, keep, x) <==> keep > 0
  {
    var d := s.docs[x];
    assert HistoryOf(s, x);
    InCollection(s, coll, x);
    var top := TopOf(coll, d);
    forall y | y in CollectionKeys(s, coll) ensures IsRevOf(top, coll, s.docs[y].id) <==> y == x {
      InCollection(s, coll, y);
      RevisionUnderIff(coll, s.docs[y].id, coll, d.id, d.updatedAt);
    }
    forall g | g in RevKeysOf(s.rev, coll, d.id) ensures !Less(top, g) {
      KeysUnderTop(s, x, g);
      LessIrreflexive(top);
      if Less(g, top) {
        LessAsymmetric(g, top);
      }
    }
    assert LaterKeys(s.rev, coll, d.id, top) == {};
  }

  lemma TruncateNoOrphans(s: Buckets, coll: string, keep: nat)
    requires WellNamed(s) && NoOrphans(s) && Plain(coll) && coll != ""
    ensures NoOrphans(Truncate(s, coll, keep))
  {
    var t := Truncate(s, coll, keep);
    KeyOrderIsOuterFirst(s, coll);
    CutAllOnlyRemoves(s.docs, s.rev, coll, InOrder(CollectionKeys(s, coll)), keep);
    forall k | k in t.rev ensures exists x :: OwnedBy(t, k, x) {
      var x :| OwnedBy(s, k, x);
      OwnedStays(s, t, k, x);
    }
  }
}
