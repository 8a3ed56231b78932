/** Sealing values under a key ring and rotating them to the primary key
    (services/mddbd/internal/encryption/encryption.go and services/mddbd/encryption_rotate.go). */
module Rotation {
  import opened ByteStrings
  import opened Keys

  // ---- the wire format ------------------------------------------------------------------------------

  const MAGIC_V1 := "MDDB_ENC_V1\0"
  const MAGIC_V2 := "MDDB_ENC_V2\0"
  const MAGIC_LEN := 12
  const NONCE_LEN := 12

  type Nonce = s: string | |s| == 12 witness "nonce-of-12b"

  /** An authenticated cipher under one key. */
  datatype Cipher = Cipher(seal: (Nonce, string) -> string, open: (Nonce, string) -> Option<string>)

  /** Key ids are single bytes. */
  datatype Ring = Ring(primaryID: char, primary: Cipher, previous: map<char, Cipher>)

  /** Opening undoes sealing under the primary key. */
  ghost predicate Opens(ring: Ring) {
    forall n, p :: ring.primary.open(n, ring.primary.seal(n, p)) == Some(p)
  }

  function Version(data: string): int {
    if |data| < MAGIC_LEN then 0
    else if data[..MAGIC_LEN] == MAGIC_V2 then 2
    else if data[..MAGIC_LEN] == MAGIC_V1 then 1
    else 0
  }

  function KeyID(data: string): Option<char> {
    if Version(data) == 2 && |data| >= MAGIC_LEN + 1 then Some(data[MAGIC_LEN]) else None
  }

  function Seal(ring: Ring, n: Nonce, p: string): string {
    MAGIC_V2 + [ring.primaryID] + n + ring.primary.seal(n, p)
  }

  function LookupKey(ring: Ring, id: char): Option<Cipher> {
    if id == ring.primaryID then Some(ring.primary)
    else if id in ring.previous then Some(ring.previous[id])
    else None
  }

  /** Plain values pass through; None is a failure. */
  function Decrypt(ring: Ring, data: string): Option<string> {
    match Version(data)
    case 1 =>
      if |data| < MAGIC_LEN + NONCE_LEN then None
      else ring.primary.open(data[MAGIC_LEN..MAGIC_LEN + NONCE_LEN], data[MAGIC_LEN + NONCE_LEN..])
    case 2 =>
      if |data| < MAGIC_LEN + 1 + NONCE_LEN then None
      else
        var key := LookupKey(ring, data[MAGIC_LEN]);
        if key.None? then None
        else key.value.open(data[MAGIC_LEN + 1..MAGIC_LEN + 1 + NONCE_LEN], data[MAGIC_LEN + 1 + NONCE_LEN..])
    case _ => Some(data)
  }

  /** A fresh envelope names the primary key and opens to what was sealed. */
  lemma SealOpens(ring: Ring, n: Nonce, p: string)
    requires Opens(ring)
    ensures Version(Seal(ring, n, p)) == 2 && KeyID(Seal(ring, n, p)) == Some(ring.primaryID)
    ensures Decrypt(ring, Seal(ring, n, p)) == Some(p)
  {
    var data, ct := Seal(ring, n, p), ring.primary.seal(n, p);
    assert |MAGIC_V2| == MAGIC_LEN && data[..MAGIC_LEN] == MAGIC_V2;
    assert data[MAGIC_LEN] == ring.primaryID;
    assert data[MAGIC_LEN + 1..MAGIC_LEN + 1 + NONCE_LEN] == n;
    assert data[MAGIC_LEN + 1 + NONCE_LEN..] == ct;
  }

  /** The two magic words tell the versions apart; anything else is plain, and passes through. */
  lemma VersionIs(ring: Ring, data: string)
    ensures Version(data) == 2 <==> MAGIC_V2 <= data
    ensures Version(data) == 1 <==> MAGIC_V1 <= data
    ensures !(MAGIC_V1 <= data) && !(MAGIC_V2 <= data) ==> Decrypt(ring, data) == Some(data)
  {
    assert |MAGIC_V1| == |MAGIC_V2| == MAGIC_LEN;
    if |data| >= MAGIC_LEN && MAGIC_V1 <= data {
      assert MAGIC_V1[10] != MAGIC_V2[10] && data[..MAGIC_LEN] == MAGIC_V1;
    }
  }

  /** What one ring sealed another opens that still has the key, as its primary or as a previous one. */
  lemma OldSealOpens(former: Ring, ring: Ring, n: Nonce, p: string)
    requires Opens(former)
    requires if former.primaryID == ring.primaryID then former.primary == ring.primary
             else former.primaryID in ring.previous && ring.previous[former.primaryID] == former.primary
    ensures Decrypt(ring, Seal(former, n, p)) == Some(p)
  {
    SealOpens(former, n, p);
    assert |MAGIC_V2| == MAGIC_LEN && Seal(former, n, p)[MAGIC_LEN] == former.primaryID;
  }

  /** An envelope of the first version names no key and is opened with the primary one. */
  lemma FirstVersionOpens(ring: Ring, n: Nonce, p: string)
    requires Opens(ring)
    ensures Decrypt(ring, MAGIC_V1 + n + ring.primary.seal(n, p)) == Some(p)
  {
    var data := MAGIC_V1 + n + ring.primary.seal(n, p);
    VersionIs(ring, data);
    assert |MAGIC_V1| == MAGIC_LEN && MAGIC_V1 <= data;
    assert data[MAGIC_LEN..MAGIC_LEN + NONCE_LEN] == n;
    assert data[MAGIC_LEN + NONCE_LEN..] == ring.primary.seal(n, p);
  }

  /** The ring without its previous keys. */
  function Bare(ring: Ring): Ring { Ring(ring.primaryID, ring.primary, map[]) }

  /** What names the primary key needs no other. */
  lemma PrimaryIsEnough(ring: Ring, data: string)
    requires Version(data) == 2 && KeyID(data) == Some(ring.primaryID)
    ensures Decrypt(Bare(ring), data) == Decrypt(ring, data)
  {
  }

  // ---- which entries a pass rewrites ---------------------------------------------------------------

  datatype BucketName = Docs | Rev

  function Other(b: BucketName): BucketName { if b.Docs? then Rev else Docs }

  function Tag(b: BucketName): string { if b.Docs? then "doc|" else "rev|" }

  /** A recognised envelope that the primary key did not seal. */
  predicate Stale(ring: Ring, data: string) {
    Version(data) == 1 || (Version(data) == 2 && KeyID(data) != Some(ring.primaryID))
  }

  /** The entry belongs to a collection and is stale. */
  predicate Needs(ring: Ring, b: BucketName, k: string, data: string) {
    CollectionAfter(Tag(b), k) != "" && Stale(ring, data)
  }

  predicate Belongs(k: string, want: string) {
    if CollectionAfter("doc|", k) != "" then CollectionAfter("doc|", k) == want
    else CollectionAfter("rev|", k) != "" && CollectionAfter("rev|", k) == want
  }

  /** The keys one pass over a bucket visits; no collection means all of them. */
  function Visited(bucket: map<string, string>, only: string): set<string> {
    set k | k in bucket && (only == "" || Belongs(k, only))
  }

  /** Restricted to a collection, a pass visits exactly the documents and revisions of that collection. */
  lemma VisitedIff(bucket: map<string, string>, only: string, c: string, id: string, t: Time)
    requires Plain(c) && c != "" && only != ""
    ensures DocKey(c, id) in bucket ==> (DocKey(c, id) in Visited(bucket, only) <==> c == only)
    ensures RevKey(c, id, t) in bucket ==> (RevKey(c, id, t) in Visited(bucket, only) <==> c == only)
  {
    var dk, rk := DocKey(c, id), RevKey(c, id, t);
    UpToPipeReads(c, id);
    assert dk[4..] == c + "|" + id;
    UpToPipeReads(c, id + "|" + Stamp(t));
    assert rk[4..] == c + "|" + (id + "|" + Stamp(t));
    assert dk[0] == 'd' && rk[0] == 'r';
    assert CollectionAfter("doc|", dk) == c && CollectionAfter("rev|", rk) == c && CollectionAfter("doc|", rk) == "";
  }

  /** Reads the collection out of a key. */
  method ReadCollection(tag: string, k: string) returns (c: string)
    requires |tag| == 4
    ensures c == CollectionAfter(tag, k)
  {
    if |k| < 5 || k[..4] != tag {
      if tag <= k {
        assert k[4..] == "";
      }
      return "";
    }
    var rest := k[4..];
    for i := 0 to |rest|
      invariant forall j | 0 <= j < i :: rest[j] != '|'
    {
      if rest[i] == '|' {
        assert rest == rest[..i] + "|" + rest[i + 1..];
        UpToPipeReads(rest[..i], rest[i + 1..]);
        return rest[..i];
      }
    }
    c := "";
  }

  // ---- what a pass has done so far -------------------------------------------------------------------

  /** An envelope that names the primary key. */
  predicate SealedByPrimary(ring: Ring, data: string) { Version(data) == 2 && KeyID(data) == Some(ring.primaryID) }

  /** The entry is stale, and the ring can open it: it asks for a nonce. */
  predicate Asks(ring: Ring, b: BucketName, k: string, data: string) {
    Needs(ring, b, k, data) && Decrypt(ring, data).Some?
  }

  /** What became of an entry: its plaintext is the same, and if it changed it was stale, opened, and is
      now sealed by the primary key. */
  ghost predicate EntryKept(ring: Ring, b: BucketName, k: string, was: string, now: string) {
    && Decrypt(ring, now) == Decrypt(ring, was)
    && (now != was ==> Asks(ring, b, k, was) && SealedByPrimary(ring, now))
  }

  /** The entries of a bucket that ask for a nonce. */
  function Asking(ring: Ring, b: BucketName, bucket: map<string, string>, ks: set<string>): set<string> {
    set k | k in ks && k in bucket && Asks(ring, b, k, bucket[k])
  }

  /** The entry as it is left, given what came of drawing a nonce. */
  function Outcome(ring: Ring, b: BucketName, k: string, was: string, nonce: Option<Nonce>): string {
    if Asks(ring, b, k, was) && nonce.Some? then Seal(ring, nonce.value, Decrypt(ring, was).value) else was
  }

  /** An entry fails exactly when it is stale and does not open, or its nonce is not drawn. */
  lemma OutcomeKept(ring: Ring, b: BucketName, k: string, was: string, nonce: Option<Nonce>)
    requires Opens(ring)
    ensures var now := Outcome(ring, b, k, was, nonce);
            && EntryKept(ring, b, k, was, now)
            && (Needs(ring, b, k, now) <==> Needs(ring, b, k, was) && (Decrypt(ring, was).None? || nonce.None?))
  {
    if Asks(ring, b, k, was) && nonce.Some? {
      SealOpens(ring, nonce.value, Decrypt(ring, was).value);
    }
  }

  /** What becomes of an entry: rewritten, not in need of it, locked (stale, and does not open), or
      undrawn (its nonce did not come). */
  datatype Kind = Rewrote | Unneeded | Locked | Undrawn

  ghost function KindOf(ring: Ring, b: BucketName, k: string, was: string, now: string): Kind {
    if !Needs(ring, b, k, was) then Unneeded
    else if Decrypt(ring, was).None? then Locked
    else if Needs(ring, b, k, now) then Undrawn
    else Rewrote
  }

  /** The entries visited, by what became of them. */
  datatype Groups = Groups(rewritten: set<string>, unneeded: set<string>, locked: set<string>, undrawn: set<string>)

  const NOBODY := Groups({}, {}, {}, {})

  ghost function Add(g: Groups, k: string, kind: Kind): Groups {
    match kind
    case Rewrote => g.(rewritten := g.rewritten + {k})
    case Unneeded => g.(unneeded := g.unneeded + {k})
    case Locked => g.(locked := g.locked + {k})
    case Undrawn => g.(undrawn := g.undrawn + {k})
  }

  ghost predicate InGroup(g: Groups, k: string, kind: Kind) {
    && (k in g.rewritten <==> kind.Rewrote?) && (k in g.unneeded <==> kind.Unneeded?)
    && (k in g.locked <==> kind.Locked?) && (k in g.undrawn <==> kind.Undrawn?)
  }

  ghost predicate Outside(g: Groups, k: string) {
    k !in g.rewritten && k !in g.unneeded && k !in g.locked && k !in g.undrawn
  }

  ghost predicate EntryPassed(ring: Ring, b: BucketName, k: string, was: string, now: string, g: Groups) {
    EntryKept(ring, b, k, was, now) && InGroup(g, k, KindOf(ring, b, k, was, now))
  }

  /** Every stale entry opens under the ring. */
  ghost predicate AllOpen(ring: Ring, b: BucketName, bucket: map<string, string>, ks: set<string>) {
    forall k | k in ks && k in bucket && Needs(ring, b, k, bucket[k]) :: Decrypt(ring, bucket[k]).Some?
  }

  /** What comes of asking for a nonce. */
  function Draw(nonces: imap<nat, Nonce>, n: nat): Option<Nonce> {
    if n in nonces then Some(nonces[n]) else None
  }

  /** The context has been cancelled by the time so many entries have been scanned. */
  predicate CancelledAt(cancelled: Option<nat>, n: nat) { cancelled.Some? && cancelled.value <= n }

  /** Every nonce asked for from the first number to the last came. */
  ghost predicate Drawn(nonces: imap<nat, Nonce>, from: nat, to: nat) {
    forall n | from <= n < to :: Draw(nonces, n).Some?
  }

  /** Entries outside `ks` are untouched and in no group; those inside are kept and in their group. */
  ghost predicate Passed(ring: Ring, b: BucketName, was: map<string, string>, now: map<string, string>,
                         ks: set<string>, g: Groups)
  {
    && now.Keys == was.Keys && ks <= was.Keys
    && (forall k | k in was && k !in ks :: now[k] == was[k])
    && (forall k | k !in ks :: Outside(g, k))
    && (forall k | k in ks :: EntryPassed(ring, b, k, was[k], now[k], g))
  }

  lemma PassedOneMore(ring: Ring, b: BucketName, was: map<string, string>, now: map<string, string>, ks: set<string>,
                      g: Groups,
                      k: string, v: string)
    requires Passed(ring, b, was, now, ks, g) && k in was && k !in ks && EntryKept(ring, b, k, was[k], v)
    ensures Outside(g, k) && Passed(ring, b, was, now[k := v], ks + {k}, Add(g, k, KindOf(ring, b, k, was[k], v)))
  {
    var next, more := now[k := v], Add(g, k, KindOf(ring, b, k, was[k], v));
    forall x | x in ks + {k} ensures EntryPassed(ring, b, x, was[x], next[x], more) {
      if x != k {
        assert EntryPassed(ring, b, x, was[x], now[x], g);
        assert Outside(Groups({k}, {k}, {k}, {k}), x);
      }
    }
    forall x | x !in ks + {k} ensures Outside(more, x) {
      assert Outside(g, x);
    }
  }

  datatype Counts = Counts(scanned: nat, reencrypted: nat, skipped: nat, errors: nat)

  /** The counters a set of groups accounts for. */
  ghost function Sizes(g: Groups): Counts {
    Counts(|g.rewritten| + |g.unneeded| + |g.locked| + |g.undrawn|,
           |g.rewritten|, |g.unneeded|, |g.locked| + |g.undrawn|)
  }

  function Plus(a: Counts, b: Counts): Counts {
    Counts(a.scanned + b.scanned, a.reencrypted + b.reencrypted, a.skipped + b.skipped, a.errors + b.errors)
  }

  ghost function Bump(c: Counts, kind: Kind): Counts {
    Counts(c.scanned + 1,
           c.reencrypted + if kind.Rewrote? then 1 else 0,
           c.skipped + if kind.Unneeded? then 1 else 0,
           c.errors + if kind.Locked? || kind.Undrawn? then 1 else 0)
  }

  lemma SizesOneMore(g: Groups, k: string, kind: Kind)
    requires Outside(g, k)
    ensures Sizes(Add(g, k, kind)) == Bump(Sizes(g), kind)
  {
  }

  /** Every visited entry is in exactly one group. */
  lemma GroupsPartition(ring: Ring, b: BucketName, was: map<string, string>, now: map<string, string>,
                        ks: set<string>, g: Groups)
    requires Passed(ring, b, was, now, ks, g)
    ensures g.rewritten !! g.unneeded !! g.locked !! g.undrawn
    ensures ks == g.rewritten + g.unneeded + g.locked + g.undrawn && Sizes(g).scanned == |ks|
  {
    forall k
      ensures k in ks <==> !Outside(g, k)
      ensures k in g.rewritten ==> k !in g.unneeded && k !in g.locked && k !in g.undrawn
      ensures k in g.unneeded ==> k !in g.locked && k !in g.undrawn
      ensures k in g.locked ==> k !in g.undrawn
    {
      if k in ks {
        assert EntryPassed(ring, b, k, was[k], now[k], g);
      } else {
        assert Outside(g, k);
      }
    }
    assert ks == ((g.rewritten + g.unneeded) + g.locked) + g.undrawn;
  }

  /** None of these entries needs rewriting. */
  ghost predicate AllSettled(ring: Ring, b: BucketName, bucket: map<string, string>, ks: set<string>) {
    forall k | k in ks && k in bucket :: !Needs(ring, b, k, bucket[k])
  }

  /** What each group means: a pass leaves nothing stale behind exactly when nobody is locked or
      undrawn, nobody is locked exactly when every stale entry opens, and those that opened asked. */
  lemma GroupsTell(ring: Ring, b: BucketName, was: map<string, string>, now: map<string, string>, ks: set<string>,
                   g: Groups)
    requires Passed(ring, b, was, now, ks, g)
    ensures AllSettled(ring, b, now, ks) <==> g.locked == {} && g.undrawn == {}
    ensures AllOpen(ring, b, was, ks) <==> g.locked == {}
    ensures Asking(ring, b, was, ks) == g.rewritten + g.undrawn && g.rewritten !! g.undrawn
  {
    forall k | k in ks
      ensures k in g.locked || k in g.undrawn <==> Needs(ring, b, k, now[k])
      ensures k in g.locked <==> Needs(ring, b, k, was[k]) && Decrypt(ring, was[k]).None?
      ensures k in g.rewritten || k in g.undrawn <==> Asks(ring, b, k, was[k])
      ensures !(k in g.rewritten && k in g.undrawn)
    {
      assert EntryPassed(ring, b, k, was[k], now[k], g);
      LeftOrSealed(ring, b, k, was[k], now[k], g);
    }
    forall k | k !in ks ensures Outside(g, k) {}
    assert forall k | k in g.locked || k in g.undrawn :: k in ks;
  }

  lemma LeftOrSealed(ring: Ring, b: BucketName, k: string, was: string, now: string, g: Groups)
    requires EntryPassed(ring, b, k, was, now, g)
    ensures k in g.locked || k in g.undrawn <==> Needs(ring, b, k, now)
    ensures k in g.locked <==> Needs(ring, b, k, was) && Decrypt(ring, was).None?
    ensures k in g.rewritten || k in g.undrawn <==> Asks(ring, b, k, was)
    ensures !(k in g.rewritten && k in g.undrawn)
  {
  }

  /** A pass over settled entries rewrites nothing and fails on nothing. */
  lemma SettledPassIsIdle(ring: Ring, b: BucketName, was: map<string, string>, now: map<string, string>,
                          ks: set<string>, g: Groups)
    requires Passed(ring, b, was, now, ks, g) && AllSettled(ring, b, was, ks)
    ensures now == was && g.rewritten == {} && g.locked == {} && g.undrawn == {}
  {
    forall k | k in was ensures now[k] == was[k] && (k in ks ==> InGroup(g, k, Unneeded)) {
      if k in ks {
        assert EntryPassed(ring, b, k, was[k], now[k], g);
      }
    }
    forall k | k !in ks ensures Outside(g, k) {}
    forall k ensures k !in g.rewritten && k !in g.locked && k !in g.undrawn {
      assert k in ks ==> InGroup(g, k, Unneeded);
    }
  }

  ghost predicate SamePlaintexts(ring: Ring, b: BucketName, was: map<string, string>, now: map<string, string>,
                                 ks: set<string>)
  {
    && now.Keys == was.Keys
    && (forall k | k in was && (k !in ks || !Needs(ring, b, k, was[k])) :: now[k] == was[k])
    && (forall k | k in was :: Decrypt(ring, now[k]) == Decrypt(ring, was[k]))
  }

  /** Plaintexts stay, and so does every byte of an entry that is not stale or not visited. */
  lemma PassKeepsPlaintexts(ring: Ring, b: BucketName, was: map<string, string>, now: map<string, string>,
                            ks: set<string>, g: Groups)
    requires Passed(ring, b, was, now, ks, g)
    ensures SamePlaintexts(ring, b, was, now, ks)
  {
    forall k | k in was && k in ks
      ensures (!Needs(ring, b, k, was[k]) ==> now[k] == was[k]) && Decrypt(ring, now[k]) == Decrypt(ring, was[k])
    {
      assert EntryPassed(ring, b, k, was[k], now[k], g);
    }
  }

  /** A pass that began with `was`, `before` and nonce number `from` has visited the entries `done`:
      nothing else changed, and each visited entry is in its group. */
  ghost predicate Going(ring: Ring, b: BucketName, nonces: imap<nat, Nonce>,
                        was: map<string, string>, now: map<string, string>, before: Counts, after: Counts,
                        from: nat, to: nat, done: set<string>, g: Groups)
  {
    Passed(ring, b, was, now, done, g) && Tallied(nonces, before, after, from, to, g)
  }

  /** The counters grew by the sizes of the groups. Those that opened asked for a nonce, and nobody is
      undrawn exactly when every nonce came. */
  ghost predicate Tallied(nonces: imap<nat, Nonce>, before: Counts, after: Counts, from: nat, to: nat, g: Groups) {
    && after == Plus(before, Sizes(g))
    && to == from + |g.rewritten| + |g.undrawn| && (g.undrawn == {} <==> Drawn(nonces, from, to))
  }

  lemma GoingOneMore(ring: Ring, b: BucketName, nonces: imap<nat, Nonce>,
                     was: map<string, string>, now: map<string, string>, before: Counts, after: Counts,
                     from: nat, to: nat, done: set<string>, g: Groups, k: string)
    requires Opens(ring) && Going(ring, b, nonces, was, now, before, after, from, to, done, g) && k in was && k !in done
    ensures k in now && now[k] == was[k]
    ensures var v := Outcome(ring, b, k, was[k], Draw(nonces, to));
            var kind := KindOf(ring, b, k, was[k], v);
            Going(ring, b, nonces, was, now[k := v], before, Bump(after, kind), from,
                  to + (if Asks(ring, b, k, was[k]) then 1 else 0), done + {k}, Add(g, k, kind))
  {
    var v := Outcome(ring, b, k, was[k], Draw(nonces, to));
    var kind := KindOf(ring, b, k, was[k], v);
    OutcomeKept(ring, b, k, was[k], Draw(nonces, to));
    KindOfOutcome(ring, b, k, was[k], Draw(nonces, to));
    PassedOneMore(ring, b, was, now, done, g, k, v);
    TalliedOneMore(nonces, before, after, from, to, g, k, kind);
  }

  lemma KindOfOutcome(ring: Ring, b: BucketName, k: string, was: string, nonce: Option<Nonce>)
    requires Opens(ring)
    ensures var kind := KindOf(ring, b, k, was, Outcome(ring, b, k, was, nonce));
            && (Asks(ring, b, k, was) <==> kind.Rewrote? || kind.Undrawn?)
            && (Asks(ring, b, k, was) ==> (kind.Undrawn? <==> nonce.None?))
  {
    OutcomeKept(ring, b, k, was, nonce);
  }

  lemma TalliedOneMore(nonces: imap<nat, Nonce>, before: Counts, after: Counts, from: nat, to: nat, g: Groups,
                       k: string, kind: Kind)
    requires Tallied(nonces, before, after, from, to, g) && Outside(g, k)
    requires kind.Rewrote? || kind.Undrawn? ==> (kind.Undrawn? <==> Draw(nonces, to).None?)
    ensures var next := to + if kind.Rewrote? || kind.Undrawn? then 1 else 0;
            Tallied(nonces, before, Bump(after, kind), from, next, Add(g, k, kind))
  {
    SizesOneMore(g, k, kind);
    BumpAfterPlus(before, Sizes(g), kind);
    AskedOneMore(g, k, kind);
    DrawnOneMore(nonces, from, to);
  }

  lemma BumpAfterPlus(a: Counts, b: Counts, kind: Kind)
    ensures Bump(Plus(a, b), kind) == Plus(a, Bump(b, kind))
  {
  }

  lemma AskedOneMore(g: Groups, k: string, kind: Kind)
    requires Outside(g, k)
    ensures var more := Add(g, k, kind);
            && |more.rewritten| + |more.undrawn|
               == |g.rewritten| + |g.undrawn| + (if kind.Rewrote? || kind.Undrawn? then 1 else 0)
            && (more.undrawn == {} <==> g.undrawn == {} && !kind.Undrawn?)
  {
    if kind.Undrawn? {
      assert k in Add(g, k, kind).undrawn;
    }
  }

  lemma DrawnOneMore(nonces: imap<nat, Nonce>, from: nat, to: nat)
    requires from <= to
    ensures Drawn(nonces, from, to + 1) <==> Drawn(nonces, from, to) && Draw(nonces, to).Some?
  {
  }

  lemma DrawnJoined(nonces: imap<nat, Nonce>, from: nat, middle: nat, to: nat)
    requires from <= middle <= to
    ensures Drawn(nonces, from, to) <==> Drawn(nonces, from, middle) && Drawn(nonces, middle, to)
  {
  }

  predicate AddsUp(c: Counts) { c.scanned == c.reencrypted + c.skipped + c.errors }

  // ---- the job --------------------------------------------------------------------------------------------

  /** The two buckets and the counters of a running job. A nonce can fail to be drawn, and the
      context can be cancelled after any number of entries scanned; `draws` counts the nonces asked for. */
  class Job {
    const ring: Ring
    const nonces: imap<nat, Nonce>
    const cancelled: Option<nat>
    var docs: map<string, string>
    var rev: map<string, string>
    var counts: Counts
    var draws: nat

    constructor (ring: Ring, nonces: imap<nat, Nonce>, cancelled: Option<nat>, docs: map<string, string>,
                 rev: map<string, string>)
      ensures this.ring == ring && this.docs == docs && this.rev == rev && counts == Counts(0, 0, 0, 0)
    {
      this.ring, this.nonces, this.cancelled := ring, nonces, cancelled;
      this.docs, this.rev, this.counts, this.draws := docs, rev, Counts(0, 0, 0, 0), 0;
    }

    function Get(b: BucketName): map<string, string>
      reads this
    {
      if b.Docs? then docs else rev
    }

    method Put(b: BucketName, k: string, v: string)
      modifies this`docs, this`rev
      ensures Get(b) == old(Get(b))[k := v]
      ensures Get(Other(b)) == old(Get(Other(b)))
    {
      if b.Docs? {
        docs := docs[k := v];
      } else {
        rev := rev[k := v];
      }
    }

    /** One entry: sealed afresh by the primary key when it is stale, opens and gets its nonce; failed
        when it is stale and does not; left alone otherwise. */
    method ProcessOne(b: BucketName, k: string) returns (rewrote: bool, failed: bool)
      requires Opens(ring)
      modifies this`docs, this`rev, this`draws
      ensures Get(Other(b)) == old(Get(Other(b)))
      ensures k !in old(Get(b)) ==> Get(b) == old(Get(b)) && draws == old(draws) && !rewrote && !failed
      ensures k in old(Get(b)) ==>
                var was, nonce := old(Get(b))[k], Draw(nonces, old(draws));
                && Get(b) == old(Get(b))[k := Outcome(ring, b, k, was, nonce)]
                && draws == old(draws) + (if Asks(ring, b, k, was) then 1 else 0)
                && (rewrote <==> Asks(ring, b, k, was) && nonce.Some?)
                && (failed <==> Needs(ring, b, k, was) && (Decrypt(ring, was).None? || nonce.None?))
      ensures k in old(Get(b)) ==>
                var was, nonce := old(Get(b))[k], Draw(nonces, old(draws));
                var due := CollectionAfter(Tag(b), k) != ""
                           && (Version(was) == 1 || (Version(was) == 2 && KeyID(was) != Some(ring.primaryID)));
                && (rewrote <==> due && Decrypt(ring, was).Some? && nonce.Some?)
                && (failed <==> due && !rewrote)
                && Get(b) == old(Get(b))[k := if rewrote then Seal(ring, nonce.value, Decrypt(ring, was).value)
                                              else was]
    {
      if k !in Get(b) {
        return false, false;
      }
      var val := Get(b)[k];
      assert Get(b)[k := val] == Get(b);
      var coll := ReadCollection(Tag(b), k);
      if coll == "" {
        return false, false;
      }
      var version := Version(val);
      if version == 0 {
        return false, false;
      }
      if version == 2 && KeyID(val) == Some(ring.primaryID) {
        return false, false;
      }
      var pt := Decrypt(ring, val);
      if pt.None? {
        return false, true;
      }
      var nonce := Draw(nonces, draws);
      draws := draws + 1;
      if nonce.None? {
        return false, true;
      }
      Put(b, k, Seal(ring, nonce.value, pt.value));
      return true, false;
    }

    /** One entry and its counters. */
    method VisitEntry(b: BucketName, k: string)
      requires Opens(ring) && k in Get(b)
      modifies this`docs, this`rev, this`draws, this`counts
      ensures Get(Other(b)) == old(Get(Other(b)))
      ensures Get(b) == old(Get(b))[k := Outcome(ring, b, k, old(Get(b))[k], Draw(nonces, old(draws)))]
      ensures draws == old(draws) + (if Asks(ring, b, k, old(Get(b))[k]) then 1 else 0)
      ensures counts == Bump(old(counts), KindOf(ring, b, k, old(Get(b))[k], Get(b)[k]))
      ensures AddsUp(old(counts)) ==> AddsUp(counts)
    {
      OutcomeKept(ring, b, k, Get(b)[k], Draw(nonces, draws));
      var rewrote, failed := ProcessOne(b, k);
      counts := counts.(scanned := counts.scanned + 1);
      if failed {
        counts := counts.(errors := counts.errors + 1);
      } else if rewrote {
        counts := counts.(reencrypted := counts.reencrypted + 1);
      } else {
        counts := counts.(skipped := counts.skipped + 1);
      }
    }

    method VisitNext(b: BucketName, k: string, ghost was: map<string, string>, ghost before: Counts, ghost from: nat,
                     ghost done: set<string>, ghost g0: Groups)
      returns (ghost g: Groups)
      requires Opens(ring) && k in was && k !in done
      requires Going(ring, b, nonces, was, Get(b), before, counts, from, draws, done, g0)
      modifies this`docs, this`rev, this`draws, this`counts
      ensures Get(Other(b)) == old(Get(Other(b)))
      ensures Going(ring, b, nonces, was, Get(b), before, counts, from, draws, done + {k}, g)
      ensures counts.scanned == old(counts).scanned + 1 && (AddsUp(old(counts)) ==> AddsUp(counts))
    {
      ghost var now, seen, drawn := Get(b), counts, draws;
      GoingOneMore(ring, b, nonces, was, now, before, seen, from, drawn, done, g0, k);
      VisitEntry(b, k);
      g := Add(g0, k, KindOf(ring, b, k, was[k], Get(b)[k]));
    }

    /** One pass over a bucket; it ends early exactly when it finds itself cancelled before an entry.
        The counters grow by the sizes of the groups the visited entries fall into. */
    method ProcessBucket(b: BucketName, only: string) returns (finished: bool, ghost done: set<string>, ghost g: Groups)
      requires Opens(ring)
      modifies this`docs, this`rev, this`draws, this`counts
      ensures Get(Other(b)) == old(Get(Other(b)))
      ensures done <= Visited(old(Get(b)), only) && (finished ==> done == Visited(old(Get(b)), only))
      ensures finished <==> Uncancelled(cancelled, old(counts).scanned, |Visited(old(Get(b)), only)|)
      ensures finished ==> counts.scanned == old(counts).scanned + |Visited(old(Get(b)), only)|
      ensures Going(ring, b, nonces, old(Get(b)), Get(b), old(counts), counts, old(draws), draws, done, g)
      ensures AddsUp(old(counts)) ==> AddsUp(counts)
    {
      var ks := InOrder(Visited(Get(b), only));
      assert Elements(ks) == Visited(Get(b), only);
      finished, done, g := VisitEach(b, ks);
    }

    method VisitEach(b: BucketName, ks: seq<string>) returns (finished: bool, ghost done: set<string>, ghost g: Groups)
      requires Opens(ring) && Ascending(ks) && Elements(ks) <= Get(b).Keys
      modifies this`docs, this`rev, this`draws, this`counts
      ensures Get(Other(b)) == old(Get(Other(b)))
      ensures done <= Elements(ks) && (finished ==> done == Elements(ks))
      ensures finished <==> Uncancelled(cancelled, old(counts).scanned, |ks|)
      ensures finished ==> counts.scanned == old(counts).scanned + |ks|
      ensures Going(ring, b, nonces, old(Get(b)), Get(b), old(counts), counts, old(draws), draws, done, g)
      ensures AddsUp(old(counts)) ==> AddsUp(counts)
    {
      ghost var was, before, from := Get(b), counts, draws;
      done, g := {}, NOBODY;
      for i := 0 to |ks|
        invariant Get(Other(b)) == old(Get(Other(b)))
        invariant done == Elements(ks[..i]) && done <= Elements(ks)
        invariant Going(ring, b, nonces, was, Get(b), before, counts, from, draws, done, g)
        invariant counts.scanned == before.scanned + i && Uncancelled(cancelled, before.scanned, i)
        invariant AddsUp(before) ==> AddsUp(counts)
      {
        ElementsOneMore(ks, i);
        UncancelledNext(cancelled, before.scanned, i);
        if CancelledAt(cancelled, counts.scanned) {
          return false, done, g;
        }
        g := VisitNext(b, ks[i], was, before, from, done, g);
        done := done + {ks[i]};
      }
      assert ks[..|ks|] == ks;
      finished := true;
    }

    /** Nothing a pass would visit is stale. */
    ghost predicate Settled(only: string)
      reads this
    {
      AllSettled(ring, Docs, docs, Visited(docs, only)) && AllSettled(ring, Rev, rev, Visited(rev, only))
    }

    /** Stale entries that a job would visit all open. */
    ghost predicate Openable(only: string)
      reads this
    {
      AllOpen(ring, Docs, docs, Visited(docs, only)) && AllOpen(ring, Rev, rev, Visited(rev, only))
    }

    /** How many nonces a whole job asks for. */
    function Demand(only: string): nat
      reads this
    {
      |Asking(ring, Docs, docs, Visited(docs, only))| + |Asking(ring, Rev, rev, Visited(rev, only))|
    }

    /** How many entries a whole job visits. */
    function Load(only: string): nat
      reads this
    {
      |Visited(docs, only)| + |Visited(rev, only)|
    }

    /** A whole job: documents, then revisions. Every plaintext is kept and bytes change only in stale
        entries. It finishes exactly when it is not cancelled before one of its entries, and then it
        leaves nothing stale exactly when every stale entry opens and every nonce it asks for comes;
        that is when it counts no error. Over a settled store it rewrites nothing. */
    method ProcessBuckets(only: string) returns (finished: bool)
      requires Opens(ring)
      modifies this`docs, this`rev, this`draws, this`counts
      ensures SamePlaintexts(ring, Docs, old(docs), docs, Visited(old(docs), only))
      ensures SamePlaintexts(ring, Rev, old(rev), rev, Visited(old(rev), only))
      ensures AddsUp(old(counts)) ==> AddsUp(counts)
      ensures finished <==> Uncancelled(cancelled, old(counts).scanned, old(Load(only)))
      ensures finished ==>
                (Settled(only) <==> old(Openable(only)) && Drawn(nonces, old(draws), old(draws) + old(Demand(only))))
      ensures finished ==> (Settled(only) <==> counts.errors == old(counts).errors)
      ensures finished && (forall n: nat :: n in nonces) ==>
                && Renewed(ring, "doc|", Visited(old(docs), only), old(docs), docs)
                && Renewed(ring, "rev|", Visited(old(rev), only), old(rev), rev)
                && counts.reencrypted == old(counts).reencrypted
                   + |Due(ring, "doc|", Visited(old(docs), only), old(docs))|
                   + |Due(ring, "rev|", Visited(old(rev), only), old(rev))|
      ensures old(Settled(only)) ==>
                && docs == old(docs) && rev == old(rev)
                && counts.reencrypted == old(counts).reencrypted && counts.errors == old(counts).errors
    {
      ghost var docs0, rev0, counts0, from := docs, rev, counts, draws;
      finished := ProcessSettling(Docs, only);
      assert Get(Rev) == rev == rev0;
      UncancelledJoined(cancelled, counts0.scanned, |Visited(docs0, only)|, |Visited(rev0, only)|);
      if !finished {
        SameIsKept(ring, Rev, rev, Visited(rev, only));
        return;
      }
      ghost var docs1, counts1, middle := docs, counts, draws;
      finished := ProcessSettling(Rev, only);
      assert Get(Docs) == docs == docs1;
      DrawnJoined(nonces, from, middle, draws);
      if forall n: nat :: n in nonces {
        assert Drawn(nonces, from, draws);
      }
    }

    method ProcessSettling(b: BucketName, only: string) returns (finished: bool)
      requires Opens(ring)
      modifies this`docs, this`rev, this`draws, this`counts
      ensures Get(Other(b)) == old(Get(Other(b)))
      ensures finished <==> Uncancelled(cancelled, old(counts).scanned, |Visited(old(Get(b)), only)|)
      ensures Settling(ring, b, nonces, Visited(old(Get(b)), only), old(Get(b)), Get(b), old(counts), counts,
          old(draws), draws, finished)
      ensures Visited(Get(b), only) == Visited(old(Get(b)), only) && (AddsUp(old(counts)) ==> AddsUp(counts))
    {
      ghost var was, before, from := Get(b), counts, draws;
      ghost var done, g;
      finished, done, g := ProcessBucket(b, only);
      PassSettles(ring, b, nonces, Visited(was, only), was, Get(b), before, counts, from, draws, finished, done, g);
    }
  }

  /** Recognised envelopes that the primary key did not seal, in a collection, and that open. */
  ghost function Due(ring: Ring, tag: string, ks: set<string>, bucket: map<string, string>): set<string> {
    set k | k in ks && k in bucket && CollectionAfter(tag, k) != "" && Decrypt(ring, bucket[k]).Some?
            && (Version(bucket[k]) == 1 || (Version(bucket[k]) == 2 && KeyID(bucket[k]) != Some(ring.primaryID)))
  }

  /** What was due names the primary key now and opens to the same without any previous key; and every
      entry with a collection is plain, or names the primary key, or is what it was and has never opened. */
  ghost predicate Renewed(ring: Ring, tag: string, ks: set<string>, was: map<string, string>,
                          now: map<string, string>)
  {
    && ks <= was.Keys && now.Keys == was.Keys
    && (forall k | k in Due(ring, tag, ks, was) ::
          && Version(now[k]) == 2 && KeyID(now[k]) == Some(ring.primaryID)
          && Decrypt(Bare(ring), now[k]) == Decrypt(ring, was[k]))
    && (forall k | k in ks && CollectionAfter(tag, k) != "" ::
          || Version(now[k]) == 0 || (Version(now[k]) == 2 && KeyID(now[k]) == Some(ring.primaryID))
          || (now[k] == was[k] && Decrypt(ring, was[k]).None?))
  }

  lemma PassRenews(ring: Ring, b: BucketName, ks: set<string>, was: map<string, string>, now: map<string, string>,
                   g: Groups)
    requires Passed(ring, b, was, now, ks, g) && g.undrawn == {}
    ensures Renewed(ring, Tag(b), ks, was, now) && Due(ring, Tag(b), ks, was) == g.rewritten
  {
    GroupsTell(ring, b, was, now, ks, g);
    assert Due(ring, Tag(b), ks, was) == Asking(ring, b, was, ks);
    forall k | k in ks
      ensures k in g.rewritten ==> SealedByPrimary(ring, now[k])
      ensures k in g.rewritten ==> Decrypt(Bare(ring), now[k]) == Decrypt(ring, was[k])
      ensures k !in g.rewritten ==> now[k] == was[k]
    {
      assert EntryPassed(ring, b, k, was[k], now[k], g);
      if k in g.rewritten {
        PrimaryIsEnough(ring, now[k]);
      }
    }
  }

  /** What a pass over the entries `ks` of one bucket leaves, when it finishes and when it does not. */
  ghost predicate Settling(ring: Ring, b: BucketName, nonces: imap<nat, Nonce>, ks: set<string>,
                           was: map<string, string>, now: map<string, string>,
                           before: Counts, after: Counts, from: nat, to: nat, finished: bool)
  {
    && SamePlaintexts(ring, b, was, now, ks)
    && after.errors >= before.errors && after.reencrypted >= before.reencrypted && to >= from
    && (finished ==>
          && after.scanned == before.scanned + |ks|
          && to == from + |Asking(ring, b, was, ks)|
          && (AllSettled(ring, b, now, ks) <==> after.errors == before.errors)
          && (AllSettled(ring, b, now, ks) <==> AllOpen(ring, b, was, ks) && Drawn(nonces, from, to)))
    && (finished && Drawn(nonces, from, to) ==>
          && Renewed(ring, Tag(b), ks, was, now)
          && after.reencrypted == before.reencrypted + |Due(ring, Tag(b), ks, was)|)
    && (AllSettled(ring, b, was, ks) ==>
          now == was && after.reencrypted == before.reencrypted && after.errors == before.errors)
  }

  lemma PassSettles(ring: Ring, b: BucketName, nonces: imap<nat, Nonce>, ks: set<string>,
                    was: map<string, string>, now: map<string, string>,
                    before: Counts, after: Counts, from: nat, to: nat, finished: bool, done: set<string>, g: Groups)
    requires Going(ring, b, nonces, was, now, before, after, from, to, done, g)
    requires done <= ks <= was.Keys && (finished ==> done == ks)
    ensures Settling(ring, b, nonces, ks, was, now, before, after, from, to, finished)
  {
    PassKeepsPlaintexts(ring, b, was, now, done, g);
    GroupsTell(ring, b, was, now, done, g);
    GroupsPartition(ring, b, was, now, done, g);
    if AllSettled(ring, b, was, ks) {
      SettledPassIsIdle(ring, b, was, now, done, g);
    }
    if finished && Drawn(nonces, from, to) {
      PassRenews(ring, b, ks, was, now, g);
    }
  }

  lemma SameIsKept(ring: Ring, b: BucketName, bucket: map<string, string>, ks: set<string>)
    ensures SamePlaintexts(ring, b, bucket, bucket, ks)
  {
  }

  /** The context is not cancelled before any of `count` entries from the first number on. */
  ghost predicate Uncancelled(cancelled: Option<nat>, from: nat, count: nat) {
    forall n | from <= n < from + count :: !CancelledAt(cancelled, n)
  }

  lemma UncancelledNext(cancelled: Option<nat>, from: nat, count: nat)
    ensures Uncancelled(cancelled, from, count + 1)
            <==> Uncancelled(cancelled, from, count) && !CancelledAt(cancelled, from + count)
  {
  }

  lemma UncancelledJoined(cancelled: Option<nat>, from: nat, first: nat, second: nat)
    ensures Uncancelled(cancelled, from, first + second)
            <==> Uncancelled(cancelled, from, first) && Uncancelled(cancelled, from + first, second)
  {
  }

  ghost function Elements(ks: seq<string>): set<string> { set k | k in ks }

  lemma ElementsOneMore(ks: seq<string>, i: nat)
    requires Ascending(ks) && i < |ks|
    ensures ks[i] in ks && ks[i] !in Elements(ks[..i]) && Elements(ks[..i + 1]) == Elements(ks[..i]) + {ks[i]}
    ensures forall k | k in ks[..i] :: k in ks
  {
    assert ks[..i + 1] == ks[..i] + [ks[i]];
    if ks[i] in ks[..i] {
      var j :| 0 <= j < i && ks[j] == ks[i];
      LessAsymmetric(ks[j], ks[i]);
    }
  }
}
