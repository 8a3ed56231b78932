/** Reading through the metadata index: filtered search (services/mddbd/http_handlers.go) and
    facets (services/mddbd/aggregation.go) against what a scan of the documents would give. */
module Search {
  import opened ByteStrings
  import opened Keys
  import opened Store
  import opened Indexes

  type Filter = map<string, seq<string>>

  /** The document has, for every key of the filter, one of the values asked for. */
  ghost predicate Matches(d: Doc, filter: Filter) {
    forall mk | mk in filter :: exists mv :: mv in filter[mk] && HasPair(d.meta, mk, mv)
  }

  /** The documents of a collection that a scan with this filter returns. */
  ghost predicate Scanned(s: Buckets, coll: string, filter: Filter, now: Time, dk: string) {
    dk in CollectionKeys(s, coll) && Matches(s.docs[dk], filter) && !Expired(s.docs[dk], now)
  }

  ghost predicate PlainFilter(filter: Filter) { PlainMeta(filter) }

  /** A store with an exact index, and pipe-free names, or else pipe-free metadata and filter. */
  ghost predicate Readable(s: Buckets, coll: string, filter: Filter) {
    WellNamed(s) && IndexExact(s) && Plain(coll) && (PlainlyNamed(s) || (WellTagged(s) && PlainFilter(filter)))
  }

  // ---- what an index key says -----------------------------------------------------------------

  lemma OnePipe(x: string, y: string, a: string, b: string)
    requires Plain(a) && Plain(b) && x + "|" + y == a + "|" + b
    ensures x == a && y == b
  {
    var l, r := x + "|" + y, a + "|" + b;
    assert l[|x|] == '|' && r[|x|] == '|';
    assert |x| == |a|;
    assert x == l[..|x|] && a == r[..|a|] && y == l[|x| + 1..] && b == r[|a| + 1..];
  }

  /** Some pair of the metadata, with a pipe between, reads as the pair asked for. */
  ghost predicate Shows(meta: Meta, mk: string, mv: string) {
    exists k, v :: HasPair(meta, k, v) && Joined(k, v) == Joined(mk, mv)
  }

  /** Without pipes on either side only the pair itself does. */
  lemma ShowsPlainly(meta: Meta, mk: string, mv: string)
    requires PlainMeta(meta) || (Plain(mk) && Plain(mv))
    ensures Shows(meta, mk, mv) <==> HasPair(meta, mk, mv)
  {
    if k, v :| HasPair(meta, k, v) && Joined(k, v) == Joined(mk, mv) {
      if Plain(mk) && Plain(mv) {
        OnePipe(k, v, mk, mv);
      } else {
        OnePipe(mk, mv, k, v);
      }
    }
  }

  /** With plain ids a key tells its document, and its pair up to where the pipe between them is. */
  lemma PairOfKey(c1: string, k1: string, v1: string, id1: string, c2: string, k2: string, v2: string, id2: string)
    requires Plain(c1) && Plain(c2) && PlainID(id1) && PlainID(id2)
    requires MetaKey(c1, k1, v1, id1) == MetaKey(c2, k2, v2, id2)
    ensures c1 == c2 && id1 == id2 && Joined(k1, v1) == Joined(k2, v2)
  {
    MetaKeyOwner(c1, k1, v1, id1, c2, k2, v2, id2);
    MetaKeyForm(c1, k1, v1, id1);
    MetaKeyForm(c2, k2, v2, id2);
    var x, y := Joined(k1, v1) + "|" + id1, Joined(k2, v2) + "|" + id2;
    SameHeads("meta|", c1, x, c2, y);
    assert Joined(k1, v1) == x[..|x| - |id1| - 1] && Joined(k2, v2) == y[..|y| - |id2| - 1];
  }

  lemma SameJoinedSameKey(coll: string, k1: string, v1: string, k2: string, v2: string, id: string)
    requires Joined(k1, v1) == Joined(k2, v2)
    ensures MetaKey(coll, k1, v1, id) == MetaKey(coll, k2, v2, id)
  {
    assert MetaKey(coll, k1, v1, id) == "meta|" + coll + "|" + Joined(k1, v1) + "|" + id;
    assert MetaKey(coll, k2, v2, id) == "meta|" + coll + "|" + Joined(k2, v2) + "|" + id;
  }

  /** The index has a pair's key for a stored document exactly when its metadata show the pair. */
  lemma IndexTells(s: Buckets, coll: string, mk: string, mv: string, id: string)
    requires WellNamed(s) && IndexExact(s) && Plain(coll) && DocKey(coll, id) in s.docs
    requires PlainlyNamed(s) || (WellTagged(s) && Plain(mk) && Plain(mv))
    ensures MetaKey(coll, mk, mv, id) in s.idx <==> Shows(s.docs[DocKey(coll, id)].meta, mk, mv)
  {
    var dk, key := DocKey(coll, id), MetaKey(coll, mk, mv, id);
    StoredUnderID(s, coll, id);
    if k, v :| HasPair(s.docs[dk].meta, k, v) && Joined(k, v) == Joined(mk, mv) {
      SameJoinedSameKey(coll, k, v, mk, mv, id);
      assert key in KeysOwned(s.docs, dk);
    }
    if key in s.idx {
      var x :| x in s.docs && key in KeysOwned(s.docs, x);
      PairOwned(s, coll, mk, mv, id, x);
    }
  }

  lemma PairOwned(s: Buckets, coll: string, mk: string, mv: string, id: string, x: string)
    requires WellNamed(s) && Plain(coll) && DocKey(coll, id) in s.docs && x in s.docs
    requires PlainlyNamed(s) || (WellTagged(s) && Plain(mk) && Plain(mv))
    requires MetaKey(coll, mk, mv, id) in KeysOwned(s.docs, x)
    ensures x == DocKey(coll, id) && Shows(s.docs[x].meta, mk, mv)
  {
    var d := s.docs[x];
    var k, v :| k in d.meta && v in d.meta[k] && MetaKey(coll, mk, mv, id) == MetaKey(CollOf(x), k, v, d.id);
    assert NamedRight(x, d) && HasPair(d.meta, k, v);
    if PlainlyNamed(s) {
      StoredUnderID(s, coll, id);
      NamedPlainly(s, DocKey(coll, id));
      NamedPlainly(s, x);
      PairOfKey(coll, mk, mv, id, CollOf(x), k, v, d.id);
    } else {
      assert PlainMeta(d.meta);
      MetaKeyInjective(coll, mk, mv, id, CollOf(x), k, v, d.id);
    }
  }

  lemma NamedPlainly(s: Buckets, x: string)
    requires WellNamed(s) && PlainlyNamed(s) && x in s.docs
    ensures PlainID(s.docs[x].id)
  {
    assert NamedRight(x, s.docs[x]);
    assert Plain(CollOf(x)) && Plain(s.docs[x].key) && Plain(s.docs[x].lang);
  }

  // ---- the ids a filter selects ------------------------------------------------------------------

  /** The index has the id under one of the values. */
  ghost predicate Listed(idx: set<string>, coll: string, mk: string, mvals: seq<string>, id: string) {
    exists mv :: mv in mvals && MetaKey(coll, mk, mv, id) in idx
  }

  ghost predicate Selected(idx: set<string>, coll: string, filter: Filter, id: string) {
    forall mk | mk in filter :: Listed(idx, coll, mk, filter[mk], id)
  }

  /** For every key of the filter the metadata show one of the values asked for. */
  ghost predicate Seems(d: Doc, filter: Filter) {
    forall mk | mk in filter :: exists mv :: mv in filter[mk] && Shows(d.meta, mk, mv)
  }

  /** What matches seems to, and without pipes in the metadata or in the filter nothing else does. */
  lemma SeemsIffMatches(d: Doc, filter: Filter)
    ensures Matches(d, filter) ==> Seems(d, filter)
    ensures PlainMeta(d.meta) || PlainFilter(filter) ==> (Seems(d, filter) <==> Matches(d, filter))
  {
    forall mk, mv | mk in filter && mv in filter[mk]
      ensures HasPair(d.meta, mk, mv) ==> Shows(d.meta, mk, mv)
      ensures PlainMeta(d.meta) || PlainFilter(filter) ==> (Shows(d.meta, mk, mv) <==> HasPair(d.meta, mk, mv))
    {
      if PlainMeta(d.meta) || PlainFilter(filter) {
        ShowsPlainly(d.meta, mk, mv);
      }
    }
    if Matches(d, filter) {
      forall mk | mk in filter ensures exists mv :: mv in filter[mk] && Shows(d.meta, mk, mv) {
        var mv :| mv in filter[mk] && HasPair(d.meta, mk, mv);
        assert Shows(d.meta, mk, mv);
      }
    }
    if (PlainMeta(d.meta) || PlainFilter(filter)) && Seems(d, filter) {
      forall mk | mk in filter ensures exists mv :: mv in filter[mk] && HasPair(d.meta, mk, mv) {
        var mv :| mv in filter[mk] && Shows(d.meta, mk, mv);
        assert HasPair(d.meta, mk, mv);
      }
    }
  }

  /** The index selects the stored documents that seem to match. */
  lemma SelectedIsSeeming(s: Buckets, coll: string, filter: Filter, id: string)
    requires Readable(s, coll, filter) && DocKey(coll, id) in s.docs
    ensures Selected(s.idx, coll, filter, id) <==> Seems(s.docs[DocKey(coll, id)], filter)
  {
    forall mk, mv | mk in filter && mv in filter[mk]
      ensures MetaKey(coll, mk, mv, id) in s.idx <==> Shows(s.docs[DocKey(coll, id)].meta, mk, mv)
    {
      IndexTells(s, coll, mk, mv, id);
    }
    var d := s.docs[DocKey(coll, id)];
    if Selected(s.idx, coll, filter, id) {
      forall mk | mk in filter ensures exists mv :: mv in filter[mk] && Shows(d.meta, mk, mv) {
        assert Listed(s.idx, coll, mk, filter[mk], id);
        var mv :| mv in filter[mk] && MetaKey(coll, mk, mv, id) in s.idx;
        assert Shows(d.meta, mk, mv);
      }
    }
    if Seems(d, filter) {
      forall mk | mk in filter ensures Listed(s.idx, coll, mk, filter[mk], id) {
        var mv :| mv in filter[mk] && Shows(d.meta, mk, mv);
        assert MetaKey(coll, mk, mv, id) in s.idx;
      }
    }
  }

  predicate NoRepeats<T(==)>(xs: seq<T>) {
    forall i, j | 0 <= i < j < |xs| :: xs[i] != xs[j]
  }

  /** First occurrences, in order. */
  method Unique(xs: seq<string>) returns (out: seq<string>)
    ensures NoRepeats(out) && forall x :: x in out <==> x in xs
  {
    out := [];
    var seen: set<string> := {};
    for i := 0 to |xs|
      invariant NoRepeats(out)
      invariant forall x :: x in out <==> x in xs[..i]
      invariant forall x :: x in seen <==> x in out
    {
      assert xs[..i + 1] == xs[..i] + [xs[i]];
      if xs[i] !in seen {
        seen := seen + {xs[i]};
        out := out + [xs[i]];
      }
    }
    assert xs[..|xs|] == xs;
  }

  /** Cursor scans under one metadata key: the ids listed under any of the values. */
  method IdsUnder(idx: set<string>, coll: string, mk: string, mvals: seq<string>) returns (ids: seq<string>)
    ensures forall id :: id in ids <==> Listed(idx, coll, mk, mvals, id)
  {
    ids := [];
    for i := 0 to |mvals|
      invariant forall id :: id in ids <==> Listed(idx, coll, mk, mvals[..i], id)
    {
      var more := IdsOfValue(idx, coll, mk, mvals[i]);
      forall id ensures id in ids + more <==> Listed(idx, coll, mk, mvals[..i + 1], id) {
        assert mvals[..i + 1] == mvals[..i] + [mvals[i]];
        if id in more {
          assert mvals[i] in mvals[..i + 1];
        }
        if id in ids {
          var mv :| mv in mvals[..i] && MetaKey(coll, mk, mv, id) in idx;
          assert mv in mvals[..i + 1];
        }
      }
      ids := ids + more;
    }
    assert mvals[..|mvals|] == mvals;
  }

  function KeysWith(idx: set<string>, prefix: string): set<string> {
    set k | k in idx && prefix <= k
  }

  method IdsOfValue(idx: set<string>, coll: string, mk: string, mv: string) returns (ids: seq<string>)
    ensures forall id :: id in ids <==> MetaKey(coll, mk, mv, id) in idx
  {
    var prefix := MetaPrefix(coll, mk, mv);
    var ks := InOrder(KeysWith(idx, prefix));
    AllWith(idx, prefix, ks);
    ids := [];
    for i := 0 to |ks|
      invariant |ids| == i && forall j | 0 <= j < i :: ks[j] == prefix + ids[j]
    {
      ids := ids + [ks[i][|prefix|..]];
    }
    forall id ensures id in ids <==> MetaKey(coll, mk, mv, id) in idx {
      CutKeys(idx, prefix, ks, ids, id);
    }
  }

  lemma AllWith(idx: set<string>, prefix: string, ks: seq<string>)
    requires forall k :: k in ks <==> k in KeysWith(idx, prefix)
    ensures forall j | 0 <= j < |ks| :: prefix <= ks[j]
  {
    forall j | 0 <= j < |ks| ensures prefix <= ks[j] {
      assert ks[j] in ks;
    }
  }

  lemma CutKeys(idx: set<string>, prefix: string, ks: seq<string>, ids: seq<string>, id: string)
    requires forall k :: k in ks <==> k in KeysWith(idx, prefix)
    requires |ids| == |ks| && forall j | 0 <= j < |ks| :: ks[j] == prefix + ids[j]
    ensures id in ids <==> prefix + id in idx
  {
    if prefix + id in idx {
      assert prefix + id in ks;
      var j :| 0 <= j < |ks| && ks[j] == prefix + id;
      assert ids[j] == ks[j][|prefix|..] == id;
    }
    if id in ids {
      var j :| 0 <= j < |ids| && ids[j] == id;
      assert ks[j] in ks;
    }
  }

  /** Ids that occur in every list, by counting; the lists do not repeat ids. */
  method Intersect(sets: seq<seq<string>>) returns (out: seq<string>)
    requires forall i | 0 <= i < |sets| :: NoRepeats(sets[i])
    ensures NoRepeats(out)
    ensures sets == [] ==> out == []
    ensures sets != [] ==> forall id :: id in out <==> forall i | 0 <= i < |sets| :: id in sets[i]
  {
    if |sets| == 0 {
      return [];
    }
    var m: map<string, nat> := map[];
    for i := 0 to |sets|
      invariant forall id | id in m :: m[id] <= i
      invariant forall id :: (if id in m then m[id] else 0) == i <==> InAll(sets[..i], id)
    {
      ghost var before := m;
      m := CountIn(m, sets[i]);
      assert sets[..i + 1] == sets[..i] + [sets[i]];
      forall id ensures (if id in m then m[id] else 0) == i + 1 <==> InAll(sets[..i + 1], id) {
        assert (if id in before then before[id] else 0) == i <==> InAll(sets[..i], id);
        InAllOneMore(sets[..i], sets[i], id);
      }
    }
    assert sets[..|sets|] == sets;
    out := [];
    var todo := m.Keys;
    while todo != {}
      invariant todo <= m.Keys && NoRepeats(out)
      invariant forall id :: id in out <==> id in m && id !in todo && m[id] == |sets|
      decreases |todo|
    {
      var id :| id in todo;
      if m[id] == |sets| {
        out := out + [id];
      }
      todo := todo - {id};
    }
    forall id ensures id in out <==> InAll(sets, id) {
      assert (if id in m then m[id] else 0) == |sets| <==> InAll(sets, id);
    }
  }

  ghost predicate InAll(sets: seq<seq<string>>, id: string) {
    forall i | 0 <= i < |sets| :: id in sets[i]
  }

  lemma InAllOneMore(sets: seq<seq<string>>, last: seq<string>, id: string)
    ensures InAll(sets + [last], id) <==> InAll(sets, id) && id in last
  {
    if InAll(sets + [last], id) {
      forall i | 0 <= i < |sets| ensures id in sets[i] {
        assert (sets + [last])[i] == sets[i];
      }
      assert (sets + [last])[|sets|] == last;
    }
  }

  method CountIn(m: map<string, nat>, ids: seq<string>) returns (r: map<string, nat>)
    requires NoRepeats(ids)
    ensures forall id :: (if id in r then r[id] else 0) == (if id in m then m[id] else 0) + if id in ids then 1 else 0
    ensures forall id :: id in r <==> id in m || id in ids
  {
    r := m;
    for i := 0 to |ids|
      invariant forall id ::
                (if id in r then r[id] else 0) == (if id in m then m[id] else 0) + if id in ids[..i] then 1 else 0
      invariant forall id :: id in r <==> id in m || id in ids[..i]
    {
      assert ids[..i + 1] == ids[..i] + [ids[i]];
      assert ids[i] !in ids[..i];
      r := r[ids[i] := (if ids[i] in r then r[ids[i]] else 0) + 1];
    }
    assert ids[..|ids|] == ids;
  }

  /** The ids the whole filter selects: a union over values, an intersection over keys. */
  method FilterIds(idx: set<string>, coll: string, filter: Filter) returns (ids: seq<string>)
    requires |filter| > 0
    ensures NoRepeats(ids) && forall id :: id in ids <==> Selected(idx, coll, filter, id)
  {
    var sets: seq<seq<string>> := [];
    ghost var mks: seq<string> := [];
    var todo := filter.Keys;
    while todo != {}
      invariant todo <= filter.Keys && |mks| == |sets|
      invariant forall mk :: mk in mks <==> mk in filter.Keys - todo
      invariant forall i | 0 <= i < |sets| :: NoRepeats(sets[i])
      invariant forall i, id | 0 <= i < |sets| ::
                  id in sets[i] <==> mks[i] in filter && Listed(idx, coll, mks[i], filter[mks[i]], id)
      decreases |todo|
    {
      var mk :| mk in todo;
      var raw := IdsUnder(idx, coll, mk, filter[mk]);
      var uniq := Unique(raw);
      sets, mks := sets + [uniq], mks + [mk];
      todo := todo - {mk};
    }
    ids := Intersect(sets);
    assert mks != [] by {
      var mk :| mk in filter;
      assert mk in mks;
    }
    forall id ensures (forall i | 0 <= i < |sets| :: id in sets[i]) <==> Selected(idx, coll, filter, id) {
      if forall i | 0 <= i < |sets| :: id in sets[i] {
        forall mk | mk in filter ensures Listed(idx, coll, mk, filter[mk], id) {
          assert mk in mks;
          var i :| 0 <= i < |mks| && mks[i] == mk;
          assert id in sets[i];
        }
      }
      if Selected(idx, coll, filter, id) {
        forall i | 0 <= i < |sets| ensures id in sets[i] {
          assert mks[i] in mks;
        }
      }
    }
  }

  // ---- search --------------------------------------------------------------------------------------

  /** The search: a scan without a filter, the index with one. In any store it returns what the
      index says. In a readable one that is, each once, the unexpired documents that seem to match,
      and these are what a filtered scan returns exactly when each of them matches. */
  method SearchDocuments(s: Buckets, coll: string, filter: Filter, now: Time) returns (rows: seq<Doc>)
    ensures forall d :: d in rows <==> Answered(s, coll, filter, now, d)
    ensures Readable(s, coll, filter) ==> NoRepeats(rows) && forall d :: d in rows <==> Shown(s, coll, filter, now, d)
    ensures Readable(s, coll, filter) ==>
              ((forall d :: d in rows <==> Returned(s, coll, filter, now, d))
               <==> !exists dk :: OnlySeems(s, coll, filter, now, dk))
    ensures forall d | d in rows :: d.expiresAt <= 0 || now <= d.expiresAt
    ensures |filter| == 0 || Readable(s, coll, filter) ==>
              forall dk | dk in s.docs && DocPrefix(coll) <= dk ::
                s.docs[dk] in rows
                <==> Seems(s.docs[dk], filter) && (s.docs[dk].expiresAt <= 0 || now <= s.docs[dk].expiresAt)
  {
    if |filter| == 0 {
      rows := ScanAll(s, coll, now);
      forall d ensures d in rows <==> Shown(s, coll, filter, now, d) {
        NoFilterShows(s, coll, filter, now, d);
      }
    } else {
      var ids := FilterIds(s.idx, coll, filter);
      rows := LoadIds(s, coll, ids, now);
      forall d ensures d in rows <==> Answered(s, coll, filter, now, d) {
        LoadedIsAnswered(s, coll, filter, ids, now, d);
      }
      if Readable(s, coll, filter) {
        forall d ensures d in rows <==> Shown(s, coll, filter, now, d) {
          LoadedIsShown(s, coll, filter, ids, now, d);
        }
      }
    }
    if Readable(s, coll, filter) {
      SearchIsScanIff(s, coll, filter, now, rows);
    }
    if |filter| == 0 || Readable(s, coll, filter) {
      RowsAreAlive(s, coll, filter, now, rows);
    }
  }

  /** A document of the collection is a row as long as it seems to match and has not expired. */
  lemma RowsAreAlive(s: Buckets, coll: string, filter: Filter, now: Time, rows: seq<Doc>)
    requires forall d :: d in rows <==> Shown(s, coll, filter, now, d)
    ensures forall dk | dk in s.docs && DocPrefix(coll) <= dk ::
              s.docs[dk] in rows
              <==> Seems(s.docs[dk], filter) && (s.docs[dk].expiresAt <= 0 || now <= s.docs[dk].expiresAt)
  {
    forall dk | dk in s.docs && DocPrefix(coll) <= dk
      ensures s.docs[dk] in rows
              <==> Seems(s.docs[dk], filter) && (s.docs[dk].expiresAt <= 0 || now <= s.docs[dk].expiresAt)
    {
      if Seems(s.docs[dk], filter) && (s.docs[dk].expiresAt <= 0 || now <= s.docs[dk].expiresAt) {
        assert ShownAt(s, coll, filter, now, dk);
      }
    }
  }

  /** A document that the search shows although it does not match. */
  ghost predicate OnlySeems(s: Buckets, coll: string, filter: Filter, now: Time, dk: string) {
    ShownAt(s, coll, filter, now, dk) && !Matches(s.docs[dk], filter)
  }

  ghost predicate ShownAt(s: Buckets, coll: string, filter: Filter, now: Time, dk: string) {
    dk in CollectionKeys(s, coll) && Seems(s.docs[dk], filter) && !Expired(s.docs[dk], now)
  }

  ghost predicate Shown(s: Buckets, coll: string, filter: Filter, now: Time, d: Doc) {
    exists dk :: ShownAt(s, coll, filter, now, dk) && d == s.docs[dk]
  }

  lemma SearchIsScanIff(s: Buckets, coll: string, filter: Filter, now: Time, rows: seq<Doc>)
    requires forall d :: d in rows <==> Shown(s, coll, filter, now, d)
    ensures (forall d :: d in rows <==> Returned(s, coll, filter, now, d))
            <==> !exists dk :: OnlySeems(s, coll, filter, now, dk)
  {
    forall dk | dk in s.docs ensures Matches(s.docs[dk], filter) ==> Seems(s.docs[dk], filter) {
      SeemsIffMatches(s.docs[dk], filter);
    }
    forall d ensures Returned(s, coll, filter, now, d) ==> Shown(s, coll, filter, now, d) {
      if dk :| Scanned(s, coll, filter, now, dk) && d == s.docs[dk] {
        assert ShownAt(s, coll, filter, now, dk);
      }
    }
    if dk :| OnlySeems(s, coll, filter, now, dk) {
      assert Shown(s, coll, filter, now, s.docs[dk]) && !Returned(s, coll, filter, now, s.docs[dk]);
    } else {
      forall d | Shown(s, coll, filter, now, d) ensures Returned(s, coll, filter, now, d) {
        var dk :| ShownAt(s, coll, filter, now, dk) && d == s.docs[dk];
        assert !OnlySeems(s, coll, filter, now, dk) && Scanned(s, coll, filter, now, dk);
      }
    }
  }

  /** Without pipes in the stored metadata or in the filter search and scan agree. */
  lemma PlainSearchIsScan(s: Buckets, coll: string, filter: Filter, now: Time, dk: string)
    requires WellTagged(s) || PlainFilter(filter)
    ensures !OnlySeems(s, coll, filter, now, dk)
  {
    if dk in s.docs {
      SeemsIffMatches(s.docs[dk], filter);
    }
  }

  /** What the program looks at: documents of the collection, or those the index selects. */
  ghost predicate Answered(s: Buckets, coll: string, filter: Filter, now: Time, d: Doc) {
    if |filter| == 0 then Present(s, coll, now, d)
    else exists id :: Selected(s.idx, coll, filter, id) && LoadedAs(s, coll, id, now, d)
  }

  lemma LoadedIsAnswered(s: Buckets, coll: string, filter: Filter, ids: seq<string>, now: Time, d: Doc)
    requires |filter| > 0 && forall id :: id in ids <==> Selected(s.idx, coll, filter, id)
    ensures Loaded(s, coll, ids, now, d) <==> Answered(s, coll, filter, now, d)
  {
    if Loaded(s, coll, ids, now, d) {
      var id :| id in ids && LoadedAs(s, coll, id, now, d);
      assert Selected(s.idx, coll, filter, id);
    }
  }

  ghost predicate Returned(s: Buckets, coll: string, filter: Filter, now: Time, d: Doc) {
    exists dk :: Scanned(s, coll, filter, now, dk) && d == s.docs[dk]
  }

  ghost predicate Present(s: Buckets, coll: string, now: Time, d: Doc) {
    exists dk :: dk in CollectionKeys(s, coll) && d == s.docs[dk] && !Expired(d, now)
  }

  lemma NoFilterShows(s: Buckets, coll: string, filter: Filter, now: Time, d: Doc)
    requires |filter| == 0
    ensures Present(s, coll, now, d) <==> Shown(s, coll, filter, now, d)
  {
    if dk :| dk in CollectionKeys(s, coll) && d == s.docs[dk] && !Expired(d, now) {
      assert ShownAt(s, coll, filter, now, dk);
    }
  }

  ghost predicate LoadedAs(s: Buckets, coll: string, id: string, now: Time, d: Doc) {
    DocKey(coll, id) in s.docs && d == s.docs[DocKey(coll, id)] && !Expired(d, now)
  }

  ghost predicate Loaded(s: Buckets, coll: string, ids: seq<string>, now: Time, d: Doc) {
    exists id :: id in ids && LoadedAs(s, coll, id, now, d)
  }

  lemma LoadedIsShown(s: Buckets, coll: string, filter: Filter, ids: seq<string>, now: Time, d: Doc)
    requires Readable(s, coll, filter) && forall id :: id in ids <==> Selected(s.idx, coll, filter, id)
    ensures Loaded(s, coll, ids, now, d) <==> Shown(s, coll, filter, now, d)
  {
    if Loaded(s, coll, ids, now, d) {
      var id :| id in ids && LoadedAs(s, coll, id, now, d);
      IdIsShown(s, coll, filter, id, now, d);
    }
    if Shown(s, coll, filter, now, d) {
      var dk :| ShownAt(s, coll, filter, now, dk) && d == s.docs[dk];
      ShownHasId(s, coll, filter, dk, now);
      assert d.id in ids;
    }
  }

  lemma IdIsShown(s: Buckets, coll: string, filter: Filter, id: string, now: Time, d: Doc)
    requires Readable(s, coll, filter) && Selected(s.idx, coll, filter, id) && LoadedAs(s, coll, id, now, d)
    ensures Shown(s, coll, filter, now, d)
  {
    SelectedIsSeeming(s, coll, filter, id);
    assert DocPrefix(coll) <= DocKey(coll, id);
    assert ShownAt(s, coll, filter, now, DocKey(coll, id));
  }

  lemma ShownHasId(s: Buckets, coll: string, filter: Filter, dk: string, now: Time)
    requires Readable(s, coll, filter) && ShownAt(s, coll, filter, now, dk)
    ensures Selected(s.idx, coll, filter, s.docs[dk].id) && LoadedAs(s, coll, s.docs[dk].id, now, s.docs[dk])
  {
    InCollection(s, coll, dk);
    assert NamedRight(dk, s.docs[dk]);
    SelectedIsSeeming(s, coll, filter, s.docs[dk].id);
  }

  /** The rows are the documents loaded for the ids. */
  ghost predicate RowsLoaded(s: Buckets, coll: string, rows: seq<Doc>, ids: seq<string>, now: Time) {
    forall d :: d in rows <==> Loaded(s, coll, ids, now, d)
  }

  lemma OneMoreLoaded(s: Buckets, coll: string, rows: seq<Doc>, ids: seq<string>, i: nat, now: Time)
    requires i < |ids| && RowsLoaded(s, coll, rows, ids[..i], now)
    ensures var dk := DocKey(coll, ids[i]);
            var more := if dk in s.docs && !Expired(s.docs[dk], now) then rows + [s.docs[dk]] else rows;
            RowsLoaded(s, coll, more, ids[..i + 1], now)
  {
    var dk := DocKey(coll, ids[i]);
    var more := if dk in s.docs && !Expired(s.docs[dk], now) then rows + [s.docs[dk]] else rows;
    assert ids[..i + 1] == ids[..i] + [ids[i]];
    forall d ensures d in more <==> Loaded(s, coll, ids[..i + 1], now, d) {
      LoadedOneMore(s, coll, ids[..i], ids[i], now, d);
      assert d in rows <==> Loaded(s, coll, ids[..i], now, d);
    }
  }

  /** Documents of the collection loaded by id; ids without a document are passed over. */
  method LoadIds(s: Buckets, coll: string, ids: seq<string>, now: Time) returns (rows: seq<Doc>)
    ensures forall d :: d in rows <==> Loaded(s, coll, ids, now, d)
    ensures WellNamed(s) && Plain(coll) && NoRepeats(ids) ==> NoRepeats(rows)
  {
    rows := [];
    for i := 0 to |ids|
      invariant RowsLoaded(s, coll, rows, ids[..i], now)
      invariant WellNamed(s) && Plain(coll) && NoRepeats(ids) ==> NoRepeats(rows)
    {
      var dk := DocKey(coll, ids[i]);
      OneMoreLoaded(s, coll, rows, ids, i, now);
      if dk in s.docs && !(s.docs[dk].expiresAt > 0 && s.docs[dk].expiresAt < now) {
        if WellNamed(s) && Plain(coll) && NoRepeats(ids) {
          NotLoadedYet(s, coll, ids, i, now);
          assert s.docs[dk] !in rows;
        }
        rows := rows + [s.docs[dk]];
      }
    }
    assert ids[..|ids|] == ids;
  }

  lemma NotLoadedYet(s: Buckets, coll: string, ids: seq<string>, i: nat, now: Time)
    requires WellNamed(s) && Plain(coll) && NoRepeats(ids) && i < |ids| && DocKey(coll, ids[i]) in s.docs
    ensures !Loaded(s, coll, ids[..i], now, s.docs[DocKey(coll, ids[i])])
  {
    var d := s.docs[DocKey(coll, ids[i])];
    StoredUnderID(s, coll, ids[i]);
    assert ids[i] !in ids[..i];
    if Loaded(s, coll, ids[..i], now, d) {
      var id :| id in ids[..i] && LoadedAs(s, coll, id, now, d);
      StoredUnderID(s, coll, id);
    }
  }

  lemma LoadedOneMore(s: Buckets, coll: string, ids: seq<string>, last: string, now: Time, d: Doc)
    ensures Loaded(s, coll, ids + [last], now, d) <==> Loaded(s, coll, ids, now, d) || LoadedAs(s, coll, last, now, d)
  {
    if Loaded(s, coll, ids, now, d) {
      var id :| id in ids && LoadedAs(s, coll, id, now, d);
      assert id in ids + [last];
    }
    assert last in ids + [last];
  }

  ghost predicate SeenAt(s: Buckets, ks: seq<string>, now: Time, d: Doc) {
    exists dk :: dk in ks && dk in s.docs && d == s.docs[dk] && !Expired(d, now)
  }

  lemma SeenOneMore(s: Buckets, ks: seq<string>, last: string, now: Time, d: Doc)
    ensures SeenAt(s, ks + [last], now, d)
            <==> SeenAt(s, ks, now, d) || (last in s.docs && d == s.docs[last] && !Expired(d, now))
  {
    if SeenAt(s, ks, now, d) {
      var dk :| dk in ks && dk in s.docs && d == s.docs[dk] && !Expired(d, now);
      assert dk in ks + [last];
    }
    assert last in ks + [last];
  }

  /** The rows are the unexpired documents under the keys. */
  ghost predicate RowsOf(s: Buckets, rows: seq<Doc>, ks: seq<string>, now: Time) {
    forall d :: d in rows <==> SeenAt(s, ks, now, d)
  }

  lemma OneMoreRow(s: Buckets, coll: string, rows: seq<Doc>, ks: seq<string>, i: nat, now: Time)
    requires i < |ks| && Ascending(ks) && (forall k | k in ks :: k in CollectionKeys(s, coll))
    requires RowsOf(s, rows, ks[..i], now)
    ensures ks[i] in s.docs
    ensures RowsOf(s, if Expired(s.docs[ks[i]], now) then rows else rows + [s.docs[ks[i]]], ks[..i + 1], now)
    ensures WellNamed(s) && Plain(coll) && NoRepeats(rows) && !Expired(s.docs[ks[i]], now)
            ==> NoRepeats(rows + [s.docs[ks[i]]])
  {
    assert ks[i] in ks && ks[..i + 1] == ks[..i] + [ks[i]];
    forall d {
      SeenOneMore(s, ks[..i], ks[i], now, d);
    }
    if WellNamed(s) && Plain(coll) {
      NotSeenYet(s, coll, ks, i, now);
    }
  }

  /** The scan of a collection, expired documents passed over. */
  method ScanAll(s: Buckets, coll: string, now: Time) returns (rows: seq<Doc>)
    ensures forall d :: d in rows <==> Present(s, coll, now, d)
    ensures WellNamed(s) && Plain(coll) ==> NoRepeats(rows)
  {
    var ks := InOrder(CollectionKeys(s, coll));
    rows := [];
    for i := 0 to |ks|
      invariant RowsOf(s, rows, ks[..i], now)
      invariant WellNamed(s) && Plain(coll) ==> NoRepeats(rows)
    {
      OneMoreRow(s, coll, rows, ks, i, now);
      if !(s.docs[ks[i]].expiresAt > 0 && s.docs[ks[i]].expiresAt < now) {
        rows := rows + [s.docs[ks[i]]];
      }
    }
    assert ks[..|ks|] == ks;
  }

  lemma NotSeenYet(s: Buckets, coll: string, ks: seq<string>, i: nat, now: Time)
    requires WellNamed(s) && Plain(coll) && i < |ks| && Ascending(ks)
             && forall k | k in ks :: k in CollectionKeys(s, coll)
    ensures ks[i] in s.docs && !SeenAt(s, ks[..i], now, s.docs[ks[i]])
  {
    assert ks[i] in ks;
    var d := s.docs[ks[i]];
    if SeenAt(s, ks[..i], now, d) {
      var dk :| dk in ks[..i] && dk in s.docs && d == s.docs[dk] && !Expired(d, now);
      var j :| 0 <= j < i && ks[j] == dk;
      SameDocSamePlace(s, ks[i], ks[j], coll);
      LessAsymmetric(ks[j], ks[i]);
    }
  }

  /** Two documents of one collection under different keys are different documents. */
  lemma SameDocSamePlace(s: Buckets, x: string, y: string, coll: string)
    requires WellNamed(s) && Plain(coll) && x in CollectionKeys(s, coll) && y in CollectionKeys(s, coll)
    requires s.docs[x] == s.docs[y]
    ensures x == y
  {
    InCollection(s, coll, x);
    InCollection(s, coll, y);
    assert NamedRight(x, s.docs[x]) && NamedRight(y, s.docs[y]);
  }
}
