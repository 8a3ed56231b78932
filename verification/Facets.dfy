/** Facet counts read off the metadata index against counts over the documents
    (services/mddbd/aggregation.go). */
module Facets {
  import opened ByteStrings
  import opened Keys
  import opened Store
  import opened Indexes
  import opened Runs
  import opened Search

  // ---- the ids an aggregation is limited to -----------------------------------------------------

  /** Every id of every list. */
  ghost predicate InEach(sets: seq<seq<string>>, n: nat, id: string)
    requires n <= |sets|
  {
    forall i | 0 <= i < n :: id in sets[i]
  }

  /** No limit without a filter, otherwise the ids the filter selects. */
  ghost predicate LimitsTo(allowed: Option<set<string>>, idx: set<string>, coll: string, filter: Filter) {
    && (allowed.None? <==> |filter| == 0)
    && (allowed.Some? ==> forall id :: id in allowed.value <==> Selected(idx, coll, filter, id))
  }

  /** The ids a filter selects, or no limit at all without a filter. */
  method ResolveMetaFilter(idx: set<string>, coll: string, filter: Filter) returns (allowed: Option<set<string>>)
    ensures LimitsTo(allowed, idx, coll, filter)
  {
    var sets := ListsOf(idx, coll, filter);
    if |sets| == 0 {
      return None;
    }
    var result := set id | id in sets[0];
    for n := 1 to |sets|
      invariant forall id :: id in result <==> InEach(sets, n, id)
    {
      ghost var before := result;
      result := set id | id in sets[n] && id in result;
      assert forall id :: id in before <==> InEach(sets, n, id);
    }
    forall id ensures id in result <==> Selected(idx, coll, filter, id) {
      assert InEach(sets, |sets|, id) <==> forall l | l in sets :: id in l;
    }
    allowed := Some(result);
  }

  /** One list per filter key, each holding the ids listed under one of its values. */
  method ListsOf(idx: set<string>, coll: string, filter: Filter) returns (sets: seq<seq<string>>)
    ensures |sets| == |filter|
    ensures forall id :: (forall l | l in sets :: id in l) <==> Selected(idx, coll, filter, id)
  {
    sets := [];
    var todo := filter.Keys;
    while todo != {}
      invariant todo <= filter.Keys && |sets| + |todo| == |filter|
      invariant forall id :: (forall l | l in sets :: id in l) <==> SelectedBut(idx, coll, filter, todo, id)
      decreases |todo|
    {
      var mk :| mk in todo;
      var ids := IdsUnder(idx, coll, mk, filter[mk]);
      forall id ensures (forall l | l in sets + [ids] :: id in l) <==> SelectedBut(idx, coll, filter, todo - {mk}, id) {
        OneMoreList(sets, ids, id);
        OneMoreKeySelected(idx, coll, filter, todo, mk, id);
      }
      sets := sets + [ids];
      todo := todo - {mk};
    }
    assert forall id :: SelectedBut(idx, coll, filter, todo, id) <==> Selected(idx, coll, filter, id);
  }

  ghost predicate SelectedBut(idx: set<string>, coll: string, filter: Filter, todo: set<string>, id: string) {
    forall mk | mk in filter && mk !in todo :: Listed(idx, coll, mk, filter[mk], id)
  }

  lemma OneMoreKeySelected(idx: set<string>, coll: string, filter: Filter, todo: set<string>, mk: string, id: string)
    requires mk in todo && todo <= filter.Keys
    ensures SelectedBut(idx, coll, filter, todo - {mk}, id)
            <==> SelectedBut(idx, coll, filter, todo, id) && Listed(idx, coll, mk, filter[mk], id)
  {
    if SelectedBut(idx, coll, filter, todo, id) && Listed(idx, coll, mk, filter[mk], id) {
      forall x | x in filter && x !in todo - {mk} ensures Listed(idx, coll, x, filter[x], id) {
        assert x == mk || x !in todo;
      }
    }
    if SelectedBut(idx, coll, filter, todo - {mk}, id) {
      assert mk !in todo - {mk};
    }
  }

  lemma OneMoreList(sets: seq<seq<string>>, ids: seq<string>, id: string)
    ensures (forall l | l in sets + [ids] :: id in l) <==> (forall l | l in sets :: id in l) && id in ids
  {
    assert ids in sets + [ids];
    assert forall l | l in sets :: l in sets + [ids];
  }

  // ---- counting ----------------------------------------------------------------------------------

  predicate Allowed(allowed: Option<set<string>>, id: string) {
    allowed.None? || id in allowed.value
  }

  /** A key "{prefix}{value}|{id}" counts for its value when the id is allowed. */
  predicate CountsFor(k: string, prefix: string, allowed: Option<set<string>>, v: string) {
    && prefix + v + "|" <= k && Plain(v)
    && Allowed(allowed, k[|prefix| + |v| + 1..])
  }

  function FieldPrefix(coll: string, field: string): string { "meta|" + coll + "|" + field + "|" }

  function CountedKeys(ks: seq<string>, prefix: string, allowed: Option<set<string>>, v: string): set<string> {
    set k | k in ks && CountsFor(k, prefix, allowed, v)
  }

  function CountAt(counts: map<string, nat>, v: string): nat {
    if v in counts then counts[v] else 0
  }

  /** The keys of an index that count for a value. */
  ghost function Tally(idx: set<string>, prefix: string, allowed: Option<set<string>>, v: string): set<string> {
    set k | k in idx && CountsFor(k, prefix, allowed, v)
  }

  ghost predicate CountsUpTo(counts: map<string, nat>, ks: seq<string>, prefix: string, allowed: Option<set<string>>) {
    forall v :: CountAt(counts, v) == |CountedKeys(ks, prefix, allowed, v)|
  }

  /** The cursor loop of a facet: one count per index key. */
  method ComputeFacet(idx: set<string>, coll: string, field: string, allowed: Option<set<string>>)
    returns (counts: map<string, nat>)
    ensures forall v :: CountAt(counts, v) == |Tally(idx, FieldPrefix(coll, field), allowed, v)|
  {
    var prefix := FieldPrefix(coll, field);
    var ks := InOrder(KeysWith(idx, prefix));
    assert forall k | k in ks :: prefix <= k;
    counts := map[];
    for i := 0 to |ks|
      invariant CountsUpTo(counts, ks[..i], prefix, allowed)
    {
      assert ks[i] in ks;
      var rest := ks[i][|prefix|..];
      var parts := SplitAtPipe(rest);
      if parts.Some? && Allowed(allowed, parts.value.1) {
        CountedOneMore(counts, ks, i, prefix, allowed, parts.value.0, parts.value.1);
        counts := counts[parts.value.0 := CountAt(counts, parts.value.0) + 1];
      } else {
        UncountedKey(counts, ks, i, prefix, allowed, rest);
      }
    }
    assert ks[..|ks|] == ks;
    CountedIsTally(counts, idx, ks, prefix, allowed);
  }

  lemma CountedIsTally(counts: map<string, nat>, idx: set<string>, ks: seq<string>, prefix: string,
                       allowed: Option<set<string>>)
    requires CountsUpTo(counts, ks, prefix, allowed) && forall k :: k in ks <==> k in KeysWith(idx, prefix)
    ensures forall v :: CountAt(counts, v) == |Tally(idx, prefix, allowed, v)|
  {
    forall v ensures CountAt(counts, v) == |Tally(idx, prefix, allowed, v)| {
      forall k | CountsFor(k, prefix, allowed, v) ensures prefix <= k {
        assert prefix <= prefix + v + "|";
      }
      assert CountedKeys(ks, prefix, allowed, v) == Tally(idx, prefix, allowed, v);
    }
  }

  lemma CountedOneMore(counts: map<string, nat>, ks: seq<string>, i: nat, prefix: string,
                       allowed: Option<set<string>>, value: string, id: string)
    requires i < |ks| && CountsUpTo(counts, ks[..i], prefix, allowed)
    requires Ascending(ks) && Plain(value) && ks[i] == prefix + (value + "|" + id) && Allowed(allowed, id)
    ensures CountsUpTo(counts[value := CountAt(counts, value) + 1], ks[..i + 1], prefix, allowed)
  {
    var more := counts[value := CountAt(counts, value) + 1];
    forall v ensures CountAt(more, v) == |CountedKeys(ks[..i + 1], prefix, allowed, v)| {
      OneMoreKey(ks, i, prefix, allowed, v, value, id);
      assert CountAt(counts, v) == |CountedKeys(ks[..i], prefix, allowed, v)|;
    }
  }

  /** A value and what follows the first pipe; nothing when there is no pipe. */
  function SplitAtPipe(rest: string): (r: Option<(string, string)>)
    ensures r.Some? ==> Plain(r.value.0) && rest == r.value.0 + "|" + r.value.1
    ensures r.None? ==> Plain(rest)
    decreases |rest|
  {
    if rest == [] then None
    else if rest[0] == '|' then assert rest == "" + "|" + rest[1..]; Some(("", rest[1..]))
    else
      var r := SplitAtPipe(rest[1..]);
      assert rest == [rest[0]] + rest[1..];
      if r.None? then None
      else
        assert rest == ([rest[0]] + r.value.0) + "|" + r.value.1;
        Some(([rest[0]] + r.value.0, r.value.1))
  }

  lemma OneMoreKey(ks: seq<string>, i: nat, prefix: string, allowed: Option<set<string>>, v: string, value: string,
                   id: string)
    requires Ascending(ks) && i < |ks| && Plain(value) && ks[i] == prefix + (value + "|" + id) && Allowed(allowed, id)
    ensures |CountedKeys(ks[..i + 1], prefix, allowed, v)|
         == |CountedKeys(ks[..i], prefix, allowed, v)| + if v == value then 1 else 0
  {
    var k := ks[i];
    assert ks[..i + 1] == ks[..i] + [k];
    assert CountsFor(k, prefix, allowed, v) <==> v == value by {
      if v == value {
        assert prefix + v + "|" <= k;
        assert k[|prefix| + |v| + 1..] == id;
      } else if prefix + v + "|" <= k && Plain(v) {
        OnlyValue(prefix, v, value, id);
      }
    }
    NewKey(ks, i);
    assert CountedKeys(ks[..i + 1], prefix, allowed, v)
        == CountedKeys(ks[..i], prefix, allowed, v) + if v == value then {k} else {};
  }

  lemma OnlyValue(prefix: string, v: string, value: string, id: string)
    requires Plain(v) && Plain(value) && prefix + v + "|" <= prefix + (value + "|" + id)
    ensures v == value
  {
    assert prefix + v + "|" == prefix + (v + "|" + "");
    DropCommon(prefix, v + "|" + "", value + "|" + id);
    HeadOfPrefix(v, "", value, id);
  }

  lemma NewKey(ks: seq<string>, i: nat)
    requires Ascending(ks) && i < |ks|
    ensures ks[i] !in ks[..i]
  {
    if ks[i] in ks[..i] {
      var j :| 0 <= j < i && ks[j] == ks[i];
      LessAsymmetric(ks[j], ks[i]);
    }
  }

  lemma TailAfter(prefix: string, value: string, id: string)
    ensures (prefix + (value + "|" + id))[|prefix| + |value| + 1..] == id
  {
  }

  lemma UncountedKey(counts: map<string, nat>, ks: seq<string>, i: nat, prefix: string, allowed: Option<set<string>>,
                     rest: string)
    requires i < |ks| && CountsUpTo(counts, ks[..i], prefix, allowed) && ks[i] == prefix + rest
    requires SplitAtPipe(rest).Some? ==> !Allowed(allowed, SplitAtPipe(rest).value.1)
    ensures CountsUpTo(counts, ks[..i + 1], prefix, allowed)
  {
    var k := ks[i];
    assert ks[..i + 1] == ks[..i] + [k];
    forall v ensures CountAt(counts, v) == |CountedKeys(ks[..i + 1], prefix, allowed, v)| {
      if prefix + v + "|" <= k && Plain(v) {
        assert k[|prefix| + |v|] == '|' && rest[|v|] == '|';
        var parts := SplitAtPipe(rest).value;
        OnlyValue(prefix, v, parts.0, parts.1);
        TailAfter(prefix, v, parts.1);
      }
      assert CountedKeys(ks[..i + 1], prefix, allowed, v) == CountedKeys(ks[..i], prefix, allowed, v);
    }
  }

  // ---- counting the documents instead ---------------------------------------------------------------

  /** The documents of a collection that a scan would count for a value. */
  ghost function DocsWith(s: Buckets, coll: string, field: string, allowed: Option<set<string>>,
                          v: string): set<string>
  {
    set dk | dk in CollectionKeys(s, coll) && HasPair(s.docs[dk].meta, field, v) && Allowed(allowed, s.docs[dk].id)
  }

  ghost function Image(xs: set<string>, f: string -> string): set<string> { set x | x in xs :: f(x) }

  ghost predicate OneToOne(xs: set<string>, f: string -> string) {
    forall x, y | x in xs && y in xs && f(x) == f(y) :: x == y
  }

  lemma {:induction false} ImageSize(xs: set<string>, f: string -> string)
    requires OneToOne(xs, f)
    ensures |Image(xs, f)| == |xs|
  {
    if xs != {} {
      var x :| x in xs;
      ImageSize(xs - {x}, f);
      assert Image(xs, f) == Image(xs - {x}, f) + {f(x)};
    }
  }

  ghost function KeyFor(s: Buckets, coll: string, field: string, v: string): string -> string {
    dk => if dk in s.docs then MetaKey(coll, field, v, s.docs[dk].id) else ""
  }

  lemma CountsForPair(k: string, coll: string, field: string, allowed: Option<set<string>>, v: string)
    ensures CountsFor(k, FieldPrefix(coll, field), allowed, v)
            <==> MetaPrefix(coll, field, v) <= k && Plain(v) && Allowed(allowed, k[|MetaPrefix(coll, field, v)|..])
  {
    assert FieldPrefix(coll, field) + v + "|" == MetaPrefix(coll, field, v);
  }

  lemma IdOfKey(coll: string, field: string, v: string, id: string)
    ensures MetaPrefix(coll, field, v) <= MetaKey(coll, field, v, id)
    ensures MetaKey(coll, field, v, id)[|MetaPrefix(coll, field, v)|..] == id
  {
  }

  lemma KeyOfDoc(s: Buckets, coll: string, field: string, allowed: Option<set<string>>, v: string, dk: string)
    requires WellNamed(s) && IndexExact(s) && Plain(coll) && Plain(v) && dk in DocsWith(s, coll, field, allowed, v)
    ensures KeyFor(s, coll, field, v)(dk) in Tally(s.idx, FieldPrefix(coll, field), allowed, v)
  {
    InCollection(s, coll, dk);
    var id := s.docs[dk].id;
    var k := MetaKey(coll, field, v, id);
    assert k in KeysOwned(s.docs, dk);
    IdOfKey(coll, field, v, id);
    CountsForPair(k, coll, field, allowed, v);
  }

  lemma PlainKeysDiffer(s: Buckets, coll: string, field: string, allowed: Option<set<string>>, v: string)
    requires WellNamed(s) && Plain(coll)
    ensures OneToOne(DocsWith(s, coll, field, allowed, v), KeyFor(s, coll, field, v))
  {
    var docs, f := DocsWith(s, coll, field, allowed, v), KeyFor(s, coll, field, v);
    forall x, y | x in docs && y in docs && f(x) == f(y) ensures x == y {
      SameKeySameDoc(s, coll, field, v, x, y);
    }
  }

  lemma SameKeySameDoc(s: Buckets, coll: string, field: string, v: string, x: string, y: string)
    requires WellNamed(s) && Plain(coll) && x in CollectionKeys(s, coll) && y in CollectionKeys(s, coll)
    requires KeyFor(s, coll, field, v)(x) == KeyFor(s, coll, field, v)(y)
    ensures x == y
  {
    InCollection(s, coll, x);
    InCollection(s, coll, y);
    assert NamedRight(x, s.docs[x]) && NamedRight(y, s.docs[y]);
    var p := MetaPrefix(coll, field, v);
    assert s.docs[x].id == (p + s.docs[x].id)[|p|..] && s.docs[y].id == (p + s.docs[y].id)[|p|..];
  }

  /** A facet counts a key of the document although it spells another pair, and no document that a
      scan would count has the same key. */
  ghost predicate Stray(s: Buckets, coll: string, field: string, allowed: Option<set<string>>, v: string,
                        dk: string, mk: string, mv: string)
  {
    && dk in CollectionKeys(s, coll) && HasPair(s.docs[dk].meta, mk, mv)
    && CountsFor(MetaKey(coll, mk, mv, s.docs[dk].id), FieldPrefix(coll, field), allowed, v)
    && MetaKey(coll, mk, mv, s.docs[dk].id) !in Image(DocsWith(s, coll, field, allowed, v), KeyFor(s, coll, field, v))
  }

  /** No counted key is a stray one, and no counted value has a pipe. */
  ghost predicate Unmixed(s: Buckets, coll: string, field: string, allowed: Option<set<string>>, v: string) {
    if Plain(v) then !exists dk, mk, mv :: Stray(s, coll, field, allowed, v, dk, mk, mv)
    else DocsWith(s, coll, field, allowed, v) == {}
  }

  /** A facet of any field counts, for a value, as many documents as a scan exactly when no stray key
      is counted and no document has the value, if the value has a pipe. */
  lemma FacetIsScanIff(s: Buckets, coll: string, field: string, allowed: Option<set<string>>, v: string)
    requires WellNamed(s) && IndexExact(s) && Plain(coll)
    ensures |Tally(s.idx, FieldPrefix(coll, field), allowed, v)| == |DocsWith(s, coll, field, allowed, v)|
            <==> Unmixed(s, coll, field, allowed, v)
  {
    var counted, docs := Tally(s.idx, FieldPrefix(coll, field), allowed, v), DocsWith(s, coll, field, allowed, v);
    if Plain(v) {
      var image := Image(docs, KeyFor(s, coll, field, v));
      PlainKeysDiffer(s, coll, field, allowed, v);
      ImageSize(docs, KeyFor(s, coll, field, v));
      CountedAreKeys(s, coll, field, allowed, v);
      SameSizeIff(image, counted);
      StraysAreLeft(s, coll, field, allowed, v);
    } else {
      assert counted == {};
    }
  }

  lemma SameSizeIff(a: set<string>, b: set<string>)
    requires a <= b
    ensures |a| == |b| <==> b <= a
  {
    assert |b - a| == |b| - |a|;
  }

  lemma CountedAreKeys(s: Buckets, coll: string, field: string, allowed: Option<set<string>>, v: string)
    requires WellNamed(s) && IndexExact(s) && Plain(coll) && Plain(v)
    ensures Image(DocsWith(s, coll, field, allowed, v), KeyFor(s, coll, field, v))
         <= Tally(s.idx, FieldPrefix(coll, field), allowed, v)
  {
    forall dk | dk in DocsWith(s, coll, field, allowed, v)
      ensures KeyFor(s, coll, field, v)(dk) in Tally(s.idx, FieldPrefix(coll, field), allowed, v)
    {
      KeyOfDoc(s, coll, field, allowed, v, dk);
    }
  }

  /** What is counted beyond the scanned documents' keys is stray. */
  lemma StraysAreLeft(s: Buckets, coll: string, field: string, allowed: Option<set<string>>, v: string)
    requires WellNamed(s) && IndexExact(s) && Plain(coll) && Plain(v)
    ensures Tally(s.idx, FieldPrefix(coll, field), allowed, v)
            <= Image(DocsWith(s, coll, field, allowed, v), KeyFor(s, coll, field, v))
            <==> !exists dk, mk, mv :: Stray(s, coll, field, allowed, v, dk, mk, mv)
  {
    var counted := Tally(s.idx, FieldPrefix(coll, field), allowed, v);
    var image := Image(DocsWith(s, coll, field, allowed, v), KeyFor(s, coll, field, v));
    if dk, mk, mv :| Stray(s, coll, field, allowed, v, dk, mk, mv) {
      StrayIsCounted(s, coll, field, allowed, v, dk, mk, mv);
    }
    if k :| k in counted && k !in image {
      LeftIsStray(s, coll, field, allowed, v, k);
    }
  }

  lemma StrayIsCounted(s: Buckets, coll: string, field: string, allowed: Option<set<string>>, v: string, dk: string,
                       mk: string, mv: string)
    requires WellNamed(s) && IndexExact(s) && Plain(coll) && Stray(s, coll, field, allowed, v, dk, mk, mv)
    ensures MetaKey(coll, mk, mv, s.docs[dk].id) in Tally(s.idx, FieldPrefix(coll, field), allowed, v)
  {
    InCollection(s, coll, dk);
    assert MetaKey(coll, mk, mv, s.docs[dk].id) in KeysOwned(s.docs, dk);
  }

  lemma LeftIsStray(s: Buckets, coll: string, field: string, allowed: Option<set<string>>, v: string, k: string)
    requires WellNamed(s) && IndexExact(s) && Plain(coll) && k in Tally(s.idx, FieldPrefix(coll, field), allowed, v)
    requires k !in Image(DocsWith(s, coll, field, allowed, v), KeyFor(s, coll, field, v))
    ensures exists dk, mk, mv :: Stray(s, coll, field, allowed, v, dk, mk, mv)
  {
    var dk :| dk in s.docs && k in KeysOwned(s.docs, dk);
    var d := s.docs[dk];
    assert NamedRight(dk, d);
    var mk, mv :| mk in d.meta && mv in d.meta[mk] && k == MetaKey(CollOf(dk), mk, mv, d.id);
    KeyOfCollection(coll, field, v, CollOf(dk), mk, mv, d.id);
    assert dk in CollectionKeys(s, coll);
    assert Stray(s, coll, field, allowed, v, dk, mk, mv);
  }

  lemma KeyOfCollection(coll: string, field: string, v: string, c2: string, mk: string, mv: string, id: string)
    requires Plain(coll) && Plain(c2) && FieldPrefix(coll, field) + v + "|" <= MetaKey(c2, mk, mv, id)
    ensures c2 == coll
  {
    MetaKeyForm(c2, mk, mv, id);
    var x, y := field + "|" + v + "|", (mk + "|" + mv) + "|" + id;
    assert FieldPrefix(coll, field) + v + "|" == "meta|" + (coll + "|" + x);
    DropCommon("meta|", coll + "|" + x, c2 + "|" + y);
    HeadOfPrefix(coll, x, c2, y);
  }

  // ---- where a field with pipes goes wrong ----------------------------------------------------------

  /** A field with pipes can be cut at the first pipe or beyond it. */
  lemma HeadCut(field: string, v: string, a: string, w: string)
    requires Plain(a)
    ensures field + "|" + v + "|" <= a + "|" + w
            <==> (field == a && v + "|" <= w) || (a + "|" <= field && field[|a| + 1..] + "|" + v + "|" <= w)
  {
    var l := field + "|" + v + "|";
    if a + "|" <= field {
      var f := field[|a| + 1..];
      assert field == (a + "|") + f;
      assert l == (a + "|") + (f + "|" + v + "|");
      DropCommon(a + "|", f + "|" + v + "|", w);
      assert field[|a|] == '|';
    } else if field == a {
      assert l == (a + "|") + (v + "|");
      DropCommon(a + "|", v + "|", w);
    } else if l <= a + "|" + w {
      HeadNotReached(field, v, a, w);
    }
  }

  lemma HeadNotReached(field: string, v: string, a: string, w: string)
    requires Plain(a) && field != a && field + "|" + v + "|" <= a + "|" + w
    ensures a + "|" <= field
  {
    var l, r := field + "|" + v + "|", a + "|" + w;
    assert l[|field|] == '|' && r[|field|] == '|';
    assert |field| >= |a|;
    assert field == l[..|field|] == r[..|field|];
    assert |field| == |a| ==> field == a;
    assert r[..|a| + 1] == a + "|";
  }

  /** Without a pipe there is nowhere to cut. */
  lemma NoCut(x: string, w: string)
    requires Plain(w)
    ensures !(x + "|" <= w)
  {
    var bar := (x + "|")[|x|];
    assert x + "|" <= w ==> bar in w;
  }

  lemma PlainCut(v: string, a: string, w: string)
    requires Plain(v) && Plain(a)
    ensures v + "|" <= a + "|" + w <==> v == a
  {
    if v + "|" <= a + "|" + w {
      assert v + "|" + "" == v + "|";
      HeadOfPrefix(v, "", a, w);
    }
  }

  /** What follows the pair in an index key: three pipe-free names. */
  ghost predicate CutAt(field: string, v: string, a: string, b: string, c: string, k: string) {
    || (field == a && v == b)
    || (field == a + "|" + b && v == c)
    || (field == a + "|" + b + "|" + c && v == k)
  }

  /** Where a field and a value can lie in the five pieces of an index key. */
  lemma FivePieces(field: string, v: string, a: string, b: string, c: string, k: string, l: string)
    requires Plain(v) && Plain(a) && Plain(b) && Plain(c) && Plain(k) && Plain(l)
    ensures field + "|" + v + "|" <= a + "|" + (b + "|" + (c + "|" + (k + "|" + l))) <==> CutAt(field, v, a, b, c, k)
  {
    HeadCut(field, v, a, b + "|" + (c + "|" + (k + "|" + l)));
    PlainCut(v, b, c + "|" + (k + "|" + l));
    if a + "|" <= field {
      var f := field[|a| + 1..];
      assert field == a + "|" + f;
      FourPieces(f, v, b, c, k, l);
      if f == b + "|" + c {
        assert field == a + "|" + b + "|" + c;
      }
      if field == a + "|" + b + "|" + c {
        assert f == b + "|" + c;
      }
    } else {
      assert a + "|" + b + "|" + c == (a + "|") + (b + "|" + c);
    }
  }

  lemma FourPieces(f: string, v: string, b: string, c: string, k: string, l: string)
    requires Plain(v) && Plain(b) && Plain(c) && Plain(k) && Plain(l)
    ensures f + "|" + v + "|" <= b + "|" + (c + "|" + (k + "|" + l))
            <==> (f == b && v == c) || (f == b + "|" + c && v == k)
  {
    HeadCut(f, v, b, c + "|" + (k + "|" + l));
    PlainCut(v, c, k + "|" + l);
    if b + "|" <= f {
      var g := f[|b| + 1..];
      assert f == b + "|" + g;
      ThreePieces(g, v, c, k, l);
    }
  }

  lemma ThreePieces(g: string, v: string, c: string, k: string, l: string)
    requires Plain(v) && Plain(c) && Plain(k) && Plain(l)
    ensures g + "|" + v + "|" <= c + "|" + (k + "|" + l) <==> g == c && v == k
  {
    HeadCut(g, v, c, k + "|" + l);
    PlainCut(v, k, l);
    if c + "|" <= g {
      var h := g[|c| + 1..];
      HeadCut(h, v, k, l);
      NoCut(v, l);
      if k + "|" <= h {
        assert h[|k| + 1..] + "|" + v + "|" == (h[|k| + 1..] + "|" + v) + "|";
        NoCut(h[|k| + 1..] + "|" + v, l);
      }
    }
  }

  /** The pair and the collection, or these and the key, read as field and value. */
  ghost predicate ReadsAs(coll: string, field: string, allowed: Option<set<string>>, v: string, d: Doc, mk: string,
                          mv: string)
  {
    || (field == mk + "|" + mv && v == Lower(coll) && Allowed(allowed, Lower(d.key) + "|" + Lower(d.lang)))
    || (field == mk + "|" + mv + "|" + Lower(coll) && v == Lower(d.key) && Allowed(allowed, Lower(d.lang)))
  }

  /** With pipe-free names and metadata a facet counts as a scan does exactly when no pair of a
      document in the collection, with the collection's or the key's name after it, reads as the
      field and the value. */
  lemma PlainFacetIff(s: Buckets, coll: string, field: string, allowed: Option<set<string>>, v: string)
    requires WellNamed(s) && IndexExact(s) && Plain(coll) && WellTagged(s) && PlainlyNamed(s)
    ensures |Tally(s.idx, FieldPrefix(coll, field), allowed, v)| == |DocsWith(s, coll, field, allowed, v)|
            <==> !exists dk, mk, mv :: dk in CollectionKeys(s, coll) && HasPair(s.docs[dk].meta, mk, mv)
                                       && ReadsAs(coll, field, allowed, v, s.docs[dk], mk, mv)
  {
    FacetIsScanIff(s, coll, field, allowed, v);
    forall dk, mk, mv | dk in CollectionKeys(s, coll) && HasPair(s.docs[dk].meta, mk, mv)
      ensures Plain(v) && Stray(s, coll, field, allowed, v, dk, mk, mv)
              <==> ReadsAs(coll, field, allowed, v, s.docs[dk], mk, mv)
    {
      StrayReadsAs(s, coll, field, allowed, v, dk, mk, mv);
    }
    if !Plain(v) {
      PipedHasNone(s, coll, field, allowed, v);
    }
  }

  lemma PipedHasNone(s: Buckets, coll: string, field: string, allowed: Option<set<string>>, v: string)
    requires WellTagged(s) && !(Plain(field) && Plain(v))
    ensures DocsWith(s, coll, field, allowed, v) == {}
  {
    forall dk | dk in s.docs ensures !HasPair(s.docs[dk].meta, field, v) {
      assert PlainMeta(s.docs[dk].meta);
    }
  }

  lemma StrayReadsAs(s: Buckets, coll: string, field: string, allowed: Option<set<string>>, v: string, dk: string,
                     mk: string, mv: string)
    requires WellNamed(s) && Plain(coll) && WellTagged(s) && PlainlyNamed(s)
    requires dk in CollectionKeys(s, coll) && HasPair(s.docs[dk].meta, mk, mv)
    ensures Plain(v) && Stray(s, coll, field, allowed, v, dk, mk, mv)
            <==> ReadsAs(coll, field, allowed, v, s.docs[dk], mk, mv)
  {
    var d := s.docs[dk];
    InCollection(s, coll, dk);
    assert NamedRight(dk, d) && PlainMeta(d.meta) && Plain(d.key) && Plain(d.lang);
    LowerKeepsPipes(coll);
    LowerKeepsPipes(d.key);
    LowerKeepsPipes(d.lang);
    if Plain(v) {
      CountedCut(coll, field, allowed, v, d, mk, mv);
      if field == mk && v == mv {
        assert !ReadsAs(coll, field, allowed, v, d, mk, mv) by {
          NoCut(mk, field);
        }
        OwnKeyIsNoStray(s, coll, field, allowed, v, dk);
      } else if ReadsAs(coll, field, allowed, v, d, mk, mv) {
        assert field[|mk|] == '|';
        PipedHasNone(s, coll, field, allowed, v);
      }
    }
  }

  lemma OwnKeyIsNoStray(s: Buckets, coll: string, field: string, allowed: Option<set<string>>, v: string, dk: string)
    requires dk in CollectionKeys(s, coll) && HasPair(s.docs[dk].meta, field, v)
    ensures !Stray(s, coll, field, allowed, v, dk, field, v)
  {
    var k := MetaKey(coll, field, v, s.docs[dk].id);
    if CountsFor(k, FieldPrefix(coll, field), allowed, v) {
      CountsForPair(k, coll, field, allowed, v);
      IdOfKey(coll, field, v, s.docs[dk].id);
      assert KeyFor(s, coll, field, v)(dk) == k;
      assert dk in DocsWith(s, coll, field, allowed, v);
    }
  }

  /** When a document's key is counted: it has the pair and its id is allowed, or it reads as it. */
  lemma CountedCut(coll: string, field: string, allowed: Option<set<string>>, v: string, d: Doc, mk: string, mv: string)
    requires Plain(coll) && Plain(v) && Plain(mk) && Plain(mv) && Plain(d.key) && Plain(d.lang)
             && d.id == GenID(coll, d.key, d.lang)
    ensures CountsFor(MetaKey(coll, mk, mv, d.id), FieldPrefix(coll, field), allowed, v)
            <==> (field == mk && v == mv && Allowed(allowed, d.id)) || ReadsAs(coll, field, allowed, v, d, mk, mv)
  {
    var c, k, l := Lower(coll), Lower(d.key), Lower(d.lang);
    LowerKeepsPipes(coll);
    LowerKeepsPipes(d.key);
    LowerKeepsPipes(d.lang);
    var key, p := MetaKey(coll, mk, mv, d.id), "meta|" + coll + "|";
    var w := mk + "|" + (mv + "|" + (c + "|" + (k + "|" + l)));
    PiecesOfKey(coll, mk, mv, c, k, l);
    assert FieldPrefix(coll, field) + v + "|" == p + (field + "|" + v + "|");
    DropCommon(p, field + "|" + v + "|", w);
    FivePieces(field, v, mk, mv, c, k, l);
    RestOfPieces(p, field, v, mk, mv, c, k, l);
    NoCut(mk, mk);
    if field == mk {
      assert !(mk + "|" + mv <= field) && !(mk + "|" + mv + "|" + c <= field);
    }
  }

  lemma PiecesOfKey(coll: string, mk: string, mv: string, c: string, k: string, l: string)
    ensures MetaKey(coll, mk, mv, c + "|" + k + "|" + l)
         == "meta|" + coll + "|" + (mk + "|" + (mv + "|" + (c + "|" + (k + "|" + l))))
  {
  }

  lemma RestOfPieces(p: string, field: string, v: string, a: string, b: string, c: string, k: string, l: string)
    ensures var key := p + (a + "|" + (b + "|" + (c + "|" + (k + "|" + l)))); var n := |p + field + "|"| + |v| + 1;
            && (field == a && v == b ==> n <= |key| && key[n..] == c + "|" + k + "|" + l)
            && (field == a + "|" + b && v == c ==> n <= |key| && key[n..] == k + "|" + l)
            && (field == a + "|" + b + "|" + c && v == k ==> n <= |key| && key[n..] == l)
  {
  }

  /** A facet of a pipe-free field over pipe-free metadata counts no stray key, whatever the names. */
  lemma PlainFieldUnmixed(s: Buckets, coll: string, field: string, allowed: Option<set<string>>, v: string)
    requires WellNamed(s) && Plain(coll) && WellTagged(s) && Plain(field)
    ensures Unmixed(s, coll, field, allowed, v)
  {
    if Plain(v) {
      forall dk, mk, mv ensures !Stray(s, coll, field, allowed, v, dk, mk, mv) {
        if dk in CollectionKeys(s, coll) && HasPair(s.docs[dk].meta, mk, mv) {
          assert PlainMeta(s.docs[dk].meta);
          CountsForPair(MetaKey(coll, mk, mv, s.docs[dk].id), coll, field, allowed, v);
          MetaPrefixMatches(coll, field, v, coll, mk, mv, s.docs[dk].id);
          OwnKeyIsNoStray(s, coll, mk, allowed, mv, dk);
        }
      }
    } else {
      PipedHasNone(s, coll, field, allowed, v);
    }
  }

  // ---- filtered facets ------------------------------------------------------------------------------

  /** The documents of a collection that match a filter and have a value. */
  ghost function MatchingWith(s: Buckets, coll: string, filter: Filter, field: string, v: string): set<string> {
    set dk | dk in CollectionKeys(s, coll) && Matches(s.docs[dk], filter) && HasPair(s.docs[dk].meta, field, v)
  }

  /** Those that seem to match it. */
  ghost function SeemingWith(s: Buckets, coll: string, filter: Filter, field: string, v: string): set<string> {
    set dk | dk in CollectionKeys(s, coll) && Seems(s.docs[dk], filter) && HasPair(s.docs[dk].meta, field, v)
  }

  /** Every document that has the value and seems to match does match. */
  ghost predicate NoneOnlySeems(s: Buckets, coll: string, filter: Filter, field: string, v: string) {
    forall dk | dk in CollectionKeys(s, coll) && Seems(s.docs[dk], filter) && HasPair(s.docs[dk].meta, field, v) ::
      Matches(s.docs[dk], filter)
  }

  /** A filtered facet counts, for a value, what a filtered scan counts. */
  ghost predicate FacetRight(s: Buckets, coll: string, filter: Filter, field: string, allowed: Option<set<string>>,
                             v: string)
  {
    if Plain(v) then Unmixed(s, coll, field, allowed, v) && NoneOnlySeems(s, coll, filter, field, v)
    else MatchingWith(s, coll, filter, field, v) == {}
  }

  /** A filtered facet counts index keys. In a readable store it counts, for a value, the documents that
      match and have it exactly when no stray key is counted and none of them only seems to match (or,
      if the value has a pipe, when there is none); without pipes in field and metadata always. */
  method FilteredFacet(s: Buckets, coll: string, filter: Filter, field: string)
    returns (allowed: Option<set<string>>, counts: map<string, nat>)
    ensures LimitsTo(allowed, s.idx, coll, filter)
    ensures forall v :: CountAt(counts, v) == |Tally(s.idx, FieldPrefix(coll, field), allowed, v)|
    ensures Readable(s, coll, filter) ==> forall v ::
              CountAt(counts, v) == |MatchingWith(s, coll, filter, field, v)|
              <==> FacetRight(s, coll, filter, field, allowed, v)
    ensures Readable(s, coll, filter) && WellTagged(s) && Plain(field) ==> forall v ::
              CountAt(counts, v) == |MatchingWith(s, coll, filter, field, v)|
  {
    allowed := ResolveMetaFilter(s.idx, coll, filter);
    counts := ComputeFacet(s.idx, coll, field, allowed);
    if Readable(s, coll, filter) {
      forall v
        ensures CountAt(counts, v) == |MatchingWith(s, coll, filter, field, v)|
                <==> FacetRight(s, coll, filter, field, allowed, v)
        ensures WellTagged(s) && Plain(field) ==> FacetRight(s, coll, filter, field, allowed, v)
      {
        FacetRightIff(s, coll, filter, field, allowed, v);
        if WellTagged(s) && Plain(field) {
          PlainFacetRight(s, coll, filter, field, allowed, v);
        }
      }
    }
  }

  lemma FacetRightIff(s: Buckets, coll: string, filter: Filter, field: string, allowed: Option<set<string>>, v: string)
    requires Readable(s, coll, filter) && LimitsTo(allowed, s.idx, coll, filter)
    ensures |Tally(s.idx, FieldPrefix(coll, field), allowed, v)| == |MatchingWith(s, coll, filter, field, v)|
            <==> FacetRight(s, coll, filter, field, allowed, v)
  {
    var tally := Tally(s.idx, FieldPrefix(coll, field), allowed, v);
    var seeming, matching := SeemingWith(s, coll, filter, field, v), MatchingWith(s, coll, filter, field, v);
    AllowedIsSeeming(s, coll, filter, allowed, field, v);
    MatchingSeems(s, coll, filter, field, v);
    if Plain(v) {
      FacetIsScanIff(s, coll, field, allowed, v);
      TallyIsNoLess(s, coll, field, allowed, v);
      SameSizeIff(matching, seeming);
      assert |seeming - matching| == |seeming| - |matching|;
    } else {
      assert tally == {};
    }
  }

  /** Every scanned document has a counted key of its own. */
  lemma TallyIsNoLess(s: Buckets, coll: string, field: string, allowed: Option<set<string>>, v: string)
    requires WellNamed(s) && IndexExact(s) && Plain(coll) && Plain(v)
    ensures |DocsWith(s, coll, field, allowed, v)| <= |Tally(s.idx, FieldPrefix(coll, field), allowed, v)|
  {
    var docs, f := DocsWith(s, coll, field, allowed, v), KeyFor(s, coll, field, v);
    var tally := Tally(s.idx, FieldPrefix(coll, field), allowed, v);
    PlainKeysDiffer(s, coll, field, allowed, v);
    ImageSize(docs, f);
    CountedAreKeys(s, coll, field, allowed, v);
    assert |tally - Image(docs, f)| == |tally| - |Image(docs, f)|;
  }

  lemma MatchingSeems(s: Buckets, coll: string, filter: Filter, field: string, v: string)
    ensures MatchingWith(s, coll, filter, field, v) <= SeemingWith(s, coll, filter, field, v)
    ensures SeemingWith(s, coll, filter, field, v) <= MatchingWith(s, coll, filter, field, v)
            <==> NoneOnlySeems(s, coll, filter, field, v)
  {
    forall dk | dk in CollectionKeys(s, coll) ensures Matches(s.docs[dk], filter) ==> Seems(s.docs[dk], filter) {
      SeemsIffMatches(s.docs[dk], filter);
    }
    var seeming, matching := SeemingWith(s, coll, filter, field, v), MatchingWith(s, coll, filter, field, v);
    if seeming <= matching {
      forall dk | dk in CollectionKeys(s, coll) && Seems(s.docs[dk], filter) && HasPair(s.docs[dk].meta, field, v)
        ensures Matches(s.docs[dk], filter)
      {
        assert dk in seeming && dk in matching;
      }
    }
  }

  lemma PlainFacetRight(s: Buckets, coll: string, filter: Filter, field: string, allowed: Option<set<string>>,
                        v: string)
    requires Readable(s, coll, filter) && WellTagged(s) && Plain(field)
    ensures FacetRight(s, coll, filter, field, allowed, v)
  {
    PlainFieldUnmixed(s, coll, field, allowed, v);
    forall dk | dk in CollectionKeys(s, coll) ensures Seems(s.docs[dk], filter) ==> Matches(s.docs[dk], filter) {
      SeemsIffMatches(s.docs[dk], filter);
    }
    if !Plain(v) {
      forall dk | dk in s.docs ensures !HasPair(s.docs[dk].meta, field, v) {
        assert PlainMeta(s.docs[dk].meta);
      }
    }
  }

  lemma AllowedIsSeeming(s: Buckets, coll: string, filter: Filter, allowed: Option<set<string>>, field: string,
                         v: string)
    requires Readable(s, coll, filter) && LimitsTo(allowed, s.idx, coll, filter)
    ensures DocsWith(s, coll, field, allowed, v) == SeemingWith(s, coll, filter, field, v)
  {
    forall dk | dk in CollectionKeys(s, coll) ensures Allowed(allowed, s.docs[dk].id) <==> Seems(s.docs[dk], filter) {
      InCollection(s, coll, dk);
      assert NamedRight(dk, s.docs[dk]);
      SelectedIsSeeming(s, coll, filter, s.docs[dk].id);
    }
  }

  // ---- over whole runs ----------------------------------------------------------------------------------

  /** The store can be read through its index at the start and after each of the first n transactions. */
  ghost predicate ReadableThrough(s: Buckets, run: seq<Event>, n: nat, coll: string, filter: Filter)
    requires n <= |run|
  {
    Readable(After(s, run, n), coll, filter) && (n > 0 ==> ReadableThrough(s, run, n - 1, coll, filter))
  }

  /** Names stay pipe-free through the run, or metadata do and the filter is pipe-free too. */
  ghost predicate ReadableStart(s: Buckets, run: seq<Event>, filter: Filter) {
    && WellNamed(s)
    && ((PlainlyNamed(s) && PlainlyNamedRun(run)) || (WellTagged(s) && WellTaggedRun(run) && PlainFilter(filter)))
  }

  /** Through such a run the store can be read through its index exactly when the index was exact at the
      start and every batch is tidy. */
  lemma ReadableIff(s: Buckets, run: seq<Event>, n: nat, coll: string, filter: Filter)
    requires n <= |run| && ReadableStart(s, run, filter) && Plain(coll)
    ensures ReadableThrough(s, run, n, coll, filter) <==> IndexExact(s) && TidyThrough(s, run, n)
  {
    IndexExactIff(s, run, n);
    ReadableIsExact(s, run, n, coll, filter);
  }

  lemma {:induction false} ReadableIsExact(s: Buckets, run: seq<Event>, n: nat, coll: string, filter: Filter)
    requires n <= |run| && ReadableStart(s, run, filter) && Plain(coll)
    ensures ReadableThrough(s, run, n, coll, filter) <==> ExactThrough(s, run, n)
  {
    NamesAlways(s, run, n);
    if n > 0 {
      ReadableIsExact(s, run, n - 1, coll, filter);
    }
  }
}
