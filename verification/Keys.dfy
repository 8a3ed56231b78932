/** The keys of the four buckets (services/mddbd/internal/storage/keys.go), document
    ids (services/mddbd/util.go) and what can be read back from a key. */
module Keys {
  import opened ByteStrings

  function DocPrefix(coll: string): string { "doc|" + coll + "|" }

  function DocKey(coll: string, id: string): string { DocPrefix(coll) + id }

  function ByKeyKey(coll: string, key: string, lang: string): string {
    "bykey|" + coll + "|" + key + "|" + lang
  }

  function RevPrefix(coll: string, id: string): string { "rev|" + coll + "|" + id + "|" }

  /** A key under the revision prefix of a document. */
  predicate IsRevOf(k: string, coll: string, id: string) { RevPrefix(coll, id) <= k }

  function RevKey(coll: string, id: string, t: Time): string { RevPrefix(coll, id) + Stamp(t) }

  function MetaPrefix(coll: string, mk: string, mv: string): string {
    "meta|" + coll + "|" + mk + "|" + mv + "|"
  }

  function MetaKey(coll: string, mk: string, mv: string, id: string): string {
    MetaPrefix(coll, mk, mv) + id
  }

  // ---- document ids -------------------------------------------------------------------

  function LowerByte(c: char): char {
    if 'A' <= c <= 'Z' then (c as int + ('a' as int - 'A' as int)) as char else c
  }

  function Lower(s: string): (r: string)
    ensures |r| == |s|
    ensures forall i | 0 <= i < |s| :: r[i] == LowerByte(s[i])
  {
    seq(|s|, i requires 0 <= i < |s| => LowerByte(s[i]))
  }

  /** The id of a document: its three names in lower case, joined by pipes. */
  function GenID(coll: string, key: string, lang: string): string {
    Lower(coll) + "|" + Lower(key) + "|" + Lower(lang)
  }

  predicate Plain(s: string) { '|' !in s }

  /** Key and language as entries and ids have them, one after the other. */
  function Joined(key: string, lang: string): string { key + "|" + lang }

  /** The id of a document whose three names have no pipe. */
  ghost predicate PlainID(id: string) {
    exists c, k, l :: Plain(c) && Plain(k) && Plain(l) && id == GenID(c, k, l)
  }

  lemma LowerKeepsPipes(s: string)
    ensures Plain(Lower(s)) <==> Plain(s)
  {
    if !Plain(s) {
      var i :| 0 <= i < |s| && s[i] == '|';
      assert Lower(s)[i] == '|';
    }
  }

  // ---- reading keys back ----------------------------------------------------------------

  /** A pipe-free head is determined by what follows the first pipe. */
  lemma HeadOfPrefix(a: string, x: string, b: string, y: string)
    requires Plain(a) && Plain(b)
    requires a + "|" + x <= b + "|" + y
    ensures a == b && x <= y
  {
    var l, r := a + "|" + x, b + "|" + y;
    assert l[|a|] == '|' && r[|a|] == l[|a|];
    assert r[|b|] == '|' && (|b| < |l| ==> l[|b|] == r[|b|]);
    assert |a| == |b|;
    assert a == l[..|a|] == r[..|a|] == b;
    assert x == l[|a| + 1..] && y == r[|a| + 1..];
  }

  lemma DropCommon(p: string, x: string, y: string)
    ensures p + x <= p + y <==> x <= y
  {
    if p + x <= p + y {
      assert x == (p + x)[|p|..] && y == (p + y)[|p|..];
    }
  }

  lemma DocKeyInjective(c1: string, id1: string, c2: string, id2: string)
    requires Plain(c1) && Plain(c2)
    requires DocPrefix(c1) <= DocKey(c2, id2)
    ensures c1 == c2
    ensures DocKey(c1, id1) == DocKey(c2, id2) ==> id1 == id2
  {
    assert DocPrefix(c1) == "doc|" + (c1 + "|" + "") && DocKey(c2, id2) == "doc|" + (c2 + "|" + id2);
    DropCommon("doc|", c1 + "|" + "", c2 + "|" + id2);
    HeadOfPrefix(c1, "", c2, id2);
    assert id2 == DocKey(c2, id2)[|DocPrefix(c2)|..] && id1 == DocKey(c1, id1)[|DocPrefix(c1)|..];
  }

  lemma ByKeyInjective(c1: string, k1: string, l1: string, c2: string, k2: string, l2: string)
    requires Plain(c1) && Plain(k1) && Plain(c2) && Plain(k2)
    requires ByKeyKey(c1, k1, l1) == ByKeyKey(c2, k2, l2)
    ensures c1 == c2 && k1 == k2 && l1 == l2
  {
    var x, y := k1 + "|" + l1, k2 + "|" + l2;
    assert ByKeyKey(c1, k1, l1) == "bykey|" + (c1 + "|" + x) && ByKeyKey(c2, k2, l2) == "bykey|" + (c2 + "|" + y);
    DropCommon("bykey|", c1 + "|" + x, c2 + "|" + y);
    HeadOfPrefix(c1, x, c2, y);
    HeadOfPrefix(k1, l1, k2, l2);
    DropCommon("bykey|", c2 + "|" + y, c1 + "|" + x);
    HeadOfPrefix(c2, y, c1, x);
    HeadOfPrefix(k2, l2, k1, l1);
  }

  /** Entries of two collections differ, and in one collection entries are the joined names. */
  lemma SameEntryIff(c1: string, k1: string, l1: string, c2: string, k2: string, l2: string)
    requires Plain(c1) && Plain(c2)
    ensures ByKeyKey(c1, k1, l1) == ByKeyKey(c2, k2, l2) <==> c1 == c2 && Joined(k1, l1) == Joined(k2, l2)
  {
    assert ByKeyKey(c1, k1, l1) == "bykey|" + (c1 + "|" + Joined(k1, l1));
    assert ByKeyKey(c2, k2, l2) == "bykey|" + (c2 + "|" + Joined(k2, l2));
    if ByKeyKey(c1, k1, l1) == ByKeyKey(c2, k2, l2) {
      SameHeads("bykey|", c1, Joined(k1, l1), c2, Joined(k2, l2));
    }
  }

  // ---- prefixes that meet --------------------------------------------------------------------------

  /** One of the two prefixes is a prefix of the other. */
  predicate Comparable(p: string, q: string) { p <= q || q <= p }

  lemma PrefixesMeet(p: string, q: string)
    ensures (exists rest :: p <= q + rest) <==> Comparable(p, q)
  {
    if q <= p {
      assert p <= q + p[|q|..];
    }
    if p <= q {
      assert p <= q + "";
    }
  }

  /** A scan of one collection can come across a document of another exactly when one name, with a
      pipe, begins the other. */
  lemma CollectionsMeet(c1: string, c2: string)
    ensures (exists id :: DocPrefix(c1) <= DocKey(c2, id)) <==> Comparable(c1 + "|", c2 + "|")
  {
    PrefixesMeet(DocPrefix(c1), DocPrefix(c2));
    assert DocPrefix(c1) == "doc|" + (c1 + "|") && DocPrefix(c2) == "doc|" + (c2 + "|");
    DropCommon("doc|", c1 + "|", c2 + "|");
    DropCommon("doc|", c2 + "|", c1 + "|");
    assert forall id :: DocKey(c2, id) == DocPrefix(c2) + id;
  }

  /** A metadata prefix can match a key of another pair exactly when one of the two, with its
      pipes, begins the other. */
  lemma PairsMeet(c1: string, k1: string, v1: string, c2: string, k2: string, v2: string)
    ensures (exists id :: MetaPrefix(c1, k1, v1) <= MetaKey(c2, k2, v2, id))
            <==> Comparable(MetaPrefix(c1, k1, v1), MetaPrefix(c2, k2, v2))
  {
    PrefixesMeet(MetaPrefix(c1, k1, v1), MetaPrefix(c2, k2, v2));
    assert forall id :: MetaKey(c2, k2, v2, id) == MetaPrefix(c2, k2, v2) + id;
  }

  predicate EndsWith(s: string, t: string) { |t| <= |s| && s[|s| - |t|..] == t }

  /** Some metadata give two documents of a collection a common index key exactly when one id ends
      with a pipe and the other. */
  lemma DocumentsMeet(c: string, id1: string, id2: string)
    requires id1 != id2
    ensures (exists k1, v1, k2, v2 :: MetaKey(c, k1, v1, id1) == MetaKey(c, k2, v2, id2))
            <==> EndsWith(id1, "|" + id2) || EndsWith(id2, "|" + id1)
  {
    if k1, v1, k2, v2 :| MetaKey(c, k1, v1, id1) == MetaKey(c, k2, v2, id2) {
      CommonEnd(MetaPrefix(c, k1, v1), id1, MetaPrefix(c, k2, v2), id2);
    }
    if EndsWith(id2, "|" + id1) {
      PipesInValue(c, id1, id2);
    }
    if EndsWith(id1, "|" + id2) {
      PipesInValue(c, id2, id1);
    }
  }

  lemma CommonEnd(p: string, a: string, q: string, b: string)
    requires p + a == q + b && a != b && p != "" && q != "" && p[|p| - 1] == '|' && q[|q| - 1] == '|'
    ensures EndsWith(a, "|" + b) || EndsWith(b, "|" + a)
  {
    var l, r := p + a, q + b;
    assert a == l[|p|..] && b == r[|q|..];
    if |a| < |b| {
      assert b[|b| - |a| - 1] == r[|p| - 1] == '|';
      assert b[|b| - |a|..] == r[|p|..] == a;
      assert b[|b| - |a| - 1..] == ['|'] + b[|b| - |a|..];
    } else if |b| < |a| {
      assert a[|a| - |b| - 1] == l[|q| - 1] == '|';
      assert a[|a| - |b|..] == l[|q|..] == b;
      assert a[|a| - |b| - 1..] == ['|'] + a[|a| - |b|..];
    }
  }

  lemma PipesInValue(c: string, short: string, long: string)
    requires EndsWith(long, "|" + short)
    ensures exists v :: MetaKey(c, "", v, short) == MetaKey(c, "", "", long)
  {
    var p := long[..|long| - |short| - 1];
    assert long == p + ("|" + short);
    assert MetaKey(c, "", "|" + p, short) == MetaKey(c, "", "", long);
  }

  /** A metadata prefix that matches a key matches it at the key's own separators, even
      when the rest (the id) has pipes of its own. */
  lemma MetaPrefixMatches(c1: string, k1: string, v1: string, c2: string, k2: string, v2: string, id2: string)
    requires Plain(c1) && Plain(k1) && Plain(v1) && Plain(c2) && Plain(k2) && Plain(v2)
    ensures MetaPrefix(c1, k1, v1) <= MetaKey(c2, k2, v2, id2) <==> c1 == c2 && k1 == k2 && v1 == v2
  {
    if MetaPrefix(c1, k1, v1) <= MetaKey(c2, k2, v2, id2) {
      var x, y := k1 + "|" + (v1 + "|" + ""), k2 + "|" + (v2 + "|" + id2);
      assert MetaPrefix(c1, k1, v1) == "meta|" + (c1 + "|" + x);
      assert MetaKey(c2, k2, v2, id2) == "meta|" + (c2 + "|" + y);
      DropCommon("meta|", c1 + "|" + x, c2 + "|" + y);
      HeadOfPrefix(c1, x, c2, y);
      HeadOfPrefix(k1, v1 + "|" + "", k2, v2 + "|" + id2);
      HeadOfPrefix(v1, "", v2, id2);
    }
  }

  lemma MetaKeyInjective(c1: string, k1: string, v1: string, id1: string, c2: string, k2: string, v2: string,
                         id2: string)
    requires Plain(c1) && Plain(k1) && Plain(v1) && Plain(c2) && Plain(k2) && Plain(v2)
    requires MetaKey(c1, k1, v1, id1) == MetaKey(c2, k2, v2, id2)
    ensures c1 == c2 && k1 == k2 && v1 == v2 && id1 == id2
  {
    MetaPrefixMatches(c1, k1, v1, c2, k2, v2, id2);
    assert id1 == MetaKey(c1, k1, v1, id1)[|MetaPrefix(c1, k1, v1)|..];
    assert id2 == MetaKey(c2, k2, v2, id2)[|MetaPrefix(c2, k2, v2)|..];
  }

  /** A pipe-free tail is determined by what precedes the last pipe. */
  lemma TailOfSuffix(x: string, a: string, y: string, b: string)
    requires Plain(a) && Plain(b)
    requires x + "|" + a == y + "|" + b
    ensures a == b && x == y
  {
    var l, r := x + "|" + a, y + "|" + b;
    assert l[|x|] == '|' && r[|x|] == l[|x|];
    assert r[|y|] == '|' && l[|y|] == r[|y|];
    assert |x| == |y|;
    assert a == l[|x| + 1..] && b == r[|y| + 1..];
    assert x == l[..|x|] && y == r[..|y|];
  }

  lemma MetaKeyForm(c: string, mk: string, mv: string, id: string)
    ensures MetaKey(c, mk, mv, id) == "meta|" + (c + "|" + ((mk + "|" + mv) + "|" + id))
  {
  }

  lemma SameHeads(p: string, a: string, x: string, b: string, y: string)
    requires Plain(a) && Plain(b) && p + (a + "|" + x) == p + (b + "|" + y)
    ensures a == b && x == y
  {
    DropCommon(p, a + "|" + x, b + "|" + y);
    DropCommon(p, b + "|" + y, a + "|" + x);
    HeadOfPrefix(a, x, b, y);
    HeadOfPrefix(b, y, a, x);
  }

  /** With plain ids a metadata key belongs to one document, whatever the metadata is. */
  lemma MetaKeyOwner(c1: string, k1: string, v1: string, id1: string, c2: string, k2: string, v2: string, id2: string)
    requires Plain(c1) && Plain(c2) && PlainID(id1) && PlainID(id2)
    requires MetaKey(c1, k1, v1, id1) == MetaKey(c2, k2, v2, id2)
    ensures c1 == c2 && id1 == id2
  {
    var x, y := k1 + "|" + v1, k2 + "|" + v2;
    MetaKeyForm(c1, k1, v1, id1);
    MetaKeyForm(c2, k2, v2, id2);
    SameHeads("meta|", c1, x + "|" + id1, c2, y + "|" + id2);
    SamePlainID(x, id1, y, id2);
  }

  lemma SamePlainID(x: string, id1: string, y: string, id2: string)
    requires PlainID(id1) && PlainID(id2) && x + "|" + id1 == y + "|" + id2
    ensures id1 == id2
  {
    var a1, k1, l1 :| Plain(a1) && Plain(k1) && Plain(l1) && id1 == GenID(a1, k1, l1);
    var a2, k2, l2 :| Plain(a2) && Plain(k2) && Plain(l2) && id2 == GenID(a2, k2, l2);
    SameNames(x, Lower(a1), Lower(k1), Lower(l1), y, Lower(a2), Lower(k2), Lower(l2)) by {
      LowerKeepsPipes(a1);
      LowerKeepsPipes(k1);
      LowerKeepsPipes(l1);
      LowerKeepsPipes(a2);
      LowerKeepsPipes(k2);
      LowerKeepsPipes(l2);
      assert x + "|" + id1 == ((x + "|" + Lower(a1)) + "|" + Lower(k1)) + "|" + Lower(l1);
      assert y + "|" + id2 == ((y + "|" + Lower(a2)) + "|" + Lower(k2)) + "|" + Lower(l2);
    }
  }

  lemma SameNames(x: string, a1: string, k1: string, l1: string, y: string, a2: string, k2: string, l2: string)
    requires Plain(a1) && Plain(k1) && Plain(l1) && Plain(a2) && Plain(k2) && Plain(l2)
    requires ((x + "|" + a1) + "|" + k1) + "|" + l1 == ((y + "|" + a2) + "|" + k2) + "|" + l2
    ensures a1 == a2 && k1 == k2 && l1 == l2
  {
    TailOfSuffix((x + "|" + a1) + "|" + k1, l1, (y + "|" + a2) + "|" + k2, l2);
    TailOfSuffix(x + "|" + a1, k1, y + "|" + a2, k2);
    TailOfSuffix(x, a1, y, a2);
  }

  lemma LowerOfJoined(key: string, lang: string)
    ensures Lower(Joined(key, lang)) == Lower(key) + "|" + Lower(lang)
  {
  }

  lemma GenIDForm(coll: string, key: string, lang: string)
    ensures GenID(coll, key, lang) == Lower(coll) + "|" + Lower(Joined(key, lang))
  {
    LowerOfJoined(key, lang);
  }

  /** In one collection ids are told apart by the lower-cased joined names only. */
  lemma SameIDIff(coll: string, k1: string, l1: string, k2: string, l2: string)
    ensures GenID(coll, k1, l1) == GenID(coll, k2, l2) <==> Lower(Joined(k1, l1)) == Lower(Joined(k2, l2))
  {
    GenIDForm(coll, k1, l1);
    GenIDForm(coll, k2, l2);
    DropCommon(Lower(coll) + "|", Lower(Joined(k1, l1)), Lower(Joined(k2, l2)));
    DropCommon(Lower(coll) + "|", Lower(Joined(k2, l2)), Lower(Joined(k1, l1)));
  }

  /** With pipe-free names, by the lower-cased names. */
  lemma GenIDInjective(c1: string, k1: string, l1: string, c2: string, k2: string, l2: string)
    requires Plain(c1) && Plain(k1) && Plain(c2) && Plain(k2)
    ensures GenID(c1, k1, l1) == GenID(c2, k2, l2)
            <==> Lower(c1) == Lower(c2) && Lower(k1) == Lower(k2) && Lower(l1) == Lower(l2)
  {
    LowerKeepsPipes(c1);
    LowerKeepsPipes(c2);
    LowerKeepsPipes(k1);
    LowerKeepsPipes(k2);
    if GenID(c1, k1, l1) == GenID(c2, k2, l2) {
      var x, y := Lower(k1) + "|" + Lower(l1), Lower(k2) + "|" + Lower(l2);
      assert GenID(c1, k1, l1) == Lower(c1) + "|" + x && GenID(c2, k2, l2) == Lower(c2) + "|" + y;
      HeadOfPrefix(Lower(c1), x, Lower(c2), y);
      HeadOfPrefix(Lower(k1), Lower(l1), Lower(k2), Lower(l2));
      HeadOfPrefix(Lower(c2), y, Lower(c1), x);
      HeadOfPrefix(Lower(k2), Lower(l2), Lower(k1), Lower(l1));
    }
  }

  lemma IdPrefixMatches(a1: string, k1: string, l1: string, a2: string, k2: string, l2: string, rest: string)
    requires Plain(a1) && Plain(k1) && Plain(l1) && Plain(a2) && Plain(k2) && Plain(l2)
    requires GenID(a1, k1, l1) + "|" <= GenID(a2, k2, l2) + "|" + rest
    ensures GenID(a1, k1, l1) == GenID(a2, k2, l2)
  {
    LowerKeepsPipes(a1);
    LowerKeepsPipes(k1);
    LowerKeepsPipes(l1);
    LowerKeepsPipes(a2);
    LowerKeepsPipes(k2);
    LowerKeepsPipes(l2);
    var x2, y2 := Lower(l1) + "|" + "", Lower(l2) + "|" + rest;
    var x1, y1 := Lower(k1) + "|" + x2, Lower(k2) + "|" + y2;
    assert GenID(a1, k1, l1) + "|" == Lower(a1) + "|" + x1;
    assert GenID(a2, k2, l2) + "|" + rest == Lower(a2) + "|" + y1;
    HeadOfPrefix(Lower(a1), x1, Lower(a2), y1);
    HeadOfPrefix(Lower(k1), x2, Lower(k2), y2);
    HeadOfPrefix(Lower(l1), "", Lower(l2), rest);
  }

  lemma PlainIDPrefix(id1: string, id2: string, rest: string)
    requires PlainID(id1) && PlainID(id2)
    requires id1 + "|" <= id2 + "|" + rest
    ensures id1 == id2
  {
    var a1, k1, l1 :| Plain(a1) && Plain(k1) && Plain(l1) && id1 == GenID(a1, k1, l1);
    var a2, k2, l2 :| Plain(a2) && Plain(k2) && Plain(l2) && id2 == GenID(a2, k2, l2);
    IdPrefixMatches(a1, k1, l1, a2, k2, l2, rest);
  }

  lemma RevPrefixForm(c: string, id: string, rest: string)
    ensures RevPrefix(c, id) + rest == "rev|" + (c + "|" + (id + "|" + rest))
  {
  }

  /** A revision key determines its document and its time, whatever pipes the id has. */
  lemma RevKeyInjective(c1: string, id1: string, t1: Time, c2: string, id2: string, t2: Time)
    requires Plain(c1) && Plain(c2) && RevKey(c1, id1, t1) == RevKey(c2, id2, t2)
    ensures c1 == c2 && id1 == id2 && t1 == t2
  {
    RevPrefixForm(c1, id1, Stamp(t1));
    RevPrefixForm(c2, id2, Stamp(t2));
    var x, y := id1 + "|" + Stamp(t1), id2 + "|" + Stamp(t2);
    SameHeads("rev|", c1, x, c2, y);
    assert |id1| == |id2|;
    assert id1 == x[..|id1|] && id2 == y[..|id2|];
    RevKeyOrder(c1, id1, t1, t2);
  }

  lemma {:induction false} StampIsPlain(n: nat, w: nat)
    ensures Plain(Pad(n, w))
  {
    if w > 0 {
      StampIsPlain(n / 10, w - 1);
    }
  }

  /** The id, and a pipe, begin the other id and a pipe: the other's revisions lie under the prefix. */
  predicate Begins(id: string, other: string) { id + "|" <= other + "|" }

  /** A revision lies under a revision prefix exactly when collection and id, with their pipes, begin
      its own. */
  lemma RevisionsMeet(c1: string, id1: string, c2: string, id2: string, t: Time)
    ensures IsRevOf(RevKey(c2, id2, t), c1, id1) <==> c1 + "|" + id1 + "|" <= c2 + "|" + id2 + "|"
  {
    var x, y := c1 + "|" + id1 + "|", c2 + "|" + id2 + "|";
    assert RevPrefix(c1, id1) == "rev|" + x && RevKey(c2, id2, t) == "rev|" + (y + Stamp(t));
    DropCommon("rev|", x, y + Stamp(t));
    StampIsPlain(t, 20);
    if x <= y + Stamp(t) {
      PipeBefore(x, y, Stamp(t));
    }
  }

  /** Within pipe-free collections: exactly when the collection is the same and the id begins the other. */
  lemma RevisionUnderIff(c1: string, id1: string, c2: string, id2: string, t: Time)
    requires Plain(c1) && Plain(c2)
    ensures IsRevOf(RevKey(c2, id2, t), c1, id1) <==> c1 == c2 && Begins(id1, id2)
  {
    var x, y := id1 + "|", id2 + "|";
    RevisionsMeet(c1, id1, c2, id2, t);
    assert c1 + "|" + id1 + "|" == c1 + "|" + x && c2 + "|" + id2 + "|" == c2 + "|" + y;
    if IsRevOf(RevKey(c2, id2, t), c1, id1) {
      HeadOfPrefix(c1, x, c2, y);
    }
    if c1 == c2 {
      DropCommon(c1 + "|", x, y);
    }
  }

  lemma PipeBefore(x: string, y: string, tail: string)
    requires x != "" && x[|x| - 1] == '|' && Plain(tail) && x <= y + tail
    ensures x <= y
  {
    assert x[|x| - 1] == (y + tail)[|x| - 1];
    assert forall i | |y| <= i < |y + tail| :: (y + tail)[i] == tail[i - |y|];
  }

  /** Revision keys of one document sort by time. */
  lemma RevKeyOrder(coll: string, id: string, t1: Time, t2: Time)
    ensures Less(RevKey(coll, id, t1), RevKey(coll, id, t2)) <==> t1 < t2
    ensures RevKey(coll, id, t1) == RevKey(coll, id, t2) <==> t1 == t2
  {
    LessAfterPrefix(RevPrefix(coll, id), Stamp(t1), Stamp(t2));
    StampOrder(t1, t2);
    if RevKey(coll, id, t1) == RevKey(coll, id, t2) {
      assert Stamp(t1) == RevKey(coll, id, t1)[|RevPrefix(coll, id)|..];
      assert Stamp(t2) == RevKey(coll, id, t2)[|RevPrefix(coll, id)|..];
      StampDecodes(t1);
      StampDecodes(t2);
    }
  }

  // ---- the collection inside a key ----------------------------------------------------------

  /** What stands before the first pipe; empty when there is no pipe. */
  function UpToPipe(s: string): string
  {
    if '|' !in s then "" else if s[0] == '|' then "" else [s[0]] + UpToPipe(s[1..])
  }

  /** The collection of a key "{tag}{collection}|...", empty for any other key. */
  function CollectionAfter(tag: string, k: string): string {
    if tag <= k then UpToPipe(k[|tag|..]) else ""
  }

  function CollOf(docKey: string): string { CollectionAfter("doc|", docKey) }

  lemma {:induction false} UpToPipeReads(c: string, rest: string)
    requires Plain(c)
    ensures UpToPipe(c + "|" + rest) == c
    decreases |c|
  {
    var s := c + "|" + rest;
    assert s[|c|] == '|';
    if c != [] {
      assert s[1..] == c[1..] + "|" + rest;
      assert forall i | 0 <= i < |c[1..]| :: c[1..][i] == c[i + 1];
      UpToPipeReads(c[1..], rest);
      assert c == [c[0]] + c[1..];
    }
  }

  lemma {:induction false} UpToPipeIsPlain(s: string)
    ensures Plain(UpToPipe(s))
  {
    if '|' in s && s[0] != '|' {
      UpToPipeIsPlain(s[1..]);
    }
  }

  /** The collection is read back from a document key exactly when it has no pipe. */
  lemma CollOfDocKey(coll: string, id: string)
    ensures CollOf(DocKey(coll, id)) == coll <==> Plain(coll)
  {
    assert DocKey(coll, id) == "doc|" + (coll + "|" + id);
    assert DocKey(coll, id)[4..] == coll + "|" + id;
    UpToPipeIsPlain(coll + "|" + id);
    if Plain(coll) {
      UpToPipeReads(coll, id);
    }
  }
}
