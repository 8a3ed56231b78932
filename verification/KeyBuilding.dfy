/** Keys built in a fixed 512-byte buffer (services/mddbd/keybuilder.go) and the timestamp
    formatter that writes in place (services/mddbd/bytes_utils.go). */
module KeyBuilding {
  import opened ByteStrings
  import opened Keys

  const BUFFER: nat := 512

  // ---- timestamps -----------------------------------------------------------------------

  /** What the formatter writes: the padded number, and zeros for a negative one. */
  function Stamped(timestamp: int): string { Pad(if timestamp > 0 then timestamp else 0, 20) }

  lemma {:induction false} PadOfZero(w: nat)
    ensures forall i | 0 <= i < w :: Pad(0, w)[i] == '0'
  {
    if w > 0 {
      PadOfZero(w - 1);
    }
  }

  function Reversed(s: string): (r: string)
    ensures |r| == |s|
    ensures forall i | 0 <= i < |s| :: r[i] == s[|s| - 1 - i]
  {
    seq(|s|, i requires 0 <= i < |s| => s[|s| - 1 - i])
  }

  /** Writes into buf[lo..hi] when 20 bytes fit there, into a new array otherwise. */
  method FormatTimestamp(timestamp: int, buf: array<char>, lo: nat, hi: nat) returns (out: array<char>, at: nat)
    requires lo <= hi <= buf.Length && timestamp <= MAX_INT64
    modifies buf
    ensures at + 20 <= out.Length && out[at..at + 20] == Stamped(timestamp)
    ensures hi - lo >= 20 ==> out == buf && at == lo
    ensures hi - lo < 20 ==> fresh(out)
    ensures forall i | 0 <= i < buf.Length && !(hi - lo >= 20 && lo <= i < lo + 20) :: buf[i] == old(buf[i])
  {
    out, at := buf, lo;
    if hi - lo < 20 {
      out, at := new char[20], 0;
    }
    if timestamp == 0 {
      PutZeros(out, at, 20);
      return;
    }
    var digits := DigitsOf(timestamp);
    PutPadded(out, at, digits);
  }

  method PutPadded(out: array<char>, at: nat, digits: string)
    requires |digits| <= 20 && at + 20 <= out.Length
    modifies out
    ensures out[at..at + 20] == Pad(0, 20 - |digits|) + Reversed(digits)
    ensures forall j | 0 <= j < out.Length && !(at <= j < at + 20) :: out[j] == old(out[j])
  {
    var padding := 20 - |digits|;
    PutZeros(out, at, padding);
    ghost var zeros := out[at..at + padding];
    PutReversed(out, at + padding, digits);
    assert out[at..at + padding] == zeros;
    assert out[at..at + 20] == out[at..at + padding] + out[at + padding..at + 20];
  }

  method PutZeros(out: array<char>, at: nat, count: nat)
    requires at + count <= out.Length
    modifies out
    ensures out[at..at + count] == Pad(0, count)
    ensures forall j | 0 <= j < out.Length && !(at <= j < at + count) :: out[j] == old(out[j])
  {
    PadOfZero(count);
    for i := 0 to count
      invariant forall j | at <= j < at + i :: out[j] == '0'
      invariant forall j | 0 <= j < out.Length && !(at <= j < at + count) :: out[j] == old(out[j])
    {
      out[at + i] := '0';
    }
  }

  method PutReversed(out: array<char>, at: nat, digits: string)
    requires at + |digits| <= out.Length
    modifies out
    ensures out[at..at + |digits|] == Reversed(digits)
    ensures forall j | 0 <= j < out.Length && !(at <= j < at + |digits|) :: out[j] == old(out[j])
  {
    for i := 0 to |digits|
      invariant forall j | at <= j < at + i :: out[j] == Reversed(digits)[j - at]
      invariant forall j | 0 <= j < out.Length && !(at <= j < at + |digits|) :: out[j] == old(out[j])
    {
      out[at + i] := digits[|digits| - 1 - i];
    }
  }

  /** The digits of a number, last one first; none for a negative number. */
  method DigitsOf(timestamp: int) returns (digits: string)
    requires timestamp <= MAX_INT64
    ensures |digits| <= 20 && Stamped(timestamp) == Pad(0, 20 - |digits|) + Reversed(digits)
  {
    var n := timestamp;
    digits := [];
    Power10Of20();
    assert Stamped(timestamp) == Pad(if n > 0 then n else 0, 20) + Reversed([]);
    while n > 0
      invariant |digits| <= 20 && n < Power10(20 - |digits|)
      invariant Stamped(timestamp) == Pad(if n > 0 then n else 0, 20 - |digits|) + Reversed(digits)
    {
      assert Pad(n, 20 - |digits|) == Pad(n / 10, 19 - |digits|) + [Digit(n % 10)];
      assert Reversed(digits + [Digit(n % 10)]) == [Digit(n % 10)] + Reversed(digits);
      digits := digits + [Digit(n % 10)];
      n := n / 10;
    }
  }

  /** On the clock's range both formatters agree. */
  lemma StampedIsStamp(t: Time)
    ensures Stamped(t) == Stamp(t)
  {
  }

  // ---- the buffer ------------------------------------------------------------------------

  /** What fits into the buffer. */
  function Cut(s: string): string { if |s| <= BUFFER then s else s[..BUFFER] }

  class KeyBuilder {
    const buf: array<char>

    ghost predicate Valid() { buf.Length == BUFFER }

    /** The first n bytes are `text` as far as it fits. */
    ghost predicate Holds(n: nat, text: string)
      reads buf
    {
      Valid() && n == |Cut(text)| && buf[..n] == Cut(text)
    }

    constructor ()
      ensures Valid() && fresh(buf)
    {
      buf := new char[BUFFER];
    }

    /** n += copy(buf[n:], s): copies as much as fits. */
    method Copy(n: nat, s: string, ghost text: string) returns (m: nat)
      requires Holds(n, text)
      modifies buf
      ensures Holds(m, text + s)
    {
      m := n;
      while m < BUFFER && m - n < |s|
        invariant n <= m <= BUFFER && m - n <= |s|
        invariant buf[..m] == Cut(text) + s[..m - n]
      {
        buf[m] := s[m - n];
        m := m + 1;
      }
      if |text| <= BUFFER {
        assert (text + s)[..m] == text + s[..m - n];
      } else {
        assert (text + s)[..BUFFER] == text[..BUFFER];
      }
    }

    /** buf[n] = '|'; n++: a panic when the buffer is full. */
    method Separate(n: nat, ghost text: string) returns (m: Option<nat>)
      requires Holds(n, text)
      modifies buf
      ensures m.Some? <==> |text| < BUFFER
      ensures m.Some? ==> Holds(m.value, text + "|")
    {
      if n >= BUFFER {
        return None;
      }
      buf[n] := '|';
      m := Some(n + 1);
    }

    /** The key when it fits; a longer id is cut without notice, and a collection that leaves
        no room for the separator panics. */
    method BuildDocKey(coll: string, id: string) returns (r: Option<nat>)
      requires Valid()
      modifies buf
      ensures r.None? <==> |"doc|" + coll| >= BUFFER
      ensures r.Some? ==> Holds(r.value, DocKey(coll, id))
    {
      var n := Copy(0, "doc|", "");
      n := Copy(n, coll, "" + "doc|");
      r := Separate(n, "" + "doc|" + coll);
      if r.Some? {
        n := Copy(r.value, id, "" + "doc|" + coll + "|");
        assert "" + "doc|" + coll + "|" + id == DocKey(coll, id);
        r := Some(n);
      }
    }

    method BuildByKey(coll: string, key: string, lang: string) returns (r: Option<nat>)
      requires Valid()
      modifies buf
      ensures r.None? <==> |"bykey|" + coll + "|" + key| >= BUFFER
      ensures r.Some? ==> Holds(r.value, ByKeyKey(coll, key, lang))
    {
      ghost var text := "" + "bykey|";
      var n := Copy(0, "bykey|", "");
      n := Copy(n, coll, text);
      text := text + coll;
      r := Separate(n, text);
      if r.Some? {
        text := text + "|";
        n := Copy(r.value, key, text);
        text := text + key;
        r := Separate(n, text);
        if r.Some? {
          n := Copy(r.value, lang, text + "|");
          assert text + "|" + lang == ByKeyKey(coll, key, lang);
          r := Some(n);
        }
      }
    }

    method BuildRevPrefix(coll: string, id: string) returns (r: Option<nat>)
      requires Valid()
      modifies buf
      ensures r.None? <==> |"rev|" + coll + "|" + id| >= BUFFER
      ensures r.Some? ==> Holds(r.value, RevPrefix(coll, id))
    {
      ghost var text := "" + "rev|";
      var n := Copy(0, "rev|", "");
      n := Copy(n, coll, text);
      text := text + coll;
      r := Separate(n, text);
      if r.Some? {
        text := text + "|";
        n := Copy(r.value, id, text);
        text := text + id;
        r := Separate(n, text);
        assert text + "|" == RevPrefix(coll, id);
      }
    }

    /** Slicing 20 bytes for the stamp panics too when they are not there. */
    method BuildRevKey(coll: string, id: string, t: Time) returns (r: Option<nat>)
      requires Valid()
      modifies buf
      ensures r.Some? <==> |RevKey(coll, id, t)| <= BUFFER
      ensures r.Some? ==> Holds(r.value, RevKey(coll, id, t))
    {
      r := BuildRevPrefix(coll, id);
      if r.Some? {
        var n := r.value;
        if n + 20 > BUFFER {
          return None;
        }
        var out, at := FormatTimestamp(t, buf, n, n + 20);
        assert buf[..n] == RevPrefix(coll, id);
        assert buf[..n + 20] == buf[..n] + buf[n..n + 20];
        r := Some(n + 20);
      }
    }

    method BuildMetaKeyPrefix(coll: string, mk: string, mv: string) returns (r: Option<nat>)
      requires Valid()
      modifies buf
      ensures r.None? <==> |"meta|" + coll + "|" + mk + "|" + mv| >= BUFFER
      ensures r.Some? ==> Holds(r.value, MetaPrefix(coll, mk, mv))
    {
      ghost var text := "" + "meta|";
      var n := Copy(0, "meta|", "");
      n := Copy(n, coll, text);
      text := text + coll;
      r := Separate(n, text);
      if r.Some? {
        text := text + "|";
        n := Copy(r.value, mk, text);
        text := text + mk;
        r := Separate(n, text);
        if r.Some? {
          text := text + "|";
          n := Copy(r.value, mv, text);
          text := text + mv;
          r := Separate(n, text);
          assert text + "|" == MetaPrefix(coll, mk, mv);
        }
      }
    }

    method BuildMetaKey(coll: string, mk: string, mv: string, docID: string) returns (r: Option<nat>)
      requires Valid()
      modifies buf
      ensures r.None? <==> |"meta|" + coll + "|" + mk + "|" + mv| >= BUFFER
      ensures r.Some? ==> Holds(r.value, MetaKey(coll, mk, mv, docID))
    {
      r := BuildMetaKeyPrefix(coll, mk, mv);
      if r.Some? {
        var n := Copy(r.value, docID, MetaPrefix(coll, mk, mv));
        r := Some(n);
      }
    }
  }

  // ---- what two built keys say about their parts ------------------------------------------------

  /** What fits into `room` bytes. */
  function CutTo(s: string, room: nat): string { if |s| <= room then s else s[..room] }

  lemma CutAfter(p: string, s: string)
    requires |p| <= BUFFER
    ensures Cut(p + s) == p + CutTo(s, BUFFER - |p|)
  {
  }

  lemma SameBuffers(a: KeyBuilder, n: nat, text1: string, b: KeyBuilder, m: nat, text2: string)
    requires a.Holds(n, text1) && b.Holds(m, text2)
    ensures a.buf[..n] == b.buf[..m] <==> Cut(text1) == Cut(text2)
  {
  }

  lemma SameAfter(p: string, x: string, y: string)
    ensures p + x == p + y <==> x == y
  {
    DropCommon(p, x, y);
    DropCommon(p, y, x);
  }

  /** Two built document keys are equal exactly when the collections are, and the ids as far as they fit. */
  lemma SameDocKeyIff(a: KeyBuilder, n: nat, c1: string, id1: string, b: KeyBuilder, m: nat, c2: string, id2: string)
    requires a.Holds(n, DocKey(c1, id1)) && |DocPrefix(c1)| <= BUFFER
    requires b.Holds(m, DocKey(c2, id2)) && |DocPrefix(c2)| <= BUFFER
    requires Plain(c1) && Plain(c2)
    ensures var room := BUFFER - |DocPrefix(c1)|;
            a.buf[..n] == b.buf[..m] <==> c1 == c2 && CutTo(id1, room) == CutTo(id2, room)
  {
    SameBuffers(a, n, DocKey(c1, id1), b, m, DocKey(c2, id2));
    CutAfter(DocPrefix(c1), id1);
    CutAfter(DocPrefix(c2), id2);
    if a.buf[..n] == b.buf[..m] {
      assert DocPrefix(c1) <= Cut(DocKey(c2, id2)) <= DocKey(c2, id2);
      DocKeyInjective(c1, id1, c2, id2);
    }
    SameAfter(DocPrefix(c1), CutTo(id1, BUFFER - |DocPrefix(c1)|), CutTo(id2, BUFFER - |DocPrefix(c1)|));
  }

  function EntryPrefix(coll: string): string { "bykey|" + coll + "|" }

  /** Two built key-index keys are equal exactly when the collections are, and key and language,
      joined, as far as they fit. */
  lemma SameByKeyIff(a: KeyBuilder, n: nat, c1: string, k1: string, l1: string, b: KeyBuilder, m: nat, c2: string,
                     k2: string, l2: string)
    requires a.Holds(n, ByKeyKey(c1, k1, l1)) && |EntryPrefix(c1)| <= BUFFER
    requires b.Holds(m, ByKeyKey(c2, k2, l2)) && |EntryPrefix(c2)| <= BUFFER
    requires Plain(c1) && Plain(c2)
    ensures var room := BUFFER - |EntryPrefix(c1)|;
            a.buf[..n] == b.buf[..m] <==> c1 == c2 && CutTo(Joined(k1, l1), room) == CutTo(Joined(k2, l2), room)
  {
    var p, q, x, y := EntryPrefix(c1), EntryPrefix(c2), Joined(k1, l1), Joined(k2, l2);
    assert ByKeyKey(c1, k1, l1) == p + x && ByKeyKey(c2, k2, l2) == q + y;
    SameBuffers(a, n, p + x, b, m, q + y);
    CutAfter(p, x);
    CutAfter(q, y);
    if a.buf[..n] == b.buf[..m] {
      SameCollection("bykey|", c1, CutTo(x, BUFFER - |p|), c2, CutTo(y, BUFFER - |q|));
    }
    SameAfter(p, CutTo(x, BUFFER - |p|), CutTo(y, BUFFER - |p|));
  }

  lemma SameCollection(tag: string, c1: string, x: string, c2: string, y: string)
    requires Plain(c1) && Plain(c2) && (tag + c1 + "|") + x == (tag + c2 + "|") + y
    ensures c1 == c2
  {
    assert (tag + c1 + "|") + x == tag + (c1 + "|" + x) && (tag + c2 + "|") + y == tag + (c2 + "|" + y);
    SameHeads(tag, c1, x, c2, y);
  }

  /** A revision key is built whole or not at all: two are equal exactly when all their parts are. */
  lemma SameRevKeyIff(a: KeyBuilder, n: nat, c1: string, id1: string, t1: Time, b: KeyBuilder, m: nat, c2: string,
                      id2: string, t2: Time)
    requires a.Holds(n, RevKey(c1, id1, t1)) && |RevKey(c1, id1, t1)| <= BUFFER
    requires b.Holds(m, RevKey(c2, id2, t2)) && |RevKey(c2, id2, t2)| <= BUFFER
    requires Plain(c1) && Plain(c2)
    ensures a.buf[..n] == b.buf[..m] <==> c1 == c2 && id1 == id2 && t1 == t2
  {
    SameBuffers(a, n, RevKey(c1, id1, t1), b, m, RevKey(c2, id2, t2));
    if a.buf[..n] == b.buf[..m] {
      RevKeyInjective(c1, id1, t1, c2, id2, t2);
    }
  }

  /** Two built metadata keys of pipe-free collections and pairs are equal exactly when those are,
      and the ids as far as they fit. */
  lemma SameMetaKeyIff(a: KeyBuilder, n: nat, c1: string, k1: string, v1: string, id1: string,
                       b: KeyBuilder, m: nat, c2: string, k2: string, v2: string, id2: string)
    requires a.Holds(n, MetaKey(c1, k1, v1, id1)) && |MetaPrefix(c1, k1, v1)| <= BUFFER
    requires b.Holds(m, MetaKey(c2, k2, v2, id2)) && |MetaPrefix(c2, k2, v2)| <= BUFFER
    requires Plain(c1) && Plain(k1) && Plain(v1) && Plain(c2) && Plain(k2) && Plain(v2)
    ensures var room := BUFFER - |MetaPrefix(c1, k1, v1)|;
            a.buf[..n] == b.buf[..m] <==> c1 == c2 && k1 == k2 && v1 == v2 && CutTo(id1, room) == CutTo(id2, room)
  {
    var p, q := MetaPrefix(c1, k1, v1), MetaPrefix(c2, k2, v2);
    SameBuffers(a, n, p + id1, b, m, q + id2);
    CutAfter(p, id1);
    CutAfter(q, id2);
    if a.buf[..n] == b.buf[..m] {
      assert p <= Cut(q + id2) <= q + id2;
      MetaPrefixMatches(c1, k1, v1, c2, k2, v2, id2);
    }
    SameAfter(p, CutTo(id1, BUFFER - |p|), CutTo(id2, BUFFER - |p|));
  }
}
