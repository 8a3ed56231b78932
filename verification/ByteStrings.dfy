/** Byte strings: the order bbolt keeps its keys in, splitting on a separator, and the
    20-digit timestamps of revision keys (services/mddbd/bytes_utils.go).

    A byte string is a `string` whose characters stand for bytes. */
module ByteStrings {

  datatype Option<+T> = None | Some(value: T)

  // ---- the byte order -------------------------------------------------------------

  /** Strict lexicographic order, a proper prefix coming first. */
  predicate Less(a: string, b: string)
    decreases |a|
  {
    |b| > 0 && (|a| == 0 || a[0] < b[0] || (a[0] == b[0] && Less(a[1..], b[1..])))
  }

  lemma {:induction false} LessTotal(a: string, b: string)
    ensures Less(a, b) || a == b || Less(b, a)
    decreases |a|
  {
    if |a| > 0 && |b| > 0 && a[0] == b[0] {
      LessTotal(a[1..], b[1..]);
      assert a == [a[0]] + a[1..] && b == [b[0]] + b[1..];
    }
  }

  lemma {:induction false} LessTransitive(a: string, b: string, c: string)
    requires Less(a, b) && Less(b, c)
    ensures Less(a, c)
    decreases |a|
  {
    if |a| > 0 && a[0] == b[0] && b[0] == c[0] {
      LessTransitive(a[1..], b[1..], c[1..]);
    }
  }

  lemma {:induction false} LessAsymmetric(a: string, b: string)
    requires Less(a, b)
    ensures !Less(b, a) && a != b
    decreases |a|
  {
    if |a| > 0 && a[0] == b[0] {
      LessAsymmetric(a[1..], b[1..]);
    }
  }

  /** A common prefix does not matter. */
  lemma {:induction false} LessAfterPrefix(p: string, a: string, b: string)
    ensures Less(p + a, p + b) <==> Less(a, b)
    decreases |p|
  {
    if p == [] {
      assert p + a == a && p + b == b;
    } else {
      assert (p + a)[1..] == p[1..] + a && (p + b)[1..] == p[1..] + b;
      LessAfterPrefix(p[1..], a, b);
    }
  }

  /** Two strings of one length that already differ keep their order whatever follows. */
  lemma {:induction false} LessBeforeSuffix(a: string, b: string, x: string, y: string)
    requires |a| == |b| && Less(a, b)
    ensures Less(a + x, b + y)
    decreases |a|
  {
    if a[0] == b[0] {
      assert (a + x)[1..] == a[1..] + x && (b + y)[1..] == b[1..] + y;
      LessBeforeSuffix(a[1..], b[1..], x, y);
    }
  }

  /** The three-way comparison of two byte slices decides the order. */
  method CompareBytes(a: string, b: string) returns (r: int)
    ensures r == -1 || r == 0 || r == 1
    ensures r == -1 <==> Less(a, b)
    ensures r == 0 <==> a == b
    ensures r == 1 <==> Less(b, a)
  {
    var minLen := |a|;
    if |b| < minLen {
      minLen := |b|;
    }
    for i := 0 to minLen
      invariant a[..i] == b[..i]
    {
      SplitAtIndex(a, b, i);
      if a[i] < b[i] {
        LessAsymmetric(a, b);
        return -1;
      }
      if a[i] > b[i] {
        LessAsymmetric(b, a);
        return 1;
      }
    }
    SplitAtIndex(a, b, minLen);
    if |a| < |b| {
      LessAsymmetric(a, b);
      return -1;
    }
    if |a| > |b| {
      LessAsymmetric(b, a);
      return 1;
    }
    assert a == a[..minLen] == b;
    if Less(a, b) {
      LessAsymmetric(a, b);
    }
    return 0;
  }

  lemma SplitAtIndex(a: string, b: string, i: nat)
    requires i <= |a| && i <= |b| && a[..i] == b[..i]
    ensures Less(a, b) <==> Less(a[i..], b[i..])
    ensures Less(b, a) <==> Less(b[i..], a[i..])
  {
    assert a == a[..i] + a[i..] && b == a[..i] + b[i..];
    LessAfterPrefix(a[..i], a[i..], b[i..]);
    LessAfterPrefix(a[..i], b[i..], a[i..]);
  }

  // ---- sets of keys in byte order ---------------------------------------------------

  ghost predicate Ascending(ks: seq<string>)
  {
    forall i, j | 0 <= i < j < |ks| :: Less(ks[i], ks[j])
  }

  predicate IsLeast(m: string, s: set<string>)
  {
    m in s && forall x | x in s :: x == m || Less(m, x)
  }

  lemma {:induction false} LeastExists(s: set<string>)
    requires s != {}
    ensures exists m :: IsLeast(m, s)
  {
    var x :| x in s;
    var rest := s - {x};
    if rest == {} {
      assert s == {x};
      assert IsLeast(x, s);
    } else {
      LeastExists(rest);
      var m :| IsLeast(m, rest);
      LessTotal(x, m);
      if Less(x, m) {
        forall y | y in s ensures y == x || Less(x, y) {
          if y != x && y != m {
            LessTransitive(x, m, y);
          }
        }
        assert IsLeast(x, s);
      } else {
        assert IsLeast(m, s);
      }
    }
  }

  lemma LeastIsUnique(s: set<string>)
    ensures forall m, n | IsLeast(m, s) && IsLeast(n, s) :: m == n
  {
    forall m, n | IsLeast(m, s) && IsLeast(n, s) ensures m == n {
      if m != n {
        LessAsymmetric(m, n);
      }
    }
  }

  /** What a cursor yields over a set of keys: all of them, once, in byte order. */
  function InOrder(s: set<string>): (ks: seq<string>)
    ensures Ascending(ks)
    ensures forall k :: k in ks <==> k in s
    ensures |ks| == |s|
  {
    if s == {} then []
    else
      LeastExists(s);
      LeastIsUnique(s);
      var m :| IsLeast(m, s);
      var rest := InOrder(s - {m});
      assert forall i | 0 <= i < |rest| :: rest[i] in s - {m};
      [m] + rest
  }

  /** Ascending sequences with the same elements are the same sequence. */
  lemma {:induction false} AscendingIsUnique(a: seq<string>, b: seq<string>)
    requires Ascending(a) && Ascending(b)
    requires forall k :: k in a <==> k in b
    ensures a == b
    decreases |a|
  {
    assert b != [] ==> b[0] in a;
    if a != [] {
      assert a[0] in b;
      var i :| 0 <= i < |b| && b[i] == a[0];
      var j :| 0 <= j < |a| && a[j] == b[0];
      if i > 0 && j > 0 {
        LessAsymmetric(a[0], a[j]);
      }
      forall k ensures k in a[1..] <==> k in b[1..] {
        TailMembers(a, k);
        TailMembers(b, k);
      }
      AscendingIsUnique(a[1..], b[1..]);
    }
  }

  lemma TailMembers(a: seq<string>, k: string)
    requires Ascending(a) && a != []
    ensures k in a[1..] <==> k in a && k != a[0]
  {
    if k in a[1..] {
      var i :| 0 <= i < |a[1..]| && a[1..][i] == k;
      assert a[i + 1] == k;
      LessAsymmetric(a[0], a[i + 1]);
    }
    if k in a && k != a[0] {
      var i :| 0 <= i < |a| && a[i] == k;
      assert a[1..][i - 1] == k;
    }
  }

  // ---- splitting --------------------------------------------------------------------

  /** The parts between separators; one part when there is no separator. */
  function Split(data: string, sep: char): (parts: seq<string>)
    ensures parts != []
  {
    if data == [] then [[]]
    else
      var rest := Split(data[1..], sep);
      if data[0] == sep then [[]] + rest
      else [[data[0]] + rest[0]] + rest[1..]
  }

  function Join(parts: seq<string>, sep: char): string
  {
    if parts == [] then []
    else if |parts| == 1 then parts[0]
    else parts[0] + [sep] + Join(parts[1..], sep)
  }

  lemma {:induction false} JoinSplit(data: string, sep: char)
    ensures Join(Split(data, sep), sep) == data
  {
    if data != [] {
      JoinSplit(data[1..], sep);
      var rest := Split(data[1..], sep);
      var parts := Split(data, sep);
      if data[0] == sep {
        assert parts[1..] == rest;
      } else {
        assert parts[1..] == rest[1..];
        if |rest| > 1 {
          assert Join(parts, sep) == [data[0]] + (rest[0] + [sep] + Join(rest[1..], sep));
        }
      }
      assert data == [data[0]] + data[1..];
    }
  }

  /** Splitting a part without separators followed by a separator. */
  lemma {:induction false} SplitFirst(p: string, rest: string, sep: char)
    requires sep !in p
    ensures Split(p + [sep] + rest, sep) == [p] + Split(rest, sep)
    decreases |p|
  {
    var data := p + [sep] + rest;
    if p == [] {
      assert data[1..] == rest;
    } else {
      assert data[1..] == p[1..] + [sep] + rest;
      assert forall i | 0 <= i < |p[1..]| :: p[1..][i] == p[i + 1];
      SplitFirst(p[1..], rest, sep);
      assert [p[0]] + p[1..] == p;
    }
  }

  lemma {:induction false} SplitNone(p: string, sep: char)
    requires sep !in p
    ensures Split(p, sep) == [p]
    decreases |p|
  {
    if p != [] {
      assert forall i | 0 <= i < |p[1..]| :: p[1..][i] == p[i + 1];
      SplitNone(p[1..], sep);
      assert [p[0]] + p[1..] == p;
    }
  }

  lemma {:induction false} SplitJoin(parts: seq<string>, sep: char)
    requires parts != [] && forall p | p in parts :: sep !in p
    ensures Split(Join(parts, sep), sep) == parts
  {
    if |parts| == 1 {
      SplitNone(parts[0], sep);
    } else {
      SplitJoin(parts[1..], sep);
      SplitFirst(parts[0], Join(parts[1..], sep), sep);
    }
  }

  /** The parts of a non-empty input; the empty input has none at all. */
  function Parts(data: string, sep: char): seq<string> {
    if data == [] then [] else Split(data, sep)
  }

  /** One more separator-free part before a separator at index i. */
  lemma SplitStep(data: string, start: nat, i: nat, sep: char)
    requires start <= i < |data| && data[i] == sep
    requires forall j | start <= j < i :: data[j] != sep
    ensures Split(data[start..], sep) == [data[start..i]] + Split(data[i + 1..], sep)
  {
    assert data[start..] == data[start..i] + [sep] + data[i + 1..];
    SplitFirst(data[start..i], data[i + 1..], sep);
  }

  lemma SplitEnd(data: string, start: nat, sep: char)
    requires start <= |data| && forall j | start <= j < |data| :: data[j] != sep
    ensures Split(data[start..], sep) == [data[start..]]
  {
    SplitNone(data[start..], sep);
  }

  /** Splits without copying. */
  method BytesSplit(data: string, sep: char) returns (result: seq<string>)
    ensures result == Parts(data, sep)
  {
    if |data| == 0 {
      return [];
    }
    result := [];
    var start := 0;
    ghost var parts := Split(data, sep);
    assert data[0..] == data;
    for i := 0 to |data|
      invariant 0 <= start <= i
      invariant forall j | start <= j < i :: data[j] != sep
      invariant parts == result + Split(data[start..], sep)
    {
      if data[i] == sep {
        SplitStep(data, start, i, sep);
        ghost var part := data[start..i];
        assert parts == (result + [part]) + Split(data[i + 1..], sep);
        result := result + [data[start..i]];
        start := i + 1;
      }
    }
    SplitEnd(data, start, sep);
    result := result + [data[start..]];
  }

  /** Splitting undoes joining exactly for the lists that are not one empty part. */
  lemma BytesSplitJoin(parts: seq<string>, sep: char)
    requires forall p | p in parts :: sep !in p
    ensures Parts(Join(parts, sep), sep) == parts <==> parts != [[]]
  {
    if parts != [] {
      SplitJoin(parts, sep);
    }
  }

  /** Part `partIndex` between pipes, or nothing when there are fewer parts. */
  method ExtractPart(data: string, partIndex: int) returns (r: Option<string>)
    ensures r == if 0 <= partIndex < |Parts(data, '|')| then Some(Parts(data, '|')[partIndex]) else None
  {
    if |data| == 0 {
      return None;
    }
    var currentPart, start := 0, 0;
    ghost var parts := Split(data, '|');
    assert data[0..] == data && parts[0..] == parts;
    for i := 0 to |data|
      invariant 0 <= start <= i
      invariant 0 <= currentPart < |parts| && !(0 <= partIndex < currentPart)
      invariant forall j | start <= j < i :: data[j] != '|'
      invariant parts[currentPart..] == Split(data[start..], '|')
    {
      if data[i] == '|' {
        SplitStep(data, start, i, '|');
        assert parts[currentPart] == data[start..i];
        assert parts[currentPart + 1..] == parts[currentPart..][1..];
        if currentPart == partIndex {
          return Some(data[start..i]);
        }
        currentPart := currentPart + 1;
        start := i + 1;
      }
    }
    SplitEnd(data, start, '|');
    if currentPart == partIndex {
      return Some(data[start..]);
    }
    return None;
  }

  // ---- timestamps ---------------------------------------------------------------------

  function Digit(d: nat): char
    requires d < 10
  {
    ('0' as int + d) as char
  }

  /** The last `w` decimal digits of n, padded with zeros: Go's "%0wd" for n < 10^w. */
  function Pad(n: nat, w: nat): (s: string)
    ensures |s| == w
  {
    if w == 0 then [] else Pad(n / 10, w - 1) + [Digit(n % 10)]
  }

  function Power10(w: nat): nat
  {
    if w == 0 then 1 else 10 * Power10(w - 1)
  }

  /** The number a string of digits denotes. */
  function Number(s: string): int
  {
    if s == [] then 0 else 10 * Number(s[..|s| - 1]) + (s[|s| - 1] as int - '0' as int)
  }

  lemma {:induction false} PadDecodes(n: nat, w: nat)
    requires n < Power10(w)
    ensures Number(Pad(n, w)) == n
    ensures forall i | 0 <= i < w :: '0' <= Pad(n, w)[i] <= '9'
  {
    if w > 0 {
      PadDecodes(n / 10, w - 1);
      var s := Pad(n, w);
      assert s[..|s| - 1] == Pad(n / 10, w - 1);
    }
  }

  /** Byte order on padded numbers is numeric order. */
  lemma {:induction false} PadOrder(a: nat, b: nat, w: nat)
    requires a < Power10(w) && b < Power10(w)
    ensures Less(Pad(a, w), Pad(b, w)) <==> a < b
    decreases w
  {
    if w > 0 {
      var pa, pb := Pad(a / 10, w - 1), Pad(b / 10, w - 1);
      var da, db := [Digit(a % 10)], [Digit(b % 10)];
      if a / 10 == b / 10 {
        LessAfterPrefix(pa, da, db);
      } else {
        PadOrder(a / 10, b / 10, w - 1);
        PadOrder(b / 10, a / 10, w - 1);
        if a < b {
          LessBeforeSuffix(pa, pb, da, db);
        } else {
          LessBeforeSuffix(pb, pa, db, da);
          LessAsymmetric(pb + db, pa + da);
        }
      }
    }
  }

  const MAX_INT64: int := 0x7FFF_FFFF_FFFF_FFFF

  type Time = t: int | 0 <= t <= MAX_INT64

  /** The 20-digit form of a clock value, as both "%020d" and FormatTimestamp write it. */
  function Stamp(t: Time): (s: string)
    ensures |s| == 20
  {
    Pad(t, 20)
  }

  lemma Power10Of20()
    ensures Power10(20) == 100_000_000_000_000_000_000
  {
    assert Power10(5) == 100_000;
    assert Power10(10) == 100_000 * Power10(5);
    assert Power10(15) == 100_000 * Power10(10);
    assert Power10(20) == 100_000 * Power10(15);
  }

  lemma StampDecodes(t: Time)
    ensures Number(Stamp(t)) == t
  {
    Power10Of20();
    PadDecodes(t, 20);
  }

  lemma StampOrder(a: Time, b: Time)
    ensures Less(Stamp(a), Stamp(b)) <==> a < b
  {
    Power10Of20();
    PadOrder(a, b, 20);
  }
}
