/** Pinned and hidden search results (services/mddbd/curation_apply.go). */
module Curation {
  import opened ByteStrings

  datatype Pin = Pin(key: string, lang: string, position: int)
  datatype Rule = Rule(hides: seq<string>, pins: seq<Pin>)

  // ---- the order of pins ---------------------------------------------------------------------------

  /** Positive positions first, ascending; the rest, and ties, by key. */
  predicate PinLess(a: Pin, b: Pin) {
    var aTail, bTail := a.position <= 0, b.position <= 0;
    if aTail != bTail then bTail
    else if aTail && bTail then Less(a.key, b.key)
    else if a.position != b.position then a.position < b.position
    else Less(a.key, b.key)
  }

  /** A strict order, total on pins of different keys. */
  lemma PinOrder(a: Pin, b: Pin, c: Pin)
    ensures !PinLess(a, a)
    ensures PinLess(a, b) && PinLess(b, c) ==> PinLess(a, c)
    ensures a.key != b.key ==> PinLess(a, b) || PinLess(b, a)
  {
    if Less(a.key, a.key) {
      LessAsymmetric(a.key, a.key);
    }
    if Less(a.key, b.key) && Less(b.key, c.key) {
      LessTransitive(a.key, b.key, c.key);
    }
    LessTotal(a.key, b.key);
  }

  ghost predicate InOrderOfPins(ps: seq<Pin>) {
    forall i, j | 0 <= i < j < |ps| :: PinLess(ps[i], ps[j])
  }

  ghost predicate KeysDiffer(ps: seq<Pin>) {
    forall i, j | 0 <= i < j < |ps| :: ps[i].key != ps[j].key
  }

  // ---- the pins and hides of all rules --------------------------------------------------------------

  ghost function AllPins(rules: seq<Rule>): seq<Pin> {
    if rules == [] then [] else AllPins(rules[..|rules| - 1]) + rules[|rules| - 1].pins
  }

  /** The last pin for a key wins. */
  ghost function LastFor(ps: seq<Pin>, key: string): Option<Pin> {
    if ps == [] then None
    else if ps[|ps| - 1].key == key then Some(ps[|ps| - 1])
    else LastFor(ps[..|ps| - 1], key)
  }

  lemma {:induction false} LastHasKey(ps: seq<Pin>, key: string)
    ensures LastFor(ps, key).Some? ==> LastFor(ps, key).value.key == key && LastFor(ps, key).value in ps
  {
    if ps != [] && ps[|ps| - 1].key != key {
      LastHasKey(ps[..|ps| - 1], key);
    }
  }

  lemma {:induction false} LastForJoined(a: seq<Pin>, b: seq<Pin>, key: string)
    ensures LastFor(a + b, key) == if LastFor(b, key).Some? then LastFor(b, key) else LastFor(a, key)
    decreases |b|
  {
    if b == [] {
      assert a + b == a;
    } else {
      assert (a + b)[..|a + b| - 1] == a + b[..|b| - 1];
      LastForJoined(a, b[..|b| - 1], key);
    }
  }

  lemma {:induction false} LastForIs(ps: seq<Pin>, key: string, i: nat)
    ensures i < |ps| && ps[i].key == key && (forall j | i < j < |ps| :: ps[j].key != key) ==>
              LastFor(ps, key) == Some(ps[i])
    ensures (forall j | 0 <= j < |ps| :: ps[j].key != key) ==> LastFor(ps, key).None?
  {
    if ps != [] {
      LastForIs(ps[..|ps| - 1], key, i);
    }
  }

  /** No later pin, of this rule or a later one, has the key of this one. */
  ghost predicate LastPinAt(rules: seq<Rule>, r: nat, i: nat) {
    && r < |rules| && i < |rules[r].pins|
    && (forall j | i < j < |rules[r].pins| :: rules[r].pins[j].key != rules[r].pins[i].key)
    && (forall q, j | r < q < |rules| && 0 <= j < |rules[q].pins| :: rules[q].pins[j].key != rules[r].pins[i].key)
  }

  lemma {:induction false} LastPinWins(rules: seq<Rule>, r: nat, i: nat)
    requires LastPinAt(rules, r, i)
    ensures LastFor(AllPins(rules), rules[r].pins[i].key) == Some(rules[r].pins[i])
  {
    var front, last := rules[..|rules| - 1], rules[|rules| - 1].pins;
    var p := rules[r].pins[i];
    LastForJoined(AllPins(front), last, p.key);
    if r == |rules| - 1 {
      LastForIs(last, p.key, i);
    } else {
      LastForIs(last, p.key, 0);
      assert front[r] == rules[r];
      LastPinWins(front, r, i);
    }
  }

  lemma {:induction false} PinOfARule(rules: seq<Rule>, p: Pin)
    requires p in AllPins(rules)
    ensures exists r :: r in rules && p in r.pins
  {
    if p in rules[|rules| - 1].pins {
      assert rules[|rules| - 1] in rules;
    } else {
      PinOfARule(rules[..|rules| - 1], p);
    }
  }

  /** The pins that win are the last ones for their keys, rule by rule and pin by pin. */
  lemma LastPinsWin(rules: seq<Rule>)
    ensures forall r: nat, i: nat | LastPinAt(rules, r, i) ::
              LastFor(AllPins(rules), rules[r].pins[i].key) == Some(rules[r].pins[i])
    ensures forall p: Pin | LastFor(AllPins(rules), p.key) == Some(p) :: exists r :: r in rules && p in r.pins
  {
    forall r: nat, i: nat | LastPinAt(rules, r, i)
      ensures LastFor(AllPins(rules), rules[r].pins[i].key) == Some(rules[r].pins[i])
    {
      LastPinWins(rules, r, i);
    }
    forall p: Pin | LastFor(AllPins(rules), p.key) == Some(p) ensures exists r :: r in rules && p in r.pins {
      LastHasKey(AllPins(rules), p.key);
      PinOfARule(rules, p);
    }
  }

  ghost predicate Hidden(rules: seq<Rule>, key: string) {
    exists r :: r in rules && key in r.hides
  }

  ghost predicate LastPins(byKey: map<string, Pin>, ps: seq<Pin>) {
    forall k :: LastFor(ps, k) == if k in byKey then Some(byKey[k]) else None
  }

  lemma LastOneMore(byKey: map<string, Pin>, ps: seq<Pin>, p: Pin)
    requires LastPins(byKey, ps)
    ensures LastPins(byKey[p.key := p], ps + [p])
  {
    assert (ps + [p])[..|ps|] == ps;
  }

  method OverwritePins(byKey0: map<string, Pin>, pins: seq<Pin>, ghost before: seq<Pin>)
    returns (byKey: map<string, Pin>)
    requires LastPins(byKey0, before)
    ensures LastPins(byKey, before + pins)
  {
    byKey := byKey0;
    assert before + pins[..0] == before;
    for i := 0 to |pins|
      invariant LastPins(byKey, before + pins[..i])
    {
      LastOneMore(byKey, before + pins[..i], pins[i]);
      assert before + pins[..i + 1] == before + pins[..i] + [pins[i]];
      byKey := byKey[pins[i].key := pins[i]];
    }
    assert pins[..|pins|] == pins;
  }

  lemma HiddenOneMore(rules: seq<Rule>, i: nat, key: string)
    requires i < |rules|
    ensures Hidden(rules[..i + 1], key) <==> Hidden(rules[..i], key) || key in rules[i].hides
  {
    assert rules[..i + 1] == rules[..i] + [rules[i]];
    assert rules[i] in rules[..i + 1];
    if r :| r in rules[..i] && key in r.hides {
      assert r in rules[..i + 1];
    }
  }

  /** Hidden keys, and the winning pin of every pinned key in pin order. */
  method CollectPinsAndHides(rules: seq<Rule>) returns (hides: set<string>, list: seq<Pin>)
    ensures forall k :: k in hides <==> Hidden(rules, k)
    ensures InOrderOfPins(list) && KeysDiffer(list)
    ensures forall p :: p in list <==> LastFor(AllPins(rules), p.key) == Some(p)
    ensures forall i, j | 0 <= i < j < |list| ::
              && (list[j].position > 0 ==> 0 < list[i].position <= list[j].position)
              && (list[i].position == list[j].position || list[i].position <= 0 ==> Less(list[i].key, list[j].key))
    ensures forall r: nat, i: nat | LastPinAt(rules, r, i) :: rules[r].pins[i] in list
    ensures forall p | p in list :: exists r :: r in rules && p in r.pins
  {
    hides := {};
    var byKey: map<string, Pin> := map[];
    for i := 0 to |rules|
      invariant forall k :: k in hides <==> Hidden(rules[..i], k)
      invariant LastPins(byKey, AllPins(rules[..i]))
    {
      forall k {
        HiddenOneMore(rules, i, k);
      }
      hides := hides + (set h | h in rules[i].hides);
      assert rules[..i + 1][..i] == rules[..i];
      byKey := OverwritePins(byKey, rules[i].pins, AllPins(rules[..i]));
    }
    assert rules[..|rules|] == rules;
    forall k | k in byKey ensures byKey[k].key == k {
      LastHasKey(AllPins(rules), k);
      assert LastFor(AllPins(rules), k) == Some(byKey[k]);
    }
    var a := ListPins(byKey);
    InsertionSort(a);
    list := a[..];
    forall p ensures p in list <==> LastFor(AllPins(rules), p.key) == Some(p) {
      assert LastFor(AllPins(rules), p.key) == if p.key in byKey then Some(byKey[p.key]) else None;
    }
    LastPinsWin(rules);
  }

  /** The pins in whatever order the map yields them. */
  method ListPins(byKey: map<string, Pin>) returns (a: array<Pin>)
    requires forall k | k in byKey :: byKey[k].key == k
    ensures fresh(a) && KeysDiffer(a[..])
    ensures forall p :: p in a[..] <==> p.key in byKey && byKey[p.key] == p
  {
    var list: seq<Pin> := [];
    var todo := byKey.Keys;
    while todo != {}
      invariant todo <= byKey.Keys && KeysDiffer(list)
      invariant forall p :: p in list <==> p.key in byKey && p.key !in todo && byKey[p.key] == p
      decreases |todo|
    {
      var k :| k in todo;
      assert forall i | 0 <= i < |list| :: list[i] in list;
      list := list + [byKey[k]];
      todo := todo - {k};
    }
    a := new Pin[|list|](i requires 0 <= i < |list| => list[i]);
    assert a[..] == list;
  }

  /** The order the map yields its pins in does not matter: two lists of the same pins in pin
      order are the same list. */
  lemma {:induction false} OrderIsUnique(a: seq<Pin>, b: seq<Pin>)
    requires InOrderOfPins(a) && InOrderOfPins(b) && forall p :: p in a <==> p in b
    ensures a == b
    decreases |a|
  {
    assert b != [] ==> b[0] in a;
    if a != [] {
      assert a[0] in b;
      FirstIsFirst(a, b);
      forall p ensures p in a[1..] <==> p in b[1..] {
        TailPins(a, p);
        TailPins(b, p);
      }
      OrderIsUnique(a[1..], b[1..]);
    }
  }

  lemma FirstIsFirst(a: seq<Pin>, b: seq<Pin>)
    requires InOrderOfPins(a) && InOrderOfPins(b) && a != [] && b != [] && a[0] in b && b[0] in a
    ensures a[0] == b[0]
  {
    var i :| 0 <= i < |b| && b[i] == a[0];
    var j :| 0 <= j < |a| && a[j] == b[0];
    assert (i > 0 ==> PinLess(b[0], b[i])) && (j > 0 ==> PinLess(a[0], a[j]));
    PinOrder(a[0], b[0], a[0]);
  }

  lemma TailPins(a: seq<Pin>, p: Pin)
    requires InOrderOfPins(a) && a != []
    ensures p in a[1..] <==> p in a && p != a[0]
  {
    PinOrder(p, p, p);
    if p in a[1..] {
      var i :| 0 <= i < |a[1..]| && a[1..][i] == p;
      assert a[i + 1] == p && PinLess(a[0], a[i + 1]);
    }
    if p in a && p != a[0] {
      var i :| 0 <= i < |a| && a[i] == p;
      assert a[1..][i - 1] == p;
    }
  }

  // ---- insertion sort ------------------------------------------------------------------------------------

  /** `s` with x put in at place k. */
  ghost function PutAt(s: seq<Pin>, k: nat, x: Pin): seq<Pin>
    requires k <= |s|
  {
    s[..k] + [x] + s[k..]
  }

  /** While pins shift: the front is untouched, the rest of `s` stands one place up. */
  ghost predicate Shifted(now: seq<Pin>, s: seq<Pin>, j: int) {
    && -1 <= j < |s| < |now|
    && (forall m | 0 <= m <= j :: now[m] == s[m])
    && (forall m | j + 1 <= m < |s| :: now[m + 1] == s[m])
  }

  lemma ShiftedIsPutAt(now: seq<Pin>, s: seq<Pin>, j: int)
    requires Shifted(now, s, j)
    ensures now[..|s| + 1] == PutAt(s, j + 1, now[j + 1])
  {
  }

  lemma ShiftOne(now: seq<Pin>, s: seq<Pin>, j: nat)
    requires Shifted(now, s, j)
    ensures Shifted(now[j + 1 := now[j]], s, j - 1)
  {
  }

  /** Shifts the larger pins of the sorted front one place up and puts the next pin in. */
  method InsertNext(a: array<Pin>, i: nat) returns (ghost k: nat)
    requires i < a.Length && InOrderOfPins(a[..i]) && KeysDiffer(a[..i + 1])
    modifies a
    ensures k <= i && a[..i + 1] == PutAt(old(a[..i]), k, old(a[i])) && a[i + 1..] == old(a[i + 1..])
    ensures forall m | 0 <= m < k :: PinLess(old(a[..i])[m], old(a[i]))
    ensures forall m | k <= m < i :: PinLess(old(a[i]), old(a[..i])[m])
  {
    var cur := a[i];
    ghost var s := a[..i];
    assert a[..i + 1] == s + [cur];
    var j := ShiftLarger(a, i, cur);
    SmallerBefore(s, j, cur, s + [cur]);
    PutIn(a, i, j + 1, cur, s);
    k := j + 1;
  }

  method PutIn(a: array<Pin>, i: nat, k: nat, cur: Pin, ghost s: seq<Pin>)
    requires i < a.Length && |s| == i && Shifted(a[..], s, k - 1)
    modifies a
    ensures a[..i + 1] == PutAt(s, k, cur) && a[i + 1..] == old(a[i + 1..])
  {
    ghost var shifted := a[..];
    a[k] := cur;
    assert a[..] == shifted[k := cur];
    ShiftedIsPutAt(a[..], s, k - 1);
    assert a[..i + 1] == a[..][..i + 1];
  }

  method ShiftLarger(a: array<Pin>, i: nat, cur: Pin) returns (j: int)
    requires i < a.Length
    modifies a
    ensures Shifted(a[..], old(a[..i]), j) && a[i + 1..] == old(a[i + 1..])
    ensures j >= 0 ==> !PinLess(cur, old(a[..i])[j])
    ensures forall m | j + 1 <= m < i :: PinLess(cur, old(a[..i])[m])
  {
    ghost var s := a[..i];
    j := i - 1;
    while j >= 0 && PinLess(cur, a[j])
      invariant Shifted(a[..], s, j)
      invariant forall m | j + 1 <= m < i :: PinLess(cur, s[m])
      invariant a[i + 1..] == old(a[i + 1..])
    {
      ShiftOne(a[..], s, j);
      ghost var next := a[..][j + 1 := a[j]];
      a[j + 1] := a[j];
      assert a[..] == next;
      j := j - 1;
    }
  }

  /** A pin not before `cur` in a sorted list is after all that precede it. */
  lemma SmallerBefore(s: seq<Pin>, j: int, cur: Pin, front: seq<Pin>)
    requires InOrderOfPins(s) && -1 <= j < |s| && front == s + [cur] && KeysDiffer(front)
    requires j >= 0 ==> !PinLess(cur, s[j])
    ensures forall m | 0 <= m <= j :: PinLess(s[m], cur)
  {
    if j >= 0 {
      assert front[j] == s[j] && front[|s|] == cur;
      PinOrder(s[j], cur, s[j]);
      forall m | 0 <= m < j {
        PinOrder(s[m], s[j], cur);
      }
    }
  }

  lemma PutAtKeepsOrder(s: seq<Pin>, k: nat, x: Pin)
    requires k <= |s| && InOrderOfPins(s)
    requires forall m | 0 <= m < k :: PinLess(s[m], x)
    requires forall m | k <= m < |s| :: PinLess(x, s[m])
    ensures InOrderOfPins(PutAt(s, k, x))
  {
    var r := PutAt(s, k, x);
    assert r[k] == x;
    forall i, j | 0 <= i < j < |r| ensures PinLess(r[i], r[j]) {
      assert i != k ==> r[i] == if i < k then s[i] else s[i - 1];
      assert j != k ==> r[j] == if j < k then s[j] else s[j - 1];
    }
  }

  lemma PutAtMembers(s: seq<Pin>, k: nat, x: Pin)
    requires k <= |s|
    ensures forall p :: p in PutAt(s, k, x) <==> p in s || p == x
  {
    assert s == s[..k] + s[k..];
  }

  /** In place; distinct keys, so the order is strict. */
  method InsertionSort(a: array<Pin>)
    requires KeysDiffer(a[..])
    modifies a
    ensures InOrderOfPins(a[..])
    ensures forall p :: p in a[..] <==> p in old(a[..])
    ensures KeysDiffer(a[..])
  {
    if a.Length == 0 {
      return;
    }
    ghost var was := a[..];
    for i := 1 to a.Length
      invariant InOrderOfPins(a[..i]) && a[i..] == was[i..]
      invariant forall p :: p in a[..i] <==> p in was[..i]
    {
      FrontDiffers(a[..i], was, i);
      assert a[i] == a[i..][0];
      assert a[..i + 1] == a[..i] + [was[i]];
      assert was[..i + 1] == was[..i] + [was[i]];
      ghost var s := a[..i];
      ghost var k := InsertNext(a, i);
      PutAtKeepsOrder(s, k, was[i]);
      PutAtMembers(s, k, was[i]);
    }
    assert a[..a.Length] == a[..] && was[..a.Length] == was;
    OrderedDiffer(a[..], was);
  }

  lemma FrontDiffers(front: seq<Pin>, was: seq<Pin>, i: nat)
    requires i < |was| && KeysDiffer(was) && InOrderOfPins(front) && forall p :: p in front <==> p in was[..i]
    ensures KeysDiffer(front + [was[i]])
  {
    OrderedDiffer(front, was[..i]);
    forall m | 0 <= m < |front| ensures front[m].key != was[i].key {
      assert front[m] in was[..i];
    }
  }

  lemma OrderedDiffer(ps: seq<Pin>, was: seq<Pin>)
    requires InOrderOfPins(ps) && KeysDiffer(was) && forall p :: p in ps <==> p in was
    ensures KeysDiffer(ps)
  {
    forall i, j | 0 <= i < j < |ps| ensures ps[i].key != ps[j].key {
      assert ps[i] in was && ps[j] in was;
      PinOrder(ps[i], ps[j], ps[i]);
    }
  }

  // ---- where every result comes from -------------------------------------------------------------------------

  /** A place in the spliced list: the i-th organic result or the j-th pinned one. */
  datatype Source = Organic(i: nat) | Pinned(j: nat)

  function OrganicsOf(l: seq<Source>): (r: seq<nat>)
    ensures |r| <= |l|
  {
    if l == [] then []
    else OrganicsOf(l[..|l| - 1]) + if l[|l| - 1].Organic? then [l[|l| - 1].i] else []
  }

  function PinsOf(l: seq<Source>): seq<nat> {
    if l == [] then []
    else PinsOf(l[..|l| - 1]) + if l[|l| - 1].Pinned? then [l[|l| - 1].j] else []
  }

  lemma {:induction false} SourcesCount(l: seq<Source>)
    ensures |l| == |OrganicsOf(l)| + |PinsOf(l)|
  {
    if l != [] {
      SourcesCount(l[..|l| - 1]);
    }
  }

  lemma SourcesOneMore(l: seq<Source>, x: Source)
    ensures OrganicsOf(l + [x]) == OrganicsOf(l) + if x.Organic? then [x.i] else []
    ensures PinsOf(l + [x]) == PinsOf(l) + if x.Pinned? then [x.j] else []
  {
    assert (l + [x])[..|l|] == l;
  }

  function UpTo(n: nat): seq<nat> { seq(n, i requires 0 <= i < n => i) }

  lemma UpToOneMore(n: nat)
    ensures UpTo(n + 1) == UpTo(n) + [n]
  {
  }

  /** Indices of the first k pins with (or without) a positive position. */
  function Select(ps: seq<int>, k: nat, positive: bool): (r: seq<nat>)
    requires k <= |ps|
    ensures forall j | j in r :: j < k && (ps[j] > 0) == positive
  {
    if k == 0 then []
    else Select(ps, k - 1, positive) + if (ps[k - 1] > 0) == positive then [k - 1] else []
  }

  /** Every pin is selected exactly once: by one of the two selections, which are increasing. */
  lemma {:induction false} SelectsEach(ps: seq<int>, k: nat, positive: bool)
    requires k <= |ps|
    ensures forall j: nat :: j in Select(ps, k, positive) <==> j < k && (ps[j] > 0) == positive
    ensures forall a, b | 0 <= a < b < |Select(ps, k, positive)| ::
            Select(ps, k, positive)[a] < Select(ps, k, positive)[b]
  {
    if k > 0 {
      SelectsEach(ps, k - 1, positive);
      var r := Select(ps, k - 1, positive);
      assert forall a | 0 <= a < |r| :: r[a] in r;
    }
  }

  /** The list so far holds the first organic results and the positive pins before j, in order. */
  ghost predicate Merged(l: seq<Source>, ps: seq<int>, bi: nat, j: nat) {
    j <= |ps| && OrganicsOf(l) == UpTo(bi) && PinsOf(l) == Select(ps, j, true)
  }

  ghost function Min(a: int, b: int): int { if a < b then a else b }
  ghost function Max(a: int, b: int): int { if a > b then a else b }

  /** The slot (from 0) of the j-th pin, if positive: its own, unless earlier pins reach past it or
      the organic results run out before it. */
  ghost function Slot(ps: seq<int>, n: nat, j: nat): int
    requires j < |ps|
    decreases j, 1
  {
    Max(LengthBefore(ps, n, j), Min(ps[j] - 1, |Select(ps, j, true)| + n))
  }

  /** Length of the list once the pins before j are in. */
  ghost function LengthBefore(ps: seq<int>, n: nat, j: nat): int
    requires j <= |ps|
    decreases j, 0
  {
    if j == 0 then 0
    else if ps[j - 1] > 0 then Slot(ps, n, j - 1) + 1
    else LengthBefore(ps, n, j - 1)
  }

  /** Positive pins strictly ascending come first, as they do in pin order without ties. */
  ghost predicate AscendingPositions(ps: seq<int>, m: nat) {
    && m <= |ps|
    && (forall j | 0 <= j < m :: ps[j] > 0)
    && (forall i, j | 0 <= i < j < m :: ps[i] < ps[j])
  }

  lemma {:induction false} SelectAll(ps: seq<int>, m: nat, j: nat)
    requires AscendingPositions(ps, m) && j <= m
    ensures |Select(ps, j, true)| == j
  {
    if j > 0 {
      SelectAll(ps, m, j - 1);
    }
  }

  /** With strictly ascending positions a pin is at its requested slot exactly when enough organic
      results stand before it; otherwise it follows the last of them directly. */
  lemma {:induction false} ExactSlot(ps: seq<int>, m: nat, n: nat, j: nat)
    requires AscendingPositions(ps, m) && j < m
    ensures Slot(ps, n, j) == Min(ps[j] - 1, j + n)
    ensures Slot(ps, n, j) == ps[j] - 1 <==> ps[j] - 1 <= j + n
  {
    SelectAll(ps, m, j);
    if j > 0 {
      ExactSlot(ps, m, n, j - 1);
    }
  }

  // ---- splicing ---------------------------------------------------------------------------------------------------

  datatype PinnedResult<R> = PinnedResult(result: R, position: int)

  ghost function Positions<R>(pinned: seq<PinnedResult<R>>): (ps: seq<int>)
    ensures |ps| == |pinned| && forall j | 0 <= j < |ps| :: ps[j] == pinned[j].position
  {
    seq(|pinned|, j requires 0 <= j < |pinned| => pinned[j].position)
  }

  /** Each entry is the result its source names. */
  ghost predicate Shows<R>(out: seq<R>, l: seq<Source>, base: seq<R>, pinned: seq<PinnedResult<R>>) {
    |out| == |l| && forall k | 0 <= k < |l| :: ShowsAt(out[k], l[k], base, pinned)
  }

  ghost predicate ShowsAt<R>(r: R, src: Source, base: seq<R>, pinned: seq<PinnedResult<R>>) {
    match src
    case Organic(i) => i < |base| && r == base[i]
    case Pinned(j) => j < |pinned| && r == pinned[j].result
  }

  /** All positive pins up to j are at their slots. */
  ghost predicate AtSlots(l: seq<Source>, ps: seq<int>, n: nat, j: nat)
    requires j <= |ps|
  {
    forall k: nat | k < j && ps[k] > 0 :: At(l, Slot(ps, n, k), k)
  }

  ghost predicate At(l: seq<Source>, slot: int, k: nat) { 0 <= slot < |l| && l[slot] == Pinned(k) }

  /** Splices pinned results into organic ones. Every result is there exactly once: the organic ones
      in their order, the positive pins in theirs and each at its slot, the other pins last. */
  ghost predicate Spliced(l: seq<Source>, ps: seq<int>, n: nat) {
    && OrganicsOf(l) == UpTo(n)
    && PinsOf(l) == Select(ps, |ps|, true) + Select(ps, |ps|, false)
    && AtSlots(l, ps, n, |ps|)
    && EndsWithPins(l, n + |Select(ps, |ps|, true)|, Select(ps, |ps|, false))
  }

  lemma AddOrganic(l: seq<Source>, ps: seq<int>, bi: nat, j: nat)
    requires Merged(l, ps, bi, j)
    ensures Merged(l + [Organic(bi)], ps, bi + 1, j)
  {
    SourcesOneMore(l, Organic(bi));
    UpToOneMore(bi);
  }

  lemma MergePin(l: seq<Source>, ps: seq<int>, bi: nat, j: nat)
    requires j < |ps| && Merged(l, ps, bi, j)
    ensures Merged(if ps[j] > 0 then l + [Pinned(j)] else l, ps, bi, j + 1)
  {
    SourcesOneMore(l, Pinned(j));
    var before := Select(ps, j, true);
    assert before + [] == before;
  }

  lemma SlotPin(l: seq<Source>, ps: seq<int>, n: nat, j: nat)
    requires j < |ps| && AtSlots(l, ps, n, j) && (ps[j] > 0 ==> |l| == Slot(ps, n, j))
    ensures AtSlots(if ps[j] > 0 then l + [Pinned(j)] else l, ps, n, j + 1)
  {
    var more := if ps[j] > 0 then l + [Pinned(j)] else l;
    forall k: nat | k < j + 1 && ps[k] > 0 ensures At(more, Slot(ps, n, k), k) {
      if k < j {
        assert At(l, Slot(ps, n, k), k);
      }
    }
  }

  /** Organic results until the list is `upto` long or there are no more. */
  method Fill<R>(base: seq<R>, pinned: seq<PinnedResult<R>>, out0: seq<R>, ghost l0: seq<Source>, bi0: nat,
                 upto: int, ghost j: nat)
    returns (out: seq<R>, ghost l: seq<Source>, bi: nat)
    requires bi0 <= |base| && Shows(out0, l0, base, pinned) && Merged(l0, Positions(pinned), bi0, j)
    ensures bi <= |base| && Shows(out, l, base, pinned) && Merged(l, Positions(pinned), bi, j)
    ensures l0 <= l && |l| == Max(|l0|, Min(upto, |l0| + |base| - bi0)) && |l| - bi == |l0| - bi0
  {
    out, l, bi := out0, l0, bi0;
    while |out| < upto && bi < |base|
      invariant bi0 <= bi <= |base| && Shows(out, l, base, pinned) && Merged(l, Positions(pinned), bi, j)
      invariant l0 <= l && |l| - bi == |l0| - bi0 && (bi > bi0 ==> |l| <= upto)
    {
      AddOrganic(l, Positions(pinned), bi, j);
      out, l := out + [base[bi]], l + [Organic(bi)];
      bi := bi + 1;
    }
  }

  lemma PrefixKeepsSlots(l0: seq<Source>, l: seq<Source>, ps: seq<int>, n: nat, j: nat)
    requires j <= |ps| && l0 <= l && AtSlots(l0, ps, n, j)
    ensures AtSlots(l, ps, n, j)
  {
    forall k: nat | k < j && ps[k] > 0 ensures At(l, Slot(ps, n, k), k) {
      assert At(l0, Slot(ps, n, k), k);
    }
  }

  /** What Fill leaves is as long as the slot of the next pin says. */
  lemma FilledToSlot(l0: seq<Source>, ps: seq<int>, n: nat, bi: nat, j: nat)
    requires j < |ps| && bi <= n && Merged(l0, ps, bi, j) && |l0| == LengthBefore(ps, n, j)
    ensures Max(|l0|, Min(ps[j] - 1, |l0| + n - bi)) == Slot(ps, n, j)
  {
    SourcesCount(l0);
  }

  /** The list ends with these pins, in this order. */
  ghost predicate EndsWithPins(l: seq<Source>, front: nat, tail: seq<nat>) {
    |l| == front + |tail| && forall k | 0 <= k < |tail| :: l[front + k] == Pinned(tail[k])
  }

  lemma EndsOneMore(l: seq<Source>, front: nat, tail: seq<nat>, j: nat)
    requires EndsWithPins(l, front, tail)
    ensures EndsWithPins(l + [Pinned(j)], front, tail + [j])
  {
    var more := l + [Pinned(j)];
    forall k | 0 <= k < |tail + [j]| ensures more[front + k] == Pinned((tail + [j])[k]) {
      if k < |tail| {
        assert l[front + k] == Pinned(tail[k]);
      }
    }
  }

  /** The pins without a position, at the end. */
  ghost predicate TailAdded(l: seq<Source>, ps: seq<int>, n: nat, front: nat, j: nat) {
    && j <= |ps|
    && OrganicsOf(l) == UpTo(n) && PinsOf(l) == Select(ps, |ps|, true) + Select(ps, j, false)
    && EndsWithPins(l, front, Select(ps, j, false))
  }

  lemma AddTailPin(l: seq<Source>, ps: seq<int>, n: nat, front: nat, j: nat)
    requires j < |ps| && TailAdded(l, ps, n, front, j)
    ensures TailAdded(if ps[j] > 0 then l else l + [Pinned(j)], ps, n, front, j + 1)
  {
    var all, tail := Select(ps, |ps|, true), Select(ps, j, false);
    SourcesOneMore(l, Pinned(j));
    EndsOneMore(l, front, tail, j);
    assert tail + [] == tail;
    assert (all + tail) + [j] == all + (tail + [j]);
  }

  method AppendTail<R>(base: seq<R>, pinned: seq<PinnedResult<R>>, out0: seq<R>, ghost l0: seq<Source>)
    returns (out: seq<R>, ghost l: seq<Source>)
    requires Shows(out0, l0, base, pinned) && Merged(l0, Positions(pinned), |base|, |pinned|)
    ensures Shows(out, l, base, pinned) && l0 <= l && TailAdded(l, Positions(pinned), |base|, |l0|, |pinned|)
  {
    ghost var ps, n := Positions(pinned), |base|;
    out, l := out0, l0;
    NoTailYet(l0, ps, n);
    for j := 0 to |pinned|
      invariant Shows(out, l, base, pinned) && l0 <= l
      invariant TailAdded(l, ps, n, |l0|, j)
    {
      AddTailPin(l, ps, n, |l0|, j);
      if pinned[j].position <= 0 {
        ShowOneMore(out, l, base, pinned, j);
        out, l := out + [pinned[j].result], l + [Pinned(j)];
      }
    }
  }

  lemma NoTailYet(l: seq<Source>, ps: seq<int>, n: nat)
    requires Merged(l, ps, n, |ps|)
    ensures TailAdded(l, ps, n, |l|, 0)
  {
    var all := Select(ps, |ps|, true);
    assert all + [] == all;
  }

  lemma ShowOneMore<R>(out: seq<R>, l: seq<Source>, base: seq<R>, pinned: seq<PinnedResult<R>>, j: nat)
    requires Shows(out, l, base, pinned) && j < |pinned|
    ensures Shows(out + [pinned[j].result], l + [Pinned(j)], base, pinned)
  {
  }

  ghost function AllOrganic(n: nat): seq<Source> { seq(n, i requires 0 <= i < n => Organic(i)) }

  lemma NoPinsSpliced(n: nat)
    ensures Spliced(AllOrganic(n), [], n)
  {
    AllOrganicSources(n);
  }

  lemma {:induction false} AllOrganicSources(n: nat)
    ensures OrganicsOf(AllOrganic(n)) == UpTo(n) && PinsOf(AllOrganic(n)) == []
  {
    if n > 0 {
      AllOrganicSources(n - 1);
      assert AllOrganic(n) == AllOrganic(n - 1) + [Organic(n - 1)];
      SourcesOneMore(AllOrganic(n - 1), Organic(n - 1));
    }
  }

  /** Pins before j are placed, `bi` organic results used. */
  ghost predicate Placed<R>(out: seq<R>, l: seq<Source>, base: seq<R>, pinned: seq<PinnedResult<R>>, bi: nat, j: nat) {
    && bi <= |base| && j <= |pinned| && Shows(out, l, base, pinned) && Merged(l, Positions(pinned), bi, j)
    && |l| == LengthBefore(Positions(pinned), |base|, j) && AtSlots(l, Positions(pinned), |base|, j)
  }

  method PlacePin<R>(base: seq<R>, pinned: seq<PinnedResult<R>>, out0: seq<R>, ghost l0: seq<Source>, bi0: nat, j: nat)
    returns (out: seq<R>, ghost l: seq<Source>, bi: nat)
    requires j < |pinned| && Placed(out0, l0, base, pinned, bi0, j)
    ensures Placed(out, l, base, pinned, bi, j + 1)
  {
    ghost var ps, n := Positions(pinned), |base|;
    out, l, bi := out0, l0, bi0;
    if pinned[j].position > 0 {
      FilledToSlot(l, ps, n, bi, j);
      out, l, bi := Fill(base, pinned, out, l, bi, pinned[j].position - 1, j);
      PrefixKeepsSlots(l0, l, ps, n, j);
      MergePin(l, ps, bi, j);
      SlotPin(l, ps, n, j);
      out, l := out + [pinned[j].result], l + [Pinned(j)];
    } else {
      MergePin(l, ps, bi, j);
      SlotPin(l, ps, n, j);
    }
  }

  /** The organic results left over, then the pins without a position. */
  method PlaceRest<R>(base: seq<R>, pinned: seq<PinnedResult<R>>, out0: seq<R>, ghost l0: seq<Source>, bi0: nat)
    returns (out: seq<R>, ghost l: seq<Source>)
    requires Placed(out0, l0, base, pinned, bi0, |pinned|)
    ensures Shows(out, l, base, pinned) && Spliced(l, Positions(pinned), |base|)
  {
    ghost var ps, n := Positions(pinned), |base|;
    var bi;
    out, l, bi := Fill(base, pinned, out0, l0, bi0, |out0| + |base|, |pinned|);
    PrefixKeepsSlots(l0, l, ps, n, |ps|);
    assert bi == n;
    ghost var front := l;
    out, l := AppendTail(base, pinned, out, l);
    TailIsSpliced(front, l, ps, n);
  }

  lemma TailIsSpliced(front: seq<Source>, l: seq<Source>, ps: seq<int>, n: nat)
    requires Merged(front, ps, n, |ps|) && AtSlots(front, ps, n, |ps|)
    requires front <= l && TailAdded(l, ps, n, |front|, |ps|)
    ensures Spliced(l, ps, n)
  {
    SourcesCount(front);
    PrefixKeepsSlots(front, l, ps, n, |ps|);
  }

  lemma ShowsBase<R>(base: seq<R>, pinned: seq<PinnedResult<R>>)
    requires pinned == []
    ensures Shows(base, AllOrganic(|base|), base, pinned) && Spliced(AllOrganic(|base|), Positions(pinned), |base|)
  {
    NoPinsSpliced(|base|);
    assert Positions(pinned) == [];
  }

  lemma NothingPlaced<R>(base: seq<R>, pinned: seq<PinnedResult<R>>)
    ensures Placed([], [], base, pinned, 0, 0)
  {
    assert UpTo(0) == [];
  }

  /** The list shows each organic and each pinned result in its place. */
  ghost predicate SplicedFrom<R(!new)>(out: seq<R>, base: seq<R>, pinned: seq<PinnedResult<R>>) {
    exists l :: Shows(out, l, base, pinned) && Spliced(l, Positions(pinned), |base|)
  }

  method Splice<R(!new)>(base: seq<R>, pinned: seq<PinnedResult<R>>) returns (out: seq<R>)
    ensures SplicedFrom(out, base, pinned)
  {
    if |pinned| == 0 {
      ShowsBase(base, pinned);
      return base;
    }
    ghost var l;
    var bi;
    out, l, bi := PlacePins(base, pinned);
    out, l := PlaceRest(base, pinned, out, l, bi);
  }

  method PlacePins<R>(base: seq<R>, pinned: seq<PinnedResult<R>>) returns (out: seq<R>, ghost l: seq<Source>, bi: nat)
    ensures Placed(out, l, base, pinned, bi, |pinned|)
  {
    out, l, bi := [], [], 0;
    NothingPlaced(base, pinned);
    for j := 0 to |pinned|
      invariant Placed(out, l, base, pinned, bi, j)
    {
      out, l, bi := PlacePin(base, pinned, out, l, bi, j);
    }
  }

  // ---- applying the rules to results ---------------------------------------------------------------------------

  ghost function Keep<R>(xs: seq<R>, p: R -> bool): seq<R> {
    if xs == [] then [] else Keep(xs[..|xs| - 1], p) + if p(xs[|xs| - 1]) then [xs[|xs| - 1]] else []
  }

  lemma KeepOneMore<R>(xs: seq<R>, i: nat, p: R -> bool)
    requires i < |xs|
    ensures Keep(xs[..i + 1], p) == Keep(xs[..i], p) + if p(xs[i]) then [xs[i]] else []
  {
    assert xs[..i + 1][..i] == xs[..i];
  }

  lemma {:induction false} KeptSatisfy<R>(xs: seq<R>, p: R -> bool)
    ensures forall x | x in Keep(xs, p) :: p(x) && x in xs
    ensures forall x | x in xs && p(x) :: x in Keep(xs, p)
  {
    if xs != [] {
      KeptSatisfy(xs[..|xs| - 1], p);
      assert xs == xs[..|xs| - 1] + [xs[|xs| - 1]];
    }
  }

  /** Organic results whose keys are neither hidden nor pinned. */
  method Filter<R>(results: seq<R>, keyOf: R -> string, hides: set<string>, pinned: set<string>)
    returns (filtered: seq<R>)
    ensures filtered == Keep(results, r => keyOf(r) !in hides && keyOf(r) !in pinned)
  {
    ghost var p := r => keyOf(r) !in hides && keyOf(r) !in pinned;
    filtered := [];
    for i := 0 to |results|
      invariant filtered == Keep(results[..i], p)
    {
      KeepOneMore(results, i, p);
      if keyOf(results[i]) !in hides && keyOf(results[i]) !in pinned {
        filtered := filtered + [results[i]];
      }
    }
    assert results[..|results|] == results;
  }

  /** Positive positions come first and do not descend. */
  ghost predicate PositionsInOrder(ps: seq<int>) {
    forall i, j | 0 <= i < j < |ps| && ps[j] > 0 :: 0 < ps[i] <= ps[j]
  }

  ghost function Loadable<R>(pins: seq<Pin>, load: Pin -> Option<R>): seq<Pin> {
    Keep(pins, p => load(p).Some?)
  }

  /** Pins that cannot be loaded are passed over. */
  method LoadPins<R>(pins: seq<Pin>, load: Pin -> Option<R>) returns (loaded: seq<PinnedResult<R>>)
    ensures LoadedFrom(loaded, Loadable(pins, load), load)
    ensures InOrderOfPins(pins) ==> PositionsInOrder(Positions(loaded))
  {
    ghost var p := (p: Pin) => load(p).Some?;
    loaded := [];
    for i := 0 to |pins|
      invariant LoadedFrom(loaded, Keep(pins[..i], p), load)
    {
      KeepOneMore(pins, i, p);
      var doc := load(pins[i]);
      if doc.Some? {
        loaded := loaded + [PinnedResult(doc.value, pins[i].position)];
      }
    }
    assert pins[..|pins|] == pins;
    if InOrderOfPins(pins) {
      KeepInOrder(pins, p);
      OrderedPositions(Keep(pins, p));
    }
  }

  ghost predicate LoadedFrom<R>(loaded: seq<PinnedResult<R>>, pins: seq<Pin>, load: Pin -> Option<R>) {
    && |loaded| == |pins|
    && forall j | 0 <= j < |pins| :: load(pins[j]) == Some(loaded[j].result) && loaded[j].position == pins[j].position
  }

  lemma {:induction false} KeepInOrder(pins: seq<Pin>, p: Pin -> bool)
    requires InOrderOfPins(pins)
    ensures InOrderOfPins(Keep(pins, p))
  {
    if pins != [] {
      var init, last := pins[..|pins| - 1], pins[|pins| - 1];
      KeepInOrder(init, p);
      KeptSatisfy(init, p);
      forall i | 0 <= i < |Keep(init, p)| ensures PinLess(Keep(init, p)[i], last) {
        assert Keep(init, p)[i] in init;
      }
    }
  }

  lemma OrderedPositions(pins: seq<Pin>)
    requires InOrderOfPins(pins)
    ensures forall i, j | 0 <= i < j < |pins| && pins[j].position > 0 :: 0 < pins[i].position <= pins[j].position
  {
    forall i, j | 0 <= i < j < |pins| && pins[j].position > 0 ensures 0 < pins[i].position <= pins[j].position {
      assert PinLess(pins[i], pins[j]);
    }
  }

  /** Pins of different positions, in pin order: their positions ascend strictly, so each is at
      its slot as ExactSlot says. */
  lemma {:induction false} DistinctAscend(ps: seq<int>)
    requires PositionsInOrder(ps) && forall i, j | 0 <= i < j < |ps| && ps[i] > 0 :: ps[i] != ps[j]
    ensures AscendingPositions(ps, |Select(ps, |ps|, true)|)
  {
    var m := FirstTail(ps);
    CountFront(ps, m, |ps|);
  }

  ghost function FirstTail(ps: seq<int>): (m: nat)
    requires PositionsInOrder(ps)
    ensures m <= |ps|
    ensures forall j | 0 <= j < |ps| :: ps[j] > 0 <==> j < m
  {
    if ps == [] || ps[|ps| - 1] > 0 then |ps| else FirstTail(ps[..|ps| - 1])
  }

  lemma {:induction false} CountFront(ps: seq<int>, m: nat, k: nat)
    requires k <= |ps| && m <= |ps| && forall j | 0 <= j < |ps| :: ps[j] > 0 <==> j < m
    ensures |Select(ps, k, true)| == if k < m then k else m
  {
    if k > 0 {
      CountFront(ps, m, k - 1);
    }
  }

  ghost predicate Untouched(rules: seq<Rule>, key: string) {
    !Hidden(rules, key) && LastFor(AllPins(rules), key).None?
  }

  lemma PinnedKeys(rules: seq<Rule>, list: seq<Pin>, key: string)
    requires forall p :: p in list <==> LastFor(AllPins(rules), p.key) == Some(p)
    ensures key in (set p | p in list :: p.key) <==> LastFor(AllPins(rules), key).Some?
  {
    if LastFor(AllPins(rules), key).Some? {
      LastHasKey(AllPins(rules), key);
      assert LastFor(AllPins(rules), key).value in list;
    }
  }

  lemma {:induction false} KeepSame<R>(xs: seq<R>, p: R -> bool, q: R -> bool)
    requires forall x :: p(x) == q(x)
    ensures Keep(xs, p) == Keep(xs, q)
  {
    if xs != [] {
      KeepSame(xs[..|xs| - 1], p, q);
    }
  }

  /** The pins that win over all rules, in pin order. */
  ghost predicate WinningPins(pins: seq<Pin>, rules: seq<Rule>) {
    InOrderOfPins(pins) && forall p :: p in pins <==> LastFor(AllPins(rules), p.key) == Some(p)
  }

  /** A curated list: organic results whose keys are hidden or pinned are gone, the others stay in
      order, and every winning pin that loads is spliced in at its slot. */
  ghost predicate Curated<R(!new)>(out: seq<R>, rules: seq<Rule>, results: seq<R>, keyOf: R -> string,
                                      load: Pin -> Option<R>)
  {
    exists pins, pinned ::
      && WinningPins(pins, rules) && LoadedFrom(pinned, Loadable(pins, load), load)
      && PositionsInOrder(Positions(pinned))
      && SplicedFrom(out, Keep(results, r => Untouched(rules, keyOf(r))), pinned)
  }

  /** The whole curation of a result list. */
  method ApplyCuration<R(!new)>(rules: seq<Rule>, results: seq<R>, keyOf: R -> string, load: Pin -> Option<R>)
    returns (out: seq<R>)
    ensures Curated(out, rules, results, keyOf, load)
  {
    var hides, list := CollectPinsAndHides(rules);
    var keys := set p | p in list :: p.key;
    forall k {
      PinnedKeys(rules, list, k);
    }
    var filtered := Filter(results, keyOf, hides, keys);
    var loaded := LoadPins(list, load);
    KeepSame(results, r => keyOf(r) !in hides && keyOf(r) !in keys, r => Untouched(rules, keyOf(r)));
    out := Splice(filtered, loaded);
    assert WinningPins(list, rules);
  }

  /** The winning pins and what is loaded for them are determined by the rules. */
  lemma WinnersAreUnique(rules: seq<Rule>, a: seq<Pin>, b: seq<Pin>)
    requires WinningPins(a, rules) && WinningPins(b, rules)
    ensures a == b
  {
    OrderIsUnique(a, b);
  }

  lemma SplicedMembers<R(!new)>(out: seq<R>, base: seq<R>, pinned: seq<PinnedResult<R>>, r: R)
    requires SplicedFrom(out, base, pinned) && r in out
    ensures r in base || exists j :: 0 <= j < |pinned| && pinned[j].result == r
  {
    var l :| Shows(out, l, base, pinned) && Spliced(l, Positions(pinned), |base|);
    ShownMembers(out, l, base, pinned, r);
  }

  lemma ShownMembers<R(!new)>(out: seq<R>, l: seq<Source>, base: seq<R>, pinned: seq<PinnedResult<R>>, r: R)
    requires Shows(out, l, base, pinned) && r in out
    ensures r in base || exists j :: 0 <= j < |pinned| && pinned[j].result == r
  {
    var k :| 0 <= k < |out| && out[k] == r;
    assert ShowsAt(out[k], l[k], base, pinned);
    match l[k]
    case Organic(i) => assert base[i] in base;
    case Pinned(j) => assert pinned[j].result == r;
  }

  lemma LoadedMember<R(!new)>(pinned: seq<PinnedResult<R>>, pins: seq<Pin>, load: Pin -> Option<R>, j: nat)
    requires LoadedFrom(pinned, Loadable(pins, load), load) && j < |pinned|
    ensures exists p: Pin :: p in pins && load(p) == Some(pinned[j].result)
  {
    KeptSatisfy(pins, (p: Pin) => load(p).Some?);
    var p := Loadable(pins, load)[j];
    assert p in Loadable(pins, load);
  }

  /** What a curated list shows: no organic result with a hidden or pinned key, and nothing but
      untouched organic results and loaded pins. */
  lemma NothingTouchedSurvives<R(!new)>(out: seq<R>, rules: seq<Rule>, results: seq<R>, keyOf: R -> string,
                                        load: Pin -> Option<R>, r: R)
    requires Curated(out, rules, results, keyOf, load) && r in out
    ensures (r in results && Untouched(rules, keyOf(r)))
         || exists p: Pin :: LastFor(AllPins(rules), p.key) == Some(p) && load(p) == Some(r)
  {
    var base := Keep(results, r => Untouched(rules, keyOf(r)));
    var pins: seq<Pin>, pinned: seq<PinnedResult<R>> :|
      WinningPins(pins, rules) && LoadedFrom(pinned, Loadable(pins, load), load) && SplicedFrom(out, base, pinned);
    SplicedMembers(out, base, pinned, r);
    KeptSatisfy(results, r => Untouched(rules, keyOf(r)));
    if r !in base {
      var j :| 0 <= j < |pinned| && pinned[j].result == r;
      LoadedMember(pinned, pins, load, j);
    }
  }
}
