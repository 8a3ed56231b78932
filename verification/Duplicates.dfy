/** Groups of similar documents: every pair is compared, and the pairs that score high enough
    are merged (services/mddbd/duplicates.go). */
module Duplicates {
  import opened UnionFinding

  type Pairs = set<(nat, nat)>

  // ---- chains of pairs --------------------------------------------------------------------------

  ghost predicate Adjacent(e: Pairs, x: nat, y: nat) { (x, y) in e || (y, x) in e }

  ghost predicate Chain(e: Pairs, path: seq<nat>) {
    path != [] && forall i | 0 <= i < |path| - 1 :: Adjacent(e, path[i], path[i + 1])
  }

  ghost predicate Connects(e: Pairs, path: seq<nat>, x: nat, y: nat) {
    Chain(e, path) && path[0] == x && path[|path| - 1] == y
  }

  /** A chain of pairs leads from x to y. */
  ghost predicate Linked(e: Pairs, x: nat, y: nat) {
    exists path :: Connects(e, path, x, y)
  }

  lemma LinkedSelf(e: Pairs, x: nat)
    ensures Linked(e, x, x)
  {
    assert Connects(e, [x], x, x);
  }

  lemma LinkedNext(e: Pairs, x: nat, y: nat)
    requires Adjacent(e, x, y)
    ensures Linked(e, x, y)
  {
    assert Connects(e, [x, y], x, y);
  }

  lemma LinkedThrough(e: Pairs, x: nat, y: nat, z: nat)
    requires Linked(e, x, y) && Linked(e, y, z)
    ensures Linked(e, x, z)
  {
    var p :| Connects(e, p, x, y);
    var q :| Connects(e, q, y, z);
    var whole := p + q[1..];
    forall i | 0 <= i < |whole| - 1 ensures Adjacent(e, whole[i], whole[i + 1]) {
      if i >= |p| - 1 {
        assert whole[i] == q[i - |p| + 1] && whole[i + 1] == q[i - |p| + 2];
      }
    }
    assert Connects(e, whole, x, z);
  }

  lemma ChainTail(e: Pairs, path: seq<nat>)
    requires Chain(e, path) && |path| > 1
    ensures Chain(e, path[1..])
  {
    forall i | 0 <= i < |path[1..]| - 1 ensures Adjacent(e, path[1..][i], path[1..][i + 1]) {
      var k := i + 1;
      assert Adjacent(e, path[k], path[k + 1]);
    }
  }

  lemma LinkedMore(e: Pairs, more: Pairs, x: nat, y: nat)
    requires Linked(e, x, y) && e <= more
    ensures Linked(more, x, y)
  {
    var p :| Connects(e, p, x, y);
    forall i | 0 <= i < |p| - 1 ensures Adjacent(more, p[i], p[i + 1]) {
      assert Adjacent(e, p[i], p[i + 1]);
    }
    assert Connects(more, p, x, y);
  }

  // ---- representatives against chains ---------------------------------------------------------------

  /** Pairs have one representative, and only linked elements share one. */
  ghost predicate Components(roots: seq<nat>, e: Pairs) {
    && (forall p | p in e :: p.0 < |roots| && p.1 < |roots| && roots[p.0] == roots[p.1])
    && (forall x: nat, y: nat {:trigger Linked(e, x, y)} | x < |roots| && y < |roots| && roots[x] == roots[y] ::
      Linked(e, x, y))
  }

  lemma {:induction false} ChainStaysTogether(roots: seq<nat>, e: Pairs, path: seq<nat>)
    requires Components(roots, e) && Chain(e, path) && path[0] < |roots|
    ensures path[|path| - 1] < |roots| && roots[path[|path| - 1]] == roots[path[0]]
    decreases |path|
  {
    if |path| > 1 {
      assert Adjacent(e, path[0], path[1]);
      ChainTail(e, path);
      ChainStaysTogether(roots, e, path[1..]);
    }
  }

  lemma ComponentsIff(roots: seq<nat>, e: Pairs, x: nat, y: nat)
    requires Components(roots, e) && x < |roots| && y < |roots|
    ensures roots[x] == roots[y] <==> Linked(e, x, y)
  {
    if Linked(e, x, y) {
      var p :| Connects(e, p, x, y);
      ChainStaysTogether(roots, e, p);
    }
  }

  lemma NoPairs(n: nat)
    ensures Components(seq(n, x => x), {})
  {
    forall x: nat, y: nat | x < n && y < n && x == y ensures Linked({}, x, y) {
      LinkedSelf({}, x);
    }
  }

  /** Merging for one more pair keeps representatives and chains together. */
  lemma JoinedAddsPair(was: seq<nat>, now: seq<nat>, e: Pairs, a: nat, b: nat)
    requires Components(was, e) && Joined(was, now, a, b)
    ensures Components(now, e + {(a, b)})
  {
    var more := e + {(a, b)};
    forall x: nat, y: nat | x < |now| && y < |now| && now[x] == now[y] ensures Linked(more, x, y) {
      if was[x] == was[y] {
        LinkedMore(e, more, x, y);
      } else if was[x] == was[a] {
        LinkedAcross(e, more, x, a, b, y);
      } else {
        LinkedAcross(e, more, x, b, a, y);
      }
    }
    forall p | p in more ensures p.0 < |now| && p.1 < |now| && now[p.0] == now[p.1] {
      assert p in e || p == (a, b);
    }
  }

  lemma LinkedAcross(e: Pairs, more: Pairs, x: nat, a: nat, b: nat, y: nat)
    requires Linked(e, x, a) && Linked(e, b, y) && Adjacent(more, a, b) && e <= more
    ensures Linked(more, x, y)
  {
    LinkedMore(e, more, x, a);
    LinkedMore(e, more, b, y);
    LinkedNext(more, a, b);
    LinkedThrough(more, x, a, b);
    LinkedThrough(more, x, b, y);
  }

  // ---- the pairs that score high enough ---------------------------------------------------------------

  ghost predicate Near<V>(docs: seq<V>, metric: (V, V) -> real, threshold: real, i: nat, j: nat) {
    i < j < |docs| && metric(docs[i], docs[j]) >= threshold
  }

  ghost function NearPairs<V>(docs: seq<V>, metric: (V, V) -> real, threshold: real): Pairs {
    set i: nat, j: nat | i < |docs| && j < |docs| && Near(docs, metric, threshold, i, j) :: (i, j)
  }

  /** For a symmetric score, adjacent documents are any two that score at least the threshold. */
  lemma SymmetricAdjacent<V>(docs: seq<V>, metric: (V, V) -> real, threshold: real, x: nat, y: nat)
    requires x < |docs| && y < |docs| && x != y && metric(docs[x], docs[y]) == metric(docs[y], docs[x])
    ensures Adjacent(NearPairs(docs, metric, threshold), x, y) <==> metric(docs[x], docs[y]) >= threshold
  {
    assert (x, y) in NearPairs(docs, metric, threshold) <==> Near(docs, metric, threshold, x, y);
    assert (y, x) in NearPairs(docs, metric, threshold) <==> Near(docs, metric, threshold, y, x);
  }

  /** The near pairs among those compared so far: rows before i, and row i before column j. */
  ghost function Compared<V>(docs: seq<V>, metric: (V, V) -> real, threshold: real, i: nat, j: nat): Pairs {
    set p | p in NearPairs(docs, metric, threshold) && (p.0 < i || (p.0 == i && p.1 < j))
  }

  lemma ComparedOneMore<V>(docs: seq<V>, metric: (V, V) -> real, threshold: real, i: nat, j: nat)
    requires i < j < |docs|
    ensures Compared(docs, metric, threshold, i, j + 1)
         == Compared(docs, metric, threshold, i, j) + if metric(docs[i], docs[j]) >= threshold then {(i, j)} else {}
  {
    assert (i, j) in NearPairs(docs, metric, threshold) <==> Near(docs, metric, threshold, i, j);
  }

  lemma RowCompared<V>(docs: seq<V>, metric: (V, V) -> real, threshold: real, i: nat)
    ensures Compared(docs, metric, threshold, i, |docs|) == Compared(docs, metric, threshold, i + 1, i + 2)
  {
  }

  lemma AllCompared<V>(docs: seq<V>, metric: (V, V) -> real, threshold: real)
    ensures Compared(docs, metric, threshold, 0, 1) == {}
    ensures Compared(docs, metric, threshold, |docs|, |docs| + 1) == NearPairs(docs, metric, threshold)
  {
  }

  /** The structure is sound and its representatives are those of the pairs. */
  ghost predicate Tracks(uf: UnionFind, n: nat, e: Pairs)
    reads uf, uf.parent, uf.rank
  {
    uf.Valid() && uf.parent.Length == n && Components(uf.Roots(), e)
  }

  /** The pair loop: afterwards representatives are those of the near pairs. */
  method ComparePairs<V>(uf: UnionFind, docs: seq<V>, metric: (V, V) -> real, threshold: real)
    requires Tracks(uf, |docs|, {})
    modifies uf.parent, uf.rank
    ensures Tracks(uf, |docs|, NearPairs(docs, metric, threshold))
  {
    ghost var e: Pairs := {};
    AllCompared(docs, metric, threshold);
    for i := 0 to |docs|
      invariant Tracks(uf, |docs|, e)
      invariant e == Compared(docs, metric, threshold, i, i + 1)
    {
      e := CompareRow(uf, docs, metric, threshold, i, e);
      RowCompared(docs, metric, threshold, i);
    }
    assert e == NearPairs(docs, metric, threshold);
  }

  method CompareRow<V>(uf: UnionFind, docs: seq<V>, metric: (V, V) -> real, threshold: real, i: nat,
                       ghost before: Pairs)
    returns (ghost e: Pairs)
    requires i < |docs| && Tracks(uf, |docs|, before) && before == Compared(docs, metric, threshold, i, i + 1)
    modifies uf.parent, uf.rank
    ensures Tracks(uf, |docs|, e) && e == Compared(docs, metric, threshold, i, |docs|)
  {
    e := before;
    for j := i + 1 to |docs|
      invariant Tracks(uf, |docs|, e)
      invariant e == Compared(docs, metric, threshold, i, j)
    {
      ComparedOneMore(docs, metric, threshold, i, j);
      var score := metric(docs[i], docs[j]);
      if score >= threshold {
        UnionPair(uf, |docs|, i, j, e);
        e := e + {(i, j)};
      }
    }
  }

  method UnionPair(uf: UnionFind, n: nat, i: nat, j: nat, ghost e: Pairs)
    requires Tracks(uf, n, e) && i < n && j < n
    modifies uf.parent, uf.rank
    ensures Tracks(uf, n, e + {(i, j)})
  {
    ghost var was := uf.Roots();
    uf.Union(i, j);
    JoinedAddsPair(was, uf.Roots(), e, i, j);
  }

  // ---- grouping ------------------------------------------------------------------------------------------

  predicate Increasing(g: seq<nat>) { forall i, j | 0 <= i < j < |g| :: g[i] < g[j] }

  /** Some elements below n, in order, that r represents. */
  ghost predicate ListsRoot(g: seq<nat>, roots: seq<nat>, n: nat, r: nat) {
    g != [] && Increasing(g) && forall x | x in g :: x < n && x < |roots| && roots[x] == r
  }

  /** Elements below n listed under their representatives. */
  ghost predicate ListedByRoot(components: map<nat, seq<nat>>, roots: seq<nat>, n: nat)
    requires n <= |roots|
  {
    && (forall r | r in components :: ListsRoot(components[r], roots, n, r))
    && (forall x: nat | x < n :: InOwnList(components, roots, x))
  }

  ghost predicate InOwnList(components: map<nat, seq<nat>>, roots: seq<nat>, x: nat) {
    x < |roots| && roots[x] in components && x in components[roots[x]]
  }

  method ListByRoot(uf: UnionFind, ghost roots: seq<nat>) returns (components: map<nat, seq<nat>>)
    requires uf.Valid() && uf.Roots() == roots
    modifies uf.parent
    ensures uf.Valid() && uf.Roots() == roots
    ensures ListedByRoot(components, roots, |roots|)
  {
    components := map[];
    for i := 0 to uf.parent.Length
      invariant uf.Valid() && uf.Roots() == roots
      invariant ListedByRoot(components, roots, i)
    {
      var root, _ := uf.Find(i);
      ListedOneMore(components, roots, i);
      components := components[root := (if root in components then components[root] else []) + [i]];
    }
  }

  lemma ListsOneMore(g: seq<nat>, roots: seq<nat>, i: nat)
    requires i < |roots| && (g == [] || ListsRoot(g, roots, i, roots[i]))
    ensures ListsRoot(g + [i], roots, i + 1, roots[i]) && i in g + [i]
  {
    assert forall k | 0 <= k < |g| :: g[k] in g;
    assert (g + [i])[|g|] == i;
  }

  lemma ListedOneMore(components: map<nat, seq<nat>>, roots: seq<nat>, i: nat)
    requires i < |roots| && ListedByRoot(components, roots, i)
    ensures var root := roots[i];
            ListedByRoot(components[root := (if root in components then components[root] else []) + [i]], roots, i + 1)
  {
    var root := roots[i];
    var before := if root in components then components[root] else [];
    var after := components[root := before + [i]];
    ListsOneMore(before, roots, i);
    forall r | r in after ensures ListsRoot(after[r], roots, i + 1, r) {
      if r != root {
        assert ListsRoot(components[r], roots, i, r);
      }
    }
    forall x: nat | x < i + 1 ensures InOwnList(after, roots, x) {
      if x < i {
        assert InOwnList(components, roots, x);
      }
    }
  }

  /** Every group has at least two members, no element is in two groups, and two elements are in
      a common group exactly when a chain of pairs connects them. */
  ghost predicate IsGrouping(groups: seq<seq<nat>>, n: nat, e: Pairs) {
    && (forall g | g in groups :: |g| >= 2 && Increasing(g) && forall x | x in g :: x < n)
    && (forall i, j | 0 <= i < j < |groups| :: Apart(groups[i], groups[j]))
    && (forall x: nat, y: nat | x < n && y < n && x != y :: Linked(e, x, y) <==> Grouped(groups, x, y))
  }

  ghost predicate Apart(g: seq<nat>, h: seq<nat>) { forall x | x in g :: x !in h }

  ghost predicate Grouped(groups: seq<seq<nat>>, x: nat, y: nat) {
    exists g :: g in groups && x in g && y in g
  }

  /** The groups collected so far are the larger components of the roots not left to do. */
  ghost predicate Collected(groups: seq<seq<nat>>, components: map<nat, seq<nat>>, todo: set<nat>) {
    && (forall r | r in components && r !in todo && |components[r]| >= 2 :: components[r] in groups)
    && (forall g | g in groups :: |g| >= 2 && ComponentDone(components, todo, g))
    && (forall i, j | 0 <= i < j < |groups| :: Apart(groups[i], groups[j]))
  }

  ghost predicate ComponentDone(components: map<nat, seq<nat>>, todo: set<nat>, g: seq<nat>) {
    exists r :: r in components && r !in todo && g == components[r]
  }

  method CollectGroups(components: map<nat, seq<nat>>, ghost roots: seq<nat>) returns (groups: seq<seq<nat>>)
    requires ListedByRoot(components, roots, |roots|)
    ensures Collected(groups, components, {})
  {
    groups := [];
    var todo := components.Keys;
    while todo != {}
      invariant todo <= components.Keys
      invariant Collected(groups, components, todo)
      decreases |todo|
    {
      var root :| root in todo;
      CollectedOneMore(groups, components, roots, todo, root);
      if |components[root]| >= 2 {
        groups := groups + [components[root]];
      }
      todo := todo - {root};
    }
  }

  lemma CollectedOneMore(groups: seq<seq<nat>>, components: map<nat, seq<nat>>, roots: seq<nat>, todo: set<nat>,
                         root: nat)
    requires ListedByRoot(components, roots, |roots|) && Collected(groups, components, todo)
    requires root in components && root in todo
    ensures Collected(if |components[root]| >= 2 then groups + [components[root]] else groups,
                      components, todo - {root})
  {
    var g := components[root];
    var more := if |g| >= 2 then groups + [g] else groups;
    forall i | 0 <= i < |groups| ensures Apart(groups[i], g) {
      assert groups[i] in groups;
      var r :| r in components && r !in todo && groups[i] == components[r];
      assert ListsRoot(components[r], roots, |roots|, r) && ListsRoot(g, roots, |roots|, root);
    }
    forall h | h in more ensures |h| >= 2 && ComponentDone(components, todo - {root}, h) {
      if h in groups {
        var r :| r in components && r !in todo && h == components[r];
      } else {
        assert h == components[root];
      }
    }
    assert |g| >= 2 ==> more[|groups|] == g;
    forall r | r in components && r !in todo - {root} && |components[r]| >= 2 ensures components[r] in more {
      if r != root {
        assert components[r] in groups;
      }
    }
  }

  lemma CollectedIsGrouping(groups: seq<seq<nat>>, components: map<nat, seq<nat>>, roots: seq<nat>, e: Pairs)
    requires ListedByRoot(components, roots, |roots|) && Collected(groups, components, {}) && Components(roots, e)
    ensures IsGrouping(groups, |roots|, e)
  {
    forall x: nat, y: nat | x < |roots| && y < |roots| && x != y ensures Linked(e, x, y) <==> Grouped(groups, x, y) {
      ComponentsIff(roots, e, x, y);
      if roots[x] == roots[y] {
        assert InOwnList(components, roots, x) && InOwnList(components, roots, y);
        var g := components[roots[x]];
        TwoMembers(g, x, y);
        assert g in groups && x in g && y in g;
      }
    }
  }

  lemma TwoMembers(g: seq<nat>, x: nat, y: nat)
    requires x in g && y in g && x != y
    ensures |g| >= 2
  {
  }

  /** The whole search: the groups are the connected components with two members or more. */
  method FindSimilar<V>(docs: seq<V>, metric: (V, V) -> real, threshold: real) returns (groups: seq<seq<nat>>)
    ensures IsGrouping(groups, |docs|, NearPairs(docs, metric, threshold))
  {
    if |docs| < 2 {
      return [];
    }
    var uf := new UnionFind(|docs|);
    NoPairs(|docs|);
    ComparePairs(uf, docs, metric, threshold);
    ghost var roots, e := uf.Roots(), NearPairs(docs, metric, threshold);
    var components := ListByRoot(uf, roots);
    groups := CollectGroups(components, roots);
    CollectedIsGrouping(groups, components, roots, e);
  }

  /** A document is in a group exactly when it is linked to another document. */
  lemma SinglesAreDropped(groups: seq<seq<nat>>, n: nat, e: Pairs, x: nat)
    requires IsGrouping(groups, n, e) && x < n
    ensures (exists g :: g in groups && x in g) <==> exists y: nat :: y < n && y != x && Linked(e, x, y)
  {
    if g :| g in groups && x in g {
      var y := if g[0] == x then g[1] else g[0];
      assert y in g && y < n && y != x;
      assert Grouped(groups, x, y);
    }
    if y: nat :| y < n && y != x && Linked(e, x, y) {
      assert Grouped(groups, x, y);
    }
  }
}
