/** Union by rank with path halving over two arrays (services/mddbd/duplicates.go). */
module UnionFinding {

  // ---- forests ------------------------------------------------------------------------------------

  /** Every link leads to a node of higher rank. */
  ghost predicate Forest(p: seq<nat>, rank: seq<nat>) {
    |rank| == |p| && forall x | 0 <= x < |p| :: p[x] < |p| && (p[x] != x ==> rank[x] < rank[p[x]])
  }

  ghost function Top(rank: seq<nat>): (t: nat)
    ensures forall x | 0 <= x < |rank| :: rank[x] <= t
  {
    if rank == [] then 0
    else
      var t := Top(rank[1..]);
      assert forall x | 0 < x < |rank| :: rank[x] == rank[1..][x - 1];
      if rank[0] > t then rank[0] else t
  }

  ghost function Root(p: seq<nat>, rank: seq<nat>, x: nat): (r: nat)
    requires Forest(p, rank) && x < |p|
    ensures r < |p| && p[r] == r && rank[x] <= rank[r]
    decreases Top(rank) - rank[x]
  {
    if p[x] == x then x else Root(p, rank, p[x])
  }

  ghost function RootsOf(p: seq<nat>, rank: seq<nat>): (roots: seq<nat>)
    requires Forest(p, rank)
    ensures |roots| == |p|
  {
    seq(|p|, x requires 0 <= x < |p| => Root(p, rank, x))
  }

  ghost function Members(p: seq<nat>, rank: seq<nat>, r: nat): set<nat>
    requires Forest(p, rank)
  {
    set x: nat | x < |p| && Root(p, rank, x) == r
  }

  ghost function Pow2(n: nat): (r: nat)
    ensures r >= 1
  {
    if n == 0 then 1 else 2 * Pow2(n - 1)
  }

  /** A root of rank r heads a tree of at least 2^r nodes. */
  ghost predicate Weighted(p: seq<nat>, rank: seq<nat>)
    requires Forest(p, rank)
  {
    forall r: nat | r < |p| && p[r] == r :: Pow2(rank[r]) <= |Members(p, rank, r)|
  }

  // ---- one halving step -----------------------------------------------------------------------------

  /** Pointing a node at its grandparent moves no node to another tree. */
  lemma {:induction false} HalvingKeepsRoot(p: seq<nat>, rank: seq<nat>, x: nat, y: nat)
    requires Forest(p, rank) && x < |p| && y < |p| && p[x] != x
    ensures var q := p[x := p[p[x]]]; Forest(q, rank) && Root(q, rank, y) == Root(p, rank, y)
    decreases Top(rank) - rank[y]
  {
    var q := p[x := p[p[x]]];
    if p[y] != y {
      HalvingKeepsRoot(p, rank, x, q[y]);
    }
  }

  lemma HalvingKeepsRoots(p: seq<nat>, rank: seq<nat>, x: nat)
    requires Forest(p, rank) && x < |p| && p[x] != x
    ensures var q := p[x := p[p[x]]];
            Forest(q, rank) && RootsOf(q, rank) == RootsOf(p, rank) && (Weighted(p, rank) ==> Weighted(q, rank))
  {
    var q := p[x := p[p[x]]];
    HalvingKeepsRoot(p, rank, x, x);
    forall y: nat | y < |p| ensures Root(q, rank, y) == Root(p, rank, y) {
      HalvingKeepsRoot(p, rank, x, y);
    }
    if Weighted(p, rank) {
      forall r: nat | r < |q| && q[r] == r ensures Pow2(rank[r]) <= |Members(q, rank, r)| {
        assert p[r] == r;
        assert Members(q, rank, r) == Members(p, rank, r);
      }
    }
  }

  // ---- linking two roots --------------------------------------------------------------------------------

  ghost function Raised(rank: seq<nat>, lo: nat, hi: nat): seq<nat>
    requires lo < |rank| && hi < |rank|
  {
    if rank[lo] == rank[hi] then rank[hi := rank[hi] + 1] else rank
  }

  ghost predicate Linkable(p: seq<nat>, rank: seq<nat>, lo: nat, hi: nat) {
    Forest(p, rank) && lo < |p| && hi < |p| && p[lo] == lo && p[hi] == hi && lo != hi && rank[lo] <= rank[hi]
  }

  lemma {:induction false} LinkMovesRoot(p: seq<nat>, rank: seq<nat>, lo: nat, hi: nat, y: nat)
    requires Linkable(p, rank, lo, hi) && y < |p|
    ensures var q, up := p[lo := hi], Raised(rank, lo, hi);
            Forest(q, up) && Root(q, up, y) == if Root(p, rank, y) == lo then hi else Root(p, rank, y)
    decreases Top(rank) - rank[y]
  {
    var q, up := p[lo := hi], Raised(rank, lo, hi);
    if p[y] != y {
      LinkMovesRoot(p, rank, lo, hi, p[y]);
    } else if y == lo {
      assert Root(q, up, lo) == Root(q, up, hi);
    }
  }

  lemma LinkMovesRoots(p: seq<nat>, rank: seq<nat>, lo: nat, hi: nat)
    requires Linkable(p, rank, lo, hi)
    ensures var q, up := p[lo := hi], Raised(rank, lo, hi);
            && Forest(q, up)
            && forall y: nat | y < |p| ::
              RootsOf(q, up)[y] == if RootsOf(p, rank)[y] == lo then hi else RootsOf(p, rank)[y]
  {
    LinkMovesRoot(p, rank, lo, hi, lo);
    forall y: nat | y < |p| {
      LinkMovesRoot(p, rank, lo, hi, y);
    }
  }

  lemma LinkMergesMembers(p: seq<nat>, rank: seq<nat>, lo: nat, hi: nat, r: nat)
    requires Linkable(p, rank, lo, hi) && Forest(p[lo := hi], Raised(rank, lo, hi)) && r < |p| && r != lo
    ensures var low, now := Members(p, rank, lo), Members(p, rank, r);
            && low !! now
            && Members(p[lo := hi], Raised(rank, lo, hi), r) == if r == hi then low + now else now
  {
    forall y: nat | y < |p| {
      LinkMovesRoot(p, rank, lo, hi, y);
    }
  }

  lemma RootStaysHeavy(p: seq<nat>, rank: seq<nat>, lo: nat, hi: nat, r: nat)
    requires Linkable(p, rank, lo, hi) && Forest(p[lo := hi], Raised(rank, lo, hi))
    requires r < |p| && r != lo && p[r] == r
    requires Pow2(rank[lo]) <= |Members(p, rank, lo)| && Pow2(rank[r]) <= |Members(p, rank, r)|
    ensures Pow2(Raised(rank, lo, hi)[r]) <= |Members(p[lo := hi], Raised(rank, lo, hi), r)|
  {
    var low, own := Members(p, rank, lo), Members(p, rank, r);
    LinkMergesMembers(p, rank, lo, hi, r);
    assert |low + own| == |low| + |own|;
    assert Pow2(rank[r] + 1) == 2 * Pow2(rank[r]);
  }

  lemma LinkKeepsWeight(p: seq<nat>, rank: seq<nat>, lo: nat, hi: nat)
    requires Linkable(p, rank, lo, hi) && Weighted(p, rank)
    requires Forest(p[lo := hi], Raised(rank, lo, hi))
    ensures Weighted(p[lo := hi], Raised(rank, lo, hi))
  {
    var q, up := p[lo := hi], Raised(rank, lo, hi);
    forall r: nat | r < |q| && q[r] == r ensures Pow2(up[r]) <= |Members(q, up, r)| {
      assert p[r] == r && r != lo;
      RootStaysHeavy(p, rank, lo, hi, r);
    }
  }

  /** Two elements are together afterwards iff they were, or one was with x and one with y. */
  ghost predicate Joined(was: seq<nat>, now: seq<nat>, x: nat, y: nat) {
    && |now| == |was| && x < |was| && y < |was|
    && forall u, v | 0 <= u < |was| && 0 <= v < |was| ::
         now[u] == now[v] <==>
           was[u] == was[v] || (was[u] == was[x] && was[v] == was[y]) || (was[u] == was[y] && was[v] == was[x])
  }

  lemma MovedIsJoined(was: seq<nat>, now: seq<nat>, lo: nat, hi: nat, x: nat, y: nat)
    requires |now| == |was| && x < |was| && y < |was|
    requires (was[x] == lo && was[y] == hi) || (was[x] == hi && was[y] == lo)
    requires forall u | 0 <= u < |was| :: now[u] == if was[u] == lo then hi else was[u]
    ensures Joined(was, now, x, y)
  {
  }

  // ---- a set of at most n numbers ------------------------------------------------------------------------

  lemma {:induction false} BelowSize(s: set<nat>, n: nat)
    requires forall x | x in s :: x < n
    ensures |s| <= n
  {
    if n > 0 {
      BelowSize(s - {n - 1}, n - 1);
    }
  }

  lemma {:induction false} Pow2Monotone(a: nat, b: nat)
    requires a <= b
    ensures Pow2(a) <= Pow2(b)
  {
    if a < b {
      Pow2Monotone(a, b - 1);
    }
  }

  /** The structure itself: two arrays of one length. */
  class UnionFind {
    const parent: array<nat>
    const rank: array<nat>

    ghost predicate Valid()
      reads this, parent, rank
    {
      parent != rank && Forest(parent[..], rank[..]) && Weighted(parent[..], rank[..])
    }

    /** The representative of every element: two elements are in one set iff these are equal. */
    ghost function Roots(): (roots: seq<nat>)
      reads this, parent, rank
      requires Valid()
      ensures |roots| == parent.Length
    {
      RootsOf(parent[..], rank[..])
    }

    constructor (n: nat)
      ensures Valid() && fresh(parent) && fresh(rank) && parent.Length == n
      ensures Roots() == seq(n, x => x)
    {
      parent := new nat[n];
      rank := new nat[n](_ => 0);
      new;
      for i := 0 to n
        invariant forall x: nat | x < i :: parent[x] == x
        invariant forall x: nat | x < n :: rank[x] == 0
      {
        parent[i] := i;
      }
      forall r: nat | r < n ensures |Members(parent[..], rank[..], r)| >= 1 {
        assert r in Members(parent[..], rank[..], r);
      }
    }

    /** The representative of x. Path halving changes no set, and the number of steps is at
        most the logarithm of the size of the set. */
    method Find(x0: nat) returns (x: nat, ghost steps: nat)
      requires Valid() && x0 < parent.Length
      modifies parent
      ensures Valid() && Roots() == old(Roots())
      ensures x == Roots()[x0] && parent[x] == x
      ensures Pow2(steps) <= |Members(parent[..], rank[..], x)| <= parent.Length
    {
      x, steps := x0, 0;
      while parent[x] != x
        invariant Valid() && Roots() == old(Roots())
        invariant x < parent.Length && Root(parent[..], rank[..], x) == old(Roots())[x0]
        invariant steps + rank[x0] <= rank[x]
        decreases Top(rank[..]) - rank[x]
      {
        HalvingKeepsRoots(parent[..], rank[..], x);
        HalvingKeepsRoot(parent[..], rank[..], x, x);
        ghost var q := parent[..][x := parent[parent[x]]];
        parent[x] := parent[parent[x]];
        assert parent[..] == q;
        x := parent[x];
        steps := steps + 1;
      }
      Pow2Monotone(steps, rank[x]);
      BelowSize(Members(parent[..], rank[..], x), parent.Length);
    }

    /** Joins the sets of x and y and no others. */
    method Union(x: nat, y: nat)
      requires Valid() && x < parent.Length && y < parent.Length
      modifies parent, rank
      ensures Valid()
      ensures Joined(old(Roots()), Roots(), x, y)
    {
      var rx, _ := Find(x);
      var ry, _ := Find(y);
      if rx == ry {
        return;
      }
      if rank[rx] < rank[ry] {
        rx, ry := ry, rx;
      }
      Link(ry, rx, x, y);
    }

    /** The lower root goes under the higher, which rises when both were of one rank. */
    method Link(lo: nat, hi: nat, ghost x: nat, ghost y: nat)
      requires Valid() && Linkable(parent[..], rank[..], lo, hi) && x < parent.Length && y < parent.Length
      requires (Roots()[x] == lo && Roots()[y] == hi) || (Roots()[x] == hi && Roots()[y] == lo)
      modifies parent, rank
      ensures Valid()
      ensures Joined(old(Roots()), Roots(), x, y)
    {
      ghost var p, r := parent[..], rank[..];
      LinkMovesRoots(p, r, lo, hi);
      LinkKeepsWeight(p, r, lo, hi);
      MovedIsJoined(RootsOf(p, r), RootsOf(p[lo := hi], Raised(r, lo, hi)), lo, hi, x, y);
      parent[lo] := hi;
      assert parent[..] == p[lo := hi] && rank[..] == r;
      if rank[hi] == rank[lo] {
        rank[hi] := rank[hi] + 1;
      }
      assert rank[..] == Raised(r, lo, hi) && parent[..] == p[lo := hi];
    }
  }
}
