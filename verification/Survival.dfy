/** Reference counting against reachability: which nodes are left when unreferenced ones are removed. */
module Survival {

  /** Nodes `0..n`; an edge `(j, i)` says that `j` refers to `i`; roots are kept whatever refers to them. */
  datatype References = References(n: nat, edges: set<(nat, nat)>, roots: set<nat>)

  /** Everything in the set is a root or is referred to from the set. */
  ghost predicate Sustained(g: References, a: set<nat>) {
    && (forall i :: i in a ==> i < g.n)
    && forall i :: i in a && i !in g.roots ==> exists j :: j in a && (j, i) in g.edges
  }

  /** `a` is the largest such set. */
  ghost predicate Survivors(g: References, a: set<nat>) {
    Sustained(g, a) && forall b: set<nat> :: Sustained(g, b) ==> b <= a
  }

  /** Each node refers to the next. */
  ghost predicate IsChain(g: References, p: seq<nat>) {
    && p != []
    && (forall k :: 0 <= k < |p| ==> p[k] < g.n)
    && forall k :: 0 <= k < |p| - 1 ==> (p[k], p[k + 1]) in g.edges
  }

  /** The chain starts at a root, or at a node it comes back to. */
  ghost predicate Anchored(g: References, p: seq<nat>)
    requires p != []
  {
    p[0] in g.roots || p[0] in p[1..]
  }

  /** Removing a node that is no root and that nothing left refers to keeps every sustained set. */
  lemma RemoveOne(g: References, a: set<nat>, i: nat, b: set<nat>)
    requires Sustained(g, b) && b <= a && i !in g.roots && forall j :: j in a ==> (j, i) !in g.edges
    ensures b <= a - {i}
  {
  }

  /** Roots survive, and so does what a survivor refers to. */
  lemma ReferredSurvives(g: References, a: set<nat>, i: nat)
    requires Survivors(g, a) && i < g.n
    requires i in g.roots || exists j :: j in a && (j, i) in g.edges
    ensures i in a
  {
    var b := a + {i};
    forall k | k in b && k !in g.roots
      ensures exists j :: j in b && (j, k) in g.edges
    {
      var j :| j in a && (j, k) in g.edges;
      assert j in b;
    }
    assert Sustained(g, b);
    assert i in b;
  }

  /** What an anchored chain leads to survives. */
  lemma ChainSurvives(g: References, a: set<nat>, p: seq<nat>)
    requires Survivors(g, a) && IsChain(g, p) && Anchored(g, p)
    ensures forall k :: 0 <= k < |p| ==> p[k] in a
  {
    var b := set k | 0 <= k < |p| :: p[k];
    forall i | i in b && i !in g.roots
      ensures exists j :: j in b && (j, i) in g.edges
    {
      var k :| 0 <= k < |p| && p[k] == i;
      var m := k;
      if k == 0 {
        var j :| 0 <= j < |p[1..]| && p[1..][j] == p[0];
        m := j + 1;
      }
      assert p[m - 1] in b && (p[m - 1], p[m - 1 + 1]) in g.edges;
    }
    assert Sustained(g, b);
    forall k | 0 <= k < |p| ensures p[k] in a {
      assert p[k] in b;
    }
  }

  /** From a survivor back along references, to a root or for as long as wanted. */
  lemma {:induction false} BackChain(g: References, a: set<nat>, i: nat, n: nat) returns (p: seq<nat>)
    requires Sustained(g, a) && i in a
    ensures IsChain(g, p) && p[|p| - 1] == i && p[0] in a && (p[0] in g.roots || |p| == n + 1)
    decreases n
  {
    if n == 0 || i in g.roots {
      p := [i];
    } else {
      var j :| j in a && (j, i) in g.edges;
      var q := BackChain(g, a, j, n - 1);
      p := q + [i];
    }
  }

  function UpTo(n: nat): (r: set<nat>)
    ensures |r| == n && forall i :: i in r <==> 0 <= i < n
  {
    if n == 0 then {} else UpTo(n - 1) + {n - 1}
  }

  lemma {:induction false} Pigeonhole(p: seq<nat>, n: nat) returns (x: nat, y: nat)
    requires |p| > n && forall k :: 0 <= k < |p| ==> p[k] < n
    ensures x < y < |p| && p[x] == p[y]
  {
    x, y := 0, 0;
    var k := 0;
    ghost var seen: set<nat> := {};
    while k < |p|
      invariant 0 <= k <= |p| && |seen| == k && forall v :: v in seen <==> v in p[..k]
    {
      if p[k] in seen {
        assert p[k] in p[..k];
        x :| 0 <= x < k && p[..k][x] == p[k];
        y := k;
        return;
      }
      seen := seen + {p[k]};
      assert p[..k + 1] == p[..k] + [p[k]];
      k := k + 1;
    }
    assert seen <= UpTo(n);
    SubsetSize(seen, UpTo(n));
    assert false;
  }

  lemma {:induction false} SubsetSize(a: set<nat>, b: set<nat>)
    requires a <= b
    ensures |a| <= |b|
  {
    if a != {} {
      var x :| x in a;
      SubsetSize(a - {x}, b - {x});
    }
  }

  /** The survivors are exactly what anchored chains lead to. */
  lemma SurvivorsExactly(g: References, a: set<nat>, i: nat)
    requires Survivors(g, a)
    ensures i in a <==> exists p :: IsChain(g, p) && p[|p| - 1] == i && Anchored(g, p)
  {
    if i in a {
      var p := BackChain(g, a, i, g.n);
      if p[0] in g.roots {
        assert Anchored(g, p);
      } else {
        var x, y := Pigeonhole(p, g.n);
        var q := p[x..];
        assert q[1..][y - x - 1] == q[0];
        assert IsChain(g, q) by {
          forall k | 0 <= k < |q| - 1 ensures (q[k], q[k + 1]) in g.edges {
            assert (p[x + k], p[x + k + 1]) in g.edges;
          }
        }
        assert Anchored(g, q) && q[|q| - 1] == i;
      }
    }
    forall p | IsChain(g, p) && p[|p| - 1] == i && Anchored(g, p)
      ensures i in a
    {
      ChainSurvives(g, a, p);
    }
  }

  /** References go from lower to higher rank. */
  ghost predicate Ranked(g: References, rank: nat -> nat) {
    forall j, i :: (j, i) in g.edges ==> rank(j) < rank(i)
  }

  /** Without cycles the survivors are exactly what is reachable from roots. */
  lemma AcyclicSurvivors(g: References, a: set<nat>, rank: nat -> nat, i: nat)
    requires Survivors(g, a) && Ranked(g, rank)
    ensures i in a <==> exists p :: IsChain(g, p) && p[|p| - 1] == i && p[0] in g.roots
  {
    SurvivorsExactly(g, a, i);
    if i in a {
      var p :| IsChain(g, p) && p[|p| - 1] == i && Anchored(g, p);
      NoReturn(g, rank, p);
    }
    forall p | IsChain(g, p) && p[|p| - 1] == i && p[0] in g.roots
      ensures i in a
    {
      assert Anchored(g, p);
    }
  }

  lemma NoReturn(g: References, rank: nat -> nat, p: seq<nat>)
    requires IsChain(g, p) && Ranked(g, rank)
    ensures p[0] !in p[1..]
  {
    forall k | 1 <= k < |p| ensures rank(p[0]) < rank(p[k]) {
      RankGrows(g, rank, p, k);
    }
  }

  lemma {:induction false} RankGrows(g: References, rank: nat -> nat, p: seq<nat>, k: nat)
    requires IsChain(g, p) && Ranked(g, rank) && 1 <= k < |p|
    ensures rank(p[0]) < rank(p[k])
  {
    assert (p[k - 1], p[k - 1 + 1]) in g.edges;
    if k > 1 {
      RankGrows(g, rank, p, k - 1);
    }
  }

  /** Everything left is reachable exactly if every cycle is. */
  lemma OnlyReachableIff(g: References, a: set<nat>)
    requires Survivors(g, a)
    ensures (forall i :: i in a ==> Reached(g, i))
            <==> forall p :: IsChain(g, p) && p[0] in p[1..] ==> Reached(g, p[0])
  {
    if forall i :: i in a ==> Reached(g, i) {
      forall p | IsChain(g, p) && p[0] in p[1..] ensures Reached(g, p[0]) {
        ChainSurvives(g, a, p);
      }
    }
    if forall p :: IsChain(g, p) && p[0] in p[1..] ==> Reached(g, p[0]) {
      forall i | i in a ensures Reached(g, i) {
        SurvivorsExactly(g, a, i);
        var p :| IsChain(g, p) && p[|p| - 1] == i && Anchored(g, p);
        if p[0] !in g.roots {
          var q :| IsChain(g, q) && q[|q| - 1] == p[0] && q[0] in g.roots;
          JoinChains(g, q, p);
        }
      }
    }
  }

  ghost predicate Reached(g: References, i: nat) {
    exists p :: IsChain(g, p) && p[|p| - 1] == i && p[0] in g.roots
  }

  lemma JoinChains(g: References, q: seq<nat>, p: seq<nat>)
    requires IsChain(g, q) && IsChain(g, p) && q[|q| - 1] == p[0] && q[0] in g.roots
    ensures Reached(g, p[|p| - 1])
  {
    var r := q + p[1..];
    forall k | 0 <= k < |r| - 1 ensures (r[k], r[k + 1]) in g.edges {
      if k < |q| - 1 {
        assert (q[k], q[k + 1]) in g.edges;
      } else {
        var m := k - (|q| - 1);
        assert (p[m], p[m + 1]) in g.edges;
      }
    }
    assert IsChain(g, r);
  }
}
