/** Graphs put together from constructs: each header has a region that control enters through the header only. */
module ConstructRegions {
  import opened Cfg

  type Regions = map<BlockId, set<BlockId>>

  predicate IsMerge(g: Graph, h: BlockId, m: BlockId) {
    && h in g
    && match g[h].mergeInst
       case NoMerge => false
       case SelectionMerge(x) => m == x
       case LoopMerge(x, _) => m == x
  }

  /** A header has a region with its targets in it; other blocks have neither. */
  predicate HasRegion(g: Graph, x: BlockId, n: set<BlockId>, r: Regions)
    requires x in g
  {
    if x in r then
      && !g[x].mergeInst.NoMerge? && r[x] <= n && x !in r[x] && g[x].mergeInst.Targets() <= r[x]
      && (g[x].mergeInst.LoopMerge? ==> g[x].mergeInst.merge != g[x].mergeInst.continueTarget)
    else g[x].mergeInst.NoMerge?
  }

  /** Edges into a region come from its header or from inside, and from inside not out of the merge block. */
  ghost predicate Entered(g: Graph, s: set<BlockId>, r: Regions) {
    forall x, y, h | x in s && Edge(g, x, y) && h in r && y in r[h] :: x == h || (x in r[h] && !IsMerge(g, h, x))
  }

  /** Regions are nested, and targets belong to one header. */
  ghost predicate RegionsNest(g: Graph, r: Regions) {
    && (forall o, h, t | o in r && h in r && IsTarget(g, o, t) && t in r[h] :: o == h || o in r[h])
    && forall o, h, t | o in r && h in r && IsTarget(g, o, t) && IsTarget(g, h, t) :: o == h
  }

  ghost predicate EdgesStay(g: Graph, s: set<BlockId>, n: set<BlockId>, e: set<BlockId>) {
    forall x, y | x in s && Edge(g, x, y) :: y in n || y in e
  }

  /** The blocks `s` of a graph: their edges go to `n` or to the exits `e`, and their regions are inside `n`. */
  ghost predicate Piece(g: Graph, s: set<BlockId>, n: set<BlockId>, e: set<BlockId>, r: Regions) {
    && s <= g.Keys && r.Keys <= s
    && EdgesStay(g, s, n, e)
    && (forall x <- s :: HasRegion(g, x, n, r))
    && Entered(g, s, r)
    && RegionsNest(g, r)
  }

  // ---------- putting pieces together ----------

  /** A piece is about its own blocks. */
  lemma PieceFrame(g: Graph, g': Graph, s: set<BlockId>, n: set<BlockId>, e: set<BlockId>, r: Regions)
    requires Piece(g, s, n, e, r) && s <= g'.Keys && forall x <- s :: g'[x] == g[x]
    ensures Piece(g', s, n, e, r)
  {
    assert forall x, y | x in s && Edge(g', x, y) :: Edge(g, x, y);
    assert forall x, y | x in r && IsTarget(g', x, y) :: IsTarget(g, x, y);
  }

  /** A block without a merge instruction is a piece. */
  lemma OneBlock(g: Graph, x: BlockId, e: set<BlockId>)
    requires x in g && g[x].mergeInst.NoMerge? && forall y <- g[x].successors :: y in e
    ensures Piece(g, {x}, {}, e, map[])
  {
  }

  lemma PieceDrop(g: Graph, s: set<BlockId>, n: set<BlockId>, e: set<BlockId>, r: Regions, x: BlockId)
    requires Piece(g, s, n, e, r) && x !in r
    ensures Piece(g, s - {x}, n, e, r)
  {
  }

  lemma PieceWiden(g: Graph, s: set<BlockId>, n: set<BlockId>, e: set<BlockId>, r: Regions,
                   n': set<BlockId>, e': set<BlockId>)
    requires Piece(g, s, n, e, r) && n <= n' && n + e <= n' + e'
    ensures Piece(g, s, n', e', r)
  {
    forall x, y | x in s && Edge(g, x, y)
      ensures y in n' || y in e'
    {
      assert y in n + e;
      assert y in n' + e';
    }
  }

  /** Pieces that do not branch into each other's regions. */
  lemma PieceUnion(g: Graph, s1: set<BlockId>, n1: set<BlockId>, e1: set<BlockId>, r1: Regions,
                   s2: set<BlockId>, n2: set<BlockId>, e2: set<BlockId>, r2: Regions)
    requires Piece(g, s1, n1, e1, r1) && Piece(g, s2, n2, e2, r2)
    requires s1 !! s2 && n1 !! n2 && n1 !! e2 && n2 !! e1
    ensures Piece(g, s1 + s2, n1 + n2, e1 + e2, r1 + r2)
  {
    var s, n, e, r := s1 + s2, n1 + n2, e1 + e2, r1 + r2;
    assert r1.Keys !! r2.Keys;
    forall h | h in r1 ensures r[h] == r1[h] <= n1 {
      assert HasRegion(g, h, n1, r1);
    }
    forall h | h in r2 ensures r[h] == r2[h] <= n2 {
      assert HasRegion(g, h, n2, r2);
    }
    assert EdgesStay(g, s, n, e);
    forall x <- s ensures HasRegion(g, x, n, r) {
      assert HasRegion(g, x, if x in s1 then n1 else n2, if x in s1 then r1 else r2);
    }
    assert Entered(g, s, r);
    assert RegionsNest(g, r) by {
      forall o, h, t | o in r && h in r && IsTarget(g, o, t) && t in r[h] ensures o == h || o in r[h] {
        assert HasRegion(g, o, n, r);
        assert t in r[o];
      }
      forall o, h, t | o in r && h in r && IsTarget(g, o, t) && IsTarget(g, h, t) ensures o == h {
        assert HasRegion(g, o, n, r) && HasRegion(g, h, n, r);
        assert t in r[o] && t in r[h];
      }
    }
  }

  /** A header around a piece: everything new is its region. */
  lemma PieceWrap(g: Graph, s: set<BlockId>, n: set<BlockId>, e: set<BlockId>, r: Regions,
                  h: BlockId, n': set<BlockId>, e': set<BlockId>)
    requires Piece(g, s, n, e, r) && h in g && h !in n' && n <= n' && s <= n' && e <= n' + e'
    requires !g[h].mergeInst.NoMerge? && g[h].mergeInst.Targets() <= n' - n
    requires g[h].mergeInst.LoopMerge? ==> g[h].mergeInst.merge != g[h].mergeInst.continueTarget
    requires forall y <- g[h].successors :: y in n' - n
    requires forall m <- s | IsMerge(g, h, m) :: g[m].successors == []
    ensures Piece(g, s + {h}, n', e', r[h := n'])
  {
    var r' := r[h := n'];
    assert h !in s && h !in r;
    forall x | x in r ensures x in s && r'[x] == r[x] <= n && g[x].mergeInst.Targets() <= r[x] {
      assert HasRegion(g, x, n, r);
    }
    forall x, y | x in s + {h} && Edge(g, x, y) ensures y in n' || y in e' {
      assert x in s ==> y in n + e;
    }
    forall x <- s + {h} ensures HasRegion(g, x, n', r') {
      assert x in s ==> HasRegion(g, x, n, r);
    }
    assert Entered(g, s + {h}, r');
    assert RegionsNest(g, r');
  }

  // ---------- pieces are structured ----------

  ghost predicate Whole(g: Graph, root: BlockId, n: set<BlockId>, r: Regions) {
    Piece(g, g.Keys, n, {}, r) && root in g && root !in n
  }

  /** A path to a block in a region goes through the header. */
  lemma {:induction false} ThroughHeader(g: Graph, root: BlockId, n: set<BlockId>, r: Regions,
                                         h: BlockId, p: seq<BlockId>, b: BlockId)
    requires Whole(g, root, n, r) && h in r && b in r[h] && IsPath(g, p, root, b)
    ensures h in p
    decreases |p|
  {
    assert HasRegion(g, h, n, r);
    if |p| > 1 {
      var k := |p| - 2;
      assert Edge(g, p[k], p[k + 1]);
      if p[k] != h {
        PathPrefix(g, p, root, b, k);
        ThroughHeader(g, root, n, r, h, p[..k + 1], p[k]);
      }
    }
  }

  lemma HeaderDominates(g: Graph, root: BlockId, n: set<BlockId>, r: Regions, h: BlockId, b: BlockId)
    requires Whole(g, root, n, r) && h in r && b in r[h]
    ensures StrictlyDominates(g, root, h, b)
    ensures Reachable(g, root, b) ==> Reachable(g, root, h)
  {
    assert HasRegion(g, h, n, r);
    forall p | IsPath(g, p, root, b) ensures h in p {
      ThroughHeader(g, root, n, r, h, p, b);
    }
    if Reachable(g, root, b) {
      var p :| IsPath(g, p, root, b);
      var k :| 0 <= k < |p| && p[k] == h;
      PathPrefix(g, p, root, b, k);
    }
  }

  lemma TargetInRegion(g: Graph, root: BlockId, n: set<BlockId>, r: Regions, h: BlockId, t: BlockId)
    requires Whole(g, root, n, r) && IsTarget(g, h, t)
    ensures h in r && t in r[h]
  {
    assert HasRegion(g, h, n, r);
  }

  lemma RegionIsInterior(g: Graph, root: BlockId, n: set<BlockId>, r: Regions, h: BlockId, b: BlockId)
    requires Whole(g, root, n, r) && h in r && b in r[h] && Reachable(g, root, b)
    ensures Interior(g, root, h, b)
  {
    HeaderDominates(g, root, n, r, h, b);
    forall o <- g | IsTarget(g, o, b) && o != h
      ensures Reachable(g, root, o) && StrictlyDominates(g, root, h, o)
    {
      TargetInRegion(g, root, n, r, o, b);
      HeaderDominates(g, root, n, r, o, b);
      HeaderDominates(g, root, n, r, h, o);
    }
  }

  /** Back along a path to the header, inside the construct that the target closes. */
  lemma {:induction false} BackToHeader(g: Graph, root: BlockId, n: set<BlockId>, r: Regions, h: BlockId, t: BlockId,
                                        p: seq<BlockId>, b: BlockId) returns (q: seq<BlockId>)
    requires Whole(g, root, n, r) && IsTarget(g, h, t) && h in r && IsPath(g, p, root, b) && t !in p
    requires b == h || (b in r[h] && !IsMerge(g, h, b))
    ensures IsBodyPath(g, root, h, t, q, b)
    decreases |p|
  {
    if b == h {
      q := [h];
    } else {
      assert HasRegion(g, h, n, r);
      var k := |p| - 2;
      assert Edge(g, p[k], p[k + 1]);
      PathPrefix(g, p, root, b, k);
      var q1 := BackToHeader(g, root, n, r, h, t, p[..k + 1], p[k]);
      RegionIsInterior(g, root, n, r, h, b);
      assert b in p;
      q := q1 + [b];
      StepInConstruct(g, root, h, t, q1, p[k], b);
    }
  }

  lemma StepInConstruct(g: Graph, root: BlockId, h: BlockId, t: BlockId, q: seq<BlockId>, a: BlockId, b: BlockId)
    requires IsBodyPath(g, root, h, t, q, a) && Edge(g, a, b) && Interior(g, root, h, b)
    requires IsTarget(g, h, t) && b != t && !IsMerge(g, h, b)
    ensures IsBodyPath(g, root, h, t, q + [b], b)
  {
    hide Interior, Edge;
    var p := q + [b];
    forall i | 0 <= i < |p| - 1 ensures Edge(g, p[i], p[i + 1]) {
      assert i < |q| - 1 ==> Edge(g, q[i], q[i + 1]);
    }
    forall i | 1 <= i < |p| ensures Interior(g, root, h, p[i]) && p[i] !in Fence(g, h, t) {
      assert i < |q| ==> Interior(g, root, h, q[i]);
    }
  }

  /** A reachable target is reached from its header's construct. */
  lemma TargetReached(g: Graph, root: BlockId, n: set<BlockId>, r: Regions, h: BlockId, t: BlockId)
    requires Whole(g, root, n, r) && IsTarget(g, h, t) && Reachable(g, root, t)
    ensures exists b :: InConstruct(g, root, h, t, b) && Edge(g, b, t)
  {
    TargetInRegion(g, root, n, r, h, t);
    assert HasRegion(g, h, n, r);
    var p :| IsPath(g, p, root, t);
    var k := FirstAt(p, t);
    PathPrefix(g, p, root, t, k);
    assert p[0] == root != t;
    var b := p[k - 1];
    PathPrefix(g, p, root, t, k - 1);
    assert Edge(g, p[k - 1], p[k - 1 + 1]);
    var q := BackToHeader(g, root, n, r, h, t, p[..k], b);
    assert InConstruct(g, root, h, t, b);
  }

  lemma FirstAt(p: seq<BlockId>, t: BlockId) returns (k: nat)
    requires t in p
    ensures k < |p| && p[k] == t && t !in p[..k]
  {
    k := 0;
    while p[k] != t
      invariant k < |p| && t !in p[..k]
      decreases |p| - k
    {
      assert p[..k + 1] == p[..k] + [p[k]];
      k := k + 1;
    }
  }

  /** A graph put together like this obeys the discipline of structured control flow. */
  lemma WholeIsStructured(g: Graph, root: BlockId, n: set<BlockId>, r: Regions)
    requires Whole(g, root, n, r) && n <= g.Keys
    ensures Closed(g) && Structured(g, root) && ProperTargets(g, root)
  {
    forall h, t | IsTarget(g, h, t)
      ensures h in r && t in r[h] && t in g && StrictlyDominates(g, root, h, t)
    {
      TargetInRegion(g, root, n, r, h, t);
      HeaderDominates(g, root, n, r, h, t);
      assert HasRegion(g, h, n, r);
    }
    assert Closed(g);
    forall h, t | IsTarget(g, h, t) && Reachable(g, root, t)
      ensures Reachable(g, root, h) && exists b :: InConstruct(g, root, h, t, b) && Edge(g, b, t)
    {
      HeaderDominates(g, root, n, r, h, t);
      TargetReached(g, root, n, r, h, t);
    }
    forall h <- g | g[h].mergeInst.LoopMerge? ensures g[h].mergeInst.merge != g[h].mergeInst.continueTarget {
      assert HasRegion(g, h, n, r);
    }
  }
}
