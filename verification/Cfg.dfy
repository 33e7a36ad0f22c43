/** Control-flow graphs as the back end sees them: each block has an optional
    merge instruction and a list of successor blocks. */
module Cfg {

  type BlockId = nat

  /** A block's structured-control-flow declaration (OpSelectionMerge / OpLoopMerge). */
  datatype MergeInst =
    | NoMerge
    | SelectionMerge(merge: BlockId)
    | LoopMerge(merge: BlockId, continueTarget: BlockId)
  {
    function Targets(): set<BlockId> {
      match this
      case NoMerge => {}
      case SelectionMerge(m) => {m}
      case LoopMerge(m, c) => {m, c}
    }
  }

  datatype Shape = Shape(mergeInst: MergeInst, successors: seq<BlockId>)

  type Graph = map<BlockId, Shape>

  predicate Edge(g: Graph, a: BlockId, b: BlockId) {
    a in g && b in g[a].successors
  }

  predicate IsTarget(g: Graph, header: BlockId, t: BlockId) {
    header in g && t in g[header].mergeInst.Targets()
  }

  /** Every block that is mentioned exists. */
  ghost predicate Closed(g: Graph) {
    forall a, b | Edge(g, a, b) || IsTarget(g, a, b) :: b in g
  }

  lemma ClosedAt(g: Graph, block: BlockId)
    requires Closed(g) && block in g
    ensures g[block].mergeInst.Targets() <= g.Keys && forall b <- g[block].successors :: b in g
  {
    forall t <- g[block].mergeInst.Targets() ensures t in g {
      assert IsTarget(g, block, t);
    }
    forall b <- g[block].successors ensures b in g {
      assert Edge(g, block, b);
    }
  }

  ghost predicate IsPath(g: Graph, p: seq<BlockId>, from: BlockId, to: BlockId) {
    && |p| > 0 && p[0] == from && p[|p| - 1] == to
    && forall i :: 0 <= i < |p| - 1 ==> Edge(g, p[i], p[i + 1])
  }

  ghost predicate Reachable(g: Graph, root: BlockId, b: BlockId) {
    exists p :: IsPath(g, p, root, b)
  }

  /** Every path from the root to `b` goes through `d`. */
  ghost predicate Dominates(g: Graph, root: BlockId, d: BlockId, b: BlockId) {
    forall p :: IsPath(g, p, root, b) ==> d in p
  }

  ghost predicate StrictlyDominates(g: Graph, root: BlockId, d: BlockId, b: BlockId) {
    d != b && Dominates(g, root, d, b)
  }

  lemma ReachableStep(g: Graph, root: BlockId, a: BlockId, b: BlockId)
    requires Reachable(g, root, a) && Edge(g, a, b)
    ensures Reachable(g, root, b)
  {
    var p :| IsPath(g, p, root, a);
    assert IsPath(g, p + [b], root, b);
  }

  lemma PathPrefix(g: Graph, p: seq<BlockId>, a: BlockId, b: BlockId, k: nat)
    requires IsPath(g, p, a, b) && k < |p|
    ensures IsPath(g, p[..k + 1], a, p[k])
  {
    var q := p[..k + 1];
    forall i | 0 <= i < |q| - 1 ensures Edge(g, q[i], q[i + 1]) {
      assert Edge(g, p[i], p[i + 1]);
    }
  }

  lemma PathExtends(g: Graph, g': Graph, p: seq<BlockId>, a: BlockId, b: BlockId)
    requires |p| > 1 && IsPath(g, p, a, b) && IsPath(g', p[..|p| - 1], a, p[|p| - 2])
    requires p[|p| - 2] in g' && p[|p| - 2] in g && g[p[|p| - 2]] == g'[p[|p| - 2]]
    ensures IsPath(g', p, a, b)
  {
    var q := p[..|p| - 1];
    assert Edge(g, p[|p| - 2], p[|p| - 2 + 1]);
    forall i | 0 <= i < |p| - 1 ensures Edge(g', p[i], p[i + 1]) {
      assert i < |q| - 1 ==> Edge(g', q[i], q[i + 1]);
    }
  }

  lemma {:induction false} PathStays(g: Graph, own: seq<BlockId>, p: seq<BlockId>, a: BlockId, b: BlockId)
    requires IsPath(g, p, a, b) && a in own
    requires forall x, y | x in own && Edge(g, x, y) :: y in own
    ensures forall x <- p :: x in own
    decreases |p|
  {
    if |p| > 1 {
      var q := p[1..];
      assert Edge(g, p[0], p[1]);
      assert IsPath(g, q, p[1], b) by {
        forall i | 0 <= i < |q| - 1 ensures Edge(g, q[i], q[i + 1]) {
          assert Edge(g, p[i + 1], p[i + 1 + 1]);
        }
      }
      PathStays(g, own, q, p[1], b);
      assert p == [a] + q;
    }
  }

  /** A block belongs to the body of header `h`: `h` strictly dominates it, and whenever it is
      the merge or continue block of some header, that header is `h` or lies inside `h`. */
  ghost predicate Interior(g: Graph, root: BlockId, h: BlockId, b: BlockId) {
    && StrictlyDominates(g, root, h, b)
    && forall o <- g | IsTarget(g, o, b) ::
         o == h || (Reachable(g, root, o) && StrictlyDominates(g, root, h, o))
  }

  /** The targets of `h` that must not be crossed on the way to its target `t`: the continue
      block is left before the merge block. */
  function Fence(g: Graph, h: BlockId, t: BlockId): set<BlockId>
    requires h in g
  {
    match g[h].mergeInst
    case NoMerge => {}
    case SelectionMerge(m) => {m}
    case LoopMerge(m, c) => if t == m then {m} else {m, c}
  }

  /** The blocks `p[1..]` all lie in the body of `h` and avoid the fence. */
  ghost predicate IsBodyPath(g: Graph, root: BlockId, h: BlockId, t: BlockId, p: seq<BlockId>, b: BlockId) {
    && h in g
    && IsPath(g, p, h, b)
    && forall i :: 1 <= i < |p| ==> Interior(g, root, h, p[i]) && p[i] !in Fence(g, h, t)
  }

  /** `b` is in the construct that `h` opens and that its target `t` closes. */
  ghost predicate InConstruct(g: Graph, root: BlockId, h: BlockId, t: BlockId, b: BlockId) {
    exists p :: IsBodyPath(g, root, h, t, p, b)
  }

  /** The static discipline of structured control flow (section 2.11 of the SPIR-V specification)
      that the traversal relies on: if control can reach a merge or continue block at all, it can
      do so from the header that declares it, staying in that header's construct. */
  ghost predicate Structured(g: Graph, root: BlockId) {
    forall h, t | IsTarget(g, h, t) && Reachable(g, root, t) ::
      && Reachable(g, root, h)
      && exists b :: InConstruct(g, root, h, t, b) && Edge(g, b, t)
  }

  /** Headers strictly dominate their targets, and no two declarations share a target. */
  ghost predicate ProperTargets(g: Graph, root: BlockId) {
    && (forall h, t | IsTarget(g, h, t) :: StrictlyDominates(g, root, h, t))
    && (forall h, h', t | IsTarget(g, h, t) && IsTarget(g, h', t) :: h == h')
    && (forall h <- g | g[h].mergeInst.LoopMerge? :: g[h].mergeInst.merge != g[h].mergeInst.continueTarget)
  }
}
