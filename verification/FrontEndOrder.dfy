/** What the traversal and the post-processing of blocks do to the function bodies that the front end makes. */
module FrontEndOrder {
  import opened ShaderAst
  import opened FunctionLowering
  import opened LoweredConstructs
  import L = LoweredGraph
  import opened Cfg
  import opened ReadableOrder
  import opened ReadableOrderTraverser
  import P = PostProcessCfg

  /** Control reaches exactly the blocks called back via control flow, and constructs come before their targets. */
  ghost predicate WellOrdered(g: Graph, root: BlockId) {
    && Closed(g) && root in g
    && var log := ReadableOrderOf(g, root);
    && FlowIsReachability(g, root, log)
    && (forall i: nat | i < |log| && IsFlow(log, i) :: WhiteFirst(g, log, i))
    && forall h <- g | Reachable(g, root, h) :: ConstructFirst(g, root, log, h)
  }

  /** The blocks made for a function body are written in such an order. */
  lemma LoweredBodyOrder(hlsl: bool, valued: bool, body: Stmt)
    requires Nested(body, false, false)
    ensures WellOrdered(L.GraphOf(LowerBody(hlsl, valued, body)), 0)
  {
    var g := L.GraphOf(LowerBody(hlsl, valued, body));
    LoweredBodyIsStructured(hlsl, valued, body);
    assert 0 in g;
    hide Closed, Structured, ProperTargets, FlowIsReachability, WhiteFirst, ConstructFirst, ReadableOrderOf, Reachable;
    hide LowerBody, L.GraphOf, NoDeadIsReachable, Nested;
    StructuredIsComplete(g, 0);
    WhitePathsComeFirst(g, 0);
    ConstructsComeFirst(g, 0);
  }

  /** Post-processing keeps what a module whose blocks are those of the body does. */
  lemma LoweredBodySurvives(hlsl: bool, valued: bool, body: Stmt, m: P.Module, r: P.Module, n: nat)
    requires Nested(body, false, false)
    requires P.WellFormed(m) && P.IsPostProcessed(m, r) && n < |m.functions| && m.functions[n].entry == 0
    requires P.GraphOf(m.blocks) == L.GraphOf(LowerBody(hlsl, valued, body))
    ensures P.SameBehaviour(m, r, 0)
  {
    LoweredBodyIsStructured(hlsl, valued, body);
    hide *;
    P.StructuredBehaviourPreserved(m, r, n);
  }
}
