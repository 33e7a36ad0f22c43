/** The traverser object and its entry point. */
module ReadableOrderTraverser {
  import opened Cfg
  import opened ReadableOrder

  /** A call is legitimate: the root or a branched-to block via control flow, or a target of an
      earlier header for the reason of its role, and then one that no structured program reaches. */
  ghost predicate Legitimate(g: Graph, root: BlockId, s: State, block: BlockId, why: ReachReason, header: MaybeBlock) {
    && block in g
    && s.reached <= s.visited + s.delayed + {block}
    && if why == ReachViaControlFlow then
         ReachedOk(g, root, s.log, {block})
       else
         && DeadEntryOk(g, s.log + [Callback(block, why, header)], |s.log|)
         && (Structured(g, root) ==> !Reachable(g, root, block))
  }

  function Marked(s: State, block: BlockId, why: ReachReason): State {
    if why == ReachViaControlFlow then s.(reached := s.reached + {block}) else s
  }

  /** The state right after `block` is called back and its targets are held back. */
  function Entered(g: Graph, s: State, block: BlockId, why: ReachReason, header: MaybeBlock): State
    requires block in g
  {
    State(s.visited + {block}, s.delayed + g[block].mergeInst.Targets(), s.reached,
          s.log + [Callback(block, why, header)])
  }

  // ---------- the traversal as a function ----------

  /** The effect of one visit. */
  function Visited(g: Graph, s: State, block: BlockId, why: ReachReason, header: MaybeBlock): (r: State)
    requires Closed(g) && block in g
    ensures s.visited <= r.visited && s.log <= r.log
    decreases g.Keys - s.visited, 0, 0
  {
    var s1 := Marked(s, block, why);
    if block in s.visited || block in s.delayed then s1 else
    var s2 := Entered(g, s1, block, why, header);
    var s3 := if why == ReachViaControlFlow then VisitedFrom(g, s2, block, 0) else s2;
    assert s2.visited <= s3.visited;
    AllReleased(g, s3, block)
  }

  /** Continue block first, then the merge block. */
  function AllReleased(g: Graph, s: State, block: BlockId): (r: State)
    requires Closed(g) && block in g
    ensures s.visited <= r.visited && s.log <= r.log
    decreases g.Keys - s.visited, 2, 0
  {
    ClosedAt(g, block);
    match g[block].mergeInst
    case NoMerge => s
    case SelectionMerge(m) => Released(g, s, block, m, ReachDeadMerge)
    case LoopMerge(m, k) =>
      var s1 := Released(g, s, block, k, ReachDeadContinue);
      assert g.Keys - s1.visited <= g.Keys - s.visited;
      Released(g, s1, block, m, ReachDeadMerge)
  }

  /** The effect of visiting the successors of `block` from the `i`-th on. */
  function VisitedFrom(g: Graph, s: State, block: BlockId, i: nat): (r: State)
    requires Closed(g) && block in g && i <= |g[block].successors|
    ensures s.visited <= r.visited && s.log <= r.log
    decreases g.Keys - s.visited, 1, |g[block].successors| - i
  {
    var successors := g[block].successors;
    if i == |successors| then s
    else
      assert Edge(g, block, successors[i]);
      var s1 := Visited(g, s, successors[i], ReachViaControlFlow, NoBlock);
      assert g.Keys - s1.visited <= g.Keys - s.visited;
      VisitedFrom(g, s1, block, i + 1)
  }

  function Released(g: Graph, s: State, block: BlockId, t: BlockId, dead: ReachReason): (r: State)
    requires Closed(g) && t in g
    ensures s.visited <= r.visited && s.log <= r.log
    decreases g.Keys - s.visited, 1, 0
  {
    Visited(g, s.(delayed := s.delayed - {t}), t, ReleaseReason(s, t, dead), SomeBlock(block))
  }

  lemma ReachedOkGrows(g: Graph, root: BlockId, log: seq<Callback>, log': seq<Callback>, reached: set<BlockId>)
    requires ReachedOk(g, root, log, reached) && log <= log'
    ensures ReachedOk(g, root, log', reached)
  {
    forall b <- reached | b != root ensures exists j | 0 <= j < |log'| :: IsFlow(log', j) && Edge(g, log'[j].block, b) {
      var j :| 0 <= j < |log| && IsFlow(log, j) && Edge(g, log[j].block, b);
      assert IsFlow(log', j) && log'[j] == log[j];
    }
  }

  lemma CalledGrows(log: seq<Callback>, log': seq<Callback>, b: BlockId)
    requires log <= log' && Called(log, b)
    ensures Called(log', b)
  {
    var i :| 0 <= i < |log| && log[i].block == b;
    assert log'[i].block == b;
  }

  lemma EnteredSourced(g: Graph, root: BlockId, log: seq<Callback>, c: Callback)
    requires Sourced(g, root, log)
    requires c.why == ReachViaControlFlow ==> ReachedOk(g, root, log, {c.block})
    ensures Sourced(g, root, log + [c])
  {
    var log' := log + [c];
    forall i: nat | i < |log'| && IsFlow(log', i) ensures HasSource(g, root, log', i) {
      if i < |log| {
        assert IsFlow(log, i) && HasSource(g, root, log, i);
      } else {
        assert c.block in {c.block};
      }
      if log'[i].block != root {
        var j :| 0 <= j < i && IsFlow(log, j) && Edge(g, log[j].block, log'[i].block);
        assert IsFlow(log', j) && log'[j] == log[j];
      }
    }
  }

  lemma EnteredDead(g: Graph, root: BlockId, log: seq<Callback>, c: Callback)
    requires LogOk(g, root, log)
    requires c.why != ReachViaControlFlow ==>
               DeadEntryOk(g, log + [c], |log|) && (Structured(g, root) ==> !Reachable(g, root, c.block))
    ensures var log' := log + [c];
      && (forall i: nat | i < |log'| && !IsFlow(log', i) :: DeadEntryOk(g, log', i))
      && (Structured(g, root) ==> NoDeadIsReachable(g, root, log'))
  {
    var log' := log + [c];
    forall i: nat | i < |log'| && !IsFlow(log', i)
      ensures DeadEntryOk(g, log', i) && (Structured(g, root) ==> !Reachable(g, root, log'[i].block))
    {
      if i < |log| {
        assert !IsFlow(log, i) && DeadEntryOk(g, log, i) && log'[i] == log[i];
        var j :| 0 <= j < i && log[j].block == log[i].header.id;
        assert log'[j] == log[j];
      }
    }
  }

  lemma EnteredVisited(g: Graph, s: State, block: BlockId, why: ReachReason, header: MaybeBlock)
    requires Closed(g) && VisitedOk(g, s) && block in g
    requires why == ReachViaControlFlow ==> block in s.reached
    ensures VisitedOk(g, Entered(g, s, block, why, header))
  {
    var s' := Entered(g, s, block, why, header);
    forall b ensures b in s'.visited <==> Called(s'.log, b) {
      if Called(s.log, b) {
        CalledGrows(s.log, s'.log, b);
      }
      assert s'.log[|s.log|].block == block;
    }
    forall d <- s'.delayed ensures exists h <- s'.visited :: IsTarget(g, h, d) {
      if d in s.delayed {
        var h :| h in s.visited && IsTarget(g, h, d);
        assert h in s'.visited;
      } else {
        assert block in s'.visited && IsTarget(g, block, d);
      }
    }
    forall i: nat | i < |s'.log| && IsFlow(s'.log, i) ensures s'.log[i].block in s'.reached {
      assert i < |s.log| ==> IsFlow(s.log, i);
    }
  }

  lemma EnteredInv(g: Graph, root: BlockId, s: State, block: BlockId, why: ReachReason, header: MaybeBlock)
    requires Inv(g, root, s) && Legitimate(g, root, s, block, why, header) && block !in s.visited
    requires why == ReachViaControlFlow ==> block in s.reached
    ensures Inv(g, root, Entered(g, s, block, why, header))
  {
    hide Sourced, DeadEntryOk, Structured, NoDeadIsReachable, ReachedOk;
    var c := Callback(block, why, header);
    assert Distinct(s.log + [c]) by {
      assert !Called(s.log, block);
    }
    EnteredSourced(g, root, s.log, c);
    EnteredDead(g, root, s.log, c);
    EnteredVisited(g, s, block, why, header);
    ReachedOkGrows(g, root, s.log, s.log + [c], s.reached);
  }

  lemma MarkedInv(g: Graph, root: BlockId, s: State, block: BlockId, why: ReachReason, header: MaybeBlock)
    requires Inv(g, root, s) && Legitimate(g, root, s, block, why, header)
    ensures Inv(g, root, Marked(s, block, why)) && Grew(g, root, s, Marked(s, block, why))
    ensures Legitimate(g, root, Marked(s, block, why), block, why, header)
  {
  }

  // ---------- progress of one activation, relative to the state `s0` in which it began ----------

  /** Callback `c` was made from `s0`; the targets of its block in `held` are still being held back. */
  ghost predicate Progress(g: Graph, root: BlockId, s0: State, s: State, c: Callback, held: set<BlockId>) {
    && s0.log < s.log && s.log[|s0.log|] == c && c.block in g
    && s0.visited <= s.visited && c.block in s.visited
    && s0.reached <= s.reached <= s.visited + s.delayed
    && (c.why == ReachViaControlFlow ==> c.block in s.reached)
    && s.delayed <= s0.delayed + held
    && s0.visited + s0.delayed + g[c.block].mergeInst.Targets() <= s.visited + s.delayed
    && (forall d <- s0.delayed :: NewTarget(g, s0, s, d) || (d in s.delayed && (d in s.visited ==> d in s0.visited)))
    && (forall d <- held :: IsTarget(g, c.block, d) && StillHeld(g, s0, s, d))
    && (forall i: nat | |s0.log| < i < |s.log| :: Finished(g, root, s, i))
  }

  /** If the block called back from `s0` owns its target `d`, `d` is held back and has not been called back. */
  ghost predicate StillHeld(g: Graph, s0: State, s: State, d: BlockId) {
    |s0.log| < |s.log| && Owns(g, s.log, |s0.log|, d) ==> d in s.delayed && d !in s.visited
  }

  /** The successors of the block just called back have been visited, if it was reached at all. */
  ghost predicate SuccessorsDone(g: Graph, s: State, c: Callback) {
    c.block in g && c.why == ReachViaControlFlow ==>
      forall b <- g[c.block].successors :: b in s.reached && b in s.visited + s.delayed
  }

  lemma ProgressStart(g: Graph, root: BlockId, s0: State, c: Callback)
    requires var s := Marked(s0, c.block, c.why);
      Inv(g, root, s) && Legitimate(g, root, s, c.block, c.why, c.header)
    requires c.block !in s0.visited && c.block !in s0.delayed
    ensures Progress(g, root, s0, Entered(g, Marked(s0, c.block, c.why), c.block, c.why, c.header), c,
                     g[c.block].mergeInst.Targets())
  {
    hide Inv, DeadEntryOk, ReachedOk;
    var s := Marked(s0, c.block, c.why);
    var s' := Entered(g, s, c.block, c.why, c.header);
    assert s'.log[|s.log|] == c;
    forall d <- g[c.block].mergeInst.Targets() ensures IsTarget(g, c.block, d) && StillHeld(g, s0, s', d) {
      if Owns(g, s'.log, |s0.log|, d) {
        assert s'.log[..|s0.log| + 1] == s'.log;
        CalledIffVisited(g, root, s, d);
        assert d in s.visited ==> Called(s'.log, d) by {
          if Called(s.log, d) {
            CalledGrows(s.log, s'.log, d);
          }
        }
        assert d == c.block ==> Called(s'.log, d) by {
          assert s'.log[|s0.log|].block == c.block;
        }
      }
    }
  }

  lemma NewTargetGrows(g: Graph, a: State, b: State, c: State, d: BlockId)
    requires a.log <= b.log <= c.log
    ensures NewTarget(g, a, b, d) || NewTarget(g, b, c, d) ==> NewTarget(g, a, c, d)
  {
    if NewTarget(g, a, b, d) {
      var i :| |a.log| <= i < |b.log| && IsTarget(g, b.log[i].block, d);
      assert c.log[i] == b.log[i];
    }
  }

  /** What has been held back from an earlier state stays so when no new header has the same target. */
  lemma HeldStays(g: Graph, s0: State, s: State, r: State, s': State, d: BlockId)
    requires |s0.log| < |s.log| && s.log == r.log && s.log <= s'.log && StillHeld(g, s0, s, d)
    requires d in s.delayed ==> d in r.delayed
    requires r.visited == s.visited
    requires d in r.delayed ==> NewTarget(g, r, s', d) || (d in s'.delayed && (d in s'.visited ==> d in r.visited))
    ensures StillHeld(g, s0, s', d)
  {
    if Owns(g, s'.log, |s0.log|, d) {
      OwnsEarlier(g, s.log, s'.log, |s0.log|, d);
    }
  }

  /** Releasing `t` (or nothing, if `t` is not held back) and visiting one block keeps the progress. */
  lemma ProgressStep(g: Graph, root: BlockId, s0: State, s: State, s': State, c: Callback, held: set<BlockId>,
                     released: set<BlockId>)
    requires Progress(g, root, s0, s, c, held)
    requires released <= g[c.block].mergeInst.Targets() && released <= s'.visited
    requires Grew(g, root, s.(delayed := s.delayed - released), s')
    requires Inv(g, root, s') && s'.reached <= s'.visited + s'.delayed
    ensures Progress(g, root, s0, s', c, held - released)
    ensures SuccessorsDone(g, s, c) ==> SuccessorsDone(g, s', c)
    ensures s.log <= s'.log && s.visited <= s'.visited && s.reached <= s'.reached
            && s.visited + s.delayed <= s'.visited + s'.delayed
  {
    hide DeadEntryOk, ReachedOk, Finished, NewTarget, Sourced, VisitedOk, StillHeld;
    var r := s.(delayed := s.delayed - released);
    forall d <- held - released ensures IsTarget(g, c.block, d) && StillHeld(g, s0, s', d) {
      HeldStays(g, s0, s, r, s', d);
    }
    forall i: nat | |s0.log| < i < |s'.log| ensures Finished(g, root, s', i) {
      if i < |s.log| {
        FinishedMonotone(g, root, s, s', i);
      }
    }
    forall d <- s0.delayed ensures NewTarget(g, s0, s', d)
        || (d in s'.delayed && (d in s'.visited ==> d in s0.visited)) {
      NewTargetGrows(g, s0, s, s', d);
      NewTargetGrows(g, s0, r, s', d);
      if d in released {
        OwnTarget(g, s0, s', c, d);
      }
    }
  }

  lemma OwnTarget(g: Graph, s0: State, s: State, c: Callback, d: BlockId)
    requires s0.log < s.log && s.log[|s0.log|] == c && c.block in g && d in g[c.block].mergeInst.Targets()
    ensures NewTarget(g, s0, s, d)
  {
    assert IsTarget(g, s.log[|s0.log|].block, d);
  }

  /** The next successor may be visited. */
  lemma SuccessorLegitimate(g: Graph, root: BlockId, s0: State, s: State, c: Callback, held: set<BlockId>, b: BlockId)
    requires Inv(g, root, s) && Progress(g, root, s0, s, c, held)
    requires c.why == ReachViaControlFlow && b in g[c.block].successors
    ensures Legitimate(g, root, s, b, ReachViaControlFlow, NoBlock)
  {
    assert IsFlow(s.log, |s0.log|) && Edge(g, s.log[|s0.log|].block, b);
  }

  lemma ProgressIsReleasing(g: Graph, root: BlockId, s0: State, s: State, c: Callback, held: set<BlockId>, t: BlockId)
    requires Inv(g, root, s0) && Inv(g, root, s) && Progress(g, root, s0, s, c, held) && SuccessorsDone(g, s, c)
    requires c.block !in s0.visited && c.why == ReachViaControlFlow && IsTarget(g, c.block, t)
    requires held <= Fence(g, c.block, t)
    ensures Releasing(g, root, s0, s, c.block, t)
  {
    hide Inv, Structured, ProperTargets;
    forall i: nat | |s0.log| <= i < |s.log| && IsFlow(s.log, i)
      ensures s.log[i].block in g
      ensures forall b <- g[s.log[i].block].successors :: b in s.reached && b in s.visited + s.delayed
    {
      assert i > |s0.log| ==> Finished(g, root, s, i);
    }
  }

  /** The reason with which a target is released. */
  function ReleaseReason(s: State, t: BlockId, dead: ReachReason): ReachReason {
    if t in s.reached then ReachViaControlFlow else dead
  }

  predicate RoleOf(g: Graph, h: BlockId, t: BlockId, dead: ReachReason) {
    && h in g
    && match g[h].mergeInst
       case NoMerge => false
       case SelectionMerge(m) => t == m && dead == ReachDeadMerge
       case LoopMerge(m, k) => (t == m && dead == ReachDeadMerge) || (t == k && dead == ReachDeadContinue)
  }

  lemma DeadTarget(g: Graph, s: State, i: nat, c: Callback, t: BlockId, dead: ReachReason)
    requires i < |s.log| && s.log[i] == c && RoleOf(g, c.block, t, dead)
    ensures DeadEntryOk(g, s.log + [Callback(t, dead, SomeBlock(c.block))], |s.log|)
  {
    var log := s.log + [Callback(t, dead, SomeBlock(c.block))];
    assert log[i].block == log[|s.log|].header.id;
  }

  lemma RoleIsTarget(g: Graph, h: BlockId, t: BlockId, dead: ReachReason)
    requires RoleOf(g, h, t, dead)
    ensures IsTarget(g, h, t)
  {
  }

  lemma HeaderReachable(g: Graph, root: BlockId, h: BlockId, t: BlockId)
    requires Structured(g, root) && IsTarget(g, h, t) && Reachable(g, root, t)
    ensures Reachable(g, root, h)
  {
  }

  lemma ReleasedInv(g: Graph, root: BlockId, s: State, t: BlockId)
    requires Inv(g, root, s)
    ensures Inv(g, root, s.(delayed := s.delayed - {t}))
  {
    hide LogOk, ReachedOk;
  }

  /** A released target may be visited with the reason the traverser computes for it. */
  lemma ReleaseLegitimate(g: Graph, root: BlockId, s0: State, s: State, c: Callback, held: set<BlockId>, t: BlockId,
                          dead: ReachReason)
    requires Inv(g, root, s0) && Inv(g, root, s) && Progress(g, root, s0, s, c, held) && SuccessorsDone(g, s, c)
    requires c.block !in s0.visited && RoleOf(g, c.block, t, dead) && held <= Fence(g, c.block, t)
    requires c.why != ReachViaControlFlow && Structured(g, root) ==> !Reachable(g, root, c.block)
    ensures var r := s.(delayed := s.delayed - {t});
      Inv(g, root, r) && Legitimate(g, root, r, t, ReleaseReason(s, t, dead), SomeBlock(c.block))
  {
    hide LogOk, VisitedOk, Structured, Finished, NewTarget, ProperTargets, IsTarget;
    ReleasedInv(g, root, s, t);
    RoleIsTarget(g, c.block, t, dead);
    if t !in s.reached {
      DeadTarget(g, s, |s0.log|, c, t, dead);
      if Structured(g, root) && Reachable(g, root, t) {
        HeaderReachable(g, root, c.block, t);
        ProgressIsReleasing(g, root, s0, s, c, held, t);
        ReachedInTime(g, root, s0, s, c.block, t);
      }
    }
  }

  function AfterContinue(m: MergeInst): set<BlockId> {
    m.Targets() - (if m.LoopMerge? then {m.continueTarget} else {})
  }

  /** `s2` and `s3` are the states at the release of the continue and of the merge block. */
  lemma WhitePathsFirst(g: Graph, root: BlockId, s0: State, s2: State, s3: State, s: State, c: Callback)
    requires Inv(g, root, s0) && Inv(g, root, s2) && Inv(g, root, s3) && Inv(g, root, s)
    requires c.block in g && g[c.block].mergeInst != NoMerge
    requires Progress(g, root, s0, s2, c, g[c.block].mergeInst.Targets()) && SuccessorsDone(g, s2, c)
    requires Progress(g, root, s0, s3, c, AfterContinue(g[c.block].mergeInst)) && SuccessorsDone(g, s3, c)
    requires s2.log <= s3.log <= s.log
    requires g[c.block].mergeInst.LoopMerge? ==> g[c.block].mergeInst.continueTarget in s3.visited
    requires g[c.block].mergeInst.merge in s.visited && g[c.block].mergeInst.Targets() <= s.visited
    requires c.block !in s0.visited && c.why == ReachViaControlFlow && NoDeadIsReachable(g, root, s.log)
    ensures WhiteFirst(g, s.log, |s0.log|)
  {
    hide Inv, White, Before, Called, Finished, NewTarget, SuccessorsDone, Owns, NoDeadIsReachable;
    var h := c.block;
    assert s.log[|s0.log|] == c && s.log[..|s0.log|] == s0.log;
    forall t, b | IsTarget(g, h, t) && Owns(g, s.log, |s0.log|, t) && White(g, s0.log, h, t, b)
      ensures Before(s.log, b, t)
    {
      CalledIffVisited(g, root, s, t);
      if t == g[h].mergeInst.merge && t in AfterContinue(g[h].mergeInst) {
        WhiteBefore(g, root, s0, s3, s.log, c, AfterContinue(g[h].mergeInst), t);
      } else {
        WhiteBefore(g, root, s0, s2, s.log, c, g[h].mergeInst.Targets(), t);
      }
    }
    if g[h].mergeInst.LoopMerge? {
      var m, k := g[h].mergeInst.merge, g[h].mergeInst.continueTarget;
      if k != m && Owns(g, s.log, |s0.log|, m) {
        OwnsEarlier(g, s3.log, s.log, |s0.log|, m);
        CalledIffVisited(g, root, s3, k);
        CalledIffVisited(g, root, s3, m);
        CalledIffVisited(g, root, s, m);
        assert m in AfterContinue(g[h].mergeInst) && StillHeld(g, s0, s3, m);
        FirstCalledBefore(s3.log, s.log, k, m);
      }
    }
  }

  /** At the release of one target. */
  lemma WhiteBefore(g: Graph, root: BlockId, s0: State, s: State, log: seq<Callback>, c: Callback, held: set<BlockId>,
                    t: BlockId)
    requires Inv(g, root, s0) && Inv(g, root, s) && Progress(g, root, s0, s, c, held) && SuccessorsDone(g, s, c)
    requires c.block !in s0.visited && c.why == ReachViaControlFlow && IsTarget(g, c.block, t)
    requires t in held && held <= Fence(g, c.block, t)
    requires s.log <= log && NoDeadIsReachable(g, root, log) && Owns(g, log, |s0.log|, t) && Called(log, t)
    ensures forall b | White(g, s0.log, c.block, t, b) :: Before(log, b, t)
  {
    hide Inv, White, Before, Called, Finished, NewTarget, SuccessorsDone, Owns, NoDeadIsReachable;
    OwnsEarlier(g, s.log, log, |s0.log|, t);
    NoDeadEarlier(g, root, s.log, log);
    ProgressIsReleasing(g, root, s0, s, c, held, t);
    assert StillHeld(g, s0, s, t);
    WhiteBeforeTarget(g, root, s0, s, log, c.block, t);
  }

  lemma CalledIffVisited(g: Graph, root: BlockId, s: State, b: BlockId)
    requires Inv(g, root, s)
    ensures b in s.visited <==> Called(s.log, b)
  {
  }

  lemma FirstCalledBefore(log: seq<Callback>, log': seq<Callback>, a: BlockId, b: BlockId)
    requires log <= log' && Called(log, a) && !Called(log, b) && Called(log', b)
    ensures Before(log', a, b)
  {
    var i :| 0 <= i < |log| && log[i].block == a;
    var j :| 0 <= j < |log'| && log'[j].block == b;
    assert log'[i].block == a;
    if j < |log| {
      assert false;
    }
  }

  /** With nothing held back any more, the activation has done its work. */
  lemma ProgressEnd(g: Graph, root: BlockId, s0: State, s: State, c: Callback)
    requires Progress(g, root, s0, s, c, {}) && SuccessorsDone(g, s, c)
    requires |s0.log| < |s.log| && (c.why == ReachViaControlFlow && NoDeadIsReachable(g, root, s.log) ==>
               WhiteFirst(g, s.log, |s0.log|))
    ensures Grew(g, root, s0, s)
  {
    hide NoDeadIsReachable, WhiteFirst;
    forall i: nat | |s0.log| <= i < |s.log| ensures Finished(g, root, s, i) {
    }
  }

  lemma ProgressFacts(g: Graph, root: BlockId, s0: State, s: State, c: Callback, held: set<BlockId>)
    requires Progress(g, root, s0, s, c, held)
    ensures c.block in g && s0.visited <= s.visited && c.block in s.visited
    ensures s0.reached <= s.reached && s.reached <= s.visited + s.delayed
    ensures c.why == ReachViaControlFlow ==> c.block in s.reached
    ensures s0.log < s.log && s.log[|s0.log|] == c
  {
  }

  lemma NothingDelayed(g: Graph, root: BlockId, s0: State, s: State, c: Callback)
    requires Progress(g, root, s0, s, c, {}) && g[c.block].mergeInst == NoMerge
    ensures WhiteFirst(g, s.log, |s0.log|)
  {
  }

  function Targets(g: Graph, block: BlockId): set<BlockId> {
    if block in g then g[block].mergeInst.Targets() else {}
  }

  // ---------- the induction over a traversal ----------

  /** What every visit guarantees. */
  lemma {:induction false} VisitGrows(g: Graph, root: BlockId, s0: State, block: BlockId, why: ReachReason,
                                      header: MaybeBlock)
    requires Closed(g) && Inv(g, root, s0) && Legitimate(g, root, s0, block, why, header)
    ensures var s := Visited(g, s0, block, why, header);
      && Inv(g, root, s) && Grew(g, root, s0, s)
      && s.reached <= s.visited + s.delayed
      && (block in s.visited || block in s0.delayed)
      && (why == ReachViaControlFlow ==> block in s.reached)
      && (block !in s0.visited + s0.delayed ==> |s0.log| < |s.log| && s.log[|s0.log|] == Callback(block, why, header))
      && block in s.visited + s.delayed
    decreases g.Keys - s0.visited, 0, 0
  {
    hide Inv, Grew, Progress, Structured, ProperTargets, VisitedFrom, Released, Reachable, WhiteFirst, DeadEntryOk,
         ReachedOk;
    MarkedInv(g, root, s0, block, why, header);
    if block !in s0.visited && block !in s0.delayed {
      var c := Callback(block, why, header);
      var s1 := Entered(g, Marked(s0, block, why), block, why, header);
      EnteredInv(g, root, Marked(s0, block, why), block, why, header);
      ProgressStart(g, root, s0, c);
      var s2 := s1;
      if why == ReachViaControlFlow {
        SuccessorsGrow(g, root, s0, s1, c, 0);
        s2 := VisitedFrom(g, s1, block, 0);
      }
      ReleasesGrow(g, root, s0, s2, c);
    }
  }

  lemma {:induction false} SuccessorsGrow(g: Graph, root: BlockId, s0: State, s: State, c: Callback, i: nat)
    requires Closed(g) && Inv(g, root, s) && Progress(g, root, s0, s, c, Targets(g, c.block))
    requires c.why == ReachViaControlFlow && c.block in g && i <= |g[c.block].successors|
    requires forall b <- g[c.block].successors[..i] :: b in s.reached && b in s.visited + s.delayed
    ensures var r := VisitedFrom(g, s, c.block, i);
      Inv(g, root, r) && Progress(g, root, s0, r, c, Targets(g, c.block)) && SuccessorsDone(g, r, c)
    decreases g.Keys - s.visited, 1, |g[c.block].successors| - i
  {
    hide Inv, Grew, Progress, Legitimate;
    var successors, held := g[c.block].successors, Targets(g, c.block);
    if i < |successors| {
      SuccessorLegitimate(g, root, s0, s, c, held, successors[i]);
      VisitGrows(g, root, s, successors[i], ReachViaControlFlow, NoBlock);
      var s' := Visited(g, s, successors[i], ReachViaControlFlow, NoBlock);
      assert s.(delayed := s.delayed - {}) == s && held - {} == held;
      ProgressStep(g, root, s0, s, s', c, held, {});
      assert g.Keys - s'.visited <= g.Keys - s.visited;
      SuccessorsGrow(g, root, s0, s', c, i + 1);
    }
  }

  lemma {:induction false} ReleaseGrows(g: Graph, root: BlockId, s0: State, s: State, c: Callback, held: set<BlockId>,
                                        t: BlockId, dead: ReachReason)
    requires Closed(g) && Inv(g, root, s0) && Inv(g, root, s) && Progress(g, root, s0, s, c, held)
             && SuccessorsDone(g, s, c)
    requires c.block !in s0.visited && RoleOf(g, c.block, t, dead) && held <= Fence(g, c.block, t)
    requires c.why != ReachViaControlFlow && Structured(g, root) ==> !Reachable(g, root, c.block)
    ensures t in g
    ensures var r := Released(g, s, c.block, t, dead);
      && Inv(g, root, r) && Progress(g, root, s0, r, c, held - {t}) && SuccessorsDone(g, r, c)
      && s.log <= r.log && t in r.visited
    decreases g.Keys - s.visited, 1, 0
  {
    hide Inv, Grew, Progress, SuccessorsDone, Structured, Reachable;
    RoleIsTarget(g, c.block, t, dead);
    ReleaseLegitimate(g, root, s0, s, c, held, t, dead);
    VisitGrows(g, root, s.(delayed := s.delayed - {t}), t, ReleaseReason(s, t, dead), SomeBlock(c.block));
    ProgressStep(g, root, s0, s, Released(g, s, c.block, t, dead), c, held, {t});
  }

  /** From the end of the successor loop to the end of the visit. */
  lemma {:induction false} ReleasesGrow(g: Graph, root: BlockId, s0: State, s2: State, c: Callback)
    requires Closed(g) && Inv(g, root, s0) && Inv(g, root, s2) && c.block in g && c.block !in s0.visited
    requires Progress(g, root, s0, s2, c, Targets(g, c.block)) && SuccessorsDone(g, s2, c)
    requires c.why != ReachViaControlFlow && Structured(g, root) ==> !Reachable(g, root, c.block)
    ensures var s := AllReleased(g, s2, c.block);
      && Inv(g, root, s) && Grew(g, root, s0, s)
      && s.reached <= s.visited + s.delayed && c.block in s.visited
      && (c.why == ReachViaControlFlow ==> c.block in s.reached)
      && s0.log < s.log && s.log[|s0.log|] == c
    decreases g.Keys - s2.visited, 2, 0
  {
    hide Inv, Grew, Progress, SuccessorsDone, Structured, Reachable, Released, WhiteFirst, NoDeadIsReachable;
    var mergeInst, held := g[c.block].mergeInst, Targets(g, c.block);
    ProgressFacts(g, root, s0, s2, c, held);
    var s3, s := s2, s2;
    if mergeInst.LoopMerge? {
      ReleaseGrows(g, root, s0, s2, c, held, mergeInst.continueTarget, ReachDeadContinue);
      s3 := Released(g, s2, c.block, mergeInst.continueTarget, ReachDeadContinue);
    }
    held := AfterContinue(mergeInst);
    assert !mergeInst.LoopMerge? ==> held == mergeInst.Targets();
    if mergeInst != NoMerge {
      assert g.Keys - s3.visited <= g.Keys - s2.visited;
      ReleaseGrows(g, root, s0, s3, c, held, mergeInst.merge, ReachDeadMerge);
      s := Released(g, s3, c.block, mergeInst.merge, ReachDeadMerge);
      if c.why == ReachViaControlFlow && NoDeadIsReachable(g, root, s.log) {
        WhitePathsFirst(g, root, s0, s2, s3, s, c);
      }
    } else {
      s := s3;
      NothingDelayed(g, root, s0, s, c);
    }
    assert mergeInst != NoMerge ==> held - {mergeInst.merge} == {};
    assert mergeInst == NoMerge ==> held == {};
    ProgressFacts(g, root, s0, s, c, {});
    ProgressEnd(g, root, s0, s, c);
  }

  // ---------- the entry point ----------

  /** The control-flow callbacks are exactly the blocks that control can reach. */
  ghost predicate FlowIsReachability(g: Graph, root: BlockId, log: seq<Callback>) {
    forall b :: FlowCalled(log, b) <==> Reachable(g, root, b)
  }

  /** The complete log of a traversal: everything started has been finished. */
  ghost predicate Complete(g: Graph, root: BlockId, s: State) {
    && Inv(g, root, s) && Grew(g, root, State({}, {}, {}, []), s)
    && root in s.reached && s.reached <= s.visited && FlowCalled(s.log, root)
  }

  lemma {:induction false} CompleteWalk(g: Graph, root: BlockId, s: State, p: seq<BlockId>, b: BlockId)
    requires Complete(g, root, s) && NoDeadIsReachable(g, root, s.log) && IsPath(g, p, root, b)
    ensures FlowCalled(s.log, b)
    decreases |p|
  {
    if |p| > 1 {
      PathPrefix(g, p, root, b, |p| - 2);
      CompleteWalk(g, root, s, p[..|p| - 1], p[|p| - 2]);
      assert Edge(g, p[|p| - 2], p[|p| - 2 + 1]);
      FlowSuccessorCalled(g, root, s, p[|p| - 2], b);
    }
  }

  lemma FlowSuccessorCalled(g: Graph, root: BlockId, s: State, a: BlockId, b: BlockId)
    requires Complete(g, root, s) && NoDeadIsReachable(g, root, s.log) && FlowCalled(s.log, a) && Edge(g, a, b)
    ensures FlowCalled(s.log, b)
  {
    var i :| 0 <= i < |s.log| && IsFlow(s.log, i) && s.log[i].block == a;
    FlowEntriesReachable(g, root, s.log, i);
    ReachableStep(g, root, a, b);
    assert Finished(g, root, s, i);
    assert b in s.visited && Called(s.log, b);
    var j :| 0 <= j < |s.log| && s.log[j].block == b;
    assert IsFlow(s.log, j);
  }

  lemma ReachableIsFlowCalled(g: Graph, root: BlockId, s: State, b: BlockId)
    requires Complete(g, root, s) && NoDeadIsReachable(g, root, s.log) && Reachable(g, root, b)
    ensures FlowCalled(s.log, b)
  {
    hide Complete, NoDeadIsReachable;
    var p :| IsPath(g, p, root, b);
    CompleteWalk(g, root, s, p, b);
  }

  lemma FlowCalledIsReachable(g: Graph, root: BlockId, log: seq<Callback>, b: BlockId)
    requires Sourced(g, root, log) && FlowCalled(log, b)
    ensures Reachable(g, root, b)
  {
    var i :| 0 <= i < |log| && IsFlow(log, i) && log[i].block == b;
    FlowEntriesReachable(g, root, log, i);
  }

  lemma DeadIsNotFlowCalled(log: seq<Callback>, i: nat)
    requires Distinct(log) && i < |log| && !IsFlow(log, i)
    ensures !FlowCalled(log, log[i].block)
  {
    forall j | 0 <= j < |log| && IsFlow(log, j) ensures log[j].block != log[i].block {
    }
  }

  /** Completeness of the traversal, exactly: the control-flow callbacks are the reachable blocks if
      and only if no block was reported dead that control can in fact reach. */
  lemma FlowIsReachabilityIff(g: Graph, root: BlockId, s: State)
    requires Complete(g, root, s)
    ensures FlowIsReachability(g, root, s.log) <==> NoDeadIsReachable(g, root, s.log)
  {
    var log := s.log;
    assert Distinct(log) && Sourced(g, root, log);
    hide Distinct, Sourced, Complete, Reachable, FlowCalled;
    if NoDeadIsReachable(g, root, log) {
      forall b ensures FlowCalled(log, b) <==> Reachable(g, root, b) {
        if Reachable(g, root, b) {
          ReachableIsFlowCalled(g, root, s, b);
        }
        if FlowCalled(log, b) {
          FlowCalledIsReachable(g, root, log, b);
        }
      }
    }
    if FlowIsReachability(g, root, log) {
      forall i | 0 <= i < |log| && !IsFlow(log, i) ensures !Reachable(g, root, log[i].block) {
        DeadIsNotFlowCalled(log, i);
      }
    }
  }

  lemma CompleteOrder(g: Graph, root: BlockId, s: State, i: nat)
    requires Complete(g, root, s) && NoDeadIsReachable(g, root, s.log) && i < |s.log| && IsFlow(s.log, i)
    ensures WhiteFirst(g, s.log, i)
  {
    assert Finished(g, root, s, i);
  }

  /** Every dominator of a control-flow entry is called back no later than the entry. */
  ghost predicate DominatorOrder(g: Graph, root: BlockId, log: seq<Callback>) {
    forall i: nat, d | i < |log| && IsFlow(log, i) && Dominates(g, root, d, log[i].block) ::
      FlowCalled(log[..i + 1], d)
  }

  /** The sequence of callbacks that the traversal of `g` from `root` makes. */
  function ReadableOrderOf(g: Graph, root: BlockId): seq<Callback>
    requires Closed(g) && root in g
  {
    Visited(g, State({}, {}, {}, []), root, ReachViaControlFlow, NoBlock).log
  }

  /** The traversal starts at the root, calls back no block twice, and keeps dominator order. */
  lemma OnceInDominatorOrder(g: Graph, root: BlockId)
    requires Closed(g) && root in g
    ensures var log := ReadableOrderOf(g, root);
      && |log| > 0 && log[0] == Callback(root, ReachViaControlFlow, NoBlock)
      && Distinct(log) && DominatorOrder(g, root, log)
  {
    var s := TraversalComplete(g, root);
    forall i: nat, d | i < |s.log| && IsFlow(s.log, i) && Dominates(g, root, d, s.log[i].block)
      ensures FlowCalled(s.log[..i + 1], d)
    {
      DominatorsComeFirst(g, root, s.log, i, d);
    }
  }

  /** Soundness always; completeness exactly when no block that control can reach is reported dead. */
  lemma FlowCallbacksAreReachable(g: Graph, root: BlockId)
    requires Closed(g) && root in g
    ensures var log := ReadableOrderOf(g, root);
      && (forall b | FlowCalled(log, b) :: Reachable(g, root, b))
      && (FlowIsReachability(g, root, log) <==> NoDeadIsReachable(g, root, log))
  {
    var s := TraversalComplete(g, root);
    FlowIsReachabilityIff(g, root, s);
    forall b | FlowCalled(s.log, b) ensures Reachable(g, root, b) {
      FlowCalledIsReachable(g, root, s.log, b);
    }
  }

  /** The other callbacks report targets of headers called back before them, each with the reason
      of its role, and no target of a header is missed. */
  lemma TargetsAreReported(g: Graph, root: BlockId)
    requires Closed(g) && root in g
    ensures var log := ReadableOrderOf(g, root);
      && (forall i: nat | i < |log| && !IsFlow(log, i) :: DeadEntryOk(g, log, i))
      && (forall h, t | Called(log, h) && IsTarget(g, h, t) :: Called(log, t))
  {
    var s := TraversalComplete(g, root);
    forall h, t | Called(s.log, h) && IsTarget(g, h, t) ensures Called(s.log, t) {
      var i :| 0 <= i < |s.log| && s.log[i].block == h;
      assert Finished(g, root, s, i);
    }
  }

  /** In a structured graph the control-flow callbacks are exactly the reachable blocks. */
  lemma StructuredIsComplete(g: Graph, root: BlockId)
    requires Closed(g) && root in g && Structured(g, root)
    ensures FlowIsReachability(g, root, ReadableOrderOf(g, root))
    ensures NoDeadIsReachable(g, root, ReadableOrderOf(g, root))
  {
    var s := TraversalComplete(g, root);
    FlowIsReachabilityIff(g, root, s);
  }

  /**
   * Merge delay in any graph, unless a block is reported dead that control can reach: for every header and every target
   * that is its own and not called back before it, all blocks on paths through blocks that were neither visited nor
   * held back when the header was entered come before the target, and the continue block before the merge block.
   */
  lemma WhitePathsComeFirst(g: Graph, root: BlockId)
    requires Closed(g) && root in g && NoDeadIsReachable(g, root, ReadableOrderOf(g, root))
    ensures var log := ReadableOrderOf(g, root); forall i: nat | i < |log| && IsFlow(log, i) :: WhiteFirst(g, log, i)
  {
    var s := TraversalComplete(g, root);
    forall i: nat | i < |s.log| && IsFlow(s.log, i) ensures WhiteFirst(g, s.log, i) {
      CompleteOrder(g, root, s, i);
    }
  }

  /**
   * In a structured graph a header's whole construct comes before its continue block, which comes before its merge
   * block.
   */
  lemma ConstructsComeFirst(g: Graph, root: BlockId)
    requires Closed(g) && root in g && Structured(g, root) && ProperTargets(g, root)
    ensures forall h <- g | Reachable(g, root, h) :: ConstructFirst(g, root, ReadableOrderOf(g, root), h)
  {
    var s := TraversalComplete(g, root);
    StructuredIsComplete(g, root);
    assert LogOk(g, root, s.log) && forall k | 0 <= k < |s.log| :: s.log[k].block in g by {
      CalledAreBlocks(g, root, s);
    }
    hide Structured, ProperTargets, Complete, LogOk, Reachable, WhiteFirst, ConstructFirst, ReadableOrderOf,
         NoDeadIsReachable;
    forall h <- g | Reachable(g, root, h) ensures ConstructFirst(g, root, s.log, h) {
      assert FlowCalled(s.log, h);
      var i :| 0 <= i < |s.log| && IsFlow(s.log, i) && s.log[i].block == h;
      CompleteOrder(g, root, s, i);
      WhiteIsConstruct(g, root, s.log, i);
    }
  }

  lemma CalledAreBlocks(g: Graph, root: BlockId, s: State)
    requires Complete(g, root, s)
    ensures LogOk(g, root, s.log) && forall k | 0 <= k < |s.log| :: s.log[k].block in g
  {
    forall k | 0 <= k < |s.log| ensures s.log[k].block in g {
      assert Called(s.log, s.log[k].block);
    }
  }

  lemma TraversalComplete(g: Graph, root: BlockId) returns (s: State)
    requires Closed(g) && root in g
    ensures s.log == ReadableOrderOf(g, root) && Complete(g, root, s)
    ensures |s.log| > 0 && s.log[0] == Callback(root, ReachViaControlFlow, NoBlock)
  {
    var s0 := State({}, {}, {}, []);
    VisitGrows(g, root, s0, root, ReachViaControlFlow, NoBlock);
    s := Visited(g, s0, root, ReachViaControlFlow, NoBlock);
    assert IsFlow(s.log, 0);
  }

  // ---------- the traverser object ----------

  class Traverser {
    const g: Graph
    // whether a block has been visited or is being held back
    var visited: set<BlockId>
    var delayed: set<BlockId>
    // the blocks that actually are reached via control flow
    var reached: set<BlockId>
    // the callbacks made, in order
    var log: seq<Callback>

    constructor (g: Graph)
      ensures this.g == g && St() == State({}, {}, {}, [])
    {
      this.g := g;
      visited, delayed, reached, log := {}, {}, {}, [];
    }

    ghost function St(): State
      reads this
    {
      State(visited, delayed, reached, log)
    }

    method Visit(block: BlockId, why: ReachReason, header: MaybeBlock)
      requires Closed(g) && block in g
      modifies this
      ensures St() == Visited(g, old(St()), block, why, header)
      decreases g.Keys - visited, 0
    {
      ClosedAt(g, block);
      hide Closed;
      if why == ReachViaControlFlow {
        reached := reached + {block};
      }
      if block in visited || block in delayed {
        return;
      }
      log := log + [Callback(block, why, header)];
      visited := visited + {block};
      var mergeBlock, continueBlock := NoBlock, NoBlock;
      var mergeInst := g[block].mergeInst;
      if mergeInst != NoMerge {
        mergeBlock := SomeBlock(mergeInst.merge);
        delayed := delayed + {mergeInst.merge};
        if mergeInst.LoopMerge? {
          continueBlock := SomeBlock(mergeInst.continueTarget);
          delayed := delayed + {mergeInst.continueTarget};
        }
      }
      ghost var s1 := Entered(g, Marked(old(St()), block, why), block, why, header);
      assert delayed == s1.delayed;
      assert St() == s1;
      if why == ReachViaControlFlow {
        VisitSuccessors(block);
      }
      ghost var s2 := St();
      if continueBlock != NoBlock {
        Release(block, continueBlock.id, ReachDeadContinue);
      }
      if mergeBlock != NoBlock {
        Release(block, mergeBlock.id, ReachDeadMerge);
      }
      assert St() == AllReleased(g, s2, block);
    }

    method VisitSuccessors(block: BlockId)
      requires Closed(g) && block in g
      modifies this
      ensures St() == VisitedFrom(g, old(St()), block, 0)
      decreases g.Keys - visited, 1
    {
      ClosedAt(g, block);
      hide Closed;
      ghost var s1 := St();
      var successors := g[block].successors;
      for i := 0 to |successors|
        invariant s1.visited <= visited
        invariant VisitedFrom(g, s1, block, 0) == VisitedFrom(g, St(), block, i)
      {
        Visit(successors[i], ReachViaControlFlow, NoBlock);
      }
    }

    /** Stops holding back the target `t` of `block` and visits it, as dead unless it has been reached. */
    method Release(block: BlockId, t: BlockId, dead: ReachReason)
      requires Closed(g) && t in g
      modifies this
      ensures St() == Released(g, old(St()), block, t, dead)
      decreases g.Keys - visited, 1
    {
      var why := if t in reached then ReachViaControlFlow else dead;
      delayed := delayed - {t};
      Visit(t, why, SomeBlock(block));
    }
  }

  method InReadableOrder(g: Graph, root: BlockId) returns (log: seq<Callback>)
    requires Closed(g) && root in g
    ensures log == ReadableOrderOf(g, root)
  {
    var t := new Traverser(g);
    t.Visit(root, ReachViaControlFlow, NoBlock);
    log := t.log;
  }
}
