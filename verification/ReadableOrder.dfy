/** The traversal that emits blocks in a readable order: depth first, with merge and continue
    blocks held back until their construct is finished. */
module ReadableOrder {
  import opened Cfg

  datatype ReachReason = ReachViaControlFlow | ReachDeadContinue | ReachDeadMerge

  datatype MaybeBlock = NoBlock | SomeBlock(id: BlockId)

  /** One invocation of the callback. */
  datatype Callback = Callback(block: BlockId, why: ReachReason, header: MaybeBlock)

  /** The traverser's sets together with the callbacks made so far. */
  datatype State = State(visited: set<BlockId>, delayed: set<BlockId>, reached: set<BlockId>, log: seq<Callback>)

  // ---------- vocabulary for callback logs ----------

  predicate IsFlow(log: seq<Callback>, i: int) {
    0 <= i < |log| && log[i].why == ReachViaControlFlow
  }

  /** `b` was called back as reached via control flow. */
  predicate FlowCalled(log: seq<Callback>, b: BlockId) {
    exists i | 0 <= i < |log| :: IsFlow(log, i) && log[i].block == b
  }

  predicate Called(log: seq<Callback>, b: BlockId) {
    exists i | 0 <= i < |log| :: log[i].block == b
  }

  predicate Before(log: seq<Callback>, a: BlockId, b: BlockId) {
    exists i, j | 0 <= i < j < |log| :: log[i].block == a && log[j].block == b
  }

  predicate Distinct(log: seq<Callback>) {
    forall i, j | 0 <= i < j < |log| :: log[i].block != log[j].block
  }

  /** Entry `i` is the root, or an earlier control-flow entry branches to it. */
  ghost predicate HasSource(g: Graph, root: BlockId, log: seq<Callback>, i: nat)
    requires i < |log|
  {
    log[i].block == root || exists j | 0 <= j < i :: IsFlow(log, j) && Edge(g, log[j].block, log[i].block)
  }

  /** Entry `i` reports a target of its header, called back earlier, with the reason for that role. */
  predicate DeadEntryOk(g: Graph, log: seq<Callback>, i: nat)
    requires i < |log|
  {
    && log[i].header.SomeBlock?
    && log[i].header.id in g
    && (exists j | 0 <= j < i :: log[j].block == log[i].header.id)
    && match g[log[i].header.id].mergeInst
       case NoMerge => false
       case SelectionMerge(m) => log[i].why == ReachDeadMerge && log[i].block == m
       case LoopMerge(m, c) =>
         || (log[i].why == ReachDeadMerge && log[i].block == m)
         || (log[i].why == ReachDeadContinue && log[i].block == c)
  }

  ghost predicate NoDeadIsReachable(g: Graph, root: BlockId, log: seq<Callback>) {
    forall i | 0 <= i < |log| && !IsFlow(log, i) :: !Reachable(g, root, log[i].block)
  }

  /** The blocks of the construct of `h` come before its target `t`, and its continue block
      comes before its merge block. */
  ghost predicate ConstructFirst(g: Graph, root: BlockId, log: seq<Callback>, h: BlockId)
    requires h in g
  {
    && (forall t, b | t in g[h].mergeInst.Targets() && InConstruct(g, root, h, t, b) :: Before(log, b, t))
    && (g[h].mergeInst.LoopMerge? ==> Before(log, g[h].mergeInst.continueTarget, g[h].mergeInst.merge))
  }

  /** The block has not been called back and is no target of a header that has: neither visited nor held back. */
  predicate Free(g: Graph, log: seq<Callback>, b: BlockId) {
    !Called(log, b) && forall i | 0 <= i < |log| :: !IsTarget(g, log[i].block, b)
  }

  /** A path from `h` through blocks that are free in the log and avoid the fence of its target `t`. */
  ghost predicate IsWhitePath(g: Graph, log: seq<Callback>, h: BlockId, t: BlockId, p: seq<BlockId>, b: BlockId) {
    && h in g
    && IsPath(g, p, h, b)
    && forall k :: 1 <= k < |p| ==> Free(g, log, p[k]) && p[k] !in Fence(g, h, t)
  }

  ghost predicate White(g: Graph, log: seq<Callback>, h: BlockId, t: BlockId, b: BlockId) {
    exists p :: IsWhitePath(g, log, h, t, p, b)
  }

  /** No other entry is a header of `t`, and `t` has not been called back when entry `i` is. */
  predicate Owns(g: Graph, log: seq<Callback>, i: nat, t: BlockId)
    requires i < |log|
  {
    !Called(log[..i + 1], t) && forall j | 0 <= j < |log| && IsTarget(g, log[j].block, t) :: j == i
  }

  /** Merge delay for the header of entry `i`, at the targets that are its own. */
  ghost predicate WhiteFirst(g: Graph, log: seq<Callback>, i: nat)
    requires i < |log|
  {
    var h := log[i].block;
    && (forall t, b | IsTarget(g, h, t) && Owns(g, log, i, t) && White(g, log[..i], h, t, b) :: Before(log, b, t))
    && (h in g && g[h].mergeInst.LoopMerge? ==>
          var m, c := g[h].mergeInst.merge, g[h].mergeInst.continueTarget;
          c != m && Owns(g, log, i, m) ==> Before(log, c, m))
  }

  // ---------- consequences of HasSource ----------

  ghost predicate Sourced(g: Graph, root: BlockId, log: seq<Callback>) {
    forall i: nat | i < |log| && IsFlow(log, i) :: HasSource(g, root, log, i)
  }

  /** A control-flow entry has a path from the root through control-flow entries up to it. */
  lemma {:induction false} EarlierRootPath(g: Graph, root: BlockId, log: seq<Callback>, i: nat)
    returns (p: seq<BlockId>)
    requires Sourced(g, root, log) && i < |log| && IsFlow(log, i)
    ensures IsPath(g, p, root, log[i].block)
    ensures forall b <- p :: FlowCalled(log[..i + 1], b)
    decreases i
  {
    if log[i].block == root {
      p := [root];
      assert IsFlow(log[..i + 1], i);
    } else {
      assert HasSource(g, root, log, i);
      var j :| 0 <= j < i && IsFlow(log, j) && Edge(g, log[j].block, log[i].block);
      var q := EarlierRootPath(g, root, log, j);
      p := q + [log[i].block];
      forall b <- p ensures FlowCalled(log[..i + 1], b) {
        if b in q {
          var k :| 0 <= k < j + 1 && IsFlow(log[..j + 1], k) && log[..j + 1][k].block == b;
          assert IsFlow(log[..i + 1], k) && log[..i + 1][k].block == b;
        } else {
          assert IsFlow(log[..i + 1], i) && log[..i + 1][i].block == b;
        }
      }
    }
  }

  /** Dominator order: whatever dominates a control-flow entry was called back no later, via control flow. */
  lemma DominatorsComeFirst(g: Graph, root: BlockId, log: seq<Callback>, i: nat, d: BlockId)
    requires Sourced(g, root, log) && i < |log| && IsFlow(log, i)
    requires Dominates(g, root, d, log[i].block)
    ensures FlowCalled(log[..i + 1], d) && Called(log, d)
  {
    var p := EarlierRootPath(g, root, log, i);
    var k :| 0 <= k < i + 1 && IsFlow(log[..i + 1], k) && log[..i + 1][k].block == d;
    assert log[k].block == d;
  }

  lemma FlowEntriesReachable(g: Graph, root: BlockId, log: seq<Callback>, i: nat)
    requires Sourced(g, root, log) && i < |log| && IsFlow(log, i)
    ensures Reachable(g, root, log[i].block)
  {
    var p := EarlierRootPath(g, root, log, i);
  }

  // ---------- the invariant of the traversal ----------

  /** Every reached block is the root or a successor of a control-flow entry. */
  ghost predicate ReachedOk(g: Graph, root: BlockId, log: seq<Callback>, reached: set<BlockId>) {
    forall b <- reached :: b == root || exists j | 0 <= j < |log| :: IsFlow(log, j) && Edge(g, log[j].block, b)
  }

  /** The shape of the log: no block twice, flow entries have earlier sources, dead ones a header. */
  ghost predicate LogOk(g: Graph, root: BlockId, log: seq<Callback>) {
    && Distinct(log)
    && Sourced(g, root, log)
    && (forall i: nat | i < |log| && !IsFlow(log, i) :: DeadEntryOk(g, log, i))
    && (Structured(g, root) ==> NoDeadIsReachable(g, root, log))
  }

  ghost predicate VisitedOk(g: Graph, s: State) {
    && (forall b :: b in s.visited <==> Called(s.log, b))
    && s.visited <= g.Keys && s.delayed <= g.Keys && s.reached <= g.Keys
    && (forall i: nat | i < |s.log| && IsFlow(s.log, i) :: s.log[i].block in s.reached)
    && (forall d <- s.delayed :: exists h <- s.visited :: IsTarget(g, h, d))
  }

  ghost predicate Inv(g: Graph, root: BlockId, s: State) {
    && Closed(g) && root in g
    && LogOk(g, root, s.log)
    && ReachedOk(g, root, s.log, s.reached)
    && VisitedOk(g, s)
  }

  /** Entry `i` is finished: its successors are reached, and they and its targets are called or held back. */
  ghost predicate Finished(g: Graph, root: BlockId, s: State, i: nat)
    requires i < |s.log|
  {
    && s.log[i].block in g
    && g[s.log[i].block].mergeInst.Targets() <= s.visited + s.delayed
    && (IsFlow(s.log, i) ==> forall b <- g[s.log[i].block].successors :: b in s.reached && b in s.visited + s.delayed)
    && (IsFlow(s.log, i) && NoDeadIsReachable(g, root, s.log) ==> WhiteFirst(g, s.log, i))
  }

  ghost predicate NewTarget(g: Graph, s: State, s': State, d: BlockId) {
    exists i | |s.log| <= i < |s'.log| :: IsTarget(g, s'.log[i].block, d)
  }

  /** What a call leaves behind, between its initial state `s` and its final state `s'`. */
  ghost predicate Grew(g: Graph, root: BlockId, s: State, s': State) {
    && s.log <= s'.log
    && s.visited <= s'.visited
    && s.reached <= s'.reached
    && s'.delayed <= s.delayed
    && s.visited + s.delayed <= s'.visited + s'.delayed
    && (forall d <- s.delayed :: NewTarget(g, s, s', d) || (d in s'.delayed && (d in s'.visited ==> d in s.visited)))
    && (forall i: nat | |s.log| <= i < |s'.log| :: Finished(g, root, s', i))
  }

  lemma BeforeMonotone(log: seq<Callback>, log': seq<Callback>, a: BlockId, b: BlockId)
    requires log <= log' && Before(log, a, b)
    ensures Before(log', a, b)
  {
    var i, j :| 0 <= i < j < |log| && log[i].block == a && log[j].block == b;
    assert log'[i].block == a && log'[j].block == b;
  }

  lemma OwnsEarlier(g: Graph, log: seq<Callback>, log': seq<Callback>, i: nat, t: BlockId)
    requires i < |log| && log <= log' && Owns(g, log', i, t)
    ensures Owns(g, log, i, t)
  {
    assert log'[..i + 1] == log[..i + 1];
    forall j | 0 <= j < |log| && IsTarget(g, log[j].block, t) ensures j == i {
      assert log'[j] == log[j];
    }
  }

  lemma WhiteFirstMonotone(g: Graph, log: seq<Callback>, log': seq<Callback>, i: nat)
    requires i < |log| && log <= log' && WhiteFirst(g, log, i)
    ensures WhiteFirst(g, log', i)
  {
    hide White, Owns, Before;
    var h := log[i].block;
    assert log'[i] == log[i] && log'[..i] == log[..i];
    forall t, b | IsTarget(g, h, t) && Owns(g, log', i, t) && White(g, log'[..i], h, t, b)
      ensures Before(log', b, t)
    {
      OwnsEarlier(g, log, log', i, t);
      BeforeMonotone(log, log', b, t);
    }
    if h in g && g[h].mergeInst.LoopMerge? && Owns(g, log', i, g[h].mergeInst.merge) {
      var m, c := g[h].mergeInst.merge, g[h].mergeInst.continueTarget;
      OwnsEarlier(g, log, log', i, m);
      if c != m {
        BeforeMonotone(log, log', c, m);
      }
    }
  }

  lemma NoDeadEarlier(g: Graph, root: BlockId, log: seq<Callback>, log': seq<Callback>)
    requires log <= log' && NoDeadIsReachable(g, root, log')
    ensures NoDeadIsReachable(g, root, log)
  {
    forall i | 0 <= i < |log| && !IsFlow(log, i) ensures !Reachable(g, root, log[i].block) {
      assert log'[i] == log[i] && !IsFlow(log', i);
    }
  }

  lemma FinishedMonotone(g: Graph, root: BlockId, s: State, s': State, i: nat)
    requires i < |s.log| && Finished(g, root, s, i)
    requires s.log <= s'.log && s.reached <= s'.reached && s.visited + s.delayed <= s'.visited + s'.delayed
    ensures Finished(g, root, s', i)
  {
    hide NoDeadIsReachable, WhiteFirst;
    assert s'.log[i] == s.log[i];
    if IsFlow(s.log, i) && NoDeadIsReachable(g, root, s'.log) {
      NoDeadEarlier(g, root, s.log, s'.log);
      WhiteFirstMonotone(g, s.log, s'.log, i);
    }
  }

  // ---------- releasing a held-back block ----------

  /** Situation at the release of target `t` of header `h`: `s0` is the state in which `h` was
      entered, `s` the state just before the release. */
  ghost predicate Releasing(g: Graph, root: BlockId, s0: State, s: State, h: BlockId, t: BlockId) {
    && Inv(g, root, s0) && Inv(g, root, s)
    && s0.log < s.log && s0.visited <= s.visited
    && h !in s0.visited && s.log[|s0.log|].block == h && IsFlow(s.log, |s0.log|) && IsTarget(g, h, t)
    && (forall i: nat | |s0.log| <= i < |s.log| && IsFlow(s.log, i) ::
         forall b <- g[s.log[i].block].successors :: b in s.reached && b in s.visited + s.delayed)
    && s.delayed <= s0.delayed + Fence(g, h, t)
  }

  /**
   * Merge delay: every block on a path from `h` through blocks that were neither visited nor held back when `h` was
   * entered has been called back since, unless some block has been reported dead that control can reach.
   */
  lemma {:induction false} WhitePathCalled(g: Graph, root: BlockId, s0: State, s: State, h: BlockId, t: BlockId,
                                           p: seq<BlockId>, b: BlockId) returns (i: nat)
    requires Releasing(g, root, s0, s, h, t) && NoDeadIsReachable(g, root, s.log)
    requires IsPath(g, p, h, b)
    requires forall k :: 1 <= k < |p| ==> p[k] !in s0.visited && p[k] !in s0.delayed && p[k] !in Fence(g, h, t)
    ensures |s0.log| <= i < |s.log| && IsFlow(s.log, i) && s.log[i].block == b
    decreases |p|
  {
    if |p| == 1 {
      i := |s0.log|;
    } else {
      PathPrefix(g, p, h, b, |p| - 2);
      var j := WhitePathCalled(g, root, s0, s, h, t, p[..|p| - 1], p[|p| - 2]);
      assert Edge(g, p[|p| - 2], p[|p| - 2 + 1]);
      i := SuccessorCalled(g, root, s0, s, h, t, j, b);
    }
  }

  lemma SuccessorCalled(g: Graph, root: BlockId, s0: State, s: State, h: BlockId, t: BlockId, j: nat, b: BlockId)
    returns (i: nat)
    requires Releasing(g, root, s0, s, h, t) && NoDeadIsReachable(g, root, s.log)
    requires |s0.log| <= j < |s.log| && IsFlow(s.log, j) && Edge(g, s.log[j].block, b)
    requires b !in s0.visited && b !in s0.delayed && b !in Fence(g, h, t)
    ensures |s0.log| <= i < |s.log| && IsFlow(s.log, i) && s.log[i].block == b
  {
    FlowEntriesReachable(g, root, s.log, j);
    ReachableStep(g, root, s.log[j].block, b);
    assert b in s.visited;
    assert Called(s.log, b);
    i :| 0 <= i < |s.log| && s.log[i].block == b;
  }

  lemma FreeIsWhite(g: Graph, root: BlockId, s: State, b: BlockId)
    requires Inv(g, root, s) && Free(g, s.log, b)
    ensures b !in s.visited && b !in s.delayed
  {
    forall o | o in s.visited
      ensures !IsTarget(g, o, b)
    {
      var i :| 0 <= i < |s.log| && s.log[i].block == o;
    }
  }

  /** If `t` has not been called back at its release, the white paths to blocks come first. */
  lemma WhiteBeforeTarget(g: Graph, root: BlockId, s0: State, s: State, log: seq<Callback>, h: BlockId, t: BlockId)
    requires Releasing(g, root, s0, s, h, t) && NoDeadIsReachable(g, root, s.log)
    requires t !in s.visited && s.log <= log && Called(log, t)
    ensures forall b | White(g, s0.log, h, t, b) :: Before(log, b, t)
  {
    var j :| 0 <= j < |log| && log[j].block == t;
    forall b | White(g, s0.log, h, t, b) ensures Before(log, b, t) {
      var p :| IsWhitePath(g, s0.log, h, t, p, b);
      forall k | 1 <= k < |p| ensures p[k] !in s0.visited && p[k] !in s0.delayed {
        FreeIsWhite(g, root, s0, p[k]);
      }
      var i := WhitePathCalled(g, root, s0, s, h, t, p, b);
      assert log[i].block == b;
      assert j >= |s.log|;
    }
  }

  // ---------- structured graphs ----------

  lemma NotCalledBeforeDominator(g: Graph, root: BlockId, log: seq<Callback>, h: BlockId, b: BlockId)
    requires Sourced(g, root, log) && NoDeadIsReachable(g, root, log) && !Called(log, h)
    requires Dominates(g, root, h, b) && Reachable(g, root, b)
    ensures !Called(log, b)
  {
    if Called(log, b) {
      var i :| 0 <= i < |log| && log[i].block == b;
      assert IsFlow(log, i);
      DominatorsComeFirst(g, root, log, i, h);
    }
  }

  /** A reachable interior block of `h` is neither called back nor held back when `h` is entered. */
  lemma NotHeldByOthers(g: Graph, root: BlockId, log: seq<Callback>, h: BlockId, b: BlockId)
    requires Sourced(g, root, log) && NoDeadIsReachable(g, root, log) && !Called(log, h)
    requires (forall i | 0 <= i < |log| :: log[i].block in g) && Interior(g, root, h, b) && Reachable(g, root, b)
    ensures Free(g, log, b)
  {
    NotCalledBeforeDominator(g, root, log, h, b);
    forall i | 0 <= i < |log| && IsTarget(g, log[i].block, b)
      ensures false
    {
      var o := log[i].block;
      assert Called(log, o);
      NotCalledBeforeDominator(g, root, log, h, o);
    }
  }

  /** In a structured graph the paths of a construct are white when its header is entered. */
  lemma {:induction false} BodyPathIsWhite(g: Graph, root: BlockId, log: seq<Callback>, h: BlockId, t: BlockId,
                                           p: seq<BlockId>, b: BlockId)
    requires Sourced(g, root, log) && NoDeadIsReachable(g, root, log) && !Called(log, h)
    requires (forall i | 0 <= i < |log| :: log[i].block in g) && Reachable(g, root, h)
             && IsBodyPath(g, root, h, t, p, b)
    ensures IsWhitePath(g, log, h, t, p, b) && Reachable(g, root, b)
    decreases |p|
  {
    hide Sourced, NoDeadIsReachable, Called, Reachable, Free, Interior;
    if |p| > 1 {
      var q := p[..|p| - 1];
      PathPrefix(g, p, h, b, |p| - 2);
      BodyPathIsWhite(g, root, log, h, t, q, p[|p| - 2]);
      assert Edge(g, p[|p| - 2], p[|p| - 2 + 1]);
      ReachableStep(g, root, p[|p| - 2], b);
      NotHeldByOthers(g, root, log, h, b);
      forall k | 1 <= k < |p| ensures Free(g, log, p[k]) {
        if k < |q| {
          assert q[k] == p[k];
        }
      }
    }
  }

  lemma ConstructIsWhite(g: Graph, root: BlockId, log: seq<Callback>, h: BlockId, t: BlockId, b: BlockId)
    requires Sourced(g, root, log) && NoDeadIsReachable(g, root, log) && !Called(log, h)
    requires (forall i | 0 <= i < |log| :: log[i].block in g) && Reachable(g, root, h) && InConstruct(g, root, h, t, b)
    ensures White(g, log, h, t, b)
  {
    var p :| IsBodyPath(g, root, h, t, p, b);
    BodyPathIsWhite(g, root, log, h, t, p, b);
  }

  /** Everything in the construct of `h` has been called back when `t` is released. */
  lemma BodyCalled(g: Graph, root: BlockId, s0: State, s: State, h: BlockId, t: BlockId, b: BlockId) returns (i: nat)
    requires Releasing(g, root, s0, s, h, t) && Structured(g, root) && InConstruct(g, root, h, t, b)
    ensures |s0.log| <= i < |s.log| && IsFlow(s.log, i) && s.log[i].block == b
  {
    hide Structured, Interior;
    FlowEntriesReachable(g, root, s.log, |s0.log|);
    assert forall k | 0 <= k < |s0.log| :: s0.log[k].block in g by {
      assert forall k | 0 <= k < |s0.log| :: Called(s0.log, s0.log[k].block);
    }
    ConstructIsWhite(g, root, s0.log, h, t, b);
    var p :| IsWhitePath(g, s0.log, h, t, p, b);
    forall k | 1 <= k < |p| ensures p[k] !in s0.visited && p[k] !in s0.delayed {
      FreeIsWhite(g, root, s0, p[k]);
    }
    i := WhitePathCalled(g, root, s0, s, h, t, p, b);
  }

  /** In a structured graph a target that control can reach has been reached when it is released. */
  lemma ReachedInTime(g: Graph, root: BlockId, s0: State, s: State, h: BlockId, t: BlockId)
    requires Releasing(g, root, s0, s, h, t) && Structured(g, root) && Reachable(g, root, t)
    ensures t in s.reached
  {
    var b :| InConstruct(g, root, h, t, b) && Edge(g, b, t);
    var i := BodyCalled(g, root, s0, s, h, t, b);
  }

  /** A target that is called back comes after its header. */
  lemma HeaderIsEarlier(g: Graph, root: BlockId, log: seq<Callback>, j: nat, h: BlockId, t: BlockId) returns (k: nat)
    requires LogOk(g, root, log) && ProperTargets(g, root) && j < |log| && log[j].block == t && IsTarget(g, h, t)
    ensures k < j && log[k].block == h
  {
    assert StrictlyDominates(g, root, h, t);
    hide Sourced, Distinct, NoDeadIsReachable, Structured, Dominates;
    if IsFlow(log, j) {
      DominatorsComeFirst(g, root, log, j, h);
      k :| 0 <= k < j + 1 && IsFlow(log[..j + 1], k) && log[..j + 1][k].block == h;
      assert log[k].block == h;
    } else {
      assert DeadEntryOk(g, log, j) && IsTarget(g, log[j].header.id, t);
      k :| 0 <= k < j && log[k].block == log[j].header.id;
    }
  }

  /** With proper targets every header owns its targets. */
  lemma TargetsAreOwned(g: Graph, root: BlockId, log: seq<Callback>, i: nat, t: BlockId)
    requires LogOk(g, root, log) && ProperTargets(g, root) && i < |log| && IsTarget(g, log[i].block, t)
    ensures Owns(g, log, i, t)
  {
    var h := log[i].block;
    forall j | 0 <= j < |log| && IsTarget(g, log[j].block, t) ensures j == i {
      assert log[j].block == h;
    }
    if Called(log[..i + 1], t) {
      var j :| 0 <= j < i + 1 && log[..i + 1][j].block == t;
      var k := HeaderIsEarlier(g, root, log, j, h, t);
      assert false;
    }
  }

  /** So in a structured graph merge delay is about whole constructs. */
  lemma WhiteIsConstruct(g: Graph, root: BlockId, log: seq<Callback>, i: nat)
    requires LogOk(g, root, log) && Structured(g, root) && ProperTargets(g, root)
    requires i < |log| && IsFlow(log, i) && (forall k | 0 <= k < |log| :: log[k].block in g)
    requires WhiteFirst(g, log, i)
    ensures ConstructFirst(g, root, log, log[i].block)
  {
    hide LogOk, Structured, ProperTargets, InConstruct, White, Before, Owns, Reachable, NoDeadIsReachable, Sourced;
    var h := log[i].block;
    assert Sourced(g, root, log) && NoDeadIsReachable(g, root, log) && Distinct(log) by { LogParts(g, root, log); }
    FlowEntriesReachable(g, root, log, i);
    NoDeadEarlier(g, root, log[..i], log);
    SourcedEarlier(g, root, log, i);
    assert !Called(log[..i], h);
    forall t, b | t in g[h].mergeInst.Targets() && InConstruct(g, root, h, t, b) ensures Before(log, b, t) {
      TargetsAreOwned(g, root, log, i, t);
      ConstructIsWhite(g, root, log[..i], h, t, b);
    }
    if g[h].mergeInst.LoopMerge? {
      TargetsAreOwned(g, root, log, i, g[h].mergeInst.merge);
      MergeIsNotContinue(g, root, h);
    }
  }

  lemma LogParts(g: Graph, root: BlockId, log: seq<Callback>)
    requires LogOk(g, root, log)
    ensures Sourced(g, root, log) && Distinct(log) && (Structured(g, root) ==> NoDeadIsReachable(g, root, log))
  {
  }

  lemma MergeIsNotContinue(g: Graph, root: BlockId, h: BlockId)
    requires ProperTargets(g, root) && h in g && g[h].mergeInst.LoopMerge?
    ensures g[h].mergeInst.merge != g[h].mergeInst.continueTarget
  {
  }

  lemma SourcedEarlier(g: Graph, root: BlockId, log: seq<Callback>, n: nat)
    requires Sourced(g, root, log) && n <= |log|
    ensures Sourced(g, root, log[..n])
  {
    forall i: nat | i < n && IsFlow(log[..n], i) ensures HasSource(g, root, log[..n], i) {
      assert IsFlow(log, i) && HasSource(g, root, log, i);
      if log[i].block != root {
        var j :| 0 <= j < i && IsFlow(log, j) && Edge(g, log[j].block, log[i].block);
        assert IsFlow(log[..n], j) && log[..n][j] == log[j];
      }
    }
  }
}
