/** The order of the callbacks among the successors and targets of each block. */
module DepthFirst {
  import opened Cfg
  import opened ReadableOrder
  import opened ReadableOrderTraverser

  /** From entry `lo` on and before `hi` comes what the visit of a successor `b` makes: something if and only if `b` has
      neither been called back nor is held back, and then `b` first. */
  ghost predicate Turn(g: Graph, log: seq<Callback>, b: BlockId, lo: nat, hi: nat) {
    && lo <= hi <= |log|
    && (lo < hi <==> Free(g, log[..lo], b))
    && (lo < hi ==> log[lo] == Callback(b, ReachViaControlFlow, NoBlock))
  }

  /** The turns of all successors of entry `i`, one after the other and in their order. */
  ghost predicate Turns(g: Graph, log: seq<Callback>, i: nat, ends: seq<nat>) {
    && i < |log| && log[i].block in g
    && |ends| == |g[log[i].block].successors| + 1 && ends[0] == i + 1
    && forall j | 0 <= j < |ends| - 1 :: Turn(g, log, g[log[i].block].successors[j], ends[j], ends[j + 1])
  }

  /** What the release of the target `t` of `h` makes: something if and only if `t` has not been called back. */
  ghost predicate Release(log: seq<Callback>, h: BlockId, t: BlockId, role: ReachReason, lo: nat, hi: nat) {
    && lo <= hi <= |log|
    && (lo < hi <==> !Called(log[..lo], t))
    && (lo < hi ==> log[lo].block == t && log[lo].header == SomeBlock(h)
                    && (log[lo].why == ReachViaControlFlow || log[lo].why == role))
  }

  /** The continue block is released first, then the merge block. */
  ghost predicate Releases(g: Graph, log: seq<Callback>, h: BlockId, lo: nat, hi: nat)
    requires h in g
  {
    match g[h].mergeInst
    case NoMerge => lo == hi
    case SelectionMerge(m) => Release(log, h, m, ReachDeadMerge, lo, hi)
    case LoopMerge(m, k) =>
      exists mid :: Release(log, h, k, ReachDeadContinue, lo, mid) && Release(log, h, m, ReachDeadMerge, mid, hi)
  }

  /** After entry `i` come, without gaps, the visits of its successors, if control reaches it, and of its targets. */
  ghost predicate Laid(g: Graph, log: seq<Callback>, i: nat, ends: seq<nat>, end: nat) {
    && i < |log| && log[i].block in g && ends != []
    && (if IsFlow(log, i) then Turns(g, log, i, ends) else ends == [i + 1])
    && Releases(g, log, log[i].block, ends[|ends| - 1], end)
  }

  ghost predicate IsLaid(g: Graph, log: seq<Callback>, i: nat) {
    exists ends, end :: Laid(g, log, i, ends, end)
  }

  /** The entries from `lo` on. */
  ghost predicate AllLaid(g: Graph, log: seq<Callback>, lo: nat) {
    forall i: nat | lo <= i < |log| :: IsLaid(g, log, i)
  }

  // ---------- longer logs ----------

  lemma TurnGrows(g: Graph, log: seq<Callback>, log': seq<Callback>, b: BlockId, lo: nat, hi: nat)
    requires log <= log' && Turn(g, log, b, lo, hi)
    ensures Turn(g, log', b, lo, hi)
  {
    assert log'[..lo] == log[..lo];
  }

  lemma ReleaseGrows(log: seq<Callback>, log': seq<Callback>, h: BlockId, t: BlockId, role: ReachReason, lo: nat,
                     hi: nat)
    requires log <= log' && Release(log, h, t, role, lo, hi)
    ensures Release(log', h, t, role, lo, hi)
  {
    assert log'[..lo] == log[..lo];
  }

  lemma TurnsGrow(g: Graph, log: seq<Callback>, log': seq<Callback>, i: nat, ends: seq<nat>)
    requires log <= log' && Turns(g, log, i, ends)
    ensures Turns(g, log', i, ends)
  {
    hide Turn;
    forall j | 0 <= j < |ends| - 1
      ensures Turn(g, log', g[log'[i].block].successors[j], ends[j], ends[j + 1])
    {
      TurnGrows(g, log, log', g[log[i].block].successors[j], ends[j], ends[j + 1]);
    }
  }

  lemma ReleasesGrow(g: Graph, log: seq<Callback>, log': seq<Callback>, h: BlockId, lo: nat, hi: nat)
    requires log <= log' && h in g && Releases(g, log, h, lo, hi)
    ensures Releases(g, log', h, lo, hi)
  {
    hide Release;
    match g[h].mergeInst
    case NoMerge =>
    case SelectionMerge(m) => ReleaseGrows(log, log', h, m, ReachDeadMerge, lo, hi);
    case LoopMerge(m, k) =>
      var mid :| Release(log, h, k, ReachDeadContinue, lo, mid) && Release(log, h, m, ReachDeadMerge, mid, hi);
      ReleaseGrows(log, log', h, k, ReachDeadContinue, lo, mid);
      ReleaseGrows(log, log', h, m, ReachDeadMerge, mid, hi);
  }

  lemma LaidGrows(g: Graph, log: seq<Callback>, log': seq<Callback>, lo: nat, mid: nat)
    requires log <= log' && AllLaid(g, log, lo) && mid == |log| && AllLaid(g, log', mid)
    ensures AllLaid(g, log', lo)
  {
    hide Turns, Releases;
    forall i: nat | lo <= i < |log'|
      ensures IsLaid(g, log', i)
    {
      if i < |log| {
        assert IsLaid(g, log, i);
        var ends, end :| Laid(g, log, i, ends, end);
        if IsFlow(log, i) {
          TurnsGrow(g, log, log', i, ends);
        }
        ReleasesGrow(g, log, log', log[i].block, ends[|ends| - 1], end);
        assert Laid(g, log', i, ends, end);
      }
    }
  }

  // ---------- the traverser's sets in terms of the log ----------

  /** The visited blocks are those called back; held back are targets of theirs, and all of them save those in `but`
      that are not visited either. */
  ghost predicate Kept(g: Graph, s: State, but: set<BlockId>) {
    && (forall b :: b in s.visited <==> Called(s.log, b))
    && (forall d <- s.delayed :: exists i | 0 <= i < |s.log| :: IsTarget(g, s.log[i].block, d))
    && (forall i, t | 0 <= i < |s.log| && IsTarget(g, s.log[i].block, t) ::
          t in s.visited || t in s.delayed || t in but)
  }

  lemma FreeIs(g: Graph, s: State, b: BlockId)
    requires Kept(g, s, {})
    ensures Free(g, s.log, b) <==> b !in s.visited && b !in s.delayed
  {
  }

  lemma EnteredKept(g: Graph, s: State, block: BlockId, why: ReachReason, header: MaybeBlock)
    requires Kept(g, s, {block}) && block in g
    ensures Kept(g, Entered(g, Marked(s, block, why), block, why, header), {})
  {
    var s' := Entered(g, Marked(s, block, why), block, why, header);
    assert s'.log[|s.log|].block == block;
    assert forall i | 0 <= i < |s.log| :: s'.log[i] == s.log[i];
    forall b
      ensures b in s'.visited <==> Called(s'.log, b)
    {
      if Called(s.log, b) {
        CalledGrows(s.log, s'.log, b);
      }
    }
    forall d <- s'.delayed
      ensures exists i | 0 <= i < |s'.log| :: IsTarget(g, s'.log[i].block, d)
    {
      if d in s.delayed {
        var i :| 0 <= i < |s.log| && IsTarget(g, s.log[i].block, d);
        assert IsTarget(g, s'.log[i].block, d);
      } else {
        assert IsTarget(g, s'.log[|s.log|].block, d);
      }
    }
  }

  lemma ReleasedKept(g: Graph, s: State, t: BlockId)
    requires Kept(g, s, {})
    ensures Kept(g, s.(delayed := s.delayed - {t}), {t})
  {
  }

  // ---------- the induction over a traversal ----------

  lemma {:induction false} VisitLaid(g: Graph, s: State, block: BlockId, why: ReachReason, header: MaybeBlock)
    requires Closed(g) && block in g && Kept(g, s, {block})
    ensures var r := Visited(g, s, block, why, header);
      && Kept(g, r, {}) && s.log <= r.log && AllLaid(g, r.log, |s.log|)
      && (|s.log| < |r.log| <==> block !in s.visited && block !in s.delayed)
      && (|s.log| < |r.log| ==> r.log[|s.log|] == Callback(block, why, header))
    decreases g.Keys - s.visited, 0, 0
  {
    hide Closed, Kept, VisitedFrom, AllReleased, AllLaid, Laid, Turns, Releases;
    var s1 := Marked(s, block, why);
    if block in s.visited || block in s.delayed {
      StillKept(g, s, block, why);
    } else {
      EnteredKept(g, s, block, why, header);
      var s2 := Entered(g, s1, block, why, header);
      var i := |s.log|;
      assert s2.log[i] == Callback(block, why, header);
      NoneLaid(g, s2.log);
      var ends := [i + 1];
      var s3 := s2;
      if why == ReachViaControlFlow {
        TurnsStart(g, s2.log, i);
        ends := SuccessorsLaid(g, s2, i, 0, ends);
        s3 := VisitedFrom(g, s2, block, 0);
      }
      var end := ReleasesLaid(g, s3, i);
      var r := AllReleased(g, s3, block);
      assert r == Visited(g, s, block, why, header);
      EntryLaid(g, s3.log, r.log, i, ends, end);
    }
  }

  lemma StillKept(g: Graph, s: State, block: BlockId, why: ReachReason)
    requires Kept(g, s, {block}) && (block in s.visited || block in s.delayed)
    ensures Kept(g, Marked(s, block, why), {}) && AllLaid(g, s.log, |s.log|)
  {
  }

  lemma NoneLaid(g: Graph, log: seq<Callback>)
    ensures AllLaid(g, log, |log|)
  {
  }

  /** The turns of the first `|ends| - 1` successors of entry `i`. */
  ghost predicate SomeTurns(g: Graph, log: seq<Callback>, i: nat, ends: seq<nat>) {
    && i < |log| && log[i].block in g
    && 0 < |ends| <= |g[log[i].block].successors| + 1 && ends[0] == i + 1 && ends[|ends| - 1] == |log|
    && forall j | 0 <= j < |ends| - 1 :: Turn(g, log, g[log[i].block].successors[j], ends[j], ends[j + 1])
  }

  lemma TurnsStart(g: Graph, log: seq<Callback>, i: nat)
    requires |log| == i + 1 && log[i].block in g
    ensures SomeTurns(g, log, i, [i + 1])
  {
  }

  lemma OneMoreTurn(g: Graph, log: seq<Callback>, log': seq<Callback>, i: nat, ends: seq<nat>)
    requires SomeTurns(g, log, i, ends) && log <= log' && |ends| <= |g[log[i].block].successors|
    requires Turn(g, log', g[log[i].block].successors[|ends| - 1], |log|, |log'|)
    ensures SomeTurns(g, log', i, ends + [|log'|])
  {
    hide Turn;
    var ends' := ends + [|log'|];
    forall j | 0 <= j < |ends'| - 1
      ensures Turn(g, log', g[log'[i].block].successors[j], ends'[j], ends'[j + 1])
    {
      if j < |ends| - 1 {
        TurnGrows(g, log, log', g[log[i].block].successors[j], ends[j], ends[j + 1]);
      }
    }
  }

  lemma {:induction false} SuccessorsLaid(g: Graph, s: State, i: nat, j: nat, ends: seq<nat>) returns (r: seq<nat>)
    requires Closed(g) && Kept(g, s, {}) && SomeTurns(g, s.log, i, ends) && |ends| == j + 1
    requires AllLaid(g, s.log, i + 1)
    ensures var s' := VisitedFrom(g, s, s.log[i].block, j);
      && Kept(g, s', {}) && s.log <= s'.log && SomeTurns(g, s'.log, i, r) && AllLaid(g, s'.log, i + 1)
      && |r| == |g[s.log[i].block].successors| + 1
    decreases g.Keys - s.visited, 1, |g[s.log[i].block].successors| - j
  {
    hide Kept, AllLaid, Visited, Turn, Free;
    var block := s.log[i].block;
    var successors := g[block].successors;
    if j == |successors| {
      r := ends;
    } else {
      assert Edge(g, block, successors[j]);
      KeptMore(g, s, successors[j]);
      VisitLaid(g, s, successors[j], ReachViaControlFlow, NoBlock);
      var s' := Visited(g, s, successors[j], ReachViaControlFlow, NoBlock);
      SuccessorTurn(g, s, s', successors[j]);
      OneMoreTurn(g, s.log, s'.log, i, ends);
      LaidGrows(g, s.log, s'.log, i + 1, |s.log|);
      assert g.Keys - s'.visited <= g.Keys - s.visited;
      assert s'.log[i] == s.log[i];
      r := SuccessorsLaid(g, s', i, j + 1, ends + [|s'.log|]);
    }
  }

  lemma KeptMore(g: Graph, s: State, b: BlockId)
    requires Kept(g, s, {})
    ensures Kept(g, s, {b})
  {
  }

  lemma SuccessorTurn(g: Graph, s: State, s': State, b: BlockId)
    requires Kept(g, s, {}) && s.log <= s'.log
    requires |s.log| < |s'.log| <==> b !in s.visited && b !in s.delayed
    requires |s.log| < |s'.log| ==> s'.log[|s.log|] == Callback(b, ReachViaControlFlow, NoBlock)
    ensures Turn(g, s'.log, b, |s.log|, |s'.log|)
  {
    FreeIs(g, s, b);
    assert s'.log[..|s.log|] == s.log;
  }

  lemma {:induction false} ReleaseLaid(g: Graph, s: State, i: nat, t: BlockId, role: ReachReason)
    requires Closed(g) && t in g && Kept(g, s, {}) && i < |s.log| && AllLaid(g, s.log, i + 1)
    ensures var s' := Released(g, s, s.log[i].block, t, role);
      && Kept(g, s', {}) && s.log <= s'.log && AllLaid(g, s'.log, i + 1)
      && Release(s'.log, s.log[i].block, t, role, |s.log|, |s'.log|)
    decreases g.Keys - s.visited, 1, 0
  {
    hide Closed, Kept, AllLaid, Visited;
    ReleasedKept(g, s, t);
    var h := s.log[i].block;
    VisitLaid(g, s.(delayed := s.delayed - {t}), t, ReleaseReason(s, t, role), SomeBlock(h));
    var s' := Released(g, s, h, t, role);
    LaidGrows(g, s.log, s'.log, i + 1, |s.log|);
    assert s'.log[..|s.log|] == s.log;
    VisitedAreCalled(g, s, t);
  }

  lemma VisitedAreCalled(g: Graph, s: State, t: BlockId)
    requires Kept(g, s, {})
    ensures t in s.visited <==> Called(s.log, t)
  {
  }

  lemma {:induction false} ReleasesLaid(g: Graph, s: State, i: nat) returns (end: nat)
    requires Closed(g) && Kept(g, s, {}) && i < |s.log| && s.log[i].block in g && AllLaid(g, s.log, i + 1)
    ensures var s' := AllReleased(g, s, s.log[i].block);
      && Kept(g, s', {}) && s.log <= s'.log && AllLaid(g, s'.log, i + 1)
      && Releases(g, s'.log, s.log[i].block, |s.log|, end) && end == |s'.log|
    decreases g.Keys - s.visited, 2, 0
  {
    hide Closed, Kept, AllLaid, Released, Release;
    var h := s.log[i].block;
    ClosedAt(g, h);
    end := |AllReleased(g, s, h).log|;
    match g[h].mergeInst
    case NoMerge =>
    case SelectionMerge(m) =>
      ReleaseLaid(g, s, i, m, ReachDeadMerge);
    case LoopMerge(m, k) =>
      ReleaseLaid(g, s, i, k, ReachDeadContinue);
      var s1 := Released(g, s, h, k, ReachDeadContinue);
      assert g.Keys - s1.visited <= g.Keys - s.visited;
      assert s1.log[i] == s.log[i];
      ReleaseLaid(g, s1, i, m, ReachDeadMerge);
      ReleaseGrows(s1.log, AllReleased(g, s, h).log, h, k, ReachDeadContinue, |s.log|, |s1.log|);
  }

  /** The entry made first by a visit, once the visit is over. */
  lemma EntryLaid(g: Graph, mid: seq<Callback>, log: seq<Callback>, i: nat, ends: seq<nat>, end: nat)
    requires i < |mid| && mid <= log && mid[i].block in g && AllLaid(g, log, i + 1)
    requires ends != [] && ends[|ends| - 1] == |mid|
    requires if IsFlow(mid, i) then SomeTurns(g, mid, i, ends) && |ends| == |g[mid[i].block].successors| + 1
             else ends == [i + 1]
    requires Releases(g, log, mid[i].block, |mid|, end)
    ensures AllLaid(g, log, i)
  {
    hide Turn, Releases;
    if IsFlow(mid, i) {
      TurnsGrow(g, mid, log, i, ends);
    }
    assert Laid(g, log, i, ends, end);
  }

  // ---------- the theorems ----------

  /** The traversal is depth first: after each callback come the visits of the block's successors in their order, and
      then of its continue and its merge block. */
  lemma TraversalIsLaid(g: Graph, root: BlockId)
    requires Closed(g) && root in g
    ensures var log := ReadableOrderOf(g, root); forall i: nat | i < |log| :: IsLaid(g, log, i)
  {
    hide Visited;
    VisitLaid(g, State({}, {}, {}, []), root, ReachViaControlFlow, NoBlock);
  }

  /** In particular a first successor that is free is called back next. */
  lemma FreeSuccessorIsNext(g: Graph, root: BlockId, i: nat)
    requires Closed(g) && root in g
    requires var log := ReadableOrderOf(g, root);
             && i < |log| && IsFlow(log, i) && log[i].block in g && g[log[i].block].successors != []
             && Free(g, log[..i + 1], g[log[i].block].successors[0])
    ensures var log := ReadableOrderOf(g, root);
      i + 1 < |log| && log[i + 1] == Callback(g[log[i].block].successors[0], ReachViaControlFlow, NoBlock)
  {
    hide ReadableOrderOf, Free, Releases;
    TraversalIsLaid(g, root);
    var log := ReadableOrderOf(g, root);
    assert IsLaid(g, log, i);
    var ends, end :| Laid(g, log, i, ends, end);
    assert Turn(g, log, g[log[i].block].successors[0], ends[0], ends[0 + 1]);
  }
}
