/** Executions of the optimized module itself. */
module OptLoadStoreTheorem {
  import opened Spirv
  import opened OptLoadStore
  import opened OptLoadStoreMeaning
  import opened OptLoadStoreCorrect

  /** The run without the removed instructions, at their new positions. */
  function Shrink(marks: set<nat>, run: seq<nat>): seq<nat> {
    if run == [] then []
    else if run[|run| - 1] in marks then Shrink(marks, run[..|run| - 1])
    else Shrink(marks, run[..|run| - 1]) + [NewIndex(marks, run[|run| - 1])]
  }

  lemma ShrinkStep(marks: set<nat>, run: seq<nat>, i: nat)
    ensures Shrink(marks, run + [i]) ==
            if i in marks then Shrink(marks, run) else Shrink(marks, run) + [NewIndex(marks, i)]
  {
    assert (run + [i])[..|run + [i]| - 1] == run;
  }

  /** A surviving instruction, renamed, at its new position. */
  lemma Survivor(p: seq<Inst>, vars: set<Id>, idMap: map<Id, Id>, r: seq<Inst>, i: nat)
    requires r == Compact(Renamed(idMap, p), Removed(p, vars)) && i < |p| && !IsRemoved(p[i], vars)
    ensures NewIndex(Removed(p, vars), i) < |r| && r[NewIndex(Removed(p, vars), i)] == Rename(idMap, p[i])
  {
    CompactAt(Renamed(idMap, p), Removed(p, vars), i);
  }

  predicate FallsThrough(inst: Inst) {
    !IsTerminator(inst.op) && inst.op != OP_FUNCTION_END
  }

  lemma RemovedFallsThrough(inst: Inst, vars: set<Id>)
    requires IsRemoved(inst, vars)
    ensures FallsThrough(inst) && inst.op != OP_LABEL && inst.op != OP_FUNCTION
  {
  }

  /** A branch and its label keep each other under renaming. */
  lemma BranchRenamed(p: seq<Inst>, f: nat, priv: set<Id>, vars: set<Id>, stored: map<Id, Id>, links: map<Id, Id>,
                      idMap: map<Id, Id>, a: nat, b: nat)
    requires Setting(p, f, priv, vars, stored, links, idMap) && a < |p| && b < |p| && p[b].op == OP_LABEL
    ensures Rename(idMap, p[b]).resultId == p[b].resultId
    ensures p[b].resultId != 0 ==> (UsesOperand(Rename(idMap, p[a]), p[b].resultId)
                                    <==> UsesOperand(p[a], p[b].resultId))
  {
    var x := p[b].resultId;
    KeptFacts(p, f, priv, vars, stored, links, idMap, b);
    assert BlockOf(p, [b]) == x;
    LabelsStay(p, f, priv, vars, stored, links, idMap, [b]);
    hide Setting, BlockOf, BlockEntry;
    UsesRenamed(idMap, p[a], x);
  }

  lemma UsesRenamed(idMap: map<Id, Id>, inst: Inst, x: Id)
    requires x !in idMap && forall y | y in idMap :: idMap[y] != x
    ensures UsesOperand(Rename(idMap, inst), x) <==> UsesOperand(inst, x)
  {
    var r := Rename(idMap, inst);
    if UsesOperand(inst, x) {
      var k :| 0 <= k < |inst.operands| && inst.operands[k] == IdRef(x);
      assert r.operands[k] == IdRef(x);
    }
    if UsesOperand(r, x) {
      var k :| 0 <= k < |r.operands| && r.operands[k] == IdRef(x);
      assert r.operands[k] == RenameOperand(idMap, inst.operands[k]);
      assert inst.operands[k] == IdRef(x);
    }
  }

  /** Where the shrunk run stands: at the surviving instruction itself, or just before the next one. */
  ghost predicate StandsAt(r: seq<Inst>, marks: set<nat>, shrunk: seq<nat>, i: nat) {
    && |shrunk| > 0 && shrunk[|shrunk| - 1] < |r|
    && if i in marks then shrunk[|shrunk| - 1] + 1 == NewIndex(marks, i) && FallsThrough(r[shrunk[|shrunk| - 1]])
       else shrunk[|shrunk| - 1] == NewIndex(marks, i)
  }

  /** Every run of the function is, shrunk, a run of the optimized function. */
  lemma {:induction false} RunShrinks(p: seq<Inst>, f: nat, priv: set<Id>, vars: set<Id>, stored: map<Id, Id>,
                                      links: map<Id, Id>, idMap: map<Id, Id>, r: seq<Inst>, run: seq<nat>)
    requires Setting(p, f, priv, vars, stored, links, idMap) && r == Compact(Renamed(idMap, p), Removed(p, vars))
    requires IsRun(p, f, run)
    ensures var marks := Removed(p, vars);
      && IsRun(r, NewIndex(marks, f), Shrink(marks, run))
      && StandsAt(r, marks, Shrink(marks, run), run[|run| - 1])
    decreases |run|
  {
    var marks := Removed(p, vars);
    var before, j := SplitLast(run);
    ShrinkStep(marks, before, j);
    RunMayFollow(p, f, run);
    if before == [] {
      assert !IsRemoved(p[f], vars);
      Survivor(p, vars, idMap, r, f);
    } else {
      RunShrinks(p, f, priv, vars, stored, links, idMap, r, before);
      NextShrinks(p, f, priv, vars, stored, links, idMap, r, Shrink(marks, before), before[|before| - 1], j);
      if j !in marks {
        RunExtend(r, NewIndex(marks, f), Shrink(marks, before), NewIndex(marks, j));
      }
    }
  }

  lemma NextShrinks(p: seq<Inst>, f: nat, priv: set<Id>, vars: set<Id>, stored: map<Id, Id>, links: map<Id, Id>,
                    idMap: map<Id, Id>, r: seq<Inst>, shrunk: seq<nat>, i: nat, j: nat)
    requires Setting(p, f, priv, vars, stored, links, idMap) && r == Compact(Renamed(idMap, p), Removed(p, vars))
    requires Next(p, i, j) && StandsAt(r, Removed(p, vars), shrunk, i)
    ensures var marks := Removed(p, vars);
      if j in marks then StandsAt(r, marks, shrunk, j)
      else Next(r, shrunk[|shrunk| - 1], NewIndex(marks, j)) && StandsAt(r, marks, shrunk + [NewIndex(marks, j)], j)
  {
    hide Setting;
    var marks := Removed(p, vars);
    if i !in marks {
      Survivor(p, vars, idMap, r, i);
    } else {
      RemovedFallsThrough(p[i], vars);
    }
    if j in marks {
      RemovedFallsThrough(p[j], vars);
    } else {
      Survivor(p, vars, idMap, r, j);
      if j != i + 1 || !FallsThrough(p[i]) {
        BranchRenamed(p, f, priv, vars, stored, links, idMap, i, j);
      }
    }
  }

  /** And the optimized function does on it what the renamed instructions do. */
  lemma {:induction false} ShrunkRunsAlike(mc: Machine, priv: set<Id>, vars: set<Id>, idMap: map<Id, Id>, p: seq<Inst>,
                                           r: seq<Inst>, start: State, run: seq<nat>)
    requires r == Compact(Renamed(idMap, p), Removed(p, vars)) && forall k | 0 <= k < |run| :: run[k] < |p|
    ensures var shrunk := Shrink(Removed(p, vars), run);
      && (forall k | 0 <= k < |shrunk| :: shrunk[k] < |r|)
      && Run(mc, priv, r, start, shrunk) == RunOptimized(mc, priv, vars, idMap, p, start, run)
    decreases |run|
  {
    if run != [] {
      var before, i := SplitLast(run);
      ShrunkRunsAlike(mc, priv, vars, idMap, p, r, start, before);
      ShrinkStep(Removed(p, vars), before, i);
      RunOptimizedStep(mc, priv, vars, idMap, p, start, before, i);
      if !IsRemoved(p[i], vars) {
        Survivor(p, vars, idMap, r, i);
        RunStep(mc, priv, r, start, Shrink(Removed(p, vars), before), NewIndex(Removed(p, vars), i));
      }
    }
  }

  /** Walks over removed instructions only. */
  lemma {:induction false} FallTo(p: seq<Inst>, f: nat, vars: set<Id>, run: seq<nat>, a: nat, b: nat)
    returns (longer: seq<nat>)
    requires EndsAt(p, f, run, a) && FallsThrough(p[a]) && a < b < |p|
    requires !IsRemoved(p[b], vars) && forall c: nat | a < c < b :: c in Removed(p, vars)
    ensures EndsAt(p, f, longer, b)
    ensures Shrink(Removed(p, vars), longer) == Shrink(Removed(p, vars), run) + [NewIndex(Removed(p, vars), b)]
    decreases b - a
  {
    RunExtend(p, f, run, a + 1);
    ShrinkStep(Removed(p, vars), run, a + 1);
    if a + 1 == b {
      longer := run + [b];
    } else {
      RemovedFallsThrough(p[a + 1], vars);
      longer := FallTo(p, f, vars, run + [a + 1], a + 1, b);
    }
  }

  lemma OnlyRemovedBetween(marks: set<nat>, a: nat, b: nat)
    requires a !in marks && b !in marks && NewIndex(marks, a) + 1 == NewIndex(marks, b)
    ensures a < b && forall c: nat | a < c < b :: c in marks
  {
    if b <= a {
      NewIndexMonotone(marks, b, a);
    }
    forall c: nat | a < c < b ensures c in marks {
      NewIndexMonotone(marks, a, c);
      NewIndexMonotone(marks, c, b);
    }
  }

  /** Conversely, the optimized function has no runs but these. */
  lemma {:induction false} RunExpands(p: seq<Inst>, f: nat, priv: set<Id>, vars: set<Id>, stored: map<Id, Id>,
                                      links: map<Id, Id>, idMap: map<Id, Id>, r: seq<Inst>, shrunk: seq<nat>)
    returns (run: seq<nat>)
    requires Setting(p, f, priv, vars, stored, links, idMap) && r == Compact(Renamed(idMap, p), Removed(p, vars))
    requires IsRun(r, NewIndex(Removed(p, vars), f), shrunk)
    ensures IsRun(p, f, run) && Shrink(Removed(p, vars), run) == shrunk && !IsRemoved(p[run[|run| - 1]], vars)
    decreases |shrunk|
  {
    hide Setting, Compact, Renamed, Removed, Next, Shrink, IsRemoved;
    var before, j' := SplitLast(shrunk);
    FunctionStays(p, f, priv, vars, stored, links, idMap);
    if before == [] {
      run := [f];
      RunStarts(p, f, Removed(p, vars));
    } else {
      RunMayFollow(r, NewIndex(Removed(p, vars), f), shrunk);
      var shorter := RunExpands(p, f, priv, vars, stored, links, idMap, r, before);
      run := RunExpandsOnce(p, f, priv, vars, stored, links, idMap, r, shorter, j');
    }
  }

  lemma RunStarts(p: seq<Inst>, f: nat, marks: set<nat>)
    requires f < |p| && f !in marks
    ensures IsRun(p, f, [f]) && Shrink(marks, [f]) == [NewIndex(marks, f)]
  {
    ShrinkStep(marks, [], f);
    assert [] + [f] == [f];
  }

  lemma FunctionStays(p: seq<Inst>, f: nat, priv: set<Id>, vars: set<Id>, stored: map<Id, Id>, links: map<Id, Id>,
                      idMap: map<Id, Id>)
    requires Setting(p, f, priv, vars, stored, links, idMap)
    ensures f < |p| && f !in Removed(p, vars) && !IsRemoved(p[f], vars)
  {
  }

  lemma RunExpandsOnce(p: seq<Inst>, f: nat, priv: set<Id>, vars: set<Id>, stored: map<Id, Id>, links: map<Id, Id>,
                       idMap: map<Id, Id>, r: seq<Inst>, shorter: seq<nat>, j: nat) returns (run: seq<nat>)
    requires Setting(p, f, priv, vars, stored, links, idMap) && r == Compact(Renamed(idMap, p), Removed(p, vars))
    requires IsRun(p, f, shorter) && !IsRemoved(p[shorter[|shorter| - 1]], vars)
    requires var before := Shrink(Removed(p, vars), shorter); |before| > 0 && Next(r, before[|before| - 1], j)
    ensures IsRun(p, f, run) && !IsRemoved(p[run[|run| - 1]], vars)
    ensures Shrink(Removed(p, vars), run) == Shrink(Removed(p, vars), shorter) + [j]
  {
    hide Setting, Next;
    var marks := Removed(p, vars);
    var front, a := SplitLast(shorter);
    ShrinkStep(marks, front, a);
    assert j < |r| by { NextInBounds(r, NewIndex(marks, a), j); }
    var b := CompactOrigin(Renamed(idMap, p), marks, j);
    run := StepExpands(p, f, priv, vars, stored, links, idMap, r, shorter, a, b);
  }

  lemma NextInBounds(p: seq<Inst>, i: nat, j: nat)
    requires Next(p, i, j)
    ensures i < |p| && j < |p|
  {
  }

  lemma StepExpands(p: seq<Inst>, f: nat, priv: set<Id>, vars: set<Id>, stored: map<Id, Id>, links: map<Id, Id>,
                    idMap: map<Id, Id>, r: seq<Inst>, run: seq<nat>, a: nat, b: nat) returns (longer: seq<nat>)
    requires Setting(p, f, priv, vars, stored, links, idMap) && r == Compact(Renamed(idMap, p), Removed(p, vars))
    requires EndsAt(p, f, run, a) && b < |p| && !IsRemoved(p[a], vars) && !IsRemoved(p[b], vars)
    requires Next(r, NewIndex(Removed(p, vars), a), NewIndex(Removed(p, vars), b))
    ensures EndsAt(p, f, longer, b)
    ensures Shrink(Removed(p, vars), longer) == Shrink(Removed(p, vars), run) + [NewIndex(Removed(p, vars), b)]
  {
    hide Setting;
    var marks := Removed(p, vars);
    Survivor(p, vars, idMap, r, a);
    Survivor(p, vars, idMap, r, b);
    if FallsThrough(p[a]) {
      if NewIndex(marks, b) == NewIndex(marks, a) + 1 {
        OnlyRemovedBetween(marks, a, b);
        longer := FallTo(p, f, vars, run, a, b);
        return;
      }
    }
    BranchRenamed(p, f, priv, vars, stored, links, idMap, a, b);
    RunExtend(p, f, run, b);
    ShrinkStep(marks, run, b);
    longer := run + [b];
  }

  // ---------- the theorems ----------

  /** The optimization preserves meaning: along every run, the optimized function takes the shrunk run
      and reaches the same world, the same values of all ids that remain and the same contents of all
      variables that remain. */
  lemma OptimizedRunAgrees(mc: Machine, p: seq<Inst>, f: nat, priv: set<Id>, vars: set<Id>, stored: map<Id, Id>,
                           links: map<Id, Id>, idMap: map<Id, Id>, r: seq<Inst>, start: State, run: seq<nat>)
    requires Setting(p, f, priv, vars, stored, links, idMap) && IsOptimized(p, vars, stored, links, idMap, r)
    requires IsRun(p, f, run) && start.block == 0
    ensures var marks := Removed(p, vars);
      && IsRun(r, NewIndex(marks, f), Shrink(marks, run))
      && Agree(mc, vars, idMap.Keys, Run(mc, priv, p, start, run), Run(mc, priv, r, start, Shrink(marks, run)))
  {
    RunShrinks(p, f, priv, vars, stored, links, idMap, r, run);
    Simulation(mc, p, f, priv, vars, stored, links, idMap, start, run);
    ShrunkRunsAlike(mc, priv, vars, idMap, p, r, start, run);
  }

  /** In particular, an instruction that survives is executed on the same operand values. */
  lemma SurvivorReadsAlike(mc: Machine, p: seq<Inst>, f: nat, priv: set<Id>, vars: set<Id>, stored: map<Id, Id>,
                           links: map<Id, Id>, idMap: map<Id, Id>, r: seq<Inst>, start: State, before: seq<nat>, i: nat)
    requires Setting(p, f, priv, vars, stored, links, idMap) && IsOptimized(p, vars, stored, links, idMap, r)
    requires EndsAt(p, f, before + [i], i) && before != [] && start.block == 0 && !IsRemoved(p[i], vars)
             && p[i].op != OP_PHI
    ensures IsRun(p, f, before) && IsRun(r, NewIndex(Removed(p, vars), f), Shrink(Removed(p, vars), before))
    ensures var marks := Removed(p, vars);
      var s, t := Run(mc, priv, p, start, before), Run(mc, priv, r, start, Shrink(marks, before));
      && NewIndex(marks, i) < |r|
      && Skeleton(p[i]) == Skeleton(r[NewIndex(marks, i)])
      && Reads(mc, s.env, p[i].operands) == Reads(mc, t.env, r[NewIndex(marks, i)].operands)
  {
    RunPrefix(p, f, before + [i], |before|);
    assert (before + [i])[..|before|] == before;
    RunMayFollow(p, f, before + [i]);
    OptimizedRunAgrees(mc, p, f, priv, vars, stored, links, idMap, r, start, before);
    var t := Run(mc, priv, r, start, Shrink(Removed(p, vars), before));
    ReadsSame(mc, p, f, priv, vars, stored, links, idMap, start, before, before[|before| - 1], i, t);
    KeptFacts(p, f, priv, vars, stored, links, idMap, i);
    RenamedReads(mc, idMap, Run(mc, priv, p, start, before), t, p[i]);
    Survivor(p, vars, idMap, r, i);
  }

  /** Every run of the optimized function comes from a run of the original one. */
  lemma NoNewRuns(p: seq<Inst>, f: nat, priv: set<Id>, vars: set<Id>, stored: map<Id, Id>, links: map<Id, Id>,
                  idMap: map<Id, Id>, r: seq<Inst>, shrunk: seq<nat>)
    requires Setting(p, f, priv, vars, stored, links, idMap) && IsOptimized(p, vars, stored, links, idMap, r)
    requires IsRun(r, NewIndex(Removed(p, vars), f), shrunk)
    ensures exists run :: IsRun(p, f, run) && Shrink(Removed(p, vars), run) == shrunk
  {
    var run := RunExpands(p, f, priv, vars, stored, links, idMap, r, shrunk);
  }
}
