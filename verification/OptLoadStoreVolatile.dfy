/** Volatile accesses as events: what of them the load/store optimization keeps, along every run. */
module OptLoadStoreVolatile {
  import opened Spirv
  import opened OptLoadStore
  import opened OptLoadStoreMeaning
  import opened OptLoadStoreCorrect
  import opened OptLoadStoreTheorem

  predicate IsVolatile(inst: Inst) {
    || (inst.op == 61 && |inst.operands| > 1 && inst.operands[1].Word() % 2 == 1)
    || (inst.op == 62 && |inst.operands| > 2 && inst.operands[2].Word() % 2 == 1)
  }

  /** Memory-access words are literals. */
  ghost predicate MasksAreLiterals(p: seq<Inst>) {
    forall q | 0 <= q < |p| :: MaskIsLiteral(p[q])
  }

  predicate MaskIsLiteral(inst: Inst) {
    && (inst.op == 61 && |inst.operands| > 1 ==> inst.operands[1].Literal?)
    && (inst.op == 62 && |inst.operands| > 2 ==> inst.operands[2].Literal?)
  }

  /** What is seen of a volatile access: the instruction but for the numbers of its ids, what it reads in its operands,
      and the world and the value that it leaves behind. */
  datatype Event = Event(access: Inst, operands: seq<Value>, world: World, loaded: Value)

  function EventOf(mc: Machine, priv: set<Id>, s: State, inst: Inst): Event {
    var t := Step(mc, priv, s, inst);
    Event(Skeleton(inst), Reads(mc, s.env, inst.operands), t.world, Lookup(mc, t.env, inst.resultId))
  }

  /** The volatile accesses of a run, in order. */
  function Events(mc: Machine, priv: set<Id>, p: seq<Inst>, start: State, run: seq<nat>): seq<Event>
    requires forall k | 0 <= k < |run| :: run[k] < |p|
  {
    if run == [] then []
    else
      var before, inst := run[..|run| - 1], p[run[|run| - 1]];
      Events(mc, priv, p, start, before)
      + if IsVolatile(inst) then [EventOf(mc, priv, Run(mc, priv, p, start, before), inst)] else []
  }

  /** A volatile store through one of `vars`. */
  predicate IsLostStore(inst: Inst, vars: set<Id>) {
    IsVolatile(inst) && inst.op == 62 && inst.operands[0].IdRef? && inst.operands[0].id in vars
  }

  /** The volatile accesses of a run other than stores through `vars`. */
  function EventsBut(mc: Machine, priv: set<Id>, p: seq<Inst>, vars: set<Id>, start: State, run: seq<nat>): seq<Event>
    requires forall k | 0 <= k < |run| :: run[k] < |p|
  {
    if run == [] then []
    else
      var before, inst := run[..|run| - 1], p[run[|run| - 1]];
      EventsBut(mc, priv, p, vars, start, before)
      + if IsVolatile(inst) && !IsLostStore(inst, vars) then
          [EventOf(mc, priv, Run(mc, priv, p, start, before), inst)]
        else []
  }

  ghost predicate LosesNone(p: seq<Inst>, vars: set<Id>, run: seq<nat>)
    requires forall k | 0 <= k < |run| :: run[k] < |p|
  {
    forall k | 0 <= k < |run| :: !IsLostStore(p[run[k]], vars)
  }

  lemma {:induction false} EventsLost(mc: Machine, priv: set<Id>, p: seq<Inst>, vars: set<Id>, start: State,
                                      run: seq<nat>)
    requires forall k | 0 <= k < |run| :: run[k] < |p|
    ensures var all, kept := Events(mc, priv, p, start, run), EventsBut(mc, priv, p, vars, start, run);
      && |kept| <= |all|
      && (|kept| == |all| <==> LosesNone(p, vars, run))
      && (LosesNone(p, vars, run) ==> kept == all)
    decreases |run|
  {
    hide EventOf, IsVolatile, IsLostStore;
    if run != [] {
      var before, i := SplitLast(run);
      EventsLost(mc, priv, p, vars, start, before);
      assert LosesNone(p, vars, run) <==> LosesNone(p, vars, before) && !IsLostStore(p[i], vars);
      assert IsLostStore(p[i], vars) ==> IsVolatile(p[i]) by { LostIsVolatile(p[i], vars); }
    }
  }

  lemma LostIsVolatile(inst: Inst, vars: set<Id>)
    ensures IsLostStore(inst, vars) ==> IsVolatile(inst)
  {
  }

  /** Of the volatile accesses, the pass removes the stores to candidates. */
  lemma RemovedVolatile(p: seq<Inst>, vars: set<Id>, stored: map<Id, Id>, i: nat)
    requires WellFormed(p) && OperandsDefinedFirst(p) && Analysed(p, vars, stored) && i < |p| && IsVolatile(p[i])
    ensures IsRemoved(p[i], vars) <==> IsLostStore(p[i], vars)
  {
    if p[i].op == 61 {
      VolatileLoadsStay(p, vars, stored, i);
    }
  }

  lemma VolatileRenamed(p: seq<Inst>, idMap: map<Id, Id>, i: nat)
    requires MasksAreLiterals(p) && i < |p|
    ensures IsVolatile(Rename(idMap, p[i])) <==> IsVolatile(p[i])
  {
    assert MaskIsLiteral(p[i]);
    var r := Rename(idMap, p[i]);
    assert forall k | 0 <= k < |r.operands| :: r.operands[k] == RenameOperand(idMap, p[i].operands[k]);
  }

  lemma SameEvent(mc: Machine, p: seq<Inst>, f: nat, priv: set<Id>, vars: set<Id>, stored: map<Id, Id>,
                  links: map<Id, Id>, idMap: map<Id, Id>, r: seq<Inst>, start: State, before: seq<nat>, i: nat)
    requires Setting(p, f, priv, vars, stored, links, idMap) && IsOptimized(p, vars, stored, links, idMap, r)
    requires EndsAt(p, f, before + [i], i) && before != [] && start.block == 0 && !IsRemoved(p[i], vars)
             && p[i].op != OP_PHI
    ensures IsRun(p, f, before) && IsRun(r, NewIndex(Removed(p, vars), f), Shrink(Removed(p, vars), before))
    ensures var marks := Removed(p, vars);
      var s, t := Run(mc, priv, p, start, before), Run(mc, priv, r, start, Shrink(marks, before));
      NewIndex(marks, i) < |r| && EventOf(mc, priv, s, p[i]) == EventOf(mc, priv, t, r[NewIndex(marks, i)])
  {
    hide Setting, IsOptimized, EndsAt, IsRun, Run, Reads, Skeleton, IsRemoved, Removed, Compact;
    var marks := Removed(p, vars);
    SurvivorReadsAlike(mc, p, f, priv, vars, stored, links, idMap, r, start, before, i);
    RunOfOne(p, f, before, i);
    OptimizedRunAgrees(mc, p, f, priv, vars, stored, links, idMap, r, start, before + [i]);
    RunStep(mc, priv, p, start, before, i);
    ShrinkStep(marks, before, i);
    StaysUnmarked(p, vars, i);
    ShrunkBounds(p, f, priv, vars, stored, links, idMap, r, before);
    RunStep(mc, priv, r, start, Shrink(marks, before), NewIndex(marks, i));
    ResultStays(p, f, priv, vars, stored, links, idMap, r, i);
  }

  lemma RunOfOne(p: seq<Inst>, f: nat, before: seq<nat>, i: nat)
    requires EndsAt(p, f, before + [i], i)
    ensures IsRun(p, f, before + [i]) && i < |p| && forall k | 0 <= k < |before| :: before[k] < |p|
  {
    assert forall k | 0 <= k < |before| :: before[k] == (before + [i])[k];
    assert (before + [i])[|before|] == i;
  }

  lemma StaysUnmarked(p: seq<Inst>, vars: set<Id>, i: nat)
    requires i < |p|
    ensures i in Removed(p, vars) <==> IsRemoved(p[i], vars)
  {
  }

  lemma ShrunkBounds(p: seq<Inst>, f: nat, priv: set<Id>, vars: set<Id>, stored: map<Id, Id>, links: map<Id, Id>,
                     idMap: map<Id, Id>, r: seq<Inst>, run: seq<nat>)
    requires Setting(p, f, priv, vars, stored, links, idMap) && IsOptimized(p, vars, stored, links, idMap, r)
    requires IsRun(p, f, run)
    ensures var shrunk := Shrink(Removed(p, vars), run); forall k | 0 <= k < |shrunk| :: shrunk[k] < |r|
  {
    RunShrinks(p, f, priv, vars, stored, links, idMap, r, run);
  }

  lemma ResultStays(p: seq<Inst>, f: nat, priv: set<Id>, vars: set<Id>, stored: map<Id, Id>, links: map<Id, Id>,
                    idMap: map<Id, Id>, r: seq<Inst>, i: nat)
    requires Setting(p, f, priv, vars, stored, links, idMap) && IsOptimized(p, vars, stored, links, idMap, r)
    requires i < |p| && !IsRemoved(p[i], vars)
    ensures NewIndex(Removed(p, vars), i) < |r| && r[NewIndex(Removed(p, vars), i)] == Rename(idMap, p[i])
    ensures Rename(idMap, p[i]).resultId == p[i].resultId && p[i].resultId !in idMap
  {
    KeptFacts(p, f, priv, vars, stored, links, idMap, i);
    Survivor(p, vars, idMap, r, i);
  }

  /**
   * The volatile accesses of the optimized function are, along every run, those of the original one in the same order,
   * each with the same operand values, the same loaded value and the same world, but for the stores to candidates.
   */
  lemma {:induction false} VolatileEvents(mc: Machine, p: seq<Inst>, f: nat, priv: set<Id>, vars: set<Id>,
                                          stored: map<Id, Id>, links: map<Id, Id>, idMap: map<Id, Id>, r: seq<Inst>,
                                          start: State, run: seq<nat>)
    requires Setting(p, f, priv, vars, stored, links, idMap) && IsOptimized(p, vars, stored, links, idMap, r)
    requires MasksAreLiterals(p) && IsRun(p, f, run) && start.block == 0
    ensures IsRun(r, NewIndex(Removed(p, vars), f), Shrink(Removed(p, vars), run))
    ensures Events(mc, priv, r, start, Shrink(Removed(p, vars), run)) == EventsBut(mc, priv, p, vars, start, run)
    decreases |run|
  {
    hide Setting, IsOptimized, IsRun, Run, IsRemoved, Removed, EventOf, MasksAreLiterals, IsVolatile, IsLostStore;
    var marks := Removed(p, vars);
    RunNonEmpty(p, f, run);
    var before, i := SplitLast(run);
    OptimizedRunAgrees(mc, p, f, priv, vars, stored, links, idMap, r, start, run);
    RunMayFollow(p, f, run);
    ShrinkStep(marks, before, i);
    StaysUnmarked(p, vars, i);
    OneVolatile(p, f, priv, vars, stored, links, idMap, r, before, i);
    if before != [] {
      VolatileEvents(mc, p, f, priv, vars, stored, links, idMap, r, start, before);
      if IsVolatile(p[i]) && !IsRemoved(p[i], vars) {
        RunIsLong(p, f, run, before, i);
        SameEvent(mc, p, f, priv, vars, stored, links, idMap, r, start, before, i);
      }
      ShrunkBounds(p, f, priv, vars, stored, links, idMap, r, before);
      if !IsRemoved(p[i], vars) {
        EventsStep(mc, priv, r, start, Shrink(marks, before), NewIndex(marks, i));
      }
    }
  }

  lemma RunNonEmpty(p: seq<Inst>, f: nat, run: seq<nat>)
    requires IsRun(p, f, run)
    ensures |run| > 0
  {
  }

  lemma RunIsLong(p: seq<Inst>, f: nat, run: seq<nat>, before: seq<nat>, i: nat)
    requires IsRun(p, f, run) && run == before + [i]
    ensures EndsAt(p, f, before + [i], i)
  {
  }

  lemma EventsStep(mc: Machine, priv: set<Id>, p: seq<Inst>, start: State, run: seq<nat>, i: nat)
    requires (forall k | 0 <= k < |run| :: run[k] < |p|) && i < |p|
    ensures Events(mc, priv, p, start, run + [i]) == Events(mc, priv, p, start, run)
            + if IsVolatile(p[i]) then [EventOf(mc, priv, Run(mc, priv, p, start, run), p[i])] else []
  {
    assert (run + [i])[..|run + [i]| - 1] == run;
  }

  /** An instruction is removed and volatile exactly if it is a lost store, and stays volatile otherwise. */
  lemma OneVolatile(p: seq<Inst>, f: nat, priv: set<Id>, vars: set<Id>, stored: map<Id, Id>, links: map<Id, Id>,
                    idMap: map<Id, Id>, r: seq<Inst>, before: seq<nat>, i: nat)
    requires Setting(p, f, priv, vars, stored, links, idMap) && IsOptimized(p, vars, stored, links, idMap, r)
    requires MasksAreLiterals(p) && i < |p| && MayFollow(p, f, before, i)
    ensures IsVolatile(p[i]) ==> (IsRemoved(p[i], vars) <==> IsLostStore(p[i], vars))
    ensures IsVolatile(p[i]) ==> p[i].op != OP_PHI
    ensures before == [] ==> !IsVolatile(p[i]) && !IsRemoved(p[i], vars)
    ensures !IsRemoved(p[i], vars) ==>
            && NewIndex(Removed(p, vars), i) < |r|
            && (IsVolatile(r[NewIndex(Removed(p, vars), i)]) <==> IsVolatile(p[i]))
  {
    hide IsOptimized, Descends, IsLinks, Analysed, PointersAreNotValues, Ssa, Typed, UniqueResults;
    if IsVolatile(p[i]) {
      RemovedVolatile(p, vars, stored, i);
    }
    if !IsRemoved(p[i], vars) {
      ResultStays(p, f, priv, vars, stored, links, idMap, r, i);
      VolatileRenamed(p, idMap, i);
    }
  }

  /**
   * The optimization keeps the volatile accesses of a run, all of them, if and only if the run passes no volatile store
   * to a variable that the pass removes.
   */
  lemma VolatileKeptIff(mc: Machine, p: seq<Inst>, f: nat, priv: set<Id>, vars: set<Id>, stored: map<Id, Id>,
                        links: map<Id, Id>, idMap: map<Id, Id>, r: seq<Inst>, start: State, run: seq<nat>)
    requires Setting(p, f, priv, vars, stored, links, idMap) && IsOptimized(p, vars, stored, links, idMap, r)
    requires MasksAreLiterals(p) && IsRun(p, f, run) && start.block == 0
    ensures IsRun(r, NewIndex(Removed(p, vars), f), Shrink(Removed(p, vars), run))
    ensures Events(mc, priv, r, start, Shrink(Removed(p, vars), run)) == Events(mc, priv, p, start, run)
            <==> forall k | 0 <= k < |run| && p[run[k]].op == 62 && |p[run[k]].operands| > 2
                     && p[run[k]].operands[2].Word() % 2 == 1 :: !IsRemoved(p[run[k]], vars)
  {
    VolatileEvents(mc, p, f, priv, vars, stored, links, idMap, r, start, run);
    EventsLost(mc, priv, p, vars, start, run);
    forall k | 0 <= k < |run|
      ensures IsLostStore(p[run[k]], vars) <==> IsVolatile(p[run[k]]) && IsRemoved(p[run[k]], vars)
      ensures IsVolatile(p[run[k]]) && p[run[k]].op == 61 ==> !IsRemoved(p[run[k]], vars)
    {
      if IsVolatile(p[run[k]]) {
        RemovedVolatile(p, vars, stored, run[k]);
      }
    }
  }
}
