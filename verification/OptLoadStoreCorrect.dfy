/** The load/store optimization preserves every execution. */
module OptLoadStoreCorrect {
  import opened Spirv
  import opened OptLoadStore
  import opened OptLoadStoreMeaning

  // ---------- the ids that disappear ----------

  /** An id that is replaced is a candidate or the result of one of its loads. */
  lemma ReplacedIs(p: seq<Inst>, f: nat, priv: set<Id>, vars: set<Id>, stored: map<Id, Id>, links: map<Id, Id>,
                   idMap: map<Id, Id>, x: Id)
    returns (q: nat)
    requires Setting(p, f, priv, vars, stored, links, idMap) && x in idMap && x !in vars
    ensures q < |p| && IsRemovedLoad(p[q], vars) && Defines(p[q], x) && p[q].resultId == x
    ensures p[q].operands[0].id in stored && links[x] == stored[p[q].operands[0].id]
  {
    var blocks :| Tracked(p, |p|, vars, stored, blocks);
    assert x !in stored;
    q :| 0 <= q < |p| && IsRemovedLoad(p[q], vars) && p[q].resultId == x;
    assert HasArity(p[q]);
  }

  /** Labels and function variables that stay are not replaced, and nothing is replaced by them. */
  lemma DefinedOtherwise(p: seq<Inst>, f: nat, priv: set<Id>, vars: set<Id>, stored: map<Id, Id>, links: map<Id, Id>,
                         idMap: map<Id, Id>, d: nat)
    requires Setting(p, f, priv, vars, stored, links, idMap) && d < |p|
    requires !IsRemoved(p[d], vars)
    ensures p[d].resultId != 0 ==> p[d].resultId !in idMap
    ensures p[d].typeId !in idMap
  {
    forall x <- idMap ensures (p[d].resultId != 0 ==> p[d].resultId != x) && p[d].typeId != x {
      if x in vars {
        var d' := CandidateDeclared(p, vars, stored, x);
        assert IsPointerUse(p[d], x);
      } else {
        var q := ReplacedIs(p, f, priv, vars, stored, links, idMap, x);
      }
    }
  }

  /** What a chain ends in is a stored value. */
  lemma {:induction false} RootIsStored(p: seq<Inst>, f: nat, priv: set<Id>, vars: set<Id>, stored: map<Id, Id>,
                                        links: map<Id, Id>, idMap: map<Id, Id>, x: Id) returns (v: Id)
    requires Setting(p, f, priv, vars, stored, links, idMap) && x in links
    ensures v in stored && Root(p, vars, links, x) == stored[v]
    decreases Rank(p, vars, x)
  {
    var y := links[x];
    if x in vars {
      v := x;
      forall q | 0 <= q < |p| && IsRemovedLoad(p[q], vars) ensures p[q].resultId != x {
        RemovedLoadRank(p, vars, stored, q);
      }
    } else {
      var q := ReplacedIs(p, f, priv, vars, stored, links, idMap, x);
      v := p[q].operands[0].id;
    }
    if y in links {
      v := RootIsStored(p, f, priv, vars, stored, links, idMap, y);
    }
  }

  // ---------- the value of a chain ----------

  lemma LoadDominatedByStore(p: seq<Inst>, f: nat, st: nat, l: nat)
    requires f < |p| && p[f].op == OP_FUNCTION && st < l < |p| && BlockNo(p, st) == BlockNo(p, l)
             && !IsFlowCtrl(p[l].op)
    ensures Dominates(p, f, st, l)
  {
    forall run | EndsAt(p, f, run, l) ensures st in run {
      StraightLine(p, f, run, st, l, l - st);
    }
  }

  /** At the end of a run that a removed load dominates, its result equals the end of its chain. */
  lemma {:induction false} ChainValue(mc: Machine, p: seq<Inst>, f: nat, priv: set<Id>, vars: set<Id>,
                                      stored: map<Id, Id>, links: map<Id, Id>, idMap: map<Id, Id>, start: State,
                                      run: seq<nat>, i: nat, x: Id, l: nat)
    requires Setting(p, f, priv, vars, stored, links, idMap) && EndsAt(p, f, run, i)
    requires x in links && x !in vars && l < |p| && Defines(p[l], x) && Dominates(p, f, l, i)
    ensures var s := Run(mc, priv, p, start, run); Lookup(mc, s.env, x) == Lookup(mc, s.env, Root(p, vars, links, x))
    decreases Rank(p, vars, x)
  {
    hide WellFormed, OperandsDefinedFirst, Typed, Ssa, Analysed, IsLinks, IsRun, Run, Dominates, Available;
    var q := ReplacedIs(p, f, priv, vars, stored, links, idMap, x);
    OneDefinition(p, x, q, l);
    var v := p[l].operands[0].id;
    var s := stored[v];
    var d, st := LoadHasStore(p, vars, stored, v, l);
    LoadDominatedByStore(p, f, st, l);
    DominatesTransitive(p, f, st, l, i);
    StoredAvailable(p, f, run, i, v, stored, st);
    var at := LoadedSinceStored(p, f, vars, stored, run, i, v, st, l);
    LoadedValue(mc, p, f, priv, vars, stored, start, run, v, l, at);
    if s in links {
      StoredIsNoVariable(p, vars, stored, v);
      var l' := ReplacedIs(p, f, priv, vars, stored, links, idMap, s);
      AvailableLoad(p, f, s, st, l');
      DominatesTransitive(p, f, l', st, i);
      LinksDescend(p, vars, stored, links);
      ChainValue(mc, p, f, priv, vars, stored, links, idMap, start, run, i, s, l');
    }
  }

  lemma OneDefinition(p: seq<Inst>, x: Id, a: nat, b: nat)
    requires WellFormed(p) && a < |p| && b < |p| && Defines(p[a], x) && Defines(p[b], x)
    ensures a == b
  {
  }

  lemma AvailableLoad(p: seq<Inst>, f: nat, x: Id, i: nat, l: nat)
    requires Available(p, f, x, i) && l < |p| && Defines(p[l], x) && p[l].op == OP_LOAD
    ensures Dominates(p, f, l, i) && l != i
  {
  }

  /** The stored id is available at the store. */
  lemma StoredAvailable(p: seq<Inst>, f: nat, run: seq<nat>, i: nat, v: Id, stored: map<Id, Id>, st: nat)
    requires Ssa(p, f) && EndsAt(p, f, run, i) && Dominates(p, f, st, i)
    requires st < |p| && v in stored && StoresTo(p[st], v) && OperandIs(p[st], 1, stored[v])
    ensures Available(p, f, stored[v], st)
  {
    var k :| 0 <= k < |run| && run[k] == st;
    RunPrefix(p, f, run, k + 1);
    assert Reaches(p, f, st) && UsesOperand(p[st], stored[v]);
  }

  /** Since the last execution of the load, the stored id has not been computed anew. */
  lemma LoadedSinceStored(p: seq<Inst>, f: nat, vars: set<Id>, stored: map<Id, Id>, run: seq<nat>, i: nat, v: Id,
                          st: nat, l: nat)
    returns (at: nat)
    requires WellFormed(p) && OperandsDefinedFirst(p) && st < l < |p| && Dominates(p, f, st, l)
    requires v in stored && StoresTo(p[st], v) && OperandIs(p[st], 1, stored[v]) && Available(p, f, stored[v], st)
    requires EndsAt(p, f, run, i) && Dominates(p, f, l, i)
    ensures at < |run| && run[at] == l && forall k | at < k < |run| :: !Defines(p[run[k]], stored[v])
  {
    if d: nat :| d < |p| && Defines(p[d], stored[v]) && Reaches(p, f, d) {
      DominatesTransitive(p, f, d, st, l);
      StoredNotRedefined(p, vars, stored, v, st, l);
      at := LoadedSince(p, f, run, i, d, l);
    } else {
      at := LastIndex(run, l);
      forall k | at < k < |run| ensures !Defines(p[run[k]], stored[v]) {
        RunPrefix(p, f, run, k + 1);
        assert Reaches(p, f, run[k]);
      }
    }
  }

  // ---------- the simulation ----------

  /** The optimized function on the same path: removed instructions do nothing, the others are renamed. */
  function RunOptimized(mc: Machine, priv: set<Id>, vars: set<Id>, idMap: map<Id, Id>, p: seq<Inst>, start: State,
                        run: seq<nat>): State
    requires forall k | 0 <= k < |run| :: run[k] < |p|
  {
    if run == [] then start
    else
      var s := RunOptimized(mc, priv, vars, idMap, p, start, run[..|run| - 1]);
      var inst := p[run[|run| - 1]];
      if IsRemoved(inst, vars) then s else Step(mc, priv, s, Rename(idMap, inst))
  }

  lemma RunOptimizedStep(mc: Machine, priv: set<Id>, vars: set<Id>, idMap: map<Id, Id>, p: seq<Inst>, start: State,
                         run: seq<nat>, i: nat)
    requires (forall k | 0 <= k < |run| :: run[k] < |p|) && i < |p|
    ensures var s := RunOptimized(mc, priv, vars, idMap, p, start, run);
      RunOptimized(mc, priv, vars, idMap, p, start, run + [i]) ==
          if IsRemoved(p[i], vars) then s else Step(mc, priv, s, Rename(idMap, p[i]))
  {
    assert (run + [i])[..|run + [i]| - 1] == run;
  }

  /** The states agree on everything but the ids and cells that have disappeared. */
  ghost predicate Agree(mc: Machine, vars: set<Id>, gone: set<Id>, s: State, t: State) {
    && s.world == t.world && s.block == t.block && s.pred == t.pred
    && SameOutside(mc, gone, s.env, t.env)
    && SameOutside(mc, gone, s.snapshot, t.snapshot)
    && SameOutside(mc, vars, s.cells, t.cells)
  }

  ghost predicate SameOutside(mc: Machine, gone: set<Id>, a: map<Id, Value>, b: map<Id, Value>) {
    forall x | x !in gone :: Lookup(mc, a, x) == Lookup(mc, b, x)
  }

  lemma SetBoth(mc: Machine, gone: set<Id>, a: map<Id, Value>, b: map<Id, Value>, x: Id, v: Value)
    requires SameOutside(mc, gone, a, b)
    ensures SameOutside(mc, gone, Set(a, x, v), Set(b, x, v)) && SameOutside(mc, gone, a[x := v], b[x := v])
  {
  }

  lemma SetGone(mc: Machine, gone: set<Id>, a: map<Id, Value>, b: map<Id, Value>, x: Id, v: Value)
    requires SameOutside(mc, gone, a, b) && x in gone
    ensures SameOutside(mc, gone, Set(a, x, v), b) && SameOutside(mc, gone, a[x := v], b)
  {
  }

  /** Every operand has the same value on both sides. */
  ghost predicate SameReads(mc: Machine, idMap: map<Id, Id>, s: State, t: State, inst: Inst) {
    forall x | UsesOperand(inst, x) :: Lookup(mc, s.env, x) == Lookup(mc, t.env, RenameId(idMap, x))
  }

  ghost predicate SamePhi(mc: Machine, idMap: map<Id, Id>, s: State, t: State, inst: Inst) {
    PhiValue(mc, s, inst.operands) == PhiValue(mc, t, Rename(idMap, inst).operands)
  }

  /** A removed instruction only sets an id or a cell that has disappeared. */
  lemma RemovedStep(mc: Machine, priv: set<Id>, vars: set<Id>, gone: set<Id>, s: State, t: State, inst: Inst)
    requires IsRemoved(inst, vars) && HasArity(inst) && vars <= priv
    requires IsRemovedLoad(inst, vars) ==> inst.resultId in gone
    requires Agree(mc, vars, gone, s, t)
    ensures Agree(mc, vars, gone, Step(mc, priv, s, inst), t)
  {
    hide SameOutside;
    if IsRemovedLoad(inst, vars) {
      SetGone(mc, gone, s.env, t.env, inst.resultId, Lookup(mc, s.cells, inst.operands[0].id));
      assert PrivateLoad(priv, inst);
    } else if IsRemovedStore(inst, vars) {
      SetGone(mc, vars, s.cells, t.cells, inst.operands[0].id, Lookup(mc, s.env, inst.operands[1].id));
      assert PrivateStore(priv, inst);
    } else {
      assert PrivateDecl(priv, inst);
    }
  }

  /** The pass leaves this instruction where it is, and replaces nothing in it but operands that are
      neither private variables nor become ones. */
  ghost predicate Kept(priv: set<Id>, vars: set<Id>, idMap: map<Id, Id>, inst: Inst) {
    && !IsRemoved(inst, vars) && HasArity(inst) && vars <= priv && 0 !in idMap
    && inst.typeId !in idMap && inst.resultId !in idMap
    && (forall x | x in idMap :: idMap[x] !in priv)
    && (forall x | x in idMap && x in priv :: x in vars)
  }

  /** Renaming keeps the shape, and equal operands give equal effects. */
  lemma KeptStep(mc: Machine, priv: set<Id>, vars: set<Id>, idMap: map<Id, Id>, s: State, t: State, inst: Inst)
    requires Kept(priv, vars, idMap, inst) && Agree(mc, vars, idMap.Keys, s, t)
    requires inst.op != OP_PHI && inst.op != OP_LABEL ==> SameReads(mc, idMap, s, t, inst)
    requires inst.op == OP_PHI ==> SamePhi(mc, idMap, s, t, inst)
    ensures Agree(mc, vars, idMap.Keys, Step(mc, priv, s, inst), Step(mc, priv, t, Rename(idMap, inst)))
  {
    hide SameOutside, SamePhi, SameReads;
    var r := Rename(idMap, inst);
    if inst.op == OP_LABEL {
    } else if inst.op == OP_PHI {
      SetPhi(mc, vars, idMap, s, t, inst);
    } else {
      KeptKinds(priv, vars, idMap, inst);
      if PrivateLoad(priv, inst) {
        var v := inst.operands[0].id;
        CellOutside(mc, vars, s.cells, t.cells, v);
        SetBoth(mc, idMap.Keys, s.env, t.env, inst.resultId, Lookup(mc, s.cells, v));
      } else if PrivateStore(priv, inst) {
        OperandSame(mc, idMap, s, t, inst, 1);
        SetBoth(mc, vars, s.cells, t.cells, inst.operands[0].id, Lookup(mc, s.env, inst.operands[1].id));
      } else if !PrivateDecl(priv, inst) {
        RenamedReads(mc, idMap, s, t, inst);
        SetBoth(mc, idMap.Keys, s.env, t.env, inst.resultId,
                mc.value(Skeleton(inst), Reads(mc, s.env, inst.operands), s.world));
      }
    }
  }

  lemma SetPhi(mc: Machine, vars: set<Id>, idMap: map<Id, Id>, s: State, t: State, inst: Inst)
    requires SamePhi(mc, idMap, s, t, inst) && Agree(mc, vars, idMap.Keys, s, t)
    ensures SameOutside(mc, idMap.Keys, Set(s.env, inst.resultId, PhiValue(mc, s, inst.operands)),
                        Set(t.env, inst.resultId, PhiValue(mc, t, Rename(idMap, inst).operands)))
  {
    SetBoth(mc, idMap.Keys, s.env, t.env, inst.resultId, PhiValue(mc, s, inst.operands));
  }

  lemma CellOutside(mc: Machine, gone: set<Id>, a: map<Id, Value>, b: map<Id, Value>, v: Id)
    requires SameOutside(mc, gone, a, b) && v !in gone
    ensures Lookup(mc, a, v) == Lookup(mc, b, v)
  {
  }

  lemma OperandSame(mc: Machine, idMap: map<Id, Id>, s: State, t: State, inst: Inst, k: nat)
    requires SameReads(mc, idMap, s, t, inst) && k < |inst.operands| && inst.operands[k].IdRef?
    ensures Lookup(mc, s.env, inst.operands[k].id) == Lookup(mc, t.env, RenameId(idMap, inst.operands[k].id))
  {
    assert UsesOperand(inst, inst.operands[k].id);
  }

  /** A kept instruction accesses a private cell before renaming exactly if it does after, and the same one. */
  lemma KeptKinds(priv: set<Id>, vars: set<Id>, idMap: map<Id, Id>, inst: Inst)
    requires Kept(priv, vars, idMap, inst)
    ensures var r := Rename(idMap, inst);
      && (PrivateLoad(priv, inst) <==> PrivateLoad(priv, r)) && (PrivateStore(priv, inst) <==> PrivateStore(priv, r))
      && (PrivateDecl(priv, inst) <==> PrivateDecl(priv, r))
      && (PrivateLoad(priv, inst) || PrivateStore(priv, inst)
          ==> r.operands[0] == inst.operands[0] && inst.operands[0].id !in vars)
      && r.op == inst.op && r.resultId == inst.resultId && r.typeId == inst.typeId
  {
  }

  lemma RenamedReads(mc: Machine, idMap: map<Id, Id>, s: State, t: State, inst: Inst)
    requires SameReads(mc, idMap, s, t, inst) && inst.typeId !in idMap
    ensures Reads(mc, s.env, inst.operands) == Reads(mc, t.env, Rename(idMap, inst).operands)
    ensures Skeleton(inst) == Skeleton(Rename(idMap, inst))
  {
    forall k | 0 <= k < |inst.operands|
      ensures Reads(mc, s.env, inst.operands)[k] == Reads(mc, t.env, Rename(idMap, inst).operands)[k]
    {
      assert inst.operands[k].IdRef? ==> UsesOperand(inst, inst.operands[k].id);
    }
  }

  lemma UsedAfterDeclaration(p: seq<Inst>, f: nat, d: nat, v: Id, i: nat)
    requires Ssa(p, f) && d < |p| && IsLocalDecl(p[d], v) && i < |p| && UsesOperand(p[i], v) && Reaches(p, f, i)
    ensures d < i
  {
  }

  lemma RemovableUse(p: seq<Inst>, v: Id, d: nat, q: nat)
    requires v != 0 && d < q < |p| && Removable(p, v, d, |p|) && UsesOperand(p[q], v)
    ensures Accesses(p[q], v)
  {
    assert !Disqualifies(p, v, d, q);
  }

  /** An executed instruction that mentions a candidate is one of its loads and stores. */
  lemma VariableUseRemoved(p: seq<Inst>, f: nat, vars: set<Id>, stored: map<Id, Id>, i: nat, v: Id)
    requires WellFormed(p) && Analysed(p, vars, stored) && Ssa(p, f) && i < |p| && Reaches(p, f, i) && v in vars
    ensures UsesOperand(p[i], v) ==> IsRemoved(p[i], vars)
  {
    CandidatesExactly(p, vars, stored, v);
    var d :| 0 <= d < |p| && IsLocalDecl(p[d], v) && Removable(p, v, d, |p|);
    if UsesOperand(p[i], v) {
      hide Ssa, Removable;
      UsedAfterDeclaration(p, f, d, v, i);
      RemovableUse(p, v, d, i);
    }
  }

  /** The replacement of a removed load's result has its value, wherever the load dominates. */
  lemma ReplacementSame(mc: Machine, p: seq<Inst>, f: nat, priv: set<Id>, vars: set<Id>, stored: map<Id, Id>,
                        links: map<Id, Id>, idMap: map<Id, Id>, start: State, run: seq<nat>, u: nat, x: Id,
                        env: map<Id, Value>)
    requires Setting(p, f, priv, vars, stored, links, idMap) && EndsAt(p, f, run, u) && x !in vars
    requires SameOutside(mc, idMap.Keys, Run(mc, priv, p, start, run).env, env)
    requires x in idMap ==> forall l | 0 <= l < |p| && Defines(p[l], x) && p[l].op == OP_LOAD :: Dominates(p, f, l, u)
    ensures Lookup(mc, Run(mc, priv, p, start, run).env, x) == Lookup(mc, env, RenameId(idMap, x))
  {
    if x in idMap {
      var l := ReplacedIs(p, f, priv, vars, stored, links, idMap, x);
      ChainValue(mc, p, f, priv, vars, stored, links, idMap, start, run, u, x, l);
    }
  }

  /** Reading before executing `i`, which control reaches from the end of `before`. */
  lemma ReadsSame(mc: Machine, p: seq<Inst>, f: nat, priv: set<Id>, vars: set<Id>, stored: map<Id, Id>,
                  links: map<Id, Id>, idMap: map<Id, Id>, start: State, before: seq<nat>, u: nat, i: nat, t: State)
    requires Setting(p, f, priv, vars, stored, links, idMap) && EndsAt(p, f, before, u) && Next(p, u, i)
    requires !IsRemoved(p[i], vars) && p[i].op != OP_PHI
    requires Agree(mc, vars, idMap.Keys, Run(mc, priv, p, start, before), t)
    ensures SameReads(mc, idMap, Run(mc, priv, p, start, before), t, p[i])
  {
    RunExtend(p, f, before, i);
    assert Reaches(p, f, i);
    forall x | UsesOperand(p[i], x)
      ensures Lookup(mc, Run(mc, priv, p, start, before).env, x) == Lookup(mc, t.env, RenameId(idMap, x))
    {
      if x in vars {
        VariableUseRemoved(p, f, vars, stored, i, x);
      } else {
        forall l | x in idMap && 0 <= l < |p| && Defines(p[l], x) && p[l].op == OP_LOAD ensures Dominates(p, f, l, u) {
          LoadAvailable(p, f, i, x, l);
          DominatesPredecessor(p, f, l, u, i);
        }
        ReplacementSame(mc, p, f, priv, vars, stored, links, idMap, start, before, u, x, t.env);
      }
    }
  }

  lemma LoadAvailable(p: seq<Inst>, f: nat, i: nat, x: Id, l: nat)
    requires Ssa(p, f) && UniqueResults(p) && i < |p| && p[i].op != OP_PHI && UsesOperand(p[i], x) && Reaches(p, f, i)
    requires l < |p| && Defines(p[l], x) && p[l].op == OP_LOAD
    ensures l != i && Dominates(p, f, l, i)
  {
  }

  /** The first instruction of a function reads nothing that has been loaded. */
  lemma FirstReadsSame(mc: Machine, p: seq<Inst>, f: nat, priv: set<Id>, vars: set<Id>, stored: map<Id, Id>,
                       links: map<Id, Id>, idMap: map<Id, Id>, s: State)
    requires Setting(p, f, priv, vars, stored, links, idMap)
    ensures SameReads(mc, idMap, s, s, p[f])
  {
    assert EndsAt(p, f, [f], f);
    assert Reaches(p, f, f) && !IsRemoved(p[f], vars);
    forall x <- idMap ensures !UsesOperand(p[f], x) {
      hide Ssa, WellFormed, Analysed, IsLinks, Typed, OperandsDefinedFirst;
      if x in vars {
        VariableUseRemoved(p, f, vars, stored, f, x);
      } else {
        var l := ReplacedIs(p, f, priv, vars, stored, links, idMap, x);
        LoadNotUsedFirst(p, f, x, l);
      }
    }
  }

  lemma LoadNotUsedFirst(p: seq<Inst>, f: nat, x: Id, l: nat)
    requires Ssa(p, f) && WellFormed(p) && f < |p| && p[f].op == OP_FUNCTION && l < |p| && Defines(p[l], x)
             && p[l].op == OP_LOAD
    ensures !UsesOperand(p[f], x)
  {
    assert EndsAt(p, f, [f], f);
    assert Reaches(p, f, f);
    if UsesOperand(p[f], x) {
      LoadAvailable(p, f, f, x, l);
    }
  }

  lemma KeptFacts(p: seq<Inst>, f: nat, priv: set<Id>, vars: set<Id>, stored: map<Id, Id>, links: map<Id, Id>,
                  idMap: map<Id, Id>, i: nat)
    requires Setting(p, f, priv, vars, stored, links, idMap) && i < |p| && !IsRemoved(p[i], vars)
    ensures Kept(priv, vars, idMap, p[i])
  {
    DefinedOtherwise(p, f, priv, vars, stored, links, idMap, i);
    assert HasArity(p[i]);
    forall x | x in idMap ensures x != 0 && idMap[x] !in priv && (x in priv ==> x in vars) {
      var v := RootIsStored(p, f, priv, vars, stored, links, idMap, x);
      StoredIsNoLocal(p, vars, stored, v, priv);
      if x in vars {
        var d := CandidateDeclared(p, vars, stored, x);
      } else {
        var q := ReplacedIs(p, f, priv, vars, stored, links, idMap, x);
      }
    }
  }

  lemma StoredIsNoLocal(p: seq<Inst>, vars: set<Id>, stored: map<Id, Id>, v: Id, priv: set<Id>)
    requires WellFormed(p) && Analysed(p, vars, stored) && v in stored
    requires forall w <- priv :: exists d | 0 <= d < |p| :: IsLocalDecl(p[d], w)
    ensures stored[v] !in priv
  {
    var st := StoredIsStored(p, vars, stored, v);
    forall w <- priv ensures w != stored[v] {
      var d :| 0 <= d < |p| && IsLocalDecl(p[d], w);
      assert IsPointerUse(p[st], w);
    }
  }

  // ---------- phis ----------

  lemma StepBlock(mc: Machine, priv: set<Id>, s: State, inst: Inst)
    ensures var t := Step(mc, priv, s, inst);
      if inst.op == OP_LABEL then t.snapshot == s.env && t.block == inst.resultId && t.pred == s.block
      else t.snapshot == s.snapshot && t.block == s.block && t.pred == s.pred
  {
  }

  /** The snapshot was taken where the current block was entered. */
  lemma {:induction false} SnapshotTaken(mc: Machine, priv: set<Id>, p: seq<Inst>, start: State, run: seq<nat>)
    requires (forall k | 0 <= k < |run| :: run[k] < |p|) && start.block == 0
    ensures var s, e := Run(mc, priv, p, start, run), BlockEntry(p, run);
      && s.block == BlockOf(p, run)
      && (e < |run| ==> s.snapshot == Run(mc, priv, p, start, run[..e]).env && s.pred == BlockOf(p, run[..e]))
    decreases |run|
  {
    if run != [] {
      var before, i := SplitLast(run);
      RunStep(mc, priv, p, start, before, i);
      SnapshotTaken(mc, priv, p, start, before);
      StepBlock(mc, priv, Run(mc, priv, p, start, before), p[i]);
      hide Step, Run;
      var e := BlockEntry(p, run);
      if e < |before| {
        assert before[..e] == run[..e];
      }
    }
  }

  lemma {:induction false} PhiIndexRenamed(idMap: map<Id, Id>, inst: Inst, pred: Id, k: nat)
    requires pred !in idMap && forall x | x in idMap :: idMap[x] != pred
    ensures PhiIndex(Rename(idMap, inst).operands, pred, k) == PhiIndex(inst.operands, pred, k)
    decreases |inst.operands| - k
  {
    if k + 1 < |inst.operands| {
      var o := inst.operands[k + 1];
      assert Rename(idMap, inst).operands[k + 1] == RenameOperand(idMap, o);
      assert Rename(idMap, inst).operands[k] == RenameOperand(idMap, inst.operands[k]);
      PhiIndexRenamed(idMap, inst, pred, k + 2);
    }
  }

  /** Labels are neither replaced nor replacements. */
  lemma LabelsStay(p: seq<Inst>, f: nat, priv: set<Id>, vars: set<Id>, stored: map<Id, Id>, links: map<Id, Id>,
                   idMap: map<Id, Id>, run: seq<nat>)
    requires Setting(p, f, priv, vars, stored, links, idMap) && forall k | 0 <= k < |run| :: run[k] < |p|
    ensures BlockOf(p, run) !in idMap && forall x | x in idMap :: idMap[x] != BlockOf(p, run)
  {
    KeptFacts(p, f, priv, vars, stored, links, idMap, f);
    var e := BlockEntry(p, run);
    if e < |run| {
      KeptFacts(p, f, priv, vars, stored, links, idMap, run[e]);
    }
    forall x | x in idMap ensures idMap[x] != BlockOf(p, run) {
      var v := RootIsStored(p, f, priv, vars, stored, links, idMap, x);
      var st := StoredIsStored(p, vars, stored, v);
    }
  }

  /** Where the block of the phi at `i` was entered, and what is available there. */
  lemma PhiEntry(p: seq<Inst>, f: nat, before: seq<nat>, i: nat) returns (e: nat)
    requires Ssa(p, f) && IsRun(p, f, before) && EndsAt(p, f, before + [i], i) && p[i].op == OP_PHI
    ensures 0 < e < |before| && e == BlockEntry(p, before)
    ensures var k := PhiIndex(p[i].operands, BlockOf(p, before[..e]), 0);
      k < |p[i].operands| ==> Available(p, f, p[i].operands[k].id, before[e - 1])
  {
    var run := before + [i];
    assert PhiOk(p, f, run, i);
    assert run[..|run| - 1] == before;
    e := BlockEntry(p, run);
    assert run[..e] == before[..e];
  }

  lemma PhiSame(mc: Machine, p: seq<Inst>, f: nat, priv: set<Id>, vars: set<Id>, stored: map<Id, Id>,
                links: map<Id, Id>, idMap: map<Id, Id>, start: State, before: seq<nat>, u: nat, i: nat, t: State)
    requires Setting(p, f, priv, vars, stored, links, idMap) && EndsAt(p, f, before, u) && Next(p, u, i)
    requires p[i].op == OP_PHI && start.block == 0
    requires Agree(mc, vars, idMap.Keys, Run(mc, priv, p, start, before), t)
    ensures SamePhi(mc, idMap, Run(mc, priv, p, start, before), t, p[i])
  {
    RunExtend(p, f, before, i);
    var run := before + [i];
    assert Reaches(p, f, i);
    var e := PhiEntry(p, f, before, i);
    var entry := before[..e];
    RunBounds(p, f, before);
    hide IsRun, Ssa, WellFormed, OperandsDefinedFirst, Typed, Analysed, IsLinks, Run, BlockEntry, BlockOf, SameOutside,
         Available, Rename;
    SnapshotTaken(mc, priv, p, start, before);
    LabelsStay(p, f, priv, vars, stored, links, idMap, entry);
    var pred := BlockOf(p, entry);
    PhiIndexRenamed(idMap, p[i], pred, 0);
    var k := PhiIndex(p[i].operands, pred, 0);
    if k < |p[i].operands| {
      RunPrefix(p, f, before, e);
      SelectedSame(mc, p, f, priv, vars, stored, links, idMap, start, entry, before[e - 1], i, p[i].operands[k].id,
                   t.snapshot);
    }
    RenamedOperand(idMap, p[i], k);
  }

  lemma RenamedOperand(idMap: map<Id, Id>, inst: Inst, k: nat)
    ensures k < |inst.operands| && inst.operands[k].IdRef? ==>
              Rename(idMap, inst).operands[k] == IdRef(RenameId(idMap, inst.operands[k].id))
    ensures |Rename(idMap, inst).operands| == |inst.operands|
  {
  }

  /** A value that a phi at `i` takes from the end of the run `entry`. */
  lemma SelectedSame(mc: Machine, p: seq<Inst>, f: nat, priv: set<Id>, vars: set<Id>, stored: map<Id, Id>,
                     links: map<Id, Id>, idMap: map<Id, Id>, start: State, entry: seq<nat>, u: nat, i: nat, x: Id,
                     env: map<Id, Value>)
    requires Setting(p, f, priv, vars, stored, links, idMap) && EndsAt(p, f, entry, u)
    requires i < |p| && p[i].op == OP_PHI && UsesOperand(p[i], x) && Reaches(p, f, i) && Available(p, f, x, u)
    requires SameOutside(mc, idMap.Keys, Run(mc, priv, p, start, entry).env, env)
    ensures Lookup(mc, Run(mc, priv, p, start, entry).env, x) == Lookup(mc, env, RenameId(idMap, x))
  {
    hide IsRun, Ssa, WellFormed, OperandsDefinedFirst, Typed, Analysed, IsLinks, Run, SameOutside;
    if x in vars {
      VariableUseRemoved(p, f, vars, stored, i, x);
    }
    ReplacementSame(mc, p, f, priv, vars, stored, links, idMap, start, entry, u, x, env);
  }

  // ---------- the theorem on the original instruction positions ----------

  /** After any run, the optimized function is in the same state but for what has disappeared. */
  lemma {:induction false} Simulation(mc: Machine, p: seq<Inst>, f: nat, priv: set<Id>, vars: set<Id>,
                                      stored: map<Id, Id>, links: map<Id, Id>, idMap: map<Id, Id>, start: State,
                                      run: seq<nat>)
    requires Setting(p, f, priv, vars, stored, links, idMap) && IsRun(p, f, run) && start.block == 0
    ensures Agree(mc, vars, idMap.Keys, Run(mc, priv, p, start, run),
                  RunOptimized(mc, priv, vars, idMap, p, start, run))
    decreases |run|
  {
    var before, i := SplitLast(run);
    var s, t := Run(mc, priv, p, start, before), RunOptimized(mc, priv, vars, idMap, p, start, before);
    RunStep(mc, priv, p, start, before, i);
    RunOptimizedStep(mc, priv, vars, idMap, p, start, before, i);
    RunMayFollow(p, f, run);
    hide IsRun, Run, RunOptimized, Step, Setting, Agree;
    if before != [] {
      Simulation(mc, p, f, priv, vars, stored, links, idMap, start, before);
    }
    OneMore(mc, p, f, priv, vars, stored, links, idMap, start, before, i, t);
  }

  /** Whether `i` is the first instruction or may follow the run `before`. */
  ghost predicate MayFollow(p: seq<Inst>, f: nat, before: seq<nat>, i: nat) {
    if before == [] then i == f else IsRun(p, f, before) && Next(p, before[|before| - 1], i)
  }

  lemma RunMayFollow(p: seq<Inst>, f: nat, run: seq<nat>)
    requires IsRun(p, f, run)
    ensures var before := run[..|run| - 1];
      MayFollow(p, f, before, run[|run| - 1]) && run[|run| - 1] < |p| && (before != [] ==> IsRun(p, f, before))
  {
    if |run| > 1 {
      RunPrefix(p, f, run, |run| - 1);
      assert Next(p, run[|run| - 2], run[|run| - 2 + 1]);
    }
  }

  lemma AgreeSelf(mc: Machine, vars: set<Id>, gone: set<Id>, s: State)
    ensures Agree(mc, vars, gone, s, s)
  {
  }

  lemma OneMore(mc: Machine, p: seq<Inst>, f: nat, priv: set<Id>, vars: set<Id>, stored: map<Id, Id>,
      links: map<Id, Id>, idMap: map<Id, Id>, start: State, before: seq<nat>, i: nat, t: State)
    requires Setting(p, f, priv, vars, stored, links, idMap) && start.block == 0
    requires MayFollow(p, f, before, i) && i < |p| && forall k | 0 <= k < |before| :: before[k] < |p|
    requires var s := Run(mc, priv, p, start, before);
             if before == [] then s == t else Agree(mc, vars, idMap.Keys, s, t)
    ensures var s := Run(mc, priv, p, start, before);
      Agree(mc, vars, idMap.Keys, Step(mc, priv, s, p[i]),
            if IsRemoved(p[i], vars) then t else Step(mc, priv, t, Rename(idMap, p[i])))
    ensures !IsRemoved(p[i], vars) && p[i].op != OP_PHI
            ==> SameReads(mc, idMap, Run(mc, priv, p, start, before), t, p[i])
    ensures !IsRemoved(p[i], vars) && p[i].op == OP_PHI ==> SamePhi(mc, idMap, Run(mc, priv, p, start, before), t, p[i])
  {
    var s := Run(mc, priv, p, start, before);
    assert HasArity(p[i]);
    AgreeSelf(mc, vars, idMap.Keys, s);
    hide WellFormed, OperandsDefinedFirst, Typed, Ssa, Analysed, IsRun, Step, Run, Agree, SameReads, SamePhi, Kept;
    if IsRemoved(p[i], vars) {
      assert IsRemovedLoad(p[i], vars) ==> p[i].resultId in idMap.Keys;
      RemovedStep(mc, priv, vars, idMap.Keys, s, t, p[i]);
    } else {
      KeptFacts(p, f, priv, vars, stored, links, idMap, i);
      if before == [] {
        FirstReadsSame(mc, p, f, priv, vars, stored, links, idMap, s);
      } else if p[i].op == OP_PHI {
        PhiSame(mc, p, f, priv, vars, stored, links, idMap, start, before, before[|before| - 1], i, t);
      } else {
        ReadsSame(mc, p, f, priv, vars, stored, links, idMap, start, before, before[|before| - 1], i, t);
      }
      KeptStep(mc, priv, vars, idMap, s, t, p[i]);
    }
  }
}
