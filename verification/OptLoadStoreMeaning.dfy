/** Executions of a function before and after the load/store optimization. */
module OptLoadStoreMeaning {
  import opened Spirv
  import opened OptLoadStore

  // ---------- runs ----------

  /** Control may go from instruction `i` to instruction `j`. */
  predicate Next(p: seq<Inst>, i: nat, j: nat) {
    && i < |p| && j < |p|
    && (|| (!IsTerminator(p[i].op) && p[i].op != OP_FUNCTION_END && j == i + 1)
        || ((p[i].op == OP_BRANCH || p[i].op == OP_BRANCH_CONDITIONAL || p[i].op == OP_SWITCH)
            && p[j].op == OP_LABEL && Defines(p[j], p[j].resultId) && UsesOperand(p[i], p[j].resultId)))
  }

  /** A run of the function at `f`: any sequence of instructions that control may take. */
  ghost predicate IsRun(p: seq<Inst>, f: nat, run: seq<nat>) {
    && |run| > 0 && run[0] == f
    && (forall k | 0 <= k < |run| :: run[k] < |p|)
    && (forall k | 0 <= k < |run| - 1 :: Next(p, run[k], run[k + 1]))
  }

  ghost predicate EndsAt(p: seq<Inst>, f: nat, run: seq<nat>, i: nat) {
    IsRun(p, f, run) && run[|run| - 1] == i
  }

  ghost predicate Reaches(p: seq<Inst>, f: nat, i: nat) {
    exists run :: EndsAt(p, f, run, i)
  }

  /** Every run that ends at `i` goes through `d`. */
  ghost predicate Dominates(p: seq<Inst>, f: nat, d: nat, i: nat) {
    forall run | EndsAt(p, f, run, i) :: d in run
  }

  // ---------- the abstract machine ----------

  type Value = int
  type World = int

  /** What instructions compute and do, given the values of their id operands and the state of the
      world; `constant` gives the ids that are defined outside the function. */
  datatype Machine = Machine(value: (Inst, seq<Value>, World) -> Value,
                             effect: (Inst, seq<Value>, World) -> World,
                             constant: Id -> Value)

  /** `snapshot` is the environment at the entry of `block`, entered from `pred`;
      `cells` are the contents of the private variables. */
  datatype State = State(env: map<Id, Value>, snapshot: map<Id, Value>, block: Id, pred: Id,
                         cells: map<Id, Value>, world: World)

  function Lookup(mc: Machine, env: map<Id, Value>, x: Id): Value {
    if x in env then env[x] else mc.constant(x)
  }

  function Reads(mc: Machine, env: map<Id, Value>, operands: seq<Operand>): seq<Value> {
    seq(|operands|, k requires 0 <= k < |operands| =>
      match operands[k] case IdRef(x) => Lookup(mc, env, x) case Literal(w) => w)
  }

  /** The instruction without the names of its ids: opcode, type and literals. */
  function Skeleton(inst: Inst): Inst {
    Inst(inst.op, inst.typeId, 0, seq(|inst.operands|, k requires 0 <= k < |inst.operands| =>
      match inst.operands[k] case IdRef(_) => IdRef(0) case Literal(w) => Literal(w)))
  }

  /** The operand index that an OpPhi selects when its block is entered from `pred`. */
  function PhiIndex(operands: seq<Operand>, pred: Id, k: nat): (r: nat)
    ensures r < |operands| ==> r + 1 < |operands| && operands[r + 1] == IdRef(pred) && operands[r].IdRef?
    decreases |operands| - k
  {
    if k + 1 >= |operands| then |operands|
    else if operands[k + 1] == IdRef(pred) && operands[k].IdRef? then k
    else PhiIndex(operands, pred, k + 2)
  }

  function PhiValue(mc: Machine, s: State, operands: seq<Operand>): Value {
    var k := PhiIndex(operands, s.pred, 0);
    if k < |operands| then Lookup(mc, s.snapshot, operands[k].id) else 0
  }

  function Set(env: map<Id, Value>, x: Id, v: Value): map<Id, Value> {
    if x == 0 then env else env[x := v]
  }

  predicate PrivateLoad(priv: set<Id>, inst: Inst) {
    inst.op == OP_LOAD && |inst.operands| > 0 && inst.operands[0].IdRef? && inst.operands[0].id in priv
  }

  predicate PrivateStore(priv: set<Id>, inst: Inst) {
    && inst.op == OP_STORE && |inst.operands| > 1
    && inst.operands[0].IdRef? && inst.operands[0].id in priv && inst.operands[1].IdRef?
  }

  predicate PrivateDecl(priv: set<Id>, inst: Inst) {
    inst.op == OP_VARIABLE && inst.resultId in priv
  }

  /** One instruction. Variables in `priv` are kept in cells of their own, which direct loads and
      stores read and write; everything else is up to the machine. */
  function Step(mc: Machine, priv: set<Id>, s: State, inst: Inst): State {
    if inst.op == OP_LABEL then
      s.(snapshot := s.env, block := inst.resultId, pred := s.block)
    else if inst.op == OP_PHI then
      s.(env := Set(s.env, inst.resultId, PhiValue(mc, s, inst.operands)))
    else if PrivateDecl(priv, inst) then
      s
    else if PrivateLoad(priv, inst) then
      s.(env := Set(s.env, inst.resultId, Lookup(mc, s.cells, inst.operands[0].id)))
    else if PrivateStore(priv, inst) then
      s.(cells := s.cells[inst.operands[0].id := Lookup(mc, s.env, inst.operands[1].id)])
    else
      var values := Reads(mc, s.env, inst.operands);
      s.(env := Set(s.env, inst.resultId, mc.value(Skeleton(inst), values, s.world)),
         world := mc.effect(Skeleton(inst), values, s.world))
  }

  function Run(mc: Machine, priv: set<Id>, p: seq<Inst>, start: State, run: seq<nat>): State
    requires forall k | 0 <= k < |run| :: run[k] < |p|
  {
    if run == [] then start
    else Step(mc, priv, Run(mc, priv, p, start, run[..|run| - 1]), p[run[|run| - 1]])
  }

  // ---------- static single assignment ----------

  /** The index in the run at which the current block was entered. */
  function BlockEntry(p: seq<Inst>, run: seq<nat>): (e: nat)
    requires forall k | 0 <= k < |run| :: run[k] < |p|
    ensures e <= |run|
    ensures e < |run| ==> p[run[e]].op == OP_LABEL
    ensures forall k | e < k < |run| :: p[run[k]].op != OP_LABEL
    ensures e == |run| ==> forall k | 0 <= k < |run| :: p[run[k]].op != OP_LABEL
  {
    if run == [] then 0
    else if p[run[|run| - 1]].op == OP_LABEL then |run| - 1
    else
      var e := BlockEntry(p, run[..|run| - 1]);
      if e == |run| - 1 then |run| else e
  }

  /** The label of the block that a run is in, or 0. */
  function BlockOf(p: seq<Inst>, run: seq<nat>): Id
    requires forall k | 0 <= k < |run| :: run[k] < |p|
  {
    var e := BlockEntry(p, run);
    if e < |run| then p[run[e]].resultId else 0
  }

  /** Wherever control is about to execute `i`, `x` has been computed. */
  ghost predicate Available(p: seq<Inst>, f: nat, x: Id, i: nat) {
    forall d | 0 <= d < |p| && Defines(p[d], x) && (Reaches(p, f, d) || p[d].op == OP_LOAD) ::
      d != i && Dominates(p, f, d, i)
  }

  /** Labels and functions may be named before they are met. */
  predicate ForwardReference(p: seq<Inst>, i: nat, x: Id)
    requires i < |p|
  {
    && p[i].op != OP_LOAD && p[i].op != OP_STORE
    && exists d | 0 <= d < |p| :: Defines(p[d], x) && (p[d].op == OP_LABEL || p[d].op == OP_FUNCTION)
  }

  /** The value that a phi selects is available at the end of the block that control comes from. */
  ghost predicate PhiOk(p: seq<Inst>, f: nat, run: seq<nat>, i: nat)
    requires EndsAt(p, f, run, i)
  {
    var e := BlockEntry(p, run);
    && 0 < e < |run|
    && var k := PhiIndex(p[i].operands, BlockOf(p, run[..e]), 0);
       k < |p[i].operands| ==> Available(p, f, p[i].operands[k].id, run[e - 1])
  }

  /** Definitions dominate uses, in the function at `f`. */
  ghost predicate Ssa(p: seq<Inst>, f: nat) {
    && (forall i, x | 0 <= i < |p| && p[i].op != OP_PHI && UsesOperand(p[i], x) && Reaches(p, f, i) ::
          ForwardReference(p, i, x) || Available(p, f, x, i))
    && (forall run, i: nat | EndsAt(p, f, run, i) && p[i].op == OP_PHI :: PhiOk(p, f, run, i))
    && (forall d, v, i | 0 <= d < |p| && IsLocalDecl(p[d], v) && 0 <= i < |p| && UsesOperand(p[i], v)
        && Reaches(p, f, i) :: d < i)
  }

  /** Types are not loaded, and labels are not stored. */
  ghost predicate Typed(p: seq<Inst>) {
    && (forall i, q | 0 <= i < |p| && 0 <= q < |p| && p[q].op == OP_LOAD :: p[i].typeId != p[q].resultId)
    && (forall d, q | 0 <= d < |p| && 0 <= q < |p| && p[q].op == OP_STORE && p[d].op == OP_LABEL ::
        !OperandIs(p[q], 1, p[d].resultId))
    && (forall q | 0 <= q < |p| && p[q].op == OP_STORE :: !OperandIs(p[q], 1, 0))
  }

  /** A function of a module, and what the pass has found in the module. */
  ghost predicate Setting(p: seq<Inst>, f: nat, priv: set<Id>, vars: set<Id>, stored: map<Id, Id>, links: map<Id, Id>,
                          idMap: map<Id, Id>) {
    && WellFormed(p) && OperandsDefinedFirst(p) && Typed(p)
    && f < |p| && p[f].op == OP_FUNCTION && Ssa(p, f)
    && Analysed(p, vars, stored) && IsLinks(p, |p|, vars, stored, links) && Descends(p, vars, links)
    && idMap.Keys == links.Keys && (forall x <- links :: idMap[x] == Root(p, vars, links, x))
    && vars <= priv && (forall v <- priv :: exists d | 0 <= d < |p| :: IsLocalDecl(p[d], v))
  }

  // ---------- facts about runs ----------

  lemma RunPrefix(p: seq<Inst>, f: nat, run: seq<nat>, n: nat)
    requires IsRun(p, f, run) && 0 < n <= |run|
    ensures EndsAt(p, f, run[..n], run[n - 1])
  {
    var r := run[..n];
    forall k | 0 <= k < |r| - 1 ensures Next(p, r[k], r[k + 1]) {
      assert Next(p, run[k], run[k + 1]);
    }
  }

  lemma RunExtend(p: seq<Inst>, f: nat, run: seq<nat>, j: nat)
    requires IsRun(p, f, run) && Next(p, run[|run| - 1], j)
    ensures EndsAt(p, f, run + [j], j)
  {
    var r := run + [j];
    forall k | 0 <= k < |r| - 1 ensures Next(p, r[k], r[k + 1]) {
      assert k < |run| - 1 ==> Next(p, run[k], run[k + 1]);
    }
  }

  /** Leaving out what lies between two visits of the same instruction gives a run again. */
  lemma RunGraft(p: seq<Inst>, f: nat, run: seq<nat>, a: nat, b: nat)
    requires IsRun(p, f, run) && a <= b < |run| && run[a] == run[b]
    ensures var r := run[..a + 1] + run[b + 1..];
      EndsAt(p, f, r, run[|run| - 1]) && forall c | a < c < |r| :: r[c] == run[c - a + b]
  {
    var r := run[..a + 1] + run[b + 1..];
    forall k | 0 <= k < |r| - 1 ensures Next(p, r[k], r[k + 1]) {
      if k < a {
        assert Next(p, run[k], run[k + 1]);
      } else {
        assert Next(p, run[k - a + b], run[k - a + b + 1]);
      }
    }
  }

  lemma DominatesTransitive(p: seq<Inst>, f: nat, d: nat, l: nat, i: nat)
    requires Dominates(p, f, d, l) && Dominates(p, f, l, i)
    ensures Dominates(p, f, d, i)
  {
    forall run | EndsAt(p, f, run, i) ensures d in run {
      var q :| 0 <= q < |run| && run[q] == l;
      RunPrefix(p, f, run, q + 1);
    }
  }

  lemma DominatesPredecessor(p: seq<Inst>, f: nat, d: nat, u: nat, i: nat)
    requires Dominates(p, f, d, i) && d != i && Next(p, u, i)
    ensures Dominates(p, f, d, u)
  {
    forall run | EndsAt(p, f, run, u) ensures d in run {
      RunExtend(p, f, run, i);
      assert d in run + [i];
    }
  }

  lemma FirstIndex(run: seq<nat>, d: nat) returns (a: nat)
    requires d in run
    ensures a < |run| && run[a] == d && forall k | 0 <= k < a :: run[k] != d
  {
    if run[0] == d {
      a := 0;
    } else {
      assert d in run[1..];
      var b := FirstIndex(run[1..], d);
      a := b + 1;
      forall k | 0 <= k < a ensures run[k] != d {
        assert k > 0 ==> run[k] == run[1..][k - 1];
      }
    }
  }

  lemma LastIndex(run: seq<nat>, d: nat) returns (a: nat)
    requires d in run
    ensures a < |run| && run[a] == d && forall k | a < k < |run| :: run[k] != d
  {
    if run[|run| - 1] == d {
      a := |run| - 1;
    } else {
      assert d in run[..|run| - 1];
      a := LastIndex(run[..|run| - 1], d);
    }
  }

  lemma DominatedComesLater(p: seq<Inst>, f: nat, run: seq<nat>, d: nat, l: nat, a: nat, c: nat)
    requires IsRun(p, f, run) && Dominates(p, f, d, l) && d != l
    requires c < |run| && run[c] == l && a < |run| && forall k | 0 <= k < a :: run[k] != d
    ensures c > a
  {
    RunPrefix(p, f, run, c + 1);
    var e := LastIndex(run[..c + 1], d);
    assert run[e] == d;
  }

  /** If `d` dominates `l` and `l` dominates the end of a run, then `l` has been executed since `d` was. */
  lemma LoadedSince(p: seq<Inst>, f: nat, run: seq<nat>, i: nat, d: nat, l: nat) returns (q: nat)
    requires EndsAt(p, f, run, i) && Dominates(p, f, l, i) && Dominates(p, f, d, l) && d != l
    ensures q < |run| && run[q] == l && forall k | q < k < |run| :: run[k] != d
  {
    q := LastIndex(run, l);
    if d in run[q + 1..] {
      var b := LastIndex(run, d);
      var a := FirstIndex(run, d);
      assert b > q by {
        var c :| 0 <= c < |run[q + 1..]| && run[q + 1..][c] == d;
        assert run[q + 1 + c] == d;
      }
      RunGraft(p, f, run, a, b);
      var r := run[..a + 1] + run[b + 1..];
      var c :| 0 <= c < |r| && r[c] == l;
      if c <= a {
        DominatedComesLater(p, f, run, d, l, a, c);
      }
    }
    forall k | q < k < |run| ensures run[k] != d {
      assert run[k] == run[q + 1..][k - q - 1];
    }
  }

  /** Within a block, control comes from the instruction before. */
  lemma {:induction false} StraightLine(p: seq<Inst>, f: nat, run: seq<nat>, st: nat, l: nat, m: nat)
    requires EndsAt(p, f, run, l) && p[f].op == OP_FUNCTION && l < |p|
    requires st <= l - m && m <= l && BlockNo(p, st) == BlockNo(p, l) && !IsFlowCtrl(p[l].op)
    ensures m < |run| && run[|run| - 1 - m] == l - m
    decreases m
  {
    if m > 0 {
      StraightLine(p, f, run, st, l, m - 1);
      var j := l - (m - 1);
      NoFlowBetween(p, st, l, j);
      assert Next(p, run[|run| - 1 - m], run[|run| - 1 - m + 1]);
    }
  }

  lemma {:induction false} BlockNoMonotone(p: seq<Inst>, a: nat, b: nat)
    requires a <= b <= |p|
    ensures BlockNo(p, a) <= BlockNo(p, b)
    decreases b
  {
    if a < b {
      BlockNoMonotone(p, a, b - 1);
    }
  }

  lemma NoFlowBetween(p: seq<Inst>, st: nat, l: nat, j: nat)
    requires st < j <= l < |p| && BlockNo(p, st) == BlockNo(p, l) && !IsFlowCtrl(p[l].op)
    ensures !IsFlowCtrl(p[j].op)
  {
    if j < l {
      BlockNoMonotone(p, st, j);
      BlockNoMonotone(p, j + 1, l);
    }
  }

  // ---------- what a removed load yields ----------

  lemma RunStep(mc: Machine, priv: set<Id>, p: seq<Inst>, start: State, run: seq<nat>, i: nat)
    requires (forall k | 0 <= k < |run| :: run[k] < |p|) && i < |p|
    ensures Run(mc, priv, p, start, run + [i]) == Step(mc, priv, Run(mc, priv, p, start, run), p[i])
  {
    assert (run + [i])[..|run + [i]| - 1] == run;
  }

  lemma StepSetsOnlyResult(mc: Machine, priv: set<Id>, s: State, inst: Inst, x: Id)
    requires !Defines(inst, x)
    ensures Lookup(mc, Step(mc, priv, s, inst).env, x) == Lookup(mc, s.env, x)
  {
  }

  lemma StepKeepsCell(mc: Machine, priv: set<Id>, s: State, inst: Inst, v: Id)
    requires !StoresTo(inst, v)
    ensures Lookup(mc, Step(mc, priv, s, inst).cells, v) == Lookup(mc, s.cells, v)
  {
  }

  /** From the store to just before the load, the cell holds the stored value. */
  lemma {:induction false} CellHoldsStored(mc: Machine, p: seq<Inst>, f: nat, priv: set<Id>, vars: set<Id>,
                                           stored: map<Id, Id>, start: State, run: seq<nat>, v: Id, st: nat, l: nat,
                                           m: nat)
    requires WellFormed(p) && OperandsDefinedFirst(p) && Analysed(p, vars, stored) && vars <= priv
    requires f < |p| && p[f].op == OP_FUNCTION && EndsAt(p, f, run, l)
    requires v in stored && v in vars && st < l < |p| && StoresTo(p[st], v) && OperandIs(p[st], 1, stored[v])
    requires BlockNo(p, st) == BlockNo(p, l) && !IsFlowCtrl(p[l].op)
    requires 1 <= m <= l - st
    ensures m < |run|
    ensures var s := Run(mc, priv, p, start, run[..|run| - m]);
      Lookup(mc, s.cells, v) == Lookup(mc, s.env, stored[v])
    decreases l - st - m
  {
    hide *;
    EndsInside(p, f, run, l);
    StraightLine(p, f, run, st, l, m);
    var before, i := SplitLast(run[..|run| - m]);
    CutOneMore(run, m);
    RunStep(mc, priv, p, start, before, i);
    if m < l - st {
      CellHoldsStored(mc, p, f, priv, vars, stored, start, run, v, st, l, m + 1);
    }
    CellStep(mc, p, priv, vars, stored, Run(mc, priv, p, start, before), v, st, i);
  }

  /** The store fills the cell, and what follows it in the block leaves the cell alone. */
  lemma CellStep(mc: Machine, p: seq<Inst>, priv: set<Id>, vars: set<Id>, stored: map<Id, Id>, s: State, v: Id,
                 st: nat, i: nat)
    requires WellFormed(p) && OperandsDefinedFirst(p) && Analysed(p, vars, stored) && vars <= priv
    requires v in stored && v in vars && st <= i < |p| && StoresTo(p[st], v) && OperandIs(p[st], 1, stored[v])
    requires i > st ==> Lookup(mc, s.cells, v) == Lookup(mc, s.env, stored[v])
    ensures var t := Step(mc, priv, s, p[i]); Lookup(mc, t.cells, v) == Lookup(mc, t.env, stored[v])
  {
    StoredNotRedefined(p, vars, stored, v, st, i);
    StepSetsOnlyResult(mc, priv, s, p[i], stored[v]);
    if i > st {
      if StoresTo(p[i], v) {
        OneStore(p, vars, stored, v, i, st);
      }
      StepKeepsCell(mc, priv, s, p[i], v);
    } else {
      StoreSetsCell(mc, priv, s, p[i], v);
    }
  }

  lemma StoredNotRedefined(p: seq<Inst>, vars: set<Id>, stored: map<Id, Id>, v: Id, st: nat, i: nat)
    requires WellFormed(p) && OperandsDefinedFirst(p) && st <= i < |p|
    requires v in stored && StoresTo(p[st], v) && OperandIs(p[st], 1, stored[v])
    ensures !Defines(p[i], stored[v])
  {
    assert UsesOperand(p[st], stored[v]);
  }

  lemma StoreSetsCell(mc: Machine, priv: set<Id>, s: State, inst: Inst, v: Id)
    requires StoresTo(inst, v) && v in priv && |inst.operands| > 1 && inst.operands[1].IdRef?
    ensures Lookup(mc, Step(mc, priv, s, inst).cells, v) == Lookup(mc, s.env, inst.operands[1].id)
  {
  }

  lemma EndsInside(p: seq<Inst>, f: nat, run: seq<nat>, i: nat)
    requires EndsAt(p, f, run, i)
    ensures |run| > 0 && forall k | 0 <= k < |run| :: run[k] < |p|
  {
  }

  lemma CutOneMore(run: seq<nat>, m: nat)
    requires m < |run|
    ensures var cut := run[..|run| - m];
            cut[..|cut| - 1] == run[..|run| - (m + 1)] && cut[|cut| - 1] == run[|run| - 1 - m]
  {
  }

  lemma RunBounds(p: seq<Inst>, f: nat, run: seq<nat>)
    requires IsRun(p, f, run)
    ensures forall k | 0 <= k < |run| :: run[k] < |p|
  {
  }

  lemma SplitLast(run: seq<nat>) returns (before: seq<nat>, i: nat)
    requires |run| > 0
    ensures run == before + [i] && before == run[..|run| - 1] && i == run[|run| - 1]
  {
    before, i := run[..|run| - 1], run[|run| - 1];
  }

  /** As long as the stored id is not computed anew, the result of a removed load equals it. */
  lemma {:induction false} LoadedValue(mc: Machine, p: seq<Inst>, f: nat, priv: set<Id>, vars: set<Id>,
                                       stored: map<Id, Id>, start: State, run: seq<nat>, v: Id, l: nat, q: nat)
    requires WellFormed(p) && OperandsDefinedFirst(p) && Analysed(p, vars, stored) && vars <= priv
    requires f < |p| && p[f].op == OP_FUNCTION && IsRun(p, f, run)
    requires v in stored && v in vars && l < |p| && LoadsFrom(p[l], v)
    requires q < |run| && run[q] == l && forall k | q < k < |run| :: !Defines(p[run[k]], stored[v])
    ensures var s := Run(mc, priv, p, start, run);
      Lookup(mc, s.env, p[l].resultId) == Lookup(mc, s.env, stored[v])
    decreases |run|
  {
    var before, i := SplitLast(run);
    RunStep(mc, priv, p, start, before, i);
    var s := Run(mc, priv, p, start, before);
    var d, st := LoadHasStore(p, vars, stored, v, l);
    RemovedLoadRank(p, vars, stored, l);
    if i == l {
      CellHoldsStored(mc, p, f, priv, vars, stored, start, run, v, st, l, 1);
      StoredNotRedefined(p, vars, stored, v, st, l);
      hide WellFormed, OperandsDefinedFirst, Analysed, Step, Run;
      StepSetsOnlyResult(mc, priv, s, p[l], stored[v]);
      LoadReadsCell(mc, priv, s, p[l], v);
    } else {
      assert q < |before|;
      RunPrefix(p, f, run, |run| - 1);
      hide IsRun, Step, Run;
      LoadedValue(mc, p, f, priv, vars, stored, start, before, v, l, q);
      StepSetsOnlyResult(mc, priv, s, p[i], stored[v]);
      OtherResult(p, l, i);
      StepSetsOnlyResult(mc, priv, s, p[i], p[l].resultId);
    }
  }

  lemma OtherResult(p: seq<Inst>, l: nat, i: nat)
    requires UniqueResults(p) && l < |p| && i < |p| && i != l
    ensures !Defines(p[i], p[l].resultId)
  {
  }

  lemma LoadReadsCell(mc: Machine, priv: set<Id>, s: State, inst: Inst, v: Id)
    requires LoadsFrom(inst, v) && v in priv && inst.resultId != 0
    ensures Lookup(mc, Step(mc, priv, s, inst).env, inst.resultId) == Lookup(mc, s.cells, v)
  {
  }
}
