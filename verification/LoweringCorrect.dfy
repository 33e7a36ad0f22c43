/** The blocks made for an expression compute its value and have its effects. */
module LoweringCorrect {
  import opened ShaderAst
  import opened SpirvBuilder
  import opened Lowering

  // ---------- what is evaluated unconditionally has no effects ----------

  /** GLSL logical operators work on booleans; HLSL ones may be componentwise. */
  ghost predicate LogicOk(mg: Meaning, hlsl: bool) {
    hlsl || BooleanLogic(mg)
  }

  lemma TrivialIsPure(hlsl: bool, e: Expr)
    requires IsTrivial(hlsl, e) && !hlsl && e.ty.isScalar
    ensures IsPure(e)
  {
  }

  lemma BothSidesArePure(hlsl: bool, e: Expr)
    requires e.Choice? && e.shortCircuit && BothSides(e) && WellTyped(hlsl, e)
    ensures IsPure(e.yes) && IsPure(e.no)
  {
  }

  // ---------- single steps ----------

  predicate At(b: Builder, c: Config) {
    Sized(b) && c.Going? && c.block == b.cur && c.pc == |b.blocks[b.cur].instrs|
  }

  predicate Agree(e1: map<nat, Value>, e2: map<nat, Value>, k: nat) {
    forall id :: 0 <= id < k ==> Get(e1, id) == Get(e2, id)
  }

  lemma EmitStep(m: Machine, b: Builder, i: Instr, c: Config)
    requires Ok(b) && At(b, c) && Grows(Emit(b, i).blocks, m.f)
    ensures Run(m, c, 1) == Perform(m.mg, i, c)
    ensures At(Emit(b, i), Perform(m.mg, i, c))
  {
    var instrs := Emit(b, i).blocks[b.cur].instrs;
    assert instrs <= m.f[b.cur].instrs && instrs[c.pc] == i;
    assert Run(m, c, 1) == Run(m, Step(m, c), 0);
  }

  /** Defining an id that is not in use yet. */
  lemma DefineStep(m: Machine, b: Builder, i: Instr, c: Config, v: Value)
    requires Ok(b) && At(b, c) && Grows(Emit(FreshId(b), i).blocks, m.f)
    requires Perform(m.mg, i, c) == Define(c, b.nextId, v)
    ensures var c1 := Define(c, b.nextId, v);
            && Run(m, c, 1) == c1 && At(Emitted(b, i).0, c1)
            && Get(c1.env, b.nextId) == v && Agree(c.env, c1.env, b.nextId)
  {
    EmitStep(m, b, i, c);
  }

  lemma LeaveStep(m: Machine, b: Builder, t: Terminator, c: Config)
    requires At(b, c) && b.cur < |m.f| && m.f[b.cur] == b.blocks[b.cur].(term := t)
    ensures Run(m, c, 1) == Leave(t, c)
  {
    assert Run(m, c, 1) == Run(m, Step(m, c), 0);
  }

  /** From the end of a header through its merge instruction and its branch. */
  lemma HeaderStep(m: Machine, b: Builder, c: Config, i: Instr, t: Terminator)
    requires At(b, c) && b.cur < |m.f| && m.f[b.cur] == Block(b.blocks[b.cur].instrs + [i], t)
    requires i.SelectionMerge? || i.LoopMerge?
    ensures Run(m, c, 2) == Leave(t, c.(pc := c.pc + 1))
  {
    var c1 := c.(pc := c.pc + 1);
    assert m.f[b.cur].instrs[c.pc] == i;
    assert Step(m, c) == c1;
    assert Step(m, c1) == Leave(t, c1);
    assert Run(m, c, 2) == Run(m, c1, 1) == Run(m, Step(m, c1), 0);
  }

  // ---------- expressions ----------

  /** In `n` steps the machine gets from `c` to `c1`; ids below `k` keep their values. */
  ghost predicate Moved(m: Machine, k: nat, c: Config, n: nat, c1: Config) {
    c.Going? && c1 == Run(m, c, n) && c1.Going? && Agree(c.env, c1.env, k)
  }

  /** From `c` at `b` the machine gets to `c1` at `b1` in `n` steps, with value `v` in `r` and store `st`. */
  ghost predicate Computed(m: Machine, b: Builder, c: Config, n: nat, b1: Builder, c1: Config,
                           r: nat, v: Value, st: Store) {
    Moved(m, b.nextId, c, n, c1) && At(b1, c1) && c1.st == st && Get(c1.env, r) == v
  }

  lemma SimLeaf(m: Machine, b: Builder, leaf: Leaf, c: Config) returns (n: nat, c1: Config)
    requires Ok(b) && At(b, c) && Grows(Emitted(b, Load(b.nextId, leaf)).0.blocks, m.f)
    ensures Computed(m, b, c, n, Emitted(b, Load(b.nextId, leaf)).0, c1, b.nextId, m.mg.read(leaf, c.st), c.st)
  {
    n := 1;
    c1 := Define(c, b.nextId, m.mg.read(leaf, c.st));
    DefineStep(m, b, Load(b.nextId, leaf), c, m.mg.read(leaf, c.st));
  }

  lemma SimApply(m: Machine, b: Builder, op: Op, args: seq<nat>, vals: seq<Value>, c: Config)
    returns (n: nat, c1: Config)
    requires Ok(b) && At(b, c) && Grows(Emitted(b, Apply(b.nextId, op, args)).0.blocks, m.f)
    requires |args| == |vals| && forall k :: 0 <= k < |args| ==> Get(c.env, args[k]) == vals[k]
    ensures var (v, st) := Operate(m.mg, op, vals, c.st);
            Computed(m, b, c, n, Emitted(b, Apply(b.nextId, op, args)).0, c1, b.nextId, v, st)
  {
    var i := Apply(b.nextId, op, args);
    EmitStep(m, b, i, c);
    assert seq(|args|, k requires 0 <= k < |args| => Get(c.env, args[k])) == vals;
    n := 1;
    c1 := Perform(m.mg, i, c);
  }

  lemma ThenMoved(m: Machine, k1: nat, k2: nat, c: Config, n1: nat, c1: Config, n2: nat, c2: Config)
    requires Moved(m, k1, c, n1, c1) && Moved(m, k2, c1, n2, c2) && k1 <= k2
    ensures Moved(m, k1, c, n1 + n2, c2)
  {
    RunAdds(m, c, n1, n2);
  }

  // ---------- selections ----------

  /** Framed pieces of a finished program are in it. */
  lemma Inside(b: Builder, r: Builder, f: seq<Block>)
    requires Framed(b, r) && Grows(r.blocks, f)
    ensures Grows(b.blocks, f)
  {
    GrowsTrans(b.blocks, r.blocks, f);
  }

  /** What the finished blocks hold of a one-armed "if". */
  lemma OneArmedIn(f: seq<Block>, b: Builder, yes: Builder, cond: nat)
    requires Ok(b) && Framed(BeginIf(b), yes) && Grows(JoinOne(b, yes, cond).blocks, f)
    ensures Grows(yes.blocks, f) && Grows(b.blocks, f) && Ok(yes)
    ensures var n := |b.blocks|;
            && n + 1 < |f| && yes.cur < |f| && yes.cur != b.cur
            && f[b.cur] == Block(b.blocks[b.cur].instrs + [SelectionMerge(n + 1)], CondBranch(cond, n, n + 1))
            && f[yes.cur] == yes.blocks[yes.cur].(term := Branch(n + 1))
            && JoinOne(b, yes, cond).cur == n + 1 && JoinOne(b, yes, cond).blocks[n + 1] == EMPTY_BLOCK
  {
    var r := JoinOne(b, yes, cond);
    OneArmed(b, yes, cond, |b.blocks| + 1);
    GrowsTrans(yes.blocks, r.blocks, f);
    GrowsTrans(b.blocks, r.blocks, f);
  }

  lemma TwoArmedIn(f: seq<Block>, b: Builder, yes: Builder, no: Builder, cond: nat)
    requires Ok(b) && Framed(BeginIf(b), yes) && Framed(SecondArm(b, yes), no)
    requires Grows(JoinTwo(b, yes, no, cond).blocks, f)
    ensures Grows(yes.blocks, f) && Grows(no.blocks, f) && Grows(b.blocks, f) && Ok(yes) && Ok(no)
    ensures var n := |b.blocks|;
            && n + 1 < |f| && yes.cur < |f| && no.cur < |f|
            && f[b.cur] == Block(b.blocks[b.cur].instrs + [SelectionMerge(n + 1)], CondBranch(cond, n, |yes.blocks|))
            && f[yes.cur] == yes.blocks[yes.cur].(term := Branch(n + 1))
            && f[no.cur] == no.blocks[no.cur].(term := Branch(n + 1))
            && JoinTwo(b, yes, no, cond).cur == n + 1 && JoinTwo(b, yes, no, cond).blocks[n + 1] == EMPTY_BLOCK
  {
    var r := JoinTwo(b, yes, no, cond);
    TwoArmed(b, yes, no, cond);
    hide Framed;
    GrowsTrans(yes.blocks, r.blocks, f);
    GrowsTrans(no.blocks, r.blocks, f);
    GrowsTrans(b.blocks, r.blocks, f);
  }

  /** From the header of an "if" into the arm that the condition selects. */
  lemma EnterArm(m: Machine, b: Builder, c: Config, cond: nat, x: nat, y: nat) returns (c1: Config)
    requires At(b, c) && b.cur < |m.f|
    requires m.f[b.cur] == Block(b.blocks[b.cur].instrs + [SelectionMerge(|b.blocks| + 1)], CondBranch(cond, x, y))
    ensures Moved(m, b.nextId, c, 2, c1)
    ensures c1 == Going(if Get(c.env, cond) != 0 then x else y, 0, b.cur, c.env, c.st)
  {
    HeaderStep(m, b, c, SelectionMerge(|b.blocks| + 1), CondBranch(cond, x, y));
    c1 := Run(m, c, 2);
  }

  /** From the end of an arm to its merge block. */
  lemma LeaveArm(m: Machine, b: Builder, merge: nat, c: Config) returns (c1: Config)
    requires At(b, c) && b.cur < |m.f| && m.f[b.cur] == b.blocks[b.cur].(term := Branch(merge))
    ensures Moved(m, b.nextId, c, 1, c1) && c1 == Going(merge, 0, b.cur, c.env, c.st)
  {
    LeaveStep(m, b, Branch(merge), c);
    c1 := Goto(c, merge);
  }

  lemma SimGuard(m: Machine, b: Builder, isAnd: bool, l: nat, c: Config) returns (n: nat, c1: Config)
    requires Ok(b) && At(b, c) && l < b.nextId && Grows(Guard(b, isAnd, l).0.blocks, m.f)
    ensures Moved(m, b.nextId, c, n, c1) && At(Guard(b, isAnd, l).0, c1) && c1.st == c.st
    ensures Get(c1.env, l) == Get(c.env, l)
    ensures Get(c1.env, Guard(b, isAnd, l).1) != 0 <==> (Get(c.env, l) != 0) == isAnd
  {
    if isAnd {
      n, c1 := 0, c;
    } else {
      n := 1;
      var v := if Get(c.env, l) != 0 then 0 else 1;
      c1 := Define(c, b.nextId, v);
      DefineStep(m, b, NotI(b.nextId, l), c, v);
    }
  }

  /** Joining the value of the left operand, if it decides, and that of the right one. */
  lemma SimPhi(m: Machine, b: Builder, left: (nat, nat), right: (nat, nat), c: Config) returns (c1: Config)
    requires Ok(b) && At(b, c) && left.1 != right.1
    requires c.prev == left.1 || c.prev == right.1
    requires Grows(Emitted(b, Phi(b.nextId, [left, right])).0.blocks, m.f)
    ensures Computed(m, b, c, 1, Emitted(b, Phi(b.nextId, [left, right])).0, c1, b.nextId,
                     if c.prev == left.1 then Get(c.env, left.0) else Get(c.env, right.0), c.st)
  {
    var i := Phi(b.nextId, [left, right]);
    assert [left, right][1..] == [right];
    var v := if c.prev == left.1 then Get(c.env, left.0) else Get(c.env, right.0);
    assert PhiValue(c.env, [left, right], c.prev) == v;
    c1 := Define(c, b.nextId, v);
    DefineStep(m, b, i, c, v);
  }

  /** The finished blocks around a short-circuited operand. */
  lemma LogicalIn(f: seq<Block>, b: Builder, left: nat, guard: nat, right: Builder, value: nat)
    requires Ok(b) && Framed(BeginIf(b), right) && Grows(JoinLogical(b, left, guard, right, value).0.blocks, f)
    ensures var joined := JoinOne(b, right, guard);
            && Grows(right.blocks, f) && Grows(b.blocks, f) && Grows(joined.blocks, f) && Ok(right) && Ok(joined)
            && b.nextId <= joined.nextId
  {
    var joined := JoinOne(b, right, guard);
    var r := Emitted(joined, Phi(joined.nextId, [(left, b.cur), (value, right.cur)]));
    hide Framed, Grows;
    Inside(joined, r.0, f);
    OneArmedIn(f, b, right, guard);
    FramedTrans(b, joined, r.0);
  }

  lemma EnterRight(m: Machine, b: Builder, left: nat, guard: nat, right: Builder, value: nat, c: Config)
    returns (c1: Config)
    requires Ok(b) && Framed(BeginIf(b), right) && Grows(JoinLogical(b, left, guard, right, value).0.blocks, m.f)
    requires At(b, c) && Get(c.env, guard) != 0
    ensures Moved(m, b.nextId, c, 2, c1) && At(BeginIf(b), c1) && c1.st == c.st
    ensures Ok(BeginIf(b)) && BeginIf(b).nextId == b.nextId
  {
    LogicalIn(m.f, b, left, guard, right, value);
    OneArmedIn(m.f, b, right, guard);
    BeginIfShape(b);
    hide Framed, Grows;
    c1 := EnterArm(m, b, c, guard, |b.blocks|, |b.blocks| + 1);
  }

  lemma FinishRight(m: Machine, b: Builder, left: nat, guard: nat, right: Builder, value: nat, c: Config)
    returns (c1: Config)
    requires Ok(b) && Framed(BeginIf(b), right) && Grows(JoinLogical(b, left, guard, right, value).0.blocks, m.f)
    requires At(right, c)
    ensures var r := JoinLogical(b, left, guard, right, value);
            Computed(m, b, c, 2, r.0, c1, r.1, Get(c.env, value), c.st)
  {
    LogicalIn(m.f, b, left, guard, right, value);
    OneArmedIn(m.f, b, right, guard);
    assert b.nextId <= right.nextId by { BeginIfShape(b); }
    hide Framed, Grows;
    var joined := JoinOne(b, right, guard);
    var c2 := LeaveArm(m, right, |b.blocks| + 1, c);
    c1 := SimPhi(m, joined, (left, b.cur), (value, right.cur), c2);
    ThenMoved(m, b.nextId, joined.nextId, c, 1, c2, 1, c1);
  }

  lemma SkipRight(m: Machine, b: Builder, left: nat, guard: nat, right: Builder, value: nat, c: Config)
    returns (c1: Config)
    requires Ok(b) && Framed(BeginIf(b), right) && Grows(JoinLogical(b, left, guard, right, value).0.blocks, m.f)
    requires At(b, c) && Get(c.env, guard) == 0
    ensures var r := JoinLogical(b, left, guard, right, value);
            Computed(m, b, c, 3, r.0, c1, r.1, Get(c.env, left), c.st)
  {
    LogicalIn(m.f, b, left, guard, right, value);
    OneArmedIn(m.f, b, right, guard);
    hide Framed, Grows;
    var joined := JoinOne(b, right, guard);
    var c2 := EnterArm(m, b, c, guard, |b.blocks|, |b.blocks| + 1);
    c1 := SimPhi(m, joined, (left, b.cur), (value, right.cur), c2);
    ThenMoved(m, b.nextId, joined.nextId, c, 2, c2, 1, c1);
  }

  lemma SimStore(m: Machine, b: Builder, arm: Builder, result: nat, value: nat, c: Config) returns (c1: Config)
    requires Framed(b, arm) && Ok(arm) && At(arm, c) && Grows(StoreResult(b, arm, result, value).blocks, m.f)
    ensures Moved(m, result, c, 1, c1) && At(StoreResult(b, arm, result, value), c1) && c1.st == c.st
    ensures Get(c1.env, result) == Get(c.env, value)
  {
    EmitStep(m, arm, StoreVar(result, value), c);
    c1 := Define(c, result, Get(c.env, value));
  }

  /** The finished blocks around the two arms of a selection. */
  lemma SelectionIn(f: seq<Block>, b: Builder, yes: Builder, no: Builder, cond: nat)
    requires Ok(b) && Framed(BeginSelection(b), yes) && Framed(SecondArm(FreshId(b), yes), no)
    requires Grows(JoinSelection(b, yes, no, cond).0.blocks, f)
    ensures Grows(yes.blocks, f) && Grows(no.blocks, f) && Grows(b.blocks, f) && Ok(yes) && Ok(no)
    ensures Grows(JoinTwo(FreshId(b), yes, no, cond).blocks, f)
    ensures b.nextId < yes.nextId <= no.nextId && b.nextId < JoinTwo(FreshId(b), yes, no, cond).nextId
  {
    var joined := JoinTwo(FreshId(b), yes, no, cond);
    EmitFramed(joined, LoadVar(joined.nextId, b.nextId));
    Inside(joined, Emitted(joined, LoadVar(joined.nextId, b.nextId)).0, f);
    TwoArmedIn(f, FreshId(b), yes, no, cond);
  }

  lemma EnterYes(m: Machine, b: Builder, yes: Builder, no: Builder, cond: nat, c: Config) returns (c1: Config)
    requires Ok(b) && Framed(BeginSelection(b), yes) && Framed(SecondArm(FreshId(b), yes), no)
    requires Grows(JoinSelection(b, yes, no, cond).0.blocks, m.f)
    requires At(b, c) && Get(c.env, cond) != 0
    ensures Moved(m, b.nextId, c, 2, c1) && At(BeginSelection(b), c1) && c1.st == c.st && c1.env == c.env
  {
    SelectionIn(m.f, b, yes, no, cond);
    TwoArmedIn(m.f, FreshId(b), yes, no, cond);
    BeginIfShape(FreshId(b));
    hide Framed, Grows;
    c1 := EnterArm(m, b, c, cond, |b.blocks|, |yes.blocks|);
  }

  lemma EnterNo(m: Machine, b: Builder, yes: Builder, no: Builder, cond: nat, c: Config) returns (c1: Config)
    requires Ok(b) && Framed(BeginSelection(b), yes) && Framed(SecondArm(FreshId(b), yes), no)
    requires Grows(JoinSelection(b, yes, no, cond).0.blocks, m.f)
    requires At(b, c) && Get(c.env, cond) == 0
    ensures Moved(m, b.nextId, c, 2, c1) && At(SecondArm(FreshId(b), yes), c1) && c1.st == c.st && c1.env == c.env
  {
    SelectionIn(m.f, b, yes, no, cond);
    TwoArmedIn(m.f, FreshId(b), yes, no, cond);
    ThenArm(FreshId(b), yes);
    hide Framed, Grows;
    c1 := EnterArm(m, b, c, cond, |b.blocks|, |yes.blocks|);
  }

  /** From the end of an arm through the merge block to the loaded result. */
  lemma SimJoin(m: Machine, b: Builder, yes: Builder, no: Builder, cond: nat, second: bool, c: Config)
    returns (c1: Config)
    requires Ok(b) && Framed(BeginSelection(b), yes) && Framed(SecondArm(FreshId(b), yes), no)
    requires At(if second then no else yes, c)
    requires Grows(JoinSelection(b, yes, no, cond).0.blocks, m.f)
    ensures var r := JoinSelection(b, yes, no, cond);
            Computed(m, b, c, 2, r.0, c1, r.1, Get(c.env, b.nextId), c.st)
  {
    SelectionIn(m.f, b, yes, no, cond);
    TwoArmedIn(m.f, FreshId(b), yes, no, cond);
    hide Framed, Grows;
    var joined := JoinTwo(FreshId(b), yes, no, cond);
    var c2 := LeaveArm(m, if second then no else yes, |b.blocks| + 1, c);
    DefineStep(m, joined, LoadVar(joined.nextId, b.nextId), c2, Get(c.env, b.nextId));
    c1 := Define(c2, joined.nextId, Get(c.env, b.nextId));
    ThenMoved(m, b.nextId, joined.nextId, c, 1, c2, 1, c1);
  }

  /** Selecting between two values by control flow. */
  lemma SimChoose(m: Machine, b: Builder, cond: nat, yes: nat, no: nat, c: Config) returns (n: nat, c1: Config)
    requires Ok(b) && At(b, c) && yes < b.nextId && no < b.nextId
    requires Grows(ChooseByVariable(b, cond, yes, no).0.blocks, m.f)
    ensures var r := ChooseByVariable(b, cond, yes, no);
            Computed(m, b, c, n, r.0, c1, r.1, if Get(c.env, cond) != 0 then Get(c.env, yes) else Get(c.env, no), c.st)
  {
    var b1 := BeginSelection(b);
    var b2 := StoreResult(b1, b1, b.nextId, yes);
    var b3 := SecondArm(FreshId(b), b2);
    var b4 := StoreResult(b3, b3, b.nextId, no);
    SelectionIn(m.f, b, b2, b4, cond);
    FramedRefl(b1);
    FramedRefl(b3);
    hide Framed, Grows, BeginSelection, SecondArm, JoinSelection, StoreResult;
    if Get(c.env, cond) != 0 {
      var d1 := EnterYes(m, b, b2, b4, cond, c);
      var d2 := SimStore(m, b1, b1, b.nextId, yes, d1);
      ThenMoved(m, b.nextId, b.nextId, c, 2, d1, 1, d2);
      c1 := SimJoin(m, b, b2, b4, cond, false, d2);
      ThenMoved(m, b.nextId, b.nextId, c, 3, d2, 2, c1);
    } else {
      var d1 := EnterNo(m, b, b2, b4, cond, c);
      var d2 := SimStore(m, b3, b3, b.nextId, no, d1);
      ThenMoved(m, b.nextId, b.nextId, c, 2, d1, 1, d2);
      c1 := SimJoin(m, b, b2, b4, cond, true, d2);
      ThenMoved(m, b.nextId, b.nextId, c, 3, d2, 2, c1);
    }
    n := 5;
  }

  // ---------- all expressions ----------

  /** One computation after another. */
  lemma ThenComputed(m: Machine, b: Builder, c: Config, n1: nat, b1: Builder, c1: Config, r1: nat, v1: Value,
                     st1: Store, n2: nat, b2: Builder, c2: Config, r2: nat, v2: Value, st2: Store)
    requires Computed(m, b, c, n1, b1, c1, r1, v1, st1) && Computed(m, b1, c1, n2, b2, c2, r2, v2, st2)
    requires b.nextId <= b1.nextId
    ensures Computed(m, b, c, n1 + n2, b2, c2, r2, v2, st2)
    ensures r1 < b1.nextId ==> Get(c2.env, r1) == v1
  {
    ThenMoved(m, b.nextId, b1.nextId, c, n1, c1, n2, c2);
  }

  /** The value and the effects of an expression are those of the blocks made for it. */
  lemma {:induction false} SimExpr(m: Machine, hlsl: bool, b: Builder, e: Expr, c: Config) returns (n: nat, c1: Config)
    requires Ok(b) && At(b, c) && WellTyped(hlsl, e) && LogicOk(m.mg, hlsl)
    requires Grows(LowerExpr(hlsl, b, e).0.blocks, m.f)
    ensures var (b1, r) := LowerExpr(hlsl, b, e); var (v, st) := EvalExpr(m.mg, hlsl, e, c.st);
            Computed(m, b, c, n, b1, c1, r, v, st)
    decreases ExprSize(e), 1
  {
    hide Framed, Grows, Ok, At, Computed, Run, LogicOk;
    match e
    case LeafExpr(leaf, _) => n, c1 := SimLeaf(m, b, leaf, c);
    case Unary(op, a, _) => n, c1 := SimUnary(m, hlsl, b, e, c);
    case Binary(op, x, y, _) => n, c1 := SimBinary(m, hlsl, b, e, c);
    case Logical(isAnd, x, y, _) =>
      if IsTrivial(hlsl, y) {
        n, c1 := SimStrict(m, hlsl, b, e, c);
      } else {
        n, c1 := SimShortCircuit(m, hlsl, b, e, c);
      }
    case Choice(_, _, _, _, _) =>
      if BothSides(e) {
        n, c1 := SimBothSides(m, hlsl, b, e, c);
      } else {
        n, c1 := SimOneSide(m, hlsl, b, e, c);
      }
  }

  /** Two operands, one after the other. */
  lemma {:induction false} SimPair(m: Machine, hlsl: bool, b: Builder, x: Expr, y: Expr, c: Config)
    returns (n: nat, c2: Config)
    requires Ok(b) && At(b, c) && WellTyped(hlsl, x) && WellTyped(hlsl, y) && LogicOk(m.mg, hlsl)
    requires var (b1, _) := LowerExpr(hlsl, b, x); Grows(LowerExpr(hlsl, b1, y).0.blocks, m.f)
    ensures var (b1, vx) := LowerExpr(hlsl, b, x); var (b2, vy) := LowerExpr(hlsl, b1, y);
            var (v, st1) := EvalExpr(m.mg, hlsl, x, c.st); var (w, st2) := EvalExpr(m.mg, hlsl, y, st1);
            Computed(m, b, c, n, b2, c2, vy, w, st2) && Get(c2.env, vx) == v
    decreases ExprSize(x) + ExprSize(y), 2
  {
    hide LowerExpr, EvalExpr, WellTyped, Framed, Grows, Ok, Run, LogicOk;
    var (b1, vx) := LowerExpr(hlsl, b, x);
    var (b2, vy) := LowerExpr(hlsl, b1, y);
    Inside(b1, b2, m.f);
    var n1, c1 := SimExpr(m, hlsl, b, x, c);
    var (v, st1) := EvalExpr(m.mg, hlsl, x, c.st);
    var (w, st2) := EvalExpr(m.mg, hlsl, y, st1);
    var n2;
    n2, c2 := SimExpr(m, hlsl, b1, y, c1);
    ThenComputed(m, b, c, n1, b1, c1, vx, v, st1, n2, b2, c2, vy, w, st2);
    n := n1 + n2;
  }

  lemma {:induction false} SimUnary(m: Machine, hlsl: bool, b: Builder, e: Expr, c: Config) returns (n: nat, c1: Config)
    requires e.Unary? && Ok(b) && At(b, c) && WellTyped(hlsl, e) && LogicOk(m.mg, hlsl)
    requires Grows(LowerExpr(hlsl, b, e).0.blocks, m.f)
    ensures var (b1, r) := LowerExpr(hlsl, b, e); var (v, st) := EvalExpr(m.mg, hlsl, e, c.st);
            Computed(m, b, c, n, b1, c1, r, v, st)
    decreases ExprSize(e), 0
  {
    var (b1, va) := LowerExpr(hlsl, b, e.operand);
    var r := Emitted(b1, Apply(b1.nextId, e.op, [va]));
    var (v, st1) := EvalExpr(m.mg, hlsl, e.operand, c.st);
    var (w, st2) := Operate(m.mg, e.op, [v], st1);
    assert LowerExpr(hlsl, b, e) == r && EvalExpr(m.mg, hlsl, e, c.st) == (w, st2);
    assert WellTyped(hlsl, e.operand) && ExprSize(e.operand) < ExprSize(e);
    hide LowerExpr, EvalExpr, WellTyped, ExprSize, Framed, Grows, Ok, Run, LogicOk, Operate, Emitted;
    Inside(b1, r.0, m.f);
    var n1, d1 := SimExpr(m, hlsl, b, e.operand, c);
    var n2, d2 := SimApply(m, b1, e.op, [va], [v], d1);
    ThenComputed(m, b, c, n1, b1, d1, va, v, st1, n2, r.0, d2, r.1, w, st2);
    n, c1 := n1 + n2, d2;
  }

  /** How a binary operator is translated and what it means. */
  lemma BinaryParts(mg: Meaning, hlsl: bool, b: Builder, e: Expr, st: Store)
    requires e.Binary? && Ok(b) && WellTyped(hlsl, e)
    ensures WellTyped(hlsl, e.left) && WellTyped(hlsl, e.right)
    ensures ExprSize(e.left) + ExprSize(e.right) < ExprSize(e)
    ensures var (b1, vx) := LowerExpr(hlsl, b, e.left);
            var (b2, vy) := LowerExpr(hlsl, b1, e.right);
            LowerExpr(hlsl, b, e) == Emitted(b2, Apply(b2.nextId, e.op, [vx, vy]))
    ensures var (v, st1) := EvalExpr(mg, hlsl, e.left, st);
            var (w, st2) := EvalExpr(mg, hlsl, e.right, st1);
            EvalExpr(mg, hlsl, e, st) == Operate(mg, e.op, [v, w], st2)
  {
    hide Framed, Grows, Emitted, Operate;
  }

  lemma {:induction false} SimBinary(m: Machine, hlsl: bool, b: Builder, e: Expr, c: Config)
    returns (n: nat, c1: Config)
    requires e.Binary? && Ok(b) && At(b, c) && WellTyped(hlsl, e) && LogicOk(m.mg, hlsl)
    requires Grows(LowerExpr(hlsl, b, e).0.blocks, m.f)
    ensures var (b1, r) := LowerExpr(hlsl, b, e); var (v, st) := EvalExpr(m.mg, hlsl, e, c.st);
            Computed(m, b, c, n, b1, c1, r, v, st)
    decreases ExprSize(e), 0
  {
    hide LowerExpr, EvalExpr, WellTyped, ExprSize, Framed, Grows, Ok, Run, LogicOk, Operate, Emitted, Moved;
    BinaryParts(m.mg, hlsl, b, e, c.st);
    var (b1, vx) := LowerExpr(hlsl, b, e.left);
    var (b2, vy) := LowerExpr(hlsl, b1, e.right);
    var r := Emitted(b2, Apply(b2.nextId, e.op, [vx, vy]));
    var (v, st1) := EvalExpr(m.mg, hlsl, e.left, c.st);
    var (w, st2) := EvalExpr(m.mg, hlsl, e.right, st1);
    var (u, st3) := Operate(m.mg, e.op, [v, w], st2);
    Inside(b2, r.0, m.f);
    var n1, d1 := SimPair(m, hlsl, b, e.left, e.right, c);
    var n2, d2 := SimApply(m, b2, e.op, [vx, vy], [v, w], d1);
    ThenComputed(m, b, c, n1, b2, d1, vy, w, st2, n2, r.0, d2, r.1, u, st3);
    n, c1 := n1 + n2, d2;
  }

  /** How a logical operator with a trivial right operand is translated, and that this is what it means. */
  lemma StrictParts(mg: Meaning, hlsl: bool, b: Builder, e: Expr, st: Store)
    requires e.Logical? && IsTrivial(hlsl, e.right) && Ok(b) && WellTyped(hlsl, e) && LogicOk(mg, hlsl)
    ensures WellTyped(hlsl, e.left) && WellTyped(hlsl, e.right)
    ensures ExprSize(e.left) + ExprSize(e.right) < ExprSize(e)
    ensures var (b1, vx) := LowerExpr(hlsl, b, e.left);
            var (b2, vy) := LowerExpr(hlsl, b1, e.right);
            LowerExpr(hlsl, b, e) == Emitted(b2, LogicalBin(b2.nextId, e.isAnd, vx, vy))
    ensures var (v, st1) := EvalExpr(mg, hlsl, e.left, st);
            var (w, st2) := EvalExpr(mg, hlsl, e.right, st1);
            EvalExpr(mg, hlsl, e, st) == (mg.logical(e.isAnd, v, w), st2)
  {
    StrictSteps(hlsl, b, e);
    hide LowerExpr, Framed, Grows, Emitted;
    if !hlsl {
      TrivialIsPure(hlsl, e.right);
      PureKeepsStore(mg, hlsl, e.right, EvalExpr(mg, hlsl, e.left, st).1);
    }
  }

  /** A logical operator whose right operand is cheap and safe to evaluate. */
  lemma {:induction false} SimStrict(m: Machine, hlsl: bool, b: Builder, e: Expr, c: Config)
    returns (n: nat, c1: Config)
    requires e.Logical? && IsTrivial(hlsl, e.right)
    requires Ok(b) && At(b, c) && WellTyped(hlsl, e) && LogicOk(m.mg, hlsl)
    requires Grows(LowerExpr(hlsl, b, e).0.blocks, m.f)
    ensures var (b1, r) := LowerExpr(hlsl, b, e); var (v, st) := EvalExpr(m.mg, hlsl, e, c.st);
            Computed(m, b, c, n, b1, c1, r, v, st)
    decreases ExprSize(e), 0
  {
    hide LowerExpr, EvalExpr, WellTyped, ExprSize, Framed, Grows, Ok, Run, LogicOk, IsTrivial, Moved;
    StrictParts(m.mg, hlsl, b, e, c.st);
    var (b1, vx) := LowerExpr(hlsl, b, e.left);
    var (b2, vy) := LowerExpr(hlsl, b1, e.right);
    var i := LogicalBin(b2.nextId, e.isAnd, vx, vy);
    var r := Emitted(b2, i);
    var (v, st1) := EvalExpr(m.mg, hlsl, e.left, c.st);
    var (w, st2) := EvalExpr(m.mg, hlsl, e.right, st1);
    var val := m.mg.logical(e.isAnd, v, w);
    Inside(b2, r.0, m.f);
    var n1, d1 := SimPair(m, hlsl, b, e.left, e.right, c);
    var d2 := Define(d1, b2.nextId, val);
    DefineStep(m, b2, i, d1, val);
    ThenComputed(m, b, c, n1, b2, d1, vy, w, st2, 1, r.0, d2, r.1, val, st2);
    n, c1 := n1 + 1, d2;
  }

  /** How a short-circuited operator is translated and what it means. */
  lemma ShortCircuitParts(mg: Meaning, hlsl: bool, b: Builder, e: Expr, st: Store)
    requires e.Logical? && !IsTrivial(hlsl, e.right) && Ok(b) && WellTyped(hlsl, e)
    ensures WellTyped(hlsl, e.left) && WellTyped(hlsl, e.right)
    ensures ExprSize(e.left) < ExprSize(e) && ExprSize(e.right) < ExprSize(e)
    ensures var (b1, vx) := LowerExpr(hlsl, b, e.left);
            var (b2, guard) := Guard(b1, e.isAnd, vx);
            && Ok(BeginIf(b2)) && b1.nextId <= b2.nextId && b.nextId <= b1.nextId
            && var (b3, vy) := LowerExpr(hlsl, BeginIf(b2), e.right);
            LowerExpr(hlsl, b, e) == JoinLogical(b2, vx, guard, b3, vy)
    ensures var (v, st1) := EvalExpr(mg, hlsl, e.left, st);
            EvalExpr(mg, hlsl, e, st) == if (v != 0) == e.isAnd then EvalExpr(mg, hlsl, e.right, st1) else (v, st1)
  {
    ShortCircuitSteps(hlsl, b, e);
    hide LowerExpr, JoinLogical, Framed, Grows;
  }

  /** A logical operator whose right operand is evaluated only if it matters. */
  lemma {:induction false} SimShortCircuit(m: Machine, hlsl: bool, b: Builder, e: Expr, c: Config)
    returns (n: nat, c1: Config)
    requires e.Logical? && !IsTrivial(hlsl, e.right)
    requires Ok(b) && At(b, c) && WellTyped(hlsl, e) && LogicOk(m.mg, hlsl)
    requires Grows(LowerExpr(hlsl, b, e).0.blocks, m.f)
    ensures var (b1, r) := LowerExpr(hlsl, b, e); var (v, st) := EvalExpr(m.mg, hlsl, e, c.st);
            Computed(m, b, c, n, b1, c1, r, v, st)
    decreases ExprSize(e), 0
  {
    hide LowerExpr, EvalExpr, WellTyped, ExprSize, Grows, Ok, Run, LogicOk, IsTrivial, JoinLogical, BeginIf, Guard;
    hide Framed, Moved, Agree, Get;
    ShortCircuitParts(m.mg, hlsl, b, e, c.st);
    var (b1, vx) := LowerExpr(hlsl, b, e.left);
    var (b2, guard) := Guard(b1, e.isAnd, vx);
    var (b3, vy) := LowerExpr(hlsl, BeginIf(b2), e.right);
    var v := EvalExpr(m.mg, hlsl, e.left, c.st).0;
    LogicalIn(m.f, b2, vx, guard, b3, vy);
    Inside(b1, b2, m.f);
    var n1, d1 := SimExpr(m, hlsl, b, e.left, c);
    var n2, d2 := SimGuard(m, b1, e.isAnd, vx, d1);
    ThenMoved(m, b.nextId, b1.nextId, c, n1, d1, n2, d2);
    if (v != 0) == e.isAnd {
      var d3 := EnterRight(m, b2, vx, guard, b3, vy, d2);
      ThenMoved(m, b.nextId, b2.nextId, c, n1 + n2, d2, 2, d3);
      var n4, d4 := SimExpr(m, hlsl, BeginIf(b2), e.right, d3);
      ThenMoved(m, b.nextId, b2.nextId, c, n1 + n2 + 2, d3, n4, d4);
      c1 := FinishRight(m, b2, vx, guard, b3, vy, d4);
      ThenMoved(m, b.nextId, b2.nextId, c, n1 + n2 + 2 + n4, d4, 2, c1);
      n := n1 + n2 + 2 + n4 + 2;
    } else {
      c1 := SkipRight(m, b2, vx, guard, b3, vy, d2);
      ThenMoved(m, b.nextId, b2.nextId, c, n1 + n2, d2, 3, c1);
      n := n1 + n2 + 3;
    }
  }

  /** How a selection with both sides evaluated is translated and what it means. */
  lemma BothSidesParts(mg: Meaning, hlsl: bool, b: Builder, e: Expr, st: Store)
    requires e.Choice? && BothSides(e) && Ok(b) && WellTyped(hlsl, e)
    ensures WellTyped(hlsl, e.cond) && WellTyped(hlsl, e.yes) && WellTyped(hlsl, e.no)
    ensures ExprSize(e.cond) < ExprSize(e) && ExprSize(e.yes) + ExprSize(e.no) < ExprSize(e)
    ensures var (b1, vk) := LowerExpr(hlsl, b, e.cond);
            var (b2, vy) := LowerExpr(hlsl, b1, e.yes);
            var (b3, vn) := LowerExpr(hlsl, b2, e.no);
            LowerExpr(hlsl, b, e) == if e.ty.isSelectable then Emitted(b3, Select(b3.nextId, vk, vy, vn))
                                     else ChooseByVariable(b3, vk, vy, vn)
    ensures var (k, st1) := EvalExpr(mg, hlsl, e.cond, st);
            var (v, st2) := EvalExpr(mg, hlsl, e.yes, st1);
            var (w, st3) := EvalExpr(mg, hlsl, e.no, st2);
            EvalExpr(mg, hlsl, e, st) == (if k != 0 then v else w, st3)
  {
    var st1 := EvalExpr(mg, hlsl, e.cond, st).1;
    if e.shortCircuit {
      BothSidesArePure(hlsl, e);
      PureKeepsStore(mg, hlsl, e.yes, st1);
      PureKeepsStore(mg, hlsl, e.no, st1);
    }
  }

  lemma {:induction false} SimBothSides(m: Machine, hlsl: bool, b: Builder, e: Expr, c: Config)
    returns (n: nat, c1: Config)
    requires e.Choice? && BothSides(e)
    requires Ok(b) && At(b, c) && WellTyped(hlsl, e) && LogicOk(m.mg, hlsl)
    requires Grows(LowerExpr(hlsl, b, e).0.blocks, m.f)
    ensures var (b1, r) := LowerExpr(hlsl, b, e); var (v, st) := EvalExpr(m.mg, hlsl, e, c.st);
            Computed(m, b, c, n, b1, c1, r, v, st)
    decreases ExprSize(e), 0
  {
    hide LowerExpr, EvalExpr, WellTyped, ExprSize, Grows, Ok, Run, LogicOk, BothSides, ChooseByVariable, Framed, Moved,
         Get;
    BothSidesParts(m.mg, hlsl, b, e, c.st);
    var (b1, vk) := LowerExpr(hlsl, b, e.cond);
    var (b2, vy) := LowerExpr(hlsl, b1, e.yes);
    var (b3, vn) := LowerExpr(hlsl, b2, e.no);
    FramedTrans(b, b1, b2);
    FramedTrans(b1, b2, b3);
    var r := LowerExpr(hlsl, b, e);
    Inside(b3, r.0, m.f);
    Inside(b1, b3, m.f);
    var n1, d1 := SimExpr(m, hlsl, b, e.cond, c);
    var n2, d2 := SimPair(m, hlsl, b1, e.yes, e.no, d1);
    MovedKeeps(m, b1.nextId, d1, n2, d2, vk);
    ThenMoved(m, b.nextId, b1.nextId, c, n1, d1, n2, d2);
    var n3;
    if e.ty.isSelectable {
      n3, c1 := SimSelect(m, b3, vk, vy, vn, d2);
    } else {
      n3, c1 := SimChoose(m, b3, vk, vy, vn, d2);
    }
    ThenMoved(m, b.nextId, b3.nextId, c, n1 + n2, d2, n3, c1);
    n := n1 + n2 + n3;
  }

  lemma MovedKeeps(m: Machine, k: nat, c: Config, n: nat, c1: Config, id: nat)
    requires Moved(m, k, c, n, c1) && id < k
    ensures Get(c1.env, id) == Get(c.env, id)
  {
  }

  lemma SimSelect(m: Machine, b: Builder, cond: nat, yes: nat, no: nat, c: Config) returns (n: nat, c1: Config)
    requires Ok(b) && At(b, c) && Grows(Emitted(b, Select(b.nextId, cond, yes, no)).0.blocks, m.f)
    ensures var r := Emitted(b, Select(b.nextId, cond, yes, no));
            Computed(m, b, c, n, r.0, c1, r.1, if Get(c.env, cond) != 0 then Get(c.env, yes) else Get(c.env, no), c.st)
  {
    var v := if Get(c.env, cond) != 0 then Get(c.env, yes) else Get(c.env, no);
    DefineStep(m, b, Select(b.nextId, cond, yes, no), c, v);
    n, c1 := 1, Define(c, b.nextId, v);
  }

  /** How a selection with one side evaluated is translated and what it means. */
  lemma OneSideParts(mg: Meaning, hlsl: bool, b: Builder, e: Expr, st: Store)
    requires e.Choice? && !BothSides(e) && Ok(b) && WellTyped(hlsl, e)
    ensures WellTyped(hlsl, e.cond) && WellTyped(hlsl, e.yes) && WellTyped(hlsl, e.no)
    ensures ExprSize(e.cond) < ExprSize(e) && ExprSize(e.yes) < ExprSize(e) && ExprSize(e.no) < ExprSize(e)
    ensures var (b1, vk) := LowerExpr(hlsl, b, e.cond);
            var b2 := BeginSelection(b1);
            var (b3, vy) := LowerExpr(hlsl, b2, e.yes);
            var b4 := StoreResult(b2, b3, b1.nextId, vy);
            var b5 := SecondArm(FreshId(b1), b4);
            var (b6, vn) := LowerExpr(hlsl, b5, e.no);
            var b7 := StoreResult(b5, b6, b1.nextId, vn);
            && LowerExpr(hlsl, b, e) == JoinSelection(b1, b4, b7, vk)
            && b.nextId <= b1.nextId < b2.nextId <= b5.nextId
    ensures var (k, st1) := EvalExpr(mg, hlsl, e.cond, st);
            EvalExpr(mg, hlsl, e, st) == EvalExpr(mg, hlsl, if k != 0 then e.yes else e.no, st1)
  {
    var (b1, vk) := LowerExpr(hlsl, b, e.cond);
    var b2 := BeginSelection(b1);
    var (b3, vy) := LowerExpr(hlsl, b2, e.yes);
    var b4 := StoreResult(b2, b3, b1.nextId, vy);
    assert b2.nextId <= b4.nextId;
  }

  lemma {:induction false} SimOneSide(m: Machine, hlsl: bool, b: Builder, e: Expr, c: Config)
    returns (n: nat, c1: Config)
    requires e.Choice? && !BothSides(e)
    requires Ok(b) && At(b, c) && WellTyped(hlsl, e) && LogicOk(m.mg, hlsl)
    requires Grows(LowerExpr(hlsl, b, e).0.blocks, m.f)
    ensures var (b1, r) := LowerExpr(hlsl, b, e); var (v, st) := EvalExpr(m.mg, hlsl, e, c.st);
            Computed(m, b, c, n, b1, c1, r, v, st)
    decreases ExprSize(e), 0
  {
    hide LowerExpr, EvalExpr, WellTyped, ExprSize, Grows, Ok, Run, LogicOk, BothSides, Framed, Moved, Get;
    hide BeginSelection, StoreResult, SecondArm, JoinSelection;
    OneSideParts(m.mg, hlsl, b, e, c.st);
    var (b1, vk) := LowerExpr(hlsl, b, e.cond);
    var b2 := BeginSelection(b1);
    var (b3, vy) := LowerExpr(hlsl, b2, e.yes);
    var b4 := StoreResult(b2, b3, b1.nextId, vy);
    var b5 := SecondArm(FreshId(b1), b4);
    var (b6, vn) := LowerExpr(hlsl, b5, e.no);
    var b7 := StoreResult(b5, b6, b1.nextId, vn);
    SelectionIn(m.f, b1, b4, b7, vk);
    StoreInside(m.f, b2, b3, b1.nextId, vy);
    StoreInside(m.f, b5, b6, b1.nextId, vn);
    var n1, d1 := SimExpr(m, hlsl, b, e.cond, c);
    var k := EvalExpr(m.mg, hlsl, e.cond, c.st).0;
    if k != 0 {
      var d2 := EnterYes(m, b1, b4, b7, vk, d1);
      var n2, d3 := SimExpr(m, hlsl, b2, e.yes, d2);
      var d4 := SimStore(m, b2, b3, b1.nextId, vy, d3);
      c1 := SimJoin(m, b1, b4, b7, vk, false, d4);
      n := MoveFour(m, b.nextId, b1.nextId, b2.nextId, c, n1, d1, d2, n2, d3, d4, c1);
    } else {
      var d2 := EnterNo(m, b1, b4, b7, vk, d1);
      var n2, d3 := SimExpr(m, hlsl, b5, e.no, d2);
      var d4 := SimStore(m, b5, b6, b1.nextId, vn, d3);
      c1 := SimJoin(m, b1, b4, b7, vk, true, d4);
      n := MoveFour(m, b.nextId, b1.nextId, b5.nextId, c, n1, d1, d2, n2, d3, d4, c1);
    }
  }

  lemma StoreInside(f: seq<Block>, b: Builder, arm: Builder, result: nat, value: nat)
    requires Framed(b, arm) && Grows(StoreResult(b, arm, result, value).blocks, f)
    ensures Grows(arm.blocks, f) && Ok(arm)
  {
    EmitFramed(arm, StoreVar(result, value));
    Inside(arm, StoreResult(b, arm, result, value), f);
  }

  lemma MoveFour(m: Machine, k: nat, k1: nat, k2: nat, c: Config, n1: nat, d1: Config, d2: Config, n2: nat, d3: Config,
                 d4: Config, d5: Config) returns (n: nat)
    requires k <= k1 <= k2
    requires Moved(m, k, c, n1, d1) && Moved(m, k1, d1, 2, d2) && Moved(m, k2, d2, n2, d3)
    requires Moved(m, k1, d3, 1, d4) && Moved(m, k1, d4, 2, d5)
    ensures Moved(m, k, c, n, d5)
  {
    ThenMoved(m, k, k1, c, n1, d1, 2, d2);
    ThenMoved(m, k, k2, c, n1 + 2, d2, n2, d3);
    ThenMoved(m, k, k1, c, n1 + 2 + n2, d3, 1, d4);
    ThenMoved(m, k, k1, c, n1 + 2 + n2 + 1, d4, 2, d5);
    n := n1 + 2 + n2 + 1 + 2;
  }
}
