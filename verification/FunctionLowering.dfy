/** Whole function bodies: the blocks and the program have exactly the same results. */
module FunctionLowering {
  import opened ShaderAst
  import opened SpirvBuilder
  import opened Lowering
  import opened LoweringCorrect
  import opened StatementLowering
  import opened StatementCorrect
  import opened LoweringTheorem

  /** A function starts with its entry block. */
  const ENTRY := Builder([EMPTY_BLOCK], 0, 0, [], [], [])

  function LowerBody(hlsl: bool, valued: bool, body: Stmt): seq<Block> {
    LeaveFunction(LowerStmt(hlsl, ENTRY, body), valued).blocks
  }

  /** The end of a body returns, with an undefined value if the function has a result. */
  function LeaveFunction(b: Builder, valued: bool): Builder
    requires Ok(b)
  {
    if !valued then Terminate(b, ReturnT(NoId))
    else
      var (b1, value) := Emitted(b, Undef(b.nextId));
      Terminate(b1, ReturnT(SomeId(value)))
  }

  /** break is inside a loop or switch, continue inside a loop. */
  predicate Nested(s: Stmt, inBreakable: bool, inLoop: bool) {
    match s
    case Seq(first, second) => Nested(first, inBreakable, inLoop) && Nested(second, inBreakable, inLoop)
    case If(_, yes, no, _) => Nested(yes, inBreakable, inLoop) && Nested(no, inBreakable, inLoop)
    case Loop(_, _, _, body) => Nested(body, true, true)
    case Switch(_, items) => ItemsNested(items, inLoop)
    case Break => inBreakable
    case Continue => inLoop
    case _ => true
  }

  predicate ItemsNested(items: Items, inLoop: bool) {
    match items
    case NoItems => true
    case CaseLabel(_, rest) => ItemsNested(rest, inLoop)
    case DefaultLabel(rest) => ItemsNested(rest, inLoop)
    case Code(s, rest) => Nested(s, true, inLoop) && ItemsNested(rest, inLoop)
  }

  /** No jump leaves a statement that is not inside something to jump out of. */
  predicate Allowed(res: Result, inBreakable: bool, inLoop: bool) {
    res.Done? ==> (res.out.Broke? ==> inBreakable) && (res.out.Continued? ==> inLoop)
  }

  lemma {:induction false} NestedOutcome(mg: Meaning, hlsl: bool, s: Stmt, st: Store, fuel: nat, inBreakable: bool,
                                         inLoop: bool)
    requires Nested(s, inBreakable, inLoop)
    ensures Allowed(Exec(mg, hlsl, s, st, fuel), inBreakable, inLoop)
    decreases fuel, s, 1
  {
    match s
    case Seq(first, second) =>
      NestedOutcome(mg, hlsl, first, st, fuel, inBreakable, inLoop);
      var r := Exec(mg, hlsl, first, st, fuel);
      if r.Done? && r.out.Normal? {
        NestedOutcome(mg, hlsl, second, r.st, fuel, inBreakable, inLoop);
      }
    case If(c, yes, no, _) =>
      var st1 := EvalExpr(mg, hlsl, c, st).1;
      NestedOutcome(mg, hlsl, yes, st1, fuel, inBreakable, inLoop);
      NestedOutcome(mg, hlsl, no, st1, fuel, inBreakable, inLoop);
    case Switch(c, items) =>
      var (v, st1) := EvalExpr(mg, hlsl, c, st);
      SelectedNested(items, v, inLoop);
      ItemsOutcome(mg, hlsl, SelectedItems(items, v), st1, fuel, inLoop);
    case Loop(_, _, _, _) => LoopOutcome(mg, hlsl, s, st, fuel);
    case _ =>
  }

  lemma {:induction false} LoopOutcome(mg: Meaning, hlsl: bool, s: Stmt, st: Store, fuel: nat)
    requires s.Loop? && Nested(s.body, true, true)
    ensures Allowed(Exec(mg, hlsl, s, st, fuel), false, false)
    decreases fuel, s, 0
  {
    if fuel > 0 {
      hide Exec, EvalExpr, EvalMaybe;
      var first := s.testFirst && s.test.SomeExpr?;
      var (v, st0) := if first then EvalExpr(mg, hlsl, s.test.e, st) else (1, st);
      if first {
        TestFirstMeans(mg, hlsl, s, st, fuel);
      } else {
        TestLastMeans(mg, hlsl, s, st, fuel);
      }
      NestedOutcome(mg, hlsl, s.body, st0, fuel, true, true);
      var body := Exec(mg, hlsl, s.body, st0, fuel);
      if body.Done? {
        var st1 := EvalMaybe(mg, hlsl, s.terminal, body.st).1;
        LoopOutcome(mg, hlsl, s, st1, fuel - 1);
        if s.test.SomeExpr? {
          LoopOutcome(mg, hlsl, s, EvalExpr(mg, hlsl, s.test.e, st1).1, fuel - 1);
        }
      }
    }
  }

  lemma {:induction false} SelectedNested(items: Items, v: int, inLoop: bool)
    requires ItemsNested(items, inLoop)
    ensures ItemsNested(CaseItems(items, v), inLoop) && ItemsNested(DefaultItems(items), inLoop)
  {
    match items
    case NoItems =>
    case CaseLabel(_, rest) => SelectedNested(rest, v, inLoop);
    case DefaultLabel(rest) => SelectedNested(rest, v, inLoop);
    case Code(_, rest) => SelectedNested(rest, v, inLoop);
  }

  lemma {:induction false} ItemsOutcome(mg: Meaning, hlsl: bool, items: Items, st: Store, fuel: nat, inLoop: bool)
    requires ItemsNested(items, inLoop)
    ensures Allowed(ExecItems(mg, hlsl, items, st, fuel), true, inLoop)
    decreases fuel, items, 0
  {
    match items
    case NoItems =>
    case CaseLabel(_, rest) => ItemsOutcome(mg, hlsl, rest, st, fuel, inLoop);
    case DefaultLabel(rest) => ItemsOutcome(mg, hlsl, rest, st, fuel, inLoop);
    case Code(s, rest) =>
      NestedOutcome(mg, hlsl, s, st, fuel, true, inLoop);
      var r := Exec(mg, hlsl, s, st, fuel);
      if r.Done? && r.out.Normal? {
        ItemsOutcome(mg, hlsl, rest, r.st, fuel, inLoop);
      }
  }

  // ---------- the theorem ----------

  /** Reaching the end of the body is returning, with an undefined value if the function has a result. */
  function Final(mg: Meaning, valued: bool, out: Outcome, st: Store): Outcome {
    if !out.Normal? then out else Returned(if valued then SomeValue(mg.undefined(st)) else NoValue)
  }

  ghost predicate ProgramEnds(mg: Meaning, hlsl: bool, valued: bool, body: Stmt, st: Store, out: Outcome,
                              final: Store) {
    exists fuel: nat, o :: Exec(mg, hlsl, body, st, fuel) == Done(o, final) && Final(mg, valued, o, final) == out
  }

  ghost predicate BlocksEnd(mg: Meaning, f: seq<Block>, env: map<nat, Value>, st: Store, out: Outcome, final: Store) {
    exists n: nat :: Run(Machine(mg, f), Going(0, 0, 0, env, st), n) == Halted(out, final)
  }

  lemma EndGrows(b: Builder, valued: bool)
    requires Ok(b)
    ensures Grows(b.blocks, LeaveFunction(b, valued).blocks)
  {
  }

  /** From the end of the body through the return that is added. */
  lemma RunEnd(m: Machine, b: Builder, valued: bool, d: Config) returns (n: nat)
    requires Ok(b) && At(b, d) && m.f == LeaveFunction(b, valued).blocks
    ensures Run(m, d, n) == Halted(Final(m.mg, valued, Normal, d.st), d.st)
  {
    if valued {
      var i := Undef(b.nextId);
      var b1, d1 := Emitted(b, i).0, Perform(m.mg, i, d);
      EmitStep(m, FreshId(b), i, d);
      LeaveStep(m, b1, ReturnT(SomeId(b.nextId)), d1);
      RunAdds(m, d, 1, 1);
      n := 2;
    } else {
      LeaveStep(m, b, ReturnT(NoId), d);
      n := 1;
    }
  }

  /** With this much fuel, the run of the blocks has ended like the program, or has made as many steps. */
  lemma RunBody(mg: Meaning, hlsl: bool, valued: bool, body: Stmt, env: map<nat, Value>, st: Store, fuel: nat)
    returns (n: nat)
    requires StmtTyped(hlsl, body) && LogicOk(mg, hlsl) && Nested(body, false, false)
    ensures var c1 := Run(Machine(mg, LowerBody(hlsl, valued, body)), Going(0, 0, 0, env, st), n);
            match Exec(mg, hlsl, body, st, fuel)
            case OutOfFuel => n >= fuel && c1.Going?
            case Done(out, final) => c1 == Halted(Final(mg, valued, out, final), final)
  {
    hide LowerStmt, Exec, StmtTyped, LogicOk, Nested, Run;
    var m := Machine(mg, LowerBody(hlsl, valued, body));
    var c := Going(0, 0, 0, env, st);
    var b := LowerStmt(hlsl, ENTRY, body);
    assert m.f == LeaveFunction(b, valued).blocks;
    EndGrows(b, valued);
    var n1, d := SimStmt(m, hlsl, ENTRY, body, fuel, c);
    NestedOutcome(mg, hlsl, body, st, fuel, false, false);
    var res := Exec(mg, hlsl, body, st, fuel);
    n := n1;
    if res.Done? && res.out.Normal? {
      var n2 := RunEnd(m, b, valued, d);
      RunAdds(m, c, n1, n2);
      n := n1 + n2;
    }
  }

  /**
   * The blocks end exactly when the program does, with the same outcome, returned value and store,
   * whatever values the ids have to begin with and whatever operators do on operands that they fail on; and they never
   * get stuck.
   */
  lemma LoweredBodyAgrees(mg: Meaning, hlsl: bool, valued: bool, body: Stmt, env: map<nat, Value>, st: Store)
    requires StmtTyped(hlsl, body) && LogicOk(mg, hlsl) && Nested(body, false, false)
    ensures forall out, final ::
              BlocksEnd(mg, LowerBody(hlsl, valued, body), env, st, out, final)
              <==> ProgramEnds(mg, hlsl, valued, body, st, out, final)
    ensures forall n: nat :: Run(Machine(mg, LowerBody(hlsl, valued, body)), Going(0, 0, 0, env, st), n) != Stuck
  {
    hide LowerBody, Exec, StmtTyped, LogicOk, Nested, Run;
    var m := Machine(mg, LowerBody(hlsl, valued, body));
    var c := Going(0, 0, 0, env, st);
    forall out, final | BlocksEnd(mg, m.f, env, st, out, final)
      ensures ProgramEnds(mg, hlsl, valued, body, st, out, final)
    {
      var k: nat :| Run(m, c, k) == Halted(out, final);
      var n := RunBody(mg, hlsl, valued, body, env, st, k + 1);
      SameEnd(m, c, k, n);
      assert Exec(mg, hlsl, body, st, k + 1).Done?;
    }
    forall out, final | ProgramEnds(mg, hlsl, valued, body, st, out, final)
      ensures BlocksEnd(mg, m.f, env, st, out, final)
    {
      var fuel: nat, o :| Exec(mg, hlsl, body, st, fuel) == Done(o, final) && Final(mg, valued, o, final) == out;
      var n := RunBody(mg, hlsl, valued, body, env, st, fuel);
    }
    forall k: nat ensures Run(m, c, k) != Stuck {
      var n := RunBody(mg, hlsl, valued, body, env, st, k + 1);
      if Run(m, c, k) == Stuck {
        SameEnd(m, c, k, n);
      }
    }
  }

  /** A run that is over by step `k` is the same at every later step, and was not over differently before. */
  lemma SameEnd(m: Machine, c: Config, k: nat, n: nat)
    requires !Run(m, c, k).Going?
    ensures n >= k ==> Run(m, c, n) == Run(m, c, k)
    ensures !Run(m, c, n).Going? ==> Run(m, c, n) == Run(m, c, k)
  {
    if n >= k {
      RunAdds(m, c, k, n - k);
      OverStaysOver(m, Run(m, c, k), n - k);
    } else if !Run(m, c, n).Going? {
      RunAdds(m, c, n, k - n);
      OverStaysOver(m, Run(m, c, n), k - n);
    }
  }
}
