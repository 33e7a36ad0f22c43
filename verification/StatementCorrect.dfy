/** The blocks made for a statement do what the statement does. */
module StatementCorrect {
  import opened ShaderAst
  import opened SpirvBuilder
  import opened Lowering
  import opened LoweringCorrect
  import opened StatementLowering

  predicate StmtTyped(hlsl: bool, s: Stmt) {
    match s
    case Skip => true
    case Eval(e) => WellTyped(hlsl, e)
    case Seq(first, second) => StmtTyped(hlsl, first) && StmtTyped(hlsl, second)
    case If(c, yes, no, _) => WellTyped(hlsl, c) && StmtTyped(hlsl, yes) && StmtTyped(hlsl, no)
    case Loop(_, test, terminal, body) =>
      MaybeWellTyped(hlsl, test) && MaybeWellTyped(hlsl, terminal) && StmtTyped(hlsl, body)
    case Switch(c, items) => WellTyped(hlsl, c) && ItemsTyped(hlsl, items)
    case Break => true
    case Continue => true
    case Return(m) => MaybeWellTyped(hlsl, m)
    case Discard => true
  }

  predicate ItemsTyped(hlsl: bool, items: Items) {
    match items
    case NoItems => true
    case CaseLabel(_, rest) => ItemsTyped(hlsl, rest)
    case DefaultLabel(rest) => ItemsTyped(hlsl, rest)
    case Code(s, rest) => StmtTyped(hlsl, s) && ItemsTyped(hlsl, rest)
  }

  // ---------- what a run must do ----------

  predicate AtStart(c: Config, block: nat) {
    c.Going? && c.block == block && c.pc == 0
  }

  /** Where a statement translated from `b` to `r` ends: at `r`, at a jump target, or nowhere. */
  ghost predicate Landed(b: Builder, r: Builder, out: Outcome, st: Store, c: Config) {
    match out
    case Normal => At(r, c) && c.st == st
    case Broke => AtStart(c, BreakTarget(b)) && c.st == st
    case Continued => AtStart(c, ContinueTarget(b)) && c.st == st
    case Returned(_) => c == Halted(out, st)
    case Discarded => c == Halted(out, st)
  }

  /**
   * In `n` steps the machine follows the result; for a run that is out of fuel it is not over after that many steps.
   */
  ghost predicate Follows(m: Machine, b: Builder, r: Builder, fuel: nat, res: Result, c: Config, n: nat, c1: Config) {
    && c1 == Run(m, c, n)
    && match res
       case OutOfFuel => n >= fuel && c1.Going?
       case Done(out, st) => Landed(b, r, out, st, c1)
  }

  /** The statement at `b` for a sub-statement at `b1`. */
  predicate SameTargets(b: Builder, b1: Builder) {
    BreakTarget(b) == BreakTarget(b1) && ContinueTarget(b) == ContinueTarget(b1)
  }

  lemma FramedTargets(b: Builder, r: Builder)
    requires Framed(b, r)
    ensures SameTargets(b, r)
  {
  }

  /** Steps in front of a run that does not end at the build point. */
  lemma Before(m: Machine, b: Builder, r: Builder, b1: Builder, r1: Builder, fuel: nat, res: Result,
               c: Config, n1: nat, d: Config, n2: nat, c1: Config)
    requires d == Run(m, c, n1) && Follows(m, b1, r1, fuel, res, d, n2, c1) && SameTargets(b, b1)
    requires r == r1 || !(res.Done? && res.out.Normal?)
    ensures Follows(m, b, r, fuel, res, c, n1 + n2, c1)
  {
    RunAdds(m, c, n1, n2);
  }

  /** One more iteration uses at least one step. */
  lemma BeforeIteration(m: Machine, b: Builder, r: Builder, fuel: nat, res: Result,
                        c: Config, n1: nat, d: Config, n2: nat, c1: Config)
    requires d == Run(m, c, n1) && n1 > 0 && fuel > 0 && Follows(m, b, r, fuel - 1, res, d, n2, c1)
    ensures Follows(m, b, r, fuel, res, c, n1 + n2, c1)
  {
    RunAdds(m, c, n1, n2);
  }

  lemma MovedRun(m: Machine, k: nat, c: Config, n: nat, c1: Config, n2: nat, c2: Config)
    requires Moved(m, k, c, n, c1) && c2 == Run(m, c1, n2)
    ensures c2 == Run(m, c, n + n2)
  {
    RunAdds(m, c, n, n2);
  }

  // ---------- single pieces ----------

  /** In the finished blocks, a build point that was ended is there as it was ended. */
  lemma ClosedIn(f: seq<Block>, b: Builder, t: Terminator, y: Builder)
    requires Ok(b) && t != Open && Grows(Terminate(b, t).blocks, y.blocks) && Grows(y.blocks, f)
    ensures Grows(b.blocks, f) && b.cur < |f| && f[b.cur] == b.blocks[b.cur].(term := t)
  {
    var x := Terminate(b, t);
    GrowsTrans(x.blocks, y.blocks, f);
    assert Grows(b.blocks, x.blocks);
    GrowsTrans(b.blocks, x.blocks, f);
  }

  lemma SimJump(m: Machine, b: Builder, t: Terminator, c: Config) returns (c1: Config)
    requires Ok(b) && At(b, c) && t != Open && Grows(Jump(b, t).blocks, m.f)
    ensures c1 == Run(m, c, 1) == Leave(t, c) && Grows(b.blocks, m.f)
  {
    EndWithFramed(b, t);
    ClosedIn(m.f, b, t, Jump(b, t));
    LeaveStep(m, b, t, c);
    c1 := Leave(t, c);
  }

  lemma SimMaybe(m: Machine, hlsl: bool, b: Builder, e: MaybeExpr, c: Config) returns (n: nat, c1: Config)
    requires Ok(b) && At(b, c) && MaybeWellTyped(hlsl, e) && LogicOk(m.mg, hlsl)
    requires Grows(LowerMaybe(hlsl, b, e).blocks, m.f)
    ensures Moved(m, b.nextId, c, n, c1) && At(LowerMaybe(hlsl, b, e), c1) && c1.st == EvalMaybe(m.mg, hlsl, e, c.st).1
  {
    match e
    case NoExpr => n, c1 := 0, c;
    case SomeExpr(x) => n, c1 := SimExpr(m, hlsl, b, x, c);
  }

  /** How a return statement is translated and what it means. */
  lemma ReturnParts(mg: Meaning, hlsl: bool, b: Builder, s: Stmt, e: Expr, st: Store, fuel: nat)
    requires s == Return(SomeExpr(e)) && Ok(b) && StmtTyped(hlsl, s)
    ensures WellTyped(hlsl, e)
    ensures var (b1, v) := LowerExpr(hlsl, b, e); LowerStmt(hlsl, b, s) == Jump(b1, ReturnT(SomeId(v)))
    ensures var (v, st1) := EvalExpr(mg, hlsl, e, st); Exec(mg, hlsl, s, st, fuel) == Done(Returned(SomeValue(v)), st1)
  {
    hide LowerExpr, EvalExpr, WellTyped, Framed, Jump;
  }

  lemma ReturnNothing(mg: Meaning, hlsl: bool, b: Builder, s: Stmt, st: Store, fuel: nat)
    requires s == Return(NoExpr) && Ok(b)
    ensures LowerStmt(hlsl, b, s) == Jump(b, ReturnT(NoId))
    ensures Exec(mg, hlsl, s, st, fuel) == Done(Returned(NoValue), st)
  {
  }

  lemma SimReturn(m: Machine, hlsl: bool, b: Builder, s: Stmt, fuel: nat, c: Config) returns (n: nat, c1: Config)
    requires s.Return? && Ok(b) && At(b, c) && StmtTyped(hlsl, s) && LogicOk(m.mg, hlsl)
    requires Grows(LowerStmt(hlsl, b, s).blocks, m.f)
    ensures Follows(m, b, LowerStmt(hlsl, b, s), fuel, Exec(m.mg, hlsl, s, c.st, fuel), c, n, c1)
  {
    hide LowerStmt, LowerExpr, Exec, EvalExpr, StmtTyped, WellTyped, LogicOk, Grows, Framed, Jump, Run;
    match s.value
    case NoExpr =>
      ReturnNothing(m.mg, hlsl, b, s, c.st, fuel);
      n := 1;
      c1 := SimJump(m, b, ReturnT(NoId), c);
    case SomeExpr(e) =>
      ReturnParts(m.mg, hlsl, b, s, e, c.st, fuel);
      var (b1, v) := LowerExpr(hlsl, b, e);
      Inside(b1, Jump(b1, ReturnT(SomeId(v))), m.f);
      var n1, d := SimExpr(m, hlsl, b, e, c);
      c1 := SimJump(m, b1, ReturnT(SomeId(v)), d);
      MovedRun(m, b.nextId, c, n1, d, 1, c1);
      n := n1 + 1;
  }

  // ---------- arms and bodies ----------

  /** What follows an arm that was ended with a branch to `merge`. */
  lemma AfterArm(m: Machine, b: Builder, r: Builder, b1: Builder, arm: Builder, merge: nat, fuel: nat, res: Result,
                 c: Config, n: nat, c1: Config) returns (n2: nat, c2: Config)
    requires Follows(m, b1, arm, fuel, res, c, n, c1) && SameTargets(b, b1) && Ok(arm)
    requires arm.cur < |m.f| && m.f[arm.cur] == arm.blocks[arm.cur].(term := Branch(merge))
    requires Sized(r) && r.cur == merge && r.blocks[merge] == EMPTY_BLOCK
    ensures Follows(m, b, r, fuel, res, c, n2, c2)
  {
    if res.Done? && res.out.Normal? {
      LeaveStep(m, arm, Branch(merge), c1);
      c2 := Goto(c1, merge);
      RunAdds(m, c, n, 1);
      n2 := n + 1;
    } else {
      n2, c2 := n, c1;
    }
  }

  /** The body of a loop that ends normally or with continue gets to the continue target. */
  lemma AfterBodyRun(m: Machine, p0: Builder, p1: Builder, cont: nat, fuel: nat, res: Result,
                     c: Config, n: nat, c1: Config) returns (n2: nat, c2: Config)
    requires Follows(m, p0, p1, fuel, res, c, n, c1) && Ok(p1) && ContinueTarget(p0) == cont
    requires p1.cur < |m.f| && m.f[p1.cur] == p1.blocks[p1.cur].(term := Branch(cont))
    requires res.Done? && (res.out.Normal? || res.out.Continued?)
    ensures c2 == Run(m, c, n2) && AtStart(c2, cont) && c2.st == res.st
  {
    if res.out.Normal? {
      LeaveStep(m, p1, Branch(cont), c1);
      c2 := Goto(c1, cont);
      RunAdds(m, c, n, 1);
      n2 := n + 1;
    } else {
      n2, c2 := n, c1;
    }
  }

  lemma LoopHeadStep(m: Machine, c: Config, head: nat, i: Instr, t: Terminator)
    requires AtStart(c, head) && head < |m.f| && m.f[head] == Block([i], t) && i.LoopMerge?
    ensures Run(m, c, 2) == Leave(t, c.(pc := 1))
  {
    var c1 := c.(pc := 1);
    assert Step(m, c) == c1 && Step(m, c1) == Leave(t, c1);
    assert Run(m, c, 2) == Run(m, c1, 1) == Run(m, Step(m, c1), 0);
  }

  /** An expression followed by a branch, started at an empty block. */
  lemma SimTest(m: Machine, hlsl: bool, t0: Builder, e: Expr, yes: nat, no: nat, c: Config) returns (n: nat, c1: Config)
    requires Ok(t0) && t0.blocks[t0.cur] == EMPTY_BLOCK && AtStart(c, t0.cur)
    requires WellTyped(hlsl, e) && LogicOk(m.mg, hlsl)
    requires var (t1, k) := LowerExpr(hlsl, t0, e);
             && Grows(t1.blocks, m.f) && t1.cur < |m.f|
             && m.f[t1.cur] == t1.blocks[t1.cur].(term := CondBranch(k, yes, no))
    ensures var (v, st) := EvalExpr(m.mg, hlsl, e, c.st);
            n > 0 && c1 == Run(m, c, n) && AtStart(c1, if v != 0 then yes else no) && c1.st == st
  {
    hide LowerExpr, EvalExpr, WellTyped, Grows, LogicOk;
    var n1, d := SimExpr(m, hlsl, t0, e, c);
    var (t1, k) := LowerExpr(hlsl, t0, e);
    LeaveStep(m, t1, CondBranch(k, yes, no), d);
    c1 := Run(m, d, 1);
    MovedRun(m, t0.nextId, c, n1, d, 1, c1);
    n := n1 + 1;
  }

  /** The terminal expression followed by a branch. */
  lemma SimTerminal(m: Machine, hlsl: bool, q0: Builder, e: MaybeExpr, next: nat, c: Config)
    returns (n: nat, c1: Config)
    requires Ok(q0) && q0.blocks[q0.cur] == EMPTY_BLOCK && AtStart(c, q0.cur)
    requires MaybeWellTyped(hlsl, e) && LogicOk(m.mg, hlsl)
    requires var q1 := LowerMaybe(hlsl, q0, e);
             Grows(q1.blocks, m.f) && q1.cur < |m.f| && m.f[q1.cur] == q1.blocks[q1.cur].(term := Branch(next))
    ensures n > 0 && c1 == Run(m, c, n) && AtStart(c1, next) && c1.st == EvalMaybe(m.mg, hlsl, e, c.st).1
  {
    hide LowerMaybe, EvalMaybe, MaybeWellTyped, Grows, LogicOk;
    var n1, d := SimMaybe(m, hlsl, q0, e, c);
    var q1 := LowerMaybe(hlsl, q0, e);
    LeaveStep(m, q1, Branch(next), d);
    c1 := Goto(d, next);
    MovedRun(m, q0.nextId, c, n1, d, 1, c1);
    n := n1 + 1;
  }

  // ---------- loops in the finished blocks ----------

  /** What the finished blocks hold of a loop's body and continue target. */
  ghost predicate BodyIn(f: seq<Block>, hlsl: bool, b: Builder, s: Stmt, p0: Builder, p1: Builder, q0: Builder,
                         r: Builder)
    requires s.Loop?
  {
    var l := LoopOf(b);
    && Ok(p0) && p0.cur == l.body && p0.blocks[p0.cur] == EMPTY_BLOCK
    && BreakTarget(p0) == l.merge && ContinueTarget(p0) == l.cont
    && p1 == LowerStmt(hlsl, p0, s.body) && Ok(p1) && Grows(p1.blocks, f)
    && p1.cur < |f| && f[p1.cur] == p1.blocks[p1.cur].(term := Branch(l.cont))
    && Ok(q0) && q0.cur == l.cont && q0.blocks[q0.cur] == EMPTY_BLOCK
    && Sized(r) && r.cur == l.merge && r.blocks[r.cur] == EMPTY_BLOCK
  }

  /** A loop that tests first. */
  ghost predicate FirstIn(f: seq<Block>, hlsl: bool, b: Builder, s: Stmt, t0: Builder,
                          p0: Builder, p1: Builder, q0: Builder)
    requires Ok(b) && s.Loop? && s.testFirst && s.test.SomeExpr?
  {
    var l := LoopOf(b);
    && BodyIn(f, hlsl, b, s, p0, p1, q0, LowerTestFirst(hlsl, b, s))
    && b.cur < |f| && f[b.cur] == b.blocks[b.cur].(term := Branch(l.head))
    && l.head < |f| && f[l.head] == Block([LoopMerge(l.merge, l.cont)], Branch(t0.cur))
    && Ok(t0) && t0.blocks[t0.cur] == EMPTY_BLOCK
    && (var (t1, k) := LowerExpr(hlsl, t0, s.test.e);
        && Grows(t1.blocks, f) && t1.cur < |f|
        && f[t1.cur] == t1.blocks[t1.cur].(term := CondBranch(k, l.body, l.merge)))
    && (var q1 := LowerMaybe(hlsl, q0, s.terminal);
        Grows(q1.blocks, f) && q1.cur < |f| && f[q1.cur] == q1.blocks[q1.cur].(term := Branch(l.head)))
  }

  /** A loop that tests last or not at all. */
  ghost predicate LastIn(f: seq<Block>, hlsl: bool, b: Builder, s: Stmt, p0: Builder, p1: Builder, q0: Builder)
    requires Ok(b) && s.Loop?
  {
    var l := LoopOf(b);
    && BodyIn(f, hlsl, b, s, p0, p1, q0, LowerTestLast(hlsl, b, s))
    && b.cur < |f| && f[b.cur] == b.blocks[b.cur].(term := Branch(l.head))
    && l.head < |f| && f[l.head] == Block([LoopMerge(l.merge, l.cont)], Branch(l.body))
    && var q1 := LowerMaybe(hlsl, q0, s.terminal);
       && Grows(q1.blocks, f) && Ok(q1)
       && if s.test.SomeExpr? then
            (var (q2, k) := LowerExpr(hlsl, q1, s.test.e);
             && Grows(q2.blocks, f) && q2.cur < |f|
             && f[q2.cur] == q2.blocks[q2.cur].(term := CondBranch(k, l.head, l.merge)))
          else
            q1.cur < |f| && f[q1.cur] == q1.blocks[q1.cur].(term := Branch(l.head))
  }

  /** Moving on in the builder without touching the blocks that were just ended. */
  lemma EndedIn(f: seq<Block>, x: Builder, t: Terminator, y: Builder)
    requires Ok(x) && t != Open && y.blocks == Terminate(x, t).blocks && Grows(y.blocks, f)
    ensures Grows(x.blocks, f) && x.cur < |f| && f[x.cur] == x.blocks[x.cur].(term := t)
  {
    assert Grows(x.blocks, y.blocks);
    GrowsTrans(x.blocks, y.blocks, f);
  }

  /** From the header's builder back to the block the loop was opened in. */
  lemma HeaderIn(f: seq<Block>, b: Builder)
    requires Ok(b) && Grows(LoopHeader(b).blocks, f)
    ensures b.cur < |f| && f[b.cur] == b.blocks[b.cur].(term := Branch(|b.blocks|))
  {
  }

  lemma TestFirstIn(f: seq<Block>, hlsl: bool, b: Builder, s: Stmt)
    returns (t0: Builder, p0: Builder, p1: Builder, q0: Builder)
    requires Ok(b) && s.Loop? && s.testFirst && s.test.SomeExpr?
    requires Grows(LowerTestFirst(hlsl, b, s).blocks, f)
    ensures FirstIn(f, hlsl, b, s, t0, p0, p1, q0)
  {
    hide LowerExpr, LowerStmt, LowerMaybe, LowerTestFirst, Framed, Grows;
    var l := LoopOf(b);
    var h := LoopHeader(b);
    t0 := BranchToNew(h);
    var (t1, k) := LowerExpr(hlsl, t0, s.test.e);
    var q1;
    p0, p1, q0, q1 := TestFirstSteps(hlsl, b, s);
    EndedIn(f, q1, Branch(l.head), LowerTestFirst(hlsl, b, s));
    Inside(q0, q1, f);
    EndedIn(f, p1, Branch(l.cont), q0);
    Inside(p0, p1, f);
    EndedIn(f, t1, CondBranch(k, l.body, l.merge), p0);
    Inside(t0, t1, f);
    ClosedIn(f, h, Branch(t0.cur), t0);
    HeaderIn(f, b);
  }

  lemma TestLastIn(f: seq<Block>, hlsl: bool, b: Builder, s: Stmt) returns (p0: Builder, p1: Builder, q0: Builder)
    requires Ok(b) && s.Loop? && Grows(LowerTestLast(hlsl, b, s).blocks, f)
    ensures LastIn(f, hlsl, b, s, p0, p1, q0)
  {
    hide LowerExpr, LowerStmt, LowerMaybe, LowerTestLast, Framed, Grows;
    var l := LoopOf(b);
    var q1;
    p0, p1, q0, q1 := TestLastSteps(hlsl, b, s);
    var r := LowerTestLast(hlsl, b, s);
    if s.test.SomeExpr? {
      var (q2, k) := LowerExpr(hlsl, q1, s.test.e);
      EndedIn(f, q2, CondBranch(k, l.head, l.merge), r);
      Inside(q1, q2, f);
    } else {
      EndedIn(f, q1, Branch(l.head), r);
    }
    Inside(q0, q1, f);
    EndedIn(f, p1, Branch(l.cont), q0);
    Inside(p0, p1, f);
    EndedIn(f, LoopHeader(b), Branch(l.body), p0);
    HeaderIn(f, b);
  }
}
