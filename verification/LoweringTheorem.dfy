/** Structured programs and the blocks made for them have the same results. */
module LoweringTheorem {
  import opened ShaderAst
  import opened SpirvBuilder
  import opened Lowering
  import opened LoweringCorrect
  import opened StatementLowering
  import opened StatementCorrect
  import opened SwitchCorrect

  // ---------- the parts of statements ----------

  lemma LoopTyped(hlsl: bool, s: Stmt)
    requires s.Loop? && StmtTyped(hlsl, s)
    ensures MaybeWellTyped(hlsl, s.test) && MaybeWellTyped(hlsl, s.terminal) && StmtTyped(hlsl, s.body)
    ensures s.test.SomeExpr? ==> WellTyped(hlsl, s.test.e)
  {
  }

  lemma SeqParts(mg: Meaning, hlsl: bool, b: Builder, s: Stmt)
    requires s.Seq? && Ok(b) && StmtTyped(hlsl, s)
    ensures StmtTyped(hlsl, s.first) && StmtTyped(hlsl, s.second)
    ensures LowerStmt(hlsl, b, s) == LowerStmt(hlsl, LowerStmt(hlsl, b, s.first), s.second)
  {
    hide Framed, LowerTestFirst, LowerTestLast, LowerItems;
  }

  lemma SeqMeans(mg: Meaning, hlsl: bool, s: Stmt, st: Store, fuel: nat)
    requires s.Seq?
    ensures var res := Exec(mg, hlsl, s.first, st, fuel);
            Exec(mg, hlsl, s, st, fuel)
            == if res.Done? && res.out.Normal? then Exec(mg, hlsl, s.second, res.st, fuel) else res
  {
  }

  lemma IfTyped(hlsl: bool, s: Stmt)
    requires s.If? && StmtTyped(hlsl, s)
    ensures WellTyped(hlsl, s.cond) && StmtTyped(hlsl, s.yes) && StmtTyped(hlsl, s.no)
  {
  }

  /** The arms of an "if" have the jump targets of the whole. */
  lemma IfTargets(hlsl: bool, b: Builder, s: Stmt)
    requires s.If? && Ok(b)
    ensures var (b1, k) := LowerExpr(hlsl, b, s.cond);
            && Ok(BeginIf(b1)) && SameTargets(b, BeginIf(b1))
            && SameTargets(b, SecondArm(b1, LowerStmt(hlsl, BeginIf(b1), s.yes)))
  {
    hide LowerExpr, LowerStmt;
    var (b1, k) := LowerExpr(hlsl, b, s.cond);
    BeginIfShape(b1);
  }

  lemma IfMeans(mg: Meaning, hlsl: bool, s: Stmt, st: Store, fuel: nat)
    requires s.If?
    ensures var (v, st1) := EvalExpr(mg, hlsl, s.cond, st);
            Exec(mg, hlsl, s, st, fuel) == if v != 0 then Exec(mg, hlsl, s.yes, st1, fuel)
                                           else if s.hasElse then Exec(mg, hlsl, s.no, st1, fuel)
                                           else Done(Normal, st1)
  {
  }

  // ---------- loops ----------

  /** From the header through the test: to the merge block or into the body. */
  lemma LoopTest(m: Machine, hlsl: bool, b: Builder, s: Stmt, t0: Builder, p0: Builder, p1: Builder, q0: Builder,
                 c: Config)
    returns (n: nat, c1: Config)
    requires Ok(b) && s.Loop? && s.testFirst && s.test.SomeExpr? && FirstIn(m.f, hlsl, b, s, t0, p0, p1, q0)
    requires AtStart(c, LoopOf(b).head) && WellTyped(hlsl, s.test.e) && LogicOk(m.mg, hlsl)
    ensures var (v, st) := EvalExpr(m.mg, hlsl, s.test.e, c.st);
            n > 0 && c1 == Run(m, c, n) && AtStart(c1, if v != 0 then LoopOf(b).body else LoopOf(b).merge)
                && c1.st == st
  {
    hide LowerExpr, EvalExpr, WellTyped, LowerTestFirst, Grows, BodyIn;
    var l := LoopOf(b);
    LoopHeadStep(m, c, l.head, LoopMerge(l.merge, l.cont), Branch(t0.cur));
    var d := Goto(c, t0.cur);
    var n1;
    n1, c1 := SimTest(m, hlsl, t0, s.test.e, l.body, l.merge, d);
    RunAdds(m, c, 2, n1);
    n := 2 + n1;
  }

  /** One iteration of a loop that tests first. */
  lemma TestFirstMeans(mg: Meaning, hlsl: bool, s: Stmt, st: Store, fuel: nat)
    requires s.Loop? && s.testFirst && s.test.SomeExpr? && fuel > 0
    ensures var (v, st1) := EvalExpr(mg, hlsl, s.test.e, st);
            var body := Exec(mg, hlsl, s.body, st1, fuel);
            Exec(mg, hlsl, s, st, fuel)
            == if v == 0 then Done(Normal, st1)
               else if body.OutOfFuel? || body.out.Returned? || body.out.Discarded? then body
               else if body.out.Broke? then Done(Normal, body.st)
               else Exec(mg, hlsl, s, EvalMaybe(mg, hlsl, s.terminal, body.st).1, fuel - 1)
  {
  }

  /** One iteration of a loop that tests last. */
  lemma TestLastMeans(mg: Meaning, hlsl: bool, s: Stmt, st: Store, fuel: nat)
    requires s.Loop? && !(s.testFirst && s.test.SomeExpr?) && fuel > 0
    ensures var body := Exec(mg, hlsl, s.body, st, fuel);
            Exec(mg, hlsl, s, st, fuel)
            == if body.OutOfFuel? || body.out.Returned? || body.out.Discarded? then body
               else if body.out.Broke? then Done(Normal, body.st)
               else
                 var st1 := EvalMaybe(mg, hlsl, s.terminal, body.st).1;
                 if s.test.SomeExpr? then
                   var (v, st2) := EvalExpr(mg, hlsl, s.test.e, st1);
                   if v != 0 then Exec(mg, hlsl, s, st2, fuel - 1) else Done(Normal, st2)
                 else Exec(mg, hlsl, s, st1, fuel - 1)
  {
  }

  lemma NoFuel(mg: Meaning, hlsl: bool, s: Stmt, st: Store)
    requires s.Loop?
    ensures Exec(mg, hlsl, s, st, 0) == OutOfFuel
  {
  }

  /** A body that ends the loop, or does not end. */
  lemma AfterLastBody(m: Machine, b: Builder, r: Builder, p0: Builder, p1: Builder, fuel: nat, body: Result,
                      c: Config, n1: nat, d: Config, n2: nat, c1: Config)
    requires d == Run(m, c, n1) && Follows(m, p0, p1, fuel, body, d, n2, c1)
    requires Sized(r) && r.cur == BreakTarget(p0) && r.blocks[r.cur] == EMPTY_BLOCK
    requires body.OutOfFuel? || body.out.Returned? || body.out.Discarded? || body.out.Broke?
    ensures Follows(m, b, r, fuel, if body.Done? && body.out.Broke? then Done(Normal, body.st) else body, c, n1 + n2,
                    c1)
  {
    RunAdds(m, c, n1, n2);
  }

  lemma FellOut(m: Machine, b: Builder, r: Builder, fuel: nat, st: Store, c: Config, n: nat, c1: Config)
    requires c1 == Run(m, c, n) && AtStart(c1, r.cur) && c1.st == st && Sized(r) && r.blocks[r.cur] == EMPTY_BLOCK
    ensures Follows(m, b, r, fuel, Done(Normal, st), c, n, c1)
  {
  }

  lemma {:induction false} SimTestFirst(m: Machine, hlsl: bool, b: Builder, s: Stmt, t0: Builder, p0: Builder,
                                        p1: Builder, q0: Builder, fuel: nat, c: Config) returns (n: nat, c1: Config)
    requires Ok(b) && s.Loop? && s.testFirst && s.test.SomeExpr? && FirstIn(m.f, hlsl, b, s, t0, p0, p1, q0)
    requires AtStart(c, LoopOf(b).head) && StmtTyped(hlsl, s) && LogicOk(m.mg, hlsl)
    ensures Follows(m, b, LowerTestFirst(hlsl, b, s), fuel, Exec(m.mg, hlsl, s, c.st, fuel), c, n, c1)
    decreases fuel, s, 0
  {
    hide Exec, EvalExpr, EvalMaybe, LowerStmt, LowerExpr, LowerMaybe, LowerTestFirst, StmtTyped, WellTyped,
         MaybeWellTyped;
    hide Grows, Run, LogicOk, Follows, BreakTarget, ContinueTarget;
    var l := LoopOf(b);
    var r := LowerTestFirst(hlsl, b, s);
    LoopTyped(hlsl, s);
    if fuel == 0 {
      NoFuel(m.mg, hlsl, s, c.st);
      n, c1 := NoSteps(m, b, r, c);
    } else {
      TestFirstMeans(m.mg, hlsl, s, c.st, fuel);
      var n1, d1 := LoopTest(m, hlsl, b, s, t0, p0, p1, q0, c);
      var (v, st1) := EvalExpr(m.mg, hlsl, s.test.e, c.st);
      if v == 0 {
        FellOut(m, b, r, fuel, st1, c, n1, d1);
        n, c1 := n1, d1;
      } else {
        var body := Exec(m.mg, hlsl, s.body, st1, fuel);
        var n2, d2 := SimStmt(m, hlsl, p0, s.body, fuel, d1);
        if body.OutOfFuel? || body.out.Returned? || body.out.Discarded? || body.out.Broke? {
          AfterLastBody(m, b, r, p0, p1, fuel, body, c, n1, d1, n2, d2);
          n, c1 := n1 + n2, d2;
        } else {
          var n3, d3 := AfterBodyRun(m, p0, p1, l.cont, fuel, body, d1, n2, d2);
          var n4, d4 := SimTerminal(m, hlsl, q0, s.terminal, l.head, d3);
          var n5;
          n5, c1 := SimTestFirst(m, hlsl, b, s, t0, p0, p1, q0, fuel - 1, d4);
          n := n1 + n3 + n4 + n5;
          RunThree(m, c, n1, d1, n3, d3, n4, d4);
          BeforeIteration(m, b, r, fuel, Exec(m.mg, hlsl, s, d4.st, fuel - 1), c, n1 + n3 + n4, d4, n5, c1);
        }
      }
    }
  }

  lemma NoSteps(m: Machine, b: Builder, r: Builder, c: Config) returns (n: nat, c1: Config)
    requires c.Going?
    ensures Follows(m, b, r, 0, OutOfFuel, c, n, c1)
  {
    n, c1 := 0, c;
  }

  lemma RunThree(m: Machine, c: Config, n1: nat, d1: Config, n2: nat, d2: Config, n3: nat, d3: Config)
    requires d1 == Run(m, c, n1) && d2 == Run(m, d1, n2) && d3 == Run(m, d2, n3)
    ensures d3 == Run(m, c, n1 + n2 + n3)
  {
    RunAdds(m, c, n1, n2);
    RunAdds(m, c, n1 + n2, n3);
  }

  /** After the terminal expression of a loop that tests last: leave or go to the header. */
  lemma SimTestAtEnd(m: Machine, hlsl: bool, b: Builder, s: Stmt, p0: Builder, p1: Builder, q0: Builder, c: Config)
    returns (n: nat, c1: Config)
    requires Ok(b) && s.Loop? && LastIn(m.f, hlsl, b, s, p0, p1, q0)
    requires AtStart(c, LoopOf(b).cont) && StmtTyped(hlsl, s) && LogicOk(m.mg, hlsl)
    ensures n > 0 && c1 == Run(m, c, n)
    ensures var st1 := EvalMaybe(m.mg, hlsl, s.terminal, c.st).1;
            if s.test.SomeExpr? then
              (var (v, st2) := EvalExpr(m.mg, hlsl, s.test.e, st1);
               AtStart(c1, if v != 0 then LoopOf(b).head else LoopOf(b).merge) && c1.st == st2)
            else
              AtStart(c1, LoopOf(b).head) && c1.st == st1
  {
    hide EvalExpr, EvalMaybe, LowerStmt, LowerExpr, LowerMaybe, LowerTestLast, StmtTyped, WellTyped, MaybeWellTyped;
    hide Grows, Run, LogicOk, BreakTarget, ContinueTarget;
    var l := LoopOf(b);
    LoopTyped(hlsl, s);
    if s.test.SomeExpr? {
      var q1 := LowerMaybe(hlsl, q0, s.terminal);
      var (q2, k) := LowerExpr(hlsl, q1, s.test.e);
      var n1, d1 := SimMaybe(m, hlsl, q0, s.terminal, c);
      var n2, d2 := SimExpr(m, hlsl, q1, s.test.e, d1);
      LeaveStep(m, q2, CondBranch(k, l.head, l.merge), d2);
      c1 := Leave(CondBranch(k, l.head, l.merge), d2);
      RunThree(m, c, n1, d1, n2, d2, 1, c1);
      n := n1 + n2 + 1;
    } else {
      n, c1 := SimTerminal(m, hlsl, q0, s.terminal, l.head, c);
    }
  }

  lemma {:induction false} SimTestLast(m: Machine, hlsl: bool, b: Builder, s: Stmt, p0: Builder, p1: Builder,
                                       q0: Builder, fuel: nat, c: Config) returns (n: nat, c1: Config)
    requires Ok(b) && s.Loop? && !(s.testFirst && s.test.SomeExpr?) && LastIn(m.f, hlsl, b, s, p0, p1, q0)
    requires AtStart(c, LoopOf(b).head) && StmtTyped(hlsl, s) && LogicOk(m.mg, hlsl)
    ensures Follows(m, b, LowerTestLast(hlsl, b, s), fuel, Exec(m.mg, hlsl, s, c.st, fuel), c, n, c1)
    decreases fuel, s, 0
  {
    hide Exec, EvalExpr, EvalMaybe, LowerStmt, LowerExpr, LowerMaybe, LowerTestLast, StmtTyped;
    hide Grows, Run, LogicOk, Follows, BreakTarget, ContinueTarget;
    var l := LoopOf(b);
    var r := LowerTestLast(hlsl, b, s);
    LoopTyped(hlsl, s);
    if fuel == 0 {
      NoFuel(m.mg, hlsl, s, c.st);
      n, c1 := NoSteps(m, b, r, c);
    } else {
      TestLastMeans(m.mg, hlsl, s, c.st, fuel);
      LoopHeadStep(m, c, l.head, LoopMerge(l.merge, l.cont), Branch(l.body));
      var d1 := Goto(c, l.body);
      var body := Exec(m.mg, hlsl, s.body, c.st, fuel);
      var n2, d2 := SimStmt(m, hlsl, p0, s.body, fuel, d1);
      if body.OutOfFuel? || body.out.Returned? || body.out.Discarded? || body.out.Broke? {
        AfterLastBody(m, b, r, p0, p1, fuel, body, c, 2, d1, n2, d2);
        n, c1 := 2 + n2, d2;
      } else {
        var n3, d3 := AfterBodyRun(m, p0, p1, l.cont, fuel, body, d1, n2, d2);
        var n4, d4 := SimTestAtEnd(m, hlsl, b, s, p0, p1, q0, d3);
        RunThree(m, c, 2, d1, n3, d3, n4, d4);
        if AtStart(d4, l.merge) {
          FellOut(m, b, r, fuel, d4.st, c, 2 + n3 + n4, d4);
          n, c1 := 2 + n3 + n4, d4;
        } else {
          var n5;
          n5, c1 := SimTestLast(m, hlsl, b, s, p0, p1, q0, fuel - 1, d4);
          n := 2 + n3 + n4 + n5;
          BeforeIteration(m, b, r, fuel, Exec(m.mg, hlsl, s, d4.st, fuel - 1), c, 2 + n3 + n4, d4, n5, c1);
        }
      }
    }
  }

  lemma SimLoop(m: Machine, hlsl: bool, b: Builder, s: Stmt, fuel: nat, c: Config) returns (n: nat, c1: Config)
    requires s.Loop? && Ok(b) && At(b, c) && StmtTyped(hlsl, s) && LogicOk(m.mg, hlsl)
    requires Grows(LowerStmt(hlsl, b, s).blocks, m.f)
    ensures Follows(m, b, LowerStmt(hlsl, b, s), fuel, Exec(m.mg, hlsl, s, c.st, fuel), c, n, c1)
    decreases fuel, s, 1
  {
    hide Exec, LowerStmt, LowerTestFirst, LowerTestLast, LowerExpr, LowerMaybe, StmtTyped, Grows, Run, LogicOk, Follows;
    hide BodyIn, SameTargets;
    var l := LoopOf(b);
    var r := LowerStmt(hlsl, b, s);
    LoopLowers(hlsl, b, s);
    SameTargetsRefl(b);
    var n1;
    if s.testFirst && s.test.SomeExpr? {
      var t0, p0, p1, q0 := TestFirstIn(m.f, hlsl, b, s);
      LeaveStep(m, b, Branch(l.head), c);
      n1, c1 := SimTestFirst(m, hlsl, b, s, t0, p0, p1, q0, fuel, Goto(c, l.head));
    } else {
      var p0, p1, q0 := TestLastIn(m.f, hlsl, b, s);
      LeaveStep(m, b, Branch(l.head), c);
      n1, c1 := SimTestLast(m, hlsl, b, s, p0, p1, q0, fuel, Goto(c, l.head));
    }
    n := 1 + n1;
    Before(m, b, r, b, r, fuel, Exec(m.mg, hlsl, s, c.st, fuel), c, 1, Goto(c, l.head), n1, c1);
  }

  // ---------- all statements ----------

  lemma SimSimple(m: Machine, hlsl: bool, b: Builder, s: Stmt, fuel: nat, c: Config) returns (n: nat, c1: Config)
    requires s.Skip? || s.Eval? || s.Break? || s.Continue? || s.Discard?
    requires Ok(b) && At(b, c) && StmtTyped(hlsl, s) && LogicOk(m.mg, hlsl)
    requires Grows(LowerStmt(hlsl, b, s).blocks, m.f)
    ensures Follows(m, b, LowerStmt(hlsl, b, s), fuel, Exec(m.mg, hlsl, s, c.st, fuel), c, n, c1)
  {
    hide LowerExpr, EvalExpr, WellTyped, Grows, LogicOk, Jump;
    match s
    case Skip => n, c1 := 0, c;
    case Eval(e) => n, c1 := SimExpr(m, hlsl, b, e, c);
    case Break => n := 1; c1 := SimJump(m, b, Branch(BreakTarget(b)), c);
    case Continue => n := 1; c1 := SimJump(m, b, Branch(ContinueTarget(b)), c);
    case Discard => n := 1; c1 := SimJump(m, b, Kill, c);
  }

  lemma {:induction false} SimSeq(m: Machine, hlsl: bool, b: Builder, s: Stmt, fuel: nat, c: Config)
    returns (n: nat, c1: Config)
    requires s.Seq? && Ok(b) && At(b, c) && StmtTyped(hlsl, s) && LogicOk(m.mg, hlsl)
    requires Grows(LowerStmt(hlsl, b, s).blocks, m.f)
    ensures Follows(m, b, LowerStmt(hlsl, b, s), fuel, Exec(m.mg, hlsl, s, c.st, fuel), c, n, c1)
    decreases fuel, s, 1
  {
    hide LowerStmt, Exec, StmtTyped, LogicOk, Grows, Run, Framed, BreakTarget, ContinueTarget;
    var b1 := LowerStmt(hlsl, b, s.first);
    var r := LowerStmt(hlsl, b1, s.second);
    var res := Exec(m.mg, hlsl, s.first, c.st, fuel);
    SeqParts(m.mg, hlsl, b, s);
    SeqMeans(m.mg, hlsl, s, c.st, fuel);
    Inside(b1, r, m.f);
    FramedTargets(b, b1);
    var n1, d := SimStmt(m, hlsl, b, s.first, fuel, c);
    if res.Done? && res.out.Normal? {
      var n2;
      n2, c1 := SimStmt(m, hlsl, b1, s.second, fuel, d);
      Before(m, b, r, b1, r, fuel, Exec(m.mg, hlsl, s.second, res.st, fuel), c, n1, d, n2, c1);
      n := n1 + n2;
    } else {
      n, c1 := n1, d;
    }
  }

  lemma {:induction false} SimIf(m: Machine, hlsl: bool, b: Builder, s: Stmt, fuel: nat, c: Config)
    returns (n: nat, c1: Config)
    requires s.If? && Ok(b) && At(b, c) && StmtTyped(hlsl, s) && LogicOk(m.mg, hlsl)
    requires Grows(LowerStmt(hlsl, b, s).blocks, m.f)
    ensures Follows(m, b, LowerStmt(hlsl, b, s), fuel, Exec(m.mg, hlsl, s, c.st, fuel), c, n, c1)
    decreases fuel, s, 1
  {
    hide LowerStmt, LowerExpr, Exec, EvalExpr, StmtTyped, WellTyped, LogicOk, Run, SameTargets, Grows, Framed, Follows;
    hide BeginIf, JoinOne, JoinTwo, EndIf, Goto;
    IfTyped(hlsl, s);
    IfLowers(hlsl, b, s);
    IfTargets(hlsl, b, s);
    IfMeans(m.mg, hlsl, s, c.st, fuel);
    var (b1, k) := LowerExpr(hlsl, b, s.cond);
    var b2 := LowerStmt(hlsl, BeginIf(b1), s.yes);
    var r := LowerStmt(hlsl, b, s);
    var nb := |b1.blocks|;
    BeginIfShape(b1);
    var b4 := if s.hasElse then LowerStmt(hlsl, SecondArm(b1, b2), s.no) else b2;
    var other := if s.hasElse then |b2.blocks| else nb + 1;
    if s.hasElse {
      ThenArm(b1, b2);
      TwoArmedIn(m.f, b1, b2, b4, k);
    } else {
      OneArmedIn(m.f, b1, b2, k);
    }
    var n1, d1 := SimExpr(m, hlsl, b, s.cond, c);
    var d2 := EnterArm(m, b1, d1, k, nb, other);
    MovedRun(m, b.nextId, c, n1, d1, 2, d2);
    var v := EvalExpr(m.mg, hlsl, s.cond, c.st).0;
    var n2, d3;
    if v != 0 {
      n2, d3 := SimStmt(m, hlsl, BeginIf(b1), s.yes, fuel, d2);
      n2, d3 := AfterArm(m, b, r, BeginIf(b1), b2, nb + 1, fuel, Exec(m.mg, hlsl, s.yes, d2.st, fuel), d2, n2, d3);
    } else if s.hasElse {
      n2, d3 := SimStmt(m, hlsl, SecondArm(b1, b2), s.no, fuel, d2);
      n2, d3 := AfterArm(m, b, r, SecondArm(b1, b2), b4, nb + 1, fuel, Exec(m.mg, hlsl, s.no, d2.st, fuel), d2, n2, d3);
    } else {
      n2, d3 := 0, d2;
      assert d3 == Run(m, d2, 0) by { RunZero(m, d2); }
      FellOut(m, b, r, fuel, d2.st, d2, 0, d2);
    }
    n, c1 := n1 + 2 + n2, d3;
    SameTargetsRefl(b);
    Before(m, b, r, b, r, fuel, Exec(m.mg, hlsl, s, c.st, fuel), c, n1 + 2, d2, n2, c1);
  }

  lemma RunZero(m: Machine, c: Config)
    ensures Run(m, c, 0) == c
  {
  }

  lemma SameTargetsRefl(b: Builder)
    ensures SameTargets(b, b)
  {
  }

  lemma {:induction false} SimStmt(m: Machine, hlsl: bool, b: Builder, s: Stmt, fuel: nat, c: Config)
    returns (n: nat, c1: Config)
    requires Ok(b) && At(b, c) && StmtTyped(hlsl, s) && LogicOk(m.mg, hlsl)
    requires Grows(LowerStmt(hlsl, b, s).blocks, m.f)
    ensures Follows(m, b, LowerStmt(hlsl, b, s), fuel, Exec(m.mg, hlsl, s, c.st, fuel), c, n, c1)
    decreases fuel, s, 2
  {
    hide LowerStmt, Exec, StmtTyped, LogicOk, Run, Grows, Framed, Follows;
    match s
    case Return(_) => n, c1 := SimReturn(m, hlsl, b, s, fuel, c);
    case Seq(_, _) => n, c1 := SimSeq(m, hlsl, b, s, fuel, c);
    case If(_, _, _, _) => n, c1 := SimIf(m, hlsl, b, s, fuel, c);
    case Loop(_, _, _, _) => n, c1 := SimLoop(m, hlsl, b, s, fuel, c);
    case Switch(_, _) => n, c1 := SimSwitch(m, hlsl, b, s, fuel, c);
    case _ => n, c1 := SimSimple(m, hlsl, b, s, fuel, c);
  }

  // ---------- switches ----------

  /** The segments from number `k` on, from the start of segment `k`. */
  lemma {:induction false} SimFrom(m: Machine, hlsl: bool, b: Builder, items: Items, first: nat, k: nat, n: nat,
                                   e: Builder, fuel: nat, c: Config) returns (steps: nat, c1: Config)
    requires SegmentsReady(b, first, k, n) && k + SegCount(items) <= n <= k + SegCount(items) + 1 && k < n
    requires AtStart(c, first + k) && ItemsTyped(hlsl, items) && LogicOk(m.mg, hlsl)
    requires b.switchMerges != [] && Closing(m.f, b, LowerItems(hlsl, b, items, first, k, n), e)
    ensures Follows(m, b, e, fuel, ExecItems(m.mg, hlsl, items, c.st, fuel), c, steps, c1)
    decreases fuel, items, 0
  {
    match items
    case NoItems =>
      var x := NextSegment(b, first + k);
      c1 := SimJump(m, x, Branch(e.cur), c);
      steps := 1;
    case CaseLabel(_, rest) => steps, c1 := SimFrom(m, hlsl, b, rest, first, k, n, e, fuel, c);
    case DefaultLabel(rest) => steps, c1 := SimFrom(m, hlsl, b, rest, first, k, n, e, fuel, c);
    case Code(_, _) => steps, c1 := SimCode(m, hlsl, b, items, first, k, n, e, fuel, c);
  }

  /** A segment and what comes after it. */
  lemma CodeParts(f: seq<Block>, hlsl: bool, b: Builder, items: Items, first: nat, k: nat, n: nat, e: Builder)
    requires SegmentsReady(b, first, k, n) && k + SegCount(items) <= n <= k + SegCount(items) + 1 && k < n
    requires items.Code? && b.switchMerges != [] && Closing(f, b, LowerItems(hlsl, b, items, first, k, n), e)
    ensures var x := NextSegment(b, first + k);
            && Sized(b) && Ok(x) && x.cur == first + k && x.blocks[x.cur] == EMPTY_BLOCK && SameTargets(b, x)
            && var y := LowerStmt(hlsl, x, items.segment);
            && Ok(y) && SameTargets(b, y) && y.switchMerges != [] && Grows(y.blocks, f)
            && SegmentsReady(y, first, k + 1, n)
            && Closing(f, y, LowerItems(hlsl, y, items.rest, first, k + 1, n), e)
  {
    hide LowerItems, LowerStmt;
    CodeLowered(hlsl, b, items, first, k, n);
    var x := NextSegment(b, first + k);
    var y := LowerStmt(hlsl, x, items.segment);
    FramedTargets(x, y);
    FramedStacks(x, y);
    hide Framed, SegmentsReady, Grows;
    GrowsTrans(y.blocks, LowerItems(hlsl, y, items.rest, first, k + 1, n).blocks, f);
  }

  lemma CodeMeans(mg: Meaning, hlsl: bool, items: Items, st: Store, fuel: nat)
    requires items.Code?
    ensures var res := Exec(mg, hlsl, items.segment, st, fuel);
            ExecItems(mg, hlsl, items, st, fuel)
            == if res.Done? && res.out.Normal? then ExecItems(mg, hlsl, items.rest, res.st, fuel) else res
  {
  }

  lemma {:induction false} SimCode(m: Machine, hlsl: bool, b: Builder, items: Items, first: nat, k: nat, n: nat,
                                   e: Builder, fuel: nat, c: Config) returns (steps: nat, c1: Config)
    requires SegmentsReady(b, first, k, n) && k + SegCount(items) <= n <= k + SegCount(items) + 1 && k < n
    requires items.Code? && AtStart(c, first + k) && ItemsTyped(hlsl, items) && LogicOk(m.mg, hlsl)
    requires b.switchMerges != [] && Closing(m.f, b, LowerItems(hlsl, b, items, first, k, n), e)
    ensures Follows(m, b, e, fuel, ExecItems(m.mg, hlsl, items, c.st, fuel), c, steps, c1)
    decreases fuel, items, -1
  {
    hide LowerStmt, LowerItems, Exec, ExecItems, StmtTyped, LogicOk, Grows, Run, Closing, SegmentsReady, Framed;
    hide Segmented, NextSegment, SameTargets;
    CodeParts(m.f, hlsl, b, items, first, k, n, e);
    CodeMeans(m.mg, hlsl, items, c.st, fuel);
    var x := NextSegment(b, first + k);
    var y := LowerStmt(hlsl, x, items.segment);
    var res := Exec(m.mg, hlsl, items.segment, c.st, fuel);
    var n1, d := SimStmt(m, hlsl, x, items.segment, fuel, c);
    if res.Done? && res.out.Normal? {
      var n2;
      n2, c1 := SimRest(m, hlsl, y, items.rest, first, k + 1, n, e, fuel, d);
      Before(m, b, e, y, e, fuel, ExecItems(m.mg, hlsl, items.rest, res.st, fuel), c, n1, d, n2, c1);
      steps := n1 + n2;
    } else {
      EndedElsewhere(m, b, e, x, y, fuel, res, c, n1, d);
      steps, c1 := n1, d;
    }
  }

  lemma EndedElsewhere(m: Machine, b: Builder, r: Builder, b1: Builder, r1: Builder, fuel: nat, res: Result,
                       c: Config, n: nat, c1: Config)
    requires Follows(m, b1, r1, fuel, res, c, n, c1) && SameTargets(b, b1) && !(res.Done? && res.out.Normal?)
    ensures Follows(m, b, r, fuel, res, c, n, c1)
  {
  }

  /** After a segment: fall through to the next one, or leave. */
  lemma ReadyEnd(b: Builder, first: nat, k: nat, n: nat)
    requires SegmentsReady(b, first, k, n)
    ensures k <= n
  {
  }

  lemma {:induction false} SimRest(m: Machine, hlsl: bool, b: Builder, items: Items, first: nat, k: nat, n: nat,
                                   e: Builder, fuel: nat, c: Config) returns (steps: nat, c1: Config)
    requires SegmentsReady(b, first, k, n) && k + SegCount(items) <= n <= k + SegCount(items) + 1
    requires Ok(b) && At(b, c) && ItemsTyped(hlsl, items) && LogicOk(m.mg, hlsl)
    requires b.switchMerges != [] && Closing(m.f, b, LowerItems(hlsl, b, items, first, k, n), e)
    ensures Follows(m, b, e, fuel, ExecItems(m.mg, hlsl, items, c.st, fuel), c, steps, c1)
    decreases fuel, items, 1
  {
    hide LowerItems, ExecItems, ItemsTyped, Grows, SegmentsReady, Follows, LogicOk;
    ReadyEnd(b, first, k, n);
    if k == n {
      NoneLeft(hlsl, b, items, first, n);
      NoMoreCode(m.mg, hlsl, items, c.st, fuel);
      LeaveStep(m, b, Branch(e.cur), c);
      steps, c1 := 1, Goto(c, e.cur);
      FellOut(m, b, e, fuel, c.st, c, 1, c1);
    } else {
      hide Run;
      NextIn(m.f, hlsl, b, items, first, k, n);
      LeaveStep(m, b, Branch(first + k), c);
      var d := Goto(c, first + k);
      var n1;
      n1, c1 := SimFrom(m, hlsl, b, items, first, k, n, e, fuel, d);
      Before(m, b, e, b, e, fuel, ExecItems(m.mg, hlsl, items, c.st, fuel), c, 1, d, n1, c1);
      steps := 1 + n1;
    }
  }

  /** Starting at the segment of the selected label. */
  lemma {:induction false} SimSelected(m: Machine, hlsl: bool, b: Builder, items: Items, sel: Items, first: nat,
                                       k: nat, n: nat, e: Builder, fuel: nat, c: Config)
    returns (steps: nat, c1: Config)
    requires SegmentsReady(b, first, k, n) && k + SegCount(items) <= n <= k + SegCount(items) + 1
    requires IsSuffix(items, sel) && sel != NoItems && SegCount(sel) <= SegCount(items)
             && k + SegCount(items) - SegCount(sel) < n
    requires AtStart(c, first + k + SegCount(items) - SegCount(sel)) && ItemsTyped(hlsl, items) && LogicOk(m.mg, hlsl)
    requires b.switchMerges != [] && Closing(m.f, b, LowerItems(hlsl, b, items, first, k, n), e)
    ensures Follows(m, b, e, fuel, ExecItems(m.mg, hlsl, sel, c.st, fuel), c, steps, c1)
    decreases fuel, items, 2
  {
    hide ExecItems, Grows, Run, Closing, LogicOk, SegmentsReady, LowerStmt, Follows;
    if items == sel {
      steps, c1 := SimFrom(m, hlsl, b, items, first, k, n, e, fuel, c);
    } else {
      match items
      case CaseLabel(_, rest) => steps, c1 := SimSelected(m, hlsl, b, rest, sel, first, k, n, e, fuel, c);
      case DefaultLabel(rest) => steps, c1 := SimSelected(m, hlsl, b, rest, sel, first, k, n, e, fuel, c);
      case Code(s, rest) =>
        steps, c1 := SkipSegment(m, hlsl, b, items, sel, first, k, n, e, fuel, c);
    }
  }

  lemma {:induction false} SkipSegment(m: Machine, hlsl: bool, b: Builder, items: Items, sel: Items, first: nat,
                                       k: nat, n: nat, e: Builder, fuel: nat, c: Config)
    returns (steps: nat, c1: Config)
    requires SegmentsReady(b, first, k, n) && k + SegCount(items) <= n <= k + SegCount(items) + 1
    requires items.Code? && items != sel
    requires IsSuffix(items, sel) && sel != NoItems && SegCount(sel) <= SegCount(items)
             && k + SegCount(items) - SegCount(sel) < n
    requires AtStart(c, first + k + SegCount(items) - SegCount(sel)) && ItemsTyped(hlsl, items) && LogicOk(m.mg, hlsl)
    requires b.switchMerges != [] && Closing(m.f, b, LowerItems(hlsl, b, items, first, k, n), e)
    ensures Follows(m, b, e, fuel, ExecItems(m.mg, hlsl, sel, c.st, fuel), c, steps, c1)
    decreases fuel, items, 1
  {
    hide LowerStmt, LowerItems, ExecItems, StmtTyped, LogicOk, Grows, Run, Closing, SegmentsReady, Framed, Segmented,
         SameTargets;
    CodeParts(m.f, hlsl, b, items, first, k, n, e);
    SuffixCount(items.rest, sel);
    var y := LowerStmt(hlsl, NextSegment(b, first + k), items.segment);
    steps, c1 := SimSelected(m, hlsl, y, items.rest, sel, first, k + 1, n, e, fuel, c);
    SameEnd(m, b, e, y, fuel, ExecItems(m.mg, hlsl, sel, c.st, fuel), c, steps, c1);
  }

  lemma SameEnd(m: Machine, b: Builder, e: Builder, y: Builder, fuel: nat, res: Result, c: Config, n: nat, c1: Config)
    requires Follows(m, y, e, fuel, res, c, n, c1) && SameTargets(b, y)
    ensures Follows(m, b, e, fuel, res, c, n, c1)
  {
  }

  lemma SwitchTyped(hlsl: bool, s: Stmt)
    requires s.Switch? && StmtTyped(hlsl, s)
    ensures WellTyped(hlsl, s.cond) && ItemsTyped(hlsl, s.items)
  {
  }

  /** How a switch is translated. */
  lemma SwitchLowered(f: seq<Block>, hlsl: bool, b: Builder, s: Stmt)
    requires s.Switch? && Ok(b) && Grows(LowerStmt(hlsl, b, s).blocks, f)
    ensures var (b1, v) := LowerExpr(hlsl, b, s.cond);
            var x := SwitchHeader(b1, v, s.items);
            var n := NumSegments(s.items); var first := |b1.blocks|;
            && SegmentsReady(x, first, 0, n) && SegCount(s.items) <= n <= SegCount(s.items) + 1 && x.switchMerges != []
            && ContinueTarget(x) == ContinueTarget(b) && BreakTarget(x) == first + n
            && var e := LowerStmt(hlsl, b, s);
            && Closing(f, x, LowerItems(hlsl, x, s.items, first, 0, n), e) && e.cur == first + n
            && Grows(b1.blocks, f) && b1.cur < |f|
            && var d := DefaultSegment(s.items, 0);
            f[b1.cur] == Block(b1.blocks[b1.cur].instrs + [SelectionMerge(first + n)],
                               SwitchOn(v, if d >= 0 then first + d else first + n,
                                        Targets(CaseTable(s.items, 0), first)))
  {
    hide LowerStmt, LowerExpr, LowerItems, Framed, SegmentsReady, SwitchHeader, EndSwitch, PopBreak, NumSegments;
    hide DefaultSegment, CaseTable, Targets, Segmented, Closing, BreakTarget, ContinueTarget, Grows;
    var (b1, v) := LowerExpr(hlsl, b, s.cond);
    FramedTargets(b, b1);
    FramedStacks(b, b1);
    SwitchReady(b1, v, s.items);
    SwitchTargets(b1, v, s.items);
    var r := LowerItems(hlsl, SwitchHeader(b1, v, s.items), s.items, |b1.blocks|, 0, NumSegments(s.items));
    SwitchFramed(b1, v, s.items, r);
    SwitchLowers(hlsl, b, s);
    SwitchIn(f, hlsl, b1, v, s.items, r);
  }

  lemma SwitchMeans(mg: Meaning, hlsl: bool, s: Stmt, st: Store, fuel: nat)
    requires s.Switch?
    ensures var (v, st1) := EvalExpr(mg, hlsl, s.cond, st);
            var res := ExecItems(mg, hlsl, SelectedItems(s.items, v), st1, fuel);
            Exec(mg, hlsl, s, st, fuel) == if res.Done? && res.out.Broke? then Done(Normal, res.st) else res
  {
  }

  /** Leaving the switch with break is going on after it. */
  lemma BreakEndsSwitch(m: Machine, b: Builder, x: Builder, e: Builder, fuel: nat, res: Result, c: Config, n1: nat,
                        d: Config, n2: nat, c1: Config)
    requires d == Run(m, c, n1) && Follows(m, x, e, fuel, res, d, n2, c1)
    requires ContinueTarget(x) == ContinueTarget(b) && BreakTarget(x) == e.cur && Sized(e)
             && e.blocks[e.cur] == EMPTY_BLOCK
    ensures Follows(m, b, e, fuel, if res.Done? && res.out.Broke? then Done(Normal, res.st) else res, c, n1 + n2, c1)
  {
    RunAdds(m, c, n1, n2);
  }

  lemma {:induction false} SimSwitch(m: Machine, hlsl: bool, b: Builder, s: Stmt, fuel: nat, c: Config)
    returns (n: nat, c1: Config)
    requires s.Switch? && Ok(b) && At(b, c) && StmtTyped(hlsl, s) && LogicOk(m.mg, hlsl)
    requires Grows(LowerStmt(hlsl, b, s).blocks, m.f)
    ensures Follows(m, b, LowerStmt(hlsl, b, s), fuel, Exec(m.mg, hlsl, s, c.st, fuel), c, n, c1)
    decreases fuel, s, 1
  {
    hide LowerStmt, LowerExpr, LowerItems, Exec, ExecItems, EvalExpr, StmtTyped, ItemsTyped, WellTyped, LogicOk, Grows,
         Run;
    hide Framed, Segmented, SegmentsReady, SwitchHeader, Follows, SelectedItems, NumSegments, IsSuffix;
    SwitchTyped(hlsl, s);
    SwitchLowered(m.f, hlsl, b, s);
    SwitchMeans(m.mg, hlsl, s, c.st, fuel);
    var (b1, v) := LowerExpr(hlsl, b, s.cond);
    var x := SwitchHeader(b1, v, s.items);
    var e := LowerStmt(hlsl, b, s);
    var first := |b1.blocks|;
    var dft := DefaultSegment(s.items, 0);
    var num := NumSegments(s.items);
    var n1, d1 := SimExpr(m, hlsl, b, s.cond, c);
    var t := SwitchOn(v, if dft >= 0 then first + dft else first + num, Targets(CaseTable(s.items, 0), first));
    HeaderStep(m, b1, d1, SelectionMerge(first + num), t);
    var d2 := Leave(t, d1.(pc := d1.pc + 1));
    MovedRun(m, b.nextId, c, n1, d1, 2, d2);
    var val := EvalExpr(m.mg, hlsl, s.cond, c.st).0;
    var sel := SelectedItems(s.items, val);
    SelectedTarget(s.items, val, first);
    var res := ExecItems(m.mg, hlsl, sel, d2.st, fuel);
    var n2;
    if sel == NoItems {
      assert res == Done(Normal, d2.st) by { NoMoreCode(m.mg, hlsl, NoItems, d2.st, fuel); }
      RunZero(m, d2);
      FellOut(m, x, e, fuel, d2.st, d2, 0, d2);
      n2, c1 := 0, d2;
    } else {
      n2, c1 := SimSelected(m, hlsl, x, s.items, sel, first, 0, num, e, fuel, d2);
    }
    BreakEndsSwitch(m, b, x, e, fuel, res, c, n1 + 2, d2, n2, c1);
    n := n1 + 2 + n2;
  }
}
