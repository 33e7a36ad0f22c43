/** The translation as the source does it: a traverser that changes the builder's state step by step. */
module Traverser {
  import opened ShaderAst
  import opened SpirvBuilder
  import opened Lowering
  import opened StatementLowering
  import opened FunctionLowering

  /** The code segments of a switch body, in order. */
  function Segments(items: Items): (r: seq<Stmt>)
    ensures |r| == SegCount(items)
  {
    match items
    case NoItems => []
    case CaseLabel(_, rest) => Segments(rest)
    case DefaultLabel(rest) => Segments(rest)
    case Code(s, rest) => [s] + Segments(rest)
  }

  /** The items from the next code segment on. */
  function NextCode(items: Items): (r: Items)
    ensures Segments(r) == Segments(items) && (r.NoItems? || r.Code?) && (r == items || r < items)
  {
    match items
    case CaseLabel(_, rest) => NextCode(rest)
    case DefaultLabel(rest) => NextCode(rest)
    case _ => items
  }

  /** Labels emit nothing. */
  lemma {:induction false} NextCodeLowers(hlsl: bool, b: Builder, items: Items, first: nat, k: nat, n: nat)
    requires SegmentsReady(b, first, k, n) && k + SegCount(items) <= n <= k + SegCount(items) + 1
             && b.switchMerges != []
    ensures SegCount(NextCode(items)) == SegCount(items)
    ensures LowerItems(hlsl, b, items, first, k, n) == LowerItems(hlsl, b, NextCode(items), first, k, n)
    decreases items
  {
    match items
    case CaseLabel(_, rest) => NextCodeLowers(hlsl, b, rest, first, k, n);
    case DefaultLabel(rest) => NextCodeLowers(hlsl, b, rest, first, k, n);
    case _ =>
  }

  function Zip(values: seq<int>, segments: seq<nat>): (r: seq<(int, nat)>)
    requires |values| == |segments|
    ensures |r| == |values|
  {
    seq(|values|, i requires 0 <= i < |values| => (values[i], segments[i]))
  }

  predicate EndIfOk(b: Builder, header: nat) {
    Ok(b) && header < |b.blocks| && header != b.cur && b.blocks[header].term == Open
  }

  lemma JoinLogicalSteps(b: Builder, left: nat, cond: nat, right: Builder, value: nat)
    requires Ok(b) && Framed(BeginIf(b), right)
    ensures var n := |b.blocks|;
            && EndIfOk(right, b.cur)
            && var b4 := EndIf(right, b.cur, cond, n, n + 1, n + 1);
            && Ok(b4)
            && JoinLogical(b, left, cond, right, value)
                == Emitted(b4, Phi(b4.nextId, [(left, b.cur), (value, right.cur)]))
  {
    hide Framed, Grows, EndIf, BeginIf, JoinOne, EndIfOk;
    JoinOneSteps(b, right, cond);
  }

  /** Joining the two arms of a selection, step by step. */
  lemma JoinSteps(b: Builder, yes: Builder, no: Builder, cond: nat)
    requires Ok(b) && Framed(BeginSelection(b), yes) && Framed(SecondArm(FreshId(b), yes), no)
    ensures var n := |b.blocks|;
            && EndIfOk(no, b.cur)
            && var b4 := EndIf(no, b.cur, cond, n, |yes.blocks|, n + 1);
            Ok(b4) && JoinSelection(b, yes, no, cond) == Emitted(b4, LoadVar(b4.nextId, b.nextId))
  {
    hide Framed, Grows, EndIf, BeginIf, JoinTwo, EndIfOk;
    JoinTwoSteps(FreshId(b), yes, no, cond);
  }

  lemma ElseSteps(b: Builder, yes: Builder)
    requires Ok(b) && Framed(BeginSelection(b), yes)
    ensures Ok(yes) && SecondArm(FreshId(b), yes) == BeginElse(yes, |b.blocks| + 1) && Ok(SecondArm(FreshId(b), yes))
  {
  }

  /** A selection that evaluates one side, step by step. */
  lemma OneSideSteps(hlsl: bool, b: Builder, e: Expr)
    requires e.Choice? && !BothSides(e) && Ok(b)
    ensures var (b1, cond) := LowerExpr(hlsl, b, e.cond);
            var b2 := BeginSelection(b1);
            var (b3, yes) := LowerExpr(hlsl, b2, e.yes);
            var b4 := StoreResult(b2, b3, b1.nextId, yes);
            var b5 := SecondArm(FreshId(b1), b4);
            var (b6, no) := LowerExpr(hlsl, b5, e.no);
            LowerExpr(hlsl, b, e) == JoinSelection(b1, b4, StoreResult(b5, b6, b1.nextId, no), cond)
  {
  }

  lemma SecondArmSteps(b: Builder, yes: Builder)
    requires Ok(b) && Framed(BeginIf(b), yes)
    ensures Ok(yes) && SecondArm(b, yes) == BeginElse(yes, |b.blocks| + 1)
  {
  }

  lemma JoinOneSteps(b: Builder, yes: Builder, cond: nat)
    requires Ok(b) && Framed(BeginIf(b), yes)
    ensures var n := |b.blocks|;
            EndIfOk(yes, b.cur) && JoinOne(b, yes, cond) == EndIf(yes, b.cur, cond, n, n + 1, n + 1)
  {
    OneArmed(b, yes, cond, |b.blocks| + 1);
  }

  lemma JoinTwoSteps(b: Builder, yes: Builder, no: Builder, cond: nat)
    requires Ok(b) && Framed(BeginIf(b), yes) && Framed(SecondArm(b, yes), no)
    ensures var n := |b.blocks|;
            EndIfOk(no, b.cur) && JoinTwo(b, yes, no, cond) == EndIf(no, b.cur, cond, n, |yes.blocks|, n + 1)
  {
    TwoArmed(b, yes, no, cond);
  }

  /** What has been sorted into segments and labels, with `rest` still to do. */
  ghost predicate Collected(items: Items, rest: Items, segments: seq<Stmt>, values: seq<int>, indices: seq<nat>,
                            dflt: int) {
    && |values| == |indices| && dflt >= -1
    && Segments(items) == segments + Segments(rest)
    && CaseTable(items, 0) == Zip(values, indices) + CaseTable(rest, |segments|)
    && DefaultSegment(items, 0) == var d := DefaultSegment(rest, |segments|); if d != -1 then d else dflt
  }

  lemma CollectStep(items: Items, rest: Items, segments: seq<Stmt>, values: seq<int>, indices: seq<nat>, dflt: int)
    requires Collected(items, rest, segments, values, indices, dflt) && rest != NoItems
    ensures match rest
            case CaseLabel(v, next) => Collected(items, next, segments, values + [v], indices + [|segments|], dflt)
            case DefaultLabel(next) => Collected(items, next, segments, values, indices, |segments|)
            case Code(s, next) => Collected(items, next, segments + [s], values, indices, dflt)
  {
    if rest.CaseLabel? {
      assert Zip(values + [rest.value], indices + [|segments|]) == Zip(values, indices) + [(rest.value, |segments|)];
    }
  }

  lemma {:induction false} TargetsAppend(values: seq<int>, segments: seq<nat>, v: int, k: nat, first: nat)
    requires |values| == |segments|
    ensures Targets(Zip(values + [v], segments + [k]), first) == Targets(Zip(values, segments), first)
            + [(v, first + k)]
    decreases values
  {
    var z := Zip(values + [v], segments + [k]);
    if values == [] {
      assert z == [(v, k)] && z[1..] == [];
    } else {
      TargetsAppend(values[1..], segments[1..], v, k, first);
      assert values[1..] + [v] == (values + [v])[1..] && segments[1..] + [k] == (segments + [k])[1..];
      assert z[1..] == Zip((values + [v])[1..], (segments + [k])[1..]);
      assert Zip(values, segments)[1..] == Zip(values[1..], segments[1..]);
    }
  }

  /** What is left to emit from segment `s` on. */
  ghost predicate Remaining(rest: Items, codeSegments: seq<Stmt>, s: nat, n: nat) {
    && s + SegCount(rest) <= n <= s + SegCount(rest) + 1
    && if s < |codeSegments| then Segments(rest) == codeSegments[s..] else SegCount(rest) == 0
  }

  lemma NextRemaining(rest: Items, codeSegments: seq<Stmt>, s: nat, n: nat)
    requires Remaining(rest, codeSegments, s, n) && s < n
    ensures var x := NextCode(rest);
            if s < |codeSegments| then
              x.Code? && x.segment == codeSegments[s] && Remaining(x.rest, codeSegments, s + 1, n)
            else
              x == NoItems && n == s + 1
  {
    var x := NextCode(rest);
    if s < |codeSegments| {
      assert x.Code? && Segments(x.rest) == Segments(x)[1..] == codeSegments[s + 1..];
    }
  }

  lemma ReadyIsSized(b: Builder, first: nat, k: nat, n: nat)
    requires SegmentsReady(b, first, k, n)
    ensures Sized(b)
  {
  }

  /** The extra segment without code. */
  lemma LastSegment(hlsl: bool, b: Builder, first: nat, k: nat, n: nat)
    requires SegmentsReady(b, first, k, n) && k < n == k + 1 && b.switchMerges != []
    ensures var x := NextSegment(b, first + k);
            && Ok(x) && x.switchMerges == b.switchMerges
            && var r := Jump(x, Branch(x.switchMerges[|x.switchMerges| - 1]));
            && SegmentsReady(r, first, n, n) && r.switchMerges == b.switchMerges
            && LowerItems(hlsl, b, NoItems, first, k, n) == r == LowerItems(hlsl, r, NoItems, first, n, n)
  {
    var x := NextSegment(b, first + k);
    OneSegment(b, first, k, n, Jump(x, Branch(b.switchMerges[|b.switchMerges| - 1])));
  }

  /** Every segment is part of the body. */
  lemma {:induction false} InSegments(segments: seq<Stmt>, items: Items, s: nat)
    requires segments == Segments(items) && s < |segments|
    ensures items decreases to segments[s]
    decreases items
  {
    match items
    case CaseLabel(_, rest) => InSegments(segments, rest, s);
    case DefaultLabel(rest) => InSegments(segments, rest, s);
    case Code(first, rest) =>
      if s > 0 {
        InSegments(segments[1..], rest, s - 1);
      }
  }

  class GlslangToSpv {
    const hlsl: bool
    var blocks: seq<Block>
    var buildPoint: nat
    var nextId: nat
    var loops: seq<LoopBlocks>
    var switchMerges: seq<nat>
    var breakForLoop: seq<bool>

    function State(): Builder
      reads this
    {
      Builder(blocks, buildPoint, nextId, loops, switchMerges, breakForLoop)
    }

    constructor (hlsl: bool)
      ensures State() == ENTRY && this.hlsl == hlsl
    {
      this.hlsl := hlsl;
      blocks, buildPoint, nextId, loops, switchMerges, breakForLoop := [EMPTY_BLOCK], 0, 0, [], [], [];
    }

    // ---------- builder primitives ----------

    method AddInstruction(i: Instr)
      requires Ok(State())
      modifies `blocks
      ensures State() == Emit(old(State()), i)
    {
      var b := blocks[buildPoint];
      blocks := blocks[buildPoint := Block(b.instrs + [i], b.term)];
    }

    method CreateResult(i: Instr) returns (id: nat)
      requires Ok(State())
      modifies `blocks, `nextId
      ensures (State(), id) == Emitted(old(State()), i)
    {
      id := nextId;
      nextId := nextId + 1;
      AddInstruction(i);
    }

    method AddTerminator(t: Terminator)
      requires Ok(State())
      modifies `blocks
      ensures State() == Terminate(old(State()), t)
    {
      blocks := blocks[buildPoint := blocks[buildPoint].(term := t)];
    }

    method AddBlock() returns (block: nat)
      modifies `blocks
      ensures block == |old(blocks)| && State() == NewBlock(old(State()))
    {
      block := |blocks|;
      blocks := blocks + [EMPTY_BLOCK];
    }

    /** A terminator in mid-code: what follows goes to a block without predecessors. */
    method MakeStatementTerminator(t: Terminator)
      requires Ok(State())
      modifies `blocks, `buildPoint
      ensures State() == Jump(old(State()), t)
    {
      AddTerminator(t);
      var dead := AddBlock();
      buildPoint := dead;
    }

    // ---------- the If helper ----------

    method BeginThen() returns (header: nat, thenBlock: nat, merge: nat)
      requires Ok(State())
      modifies `blocks, `buildPoint
      ensures State() == BeginIf(old(State()))
      ensures header == old(buildPoint) && thenBlock == |old(blocks)| && merge == |old(blocks)| + 1
    {
      header := buildPoint;
      thenBlock := AddBlock();
      merge := AddBlock();
      AddInstruction(SelectionMerge(merge));
      buildPoint := thenBlock;
    }

    method MakeBeginElse(merge: nat) returns (elseBlock: nat)
      requires Ok(State())
      modifies `blocks, `buildPoint
      ensures State() == BeginElse(old(State()), merge) && elseBlock == |old(blocks)|
    {
      AddTerminator(Branch(merge));
      elseBlock := AddBlock();
      buildPoint := elseBlock;
    }

    method MakeEndIf(header: nat, cond: nat, thenBlock: nat, elseBlock: nat, merge: nat)
      requires EndIfOk(State(), header)
      modifies `blocks, `buildPoint
      ensures State() == EndIf(old(State()), header, cond, thenBlock, elseBlock, merge)
    {
      AddTerminator(Branch(merge));
      buildPoint := header;
      AddTerminator(CondBranch(cond, thenBlock, elseBlock));
      buildPoint := merge;
    }

    // ---------- expressions ----------

    method VisitExpr(e: Expr) returns (id: nat)
      requires Ok(State())
      modifies this
      ensures (State(), id) == LowerExpr(hlsl, old(State()), e)
      decreases e, 2
    {
      match e
      case LeafExpr(leaf, _) =>
        id := CreateResult(Load(nextId, leaf));
      case Unary(op, a, _) =>
        var operand := VisitExpr(a);
        id := CreateResult(Apply(nextId, op, [operand]));
      case Binary(op, x, y, _) =>
        var left := VisitExpr(x);
        var right := VisitExpr(y);
        id := CreateResult(Apply(nextId, op, [left, right]));
      case Logical(isAnd, x, y, _) =>
        if IsTrivial(hlsl, y) {
          var left := VisitExpr(x);
          var right := VisitExpr(y);
          id := CreateResult(LogicalBin(nextId, isAnd, left, right));
        } else {
          id := CreateShortCircuit(e);
        }
      case Choice(_, _, _, _, _) =>
        id := VisitSelection(e);
    }

    method CreateShortCircuit(e: Expr) returns (id: nat)
      requires e.Logical? && !IsTrivial(hlsl, e.right) && Ok(State())
      modifies this
      ensures (State(), id) == LowerExpr(hlsl, old(State()), e)
      decreases e, 0
    {
      hide LowerExpr, Framed, Grows, Ok, BeginIf, EndIf, IsTrivial, EndIfOk, JoinLogical;
      ShortCircuitSteps(hlsl, State(), e);
      var leftId := VisitExpr(e.left);
      var leftBlock := buildPoint;
      var condition := leftId;
      if !e.isAnd {
        condition := CreateResult(NotI(nextId, leftId));
      }
      ghost var b2 := State();
      var header, thenBlock, merge := BeginThen();
      var rightId := VisitExpr(e.right);
      var rightBlock := buildPoint;
      JoinLogicalSteps(b2, leftId, condition, State(), rightId);
      MakeEndIf(header, condition, thenBlock, merge, merge);
      id := CreateResult(Phi(nextId, [(leftId, leftBlock), (rightId, rightBlock)]));
    }

    method VisitSelection(e: Expr) returns (id: nat)
      requires e.Choice? && Ok(State())
      modifies this
      ensures (State(), id) == LowerExpr(hlsl, old(State()), e)
      decreases e, 1
    {
      if BothSides(e) {
        hide Framed, Grows, ChooseByVariable;
        var condition := VisitExpr(e.cond);
        var trueValue := VisitExpr(e.yes);
        var falseValue := VisitExpr(e.no);
        if e.ty.isSelectable {
          id := CreateResult(Select(nextId, condition, trueValue, falseValue));
        } else {
          id := SelectByVariable(condition, trueValue, falseValue);
        }
      } else {
        id := ExecuteOneSide(e);
      }
    }

    method ExecuteOneSide(e: Expr) returns (id: nat)
      requires e.Choice? && !BothSides(e) && Ok(State())
      modifies this
      ensures (State(), id) == LowerExpr(hlsl, old(State()), e)
      decreases e, 0
    {
      hide LowerExpr, Framed, Grows, Ok, EndIf, BothSides, JoinSelection, SecondArm, EndIfOk, BeginElse;
      OneSideSteps(hlsl, State(), e);
      var condition := VisitExpr(e.cond);
      ghost var b1 := State();
      ghost var b2 := BeginSelection(b1);
      hide BeginIf;
      var result := nextId;
      nextId := nextId + 1;
      var header, thenBlock, merge := BeginThen();
      var trueValue := VisitExpr(e.yes);
      ghost var b4 := StoreResult(b2, State(), result, trueValue);
      AddInstruction(StoreVar(result, trueValue));
      ElseSteps(b1, b4);
      var elseBlock := MakeBeginElse(merge);
      ghost var b5 := State();
      var falseValue := VisitExpr(e.no);
      ghost var b7 := StoreResult(b5, State(), result, falseValue);
      AddInstruction(StoreVar(result, falseValue));
      JoinSteps(b1, b4, b7, condition);
      MakeEndIf(header, condition, thenBlock, elseBlock, merge);
      id := CreateResult(LoadVar(nextId, result));
    }

    method SelectByVariable(condition: nat, trueValue: nat, falseValue: nat) returns (id: nat)
      requires Ok(State())
      modifies this
      ensures (State(), id) == ChooseByVariable(old(State()), condition, trueValue, falseValue)
    {
      hide Framed, Grows;
      ghost var b := State();
      ghost var b1 := BeginSelection(b);
      FramedRefl(b1);
      ghost var b2 := StoreResult(b1, b1, b.nextId, trueValue);
      ElseSteps(b, b2);
      ghost var b3 := SecondArm(FreshId(b), b2);
      FramedRefl(b3);
      ghost var b4 := StoreResult(b3, b3, b.nextId, falseValue);
      JoinSteps(b, b2, b4, condition);
      hide Ok, BeginIf, EndIf, EndIfOk, BeginElse, JoinSelection, SecondArm;
      var result := nextId;
      nextId := nextId + 1;
      var header, thenBlock, merge := BeginThen();
      AddInstruction(StoreVar(result, trueValue));
      assert State() == b2;
      var elseBlock := MakeBeginElse(merge);
      AddInstruction(StoreVar(result, falseValue));
      assert State() == b4;
      MakeEndIf(header, condition, thenBlock, elseBlock, merge);
      id := CreateResult(LoadVar(nextId, result));
    }

    // ---------- statements ----------

    method VisitStmt(s: Stmt)
      requires Ok(State())
      modifies this
      ensures State() == LowerStmt(hlsl, old(State()), s)
      decreases s, 2
    {
      hide Framed, Grows, Ok, LowerTestFirst, LowerTestLast, LowerItems, JoinOne, JoinTwo, SwitchHeader, EndSwitch;
      match s
      case Skip =>
      case Eval(e) => var _ := VisitExpr(e);
      case Seq(first, second) =>
        VisitStmt(first);
        VisitStmt(second);
      case If(_, _, _, _) => VisitIf(s);
      case Loop(_, _, _, _) => VisitLoop(s);
      case Switch(_, _) => VisitSwitch(s);
      case Break => VisitBranch(s);
      case Continue => VisitBranch(s);
      case Return(_) => VisitBranch(s);
      case Discard => VisitBranch(s);
    }

    method VisitBranch(s: Stmt)
      requires s.Break? || s.Continue? || s.Return? || s.Discard?
      requires Ok(State())
      modifies this
      ensures State() == LowerStmt(hlsl, old(State()), s)
    {
      match s
      case Break =>
        MakeStatementTerminator(Branch(BreakTarget(State())));
      case Continue =>
        MakeStatementTerminator(Branch(ContinueTarget(State())));
      case Return(NoExpr) =>
        MakeStatementTerminator(ReturnT(NoId));
      case Return(SomeExpr(e)) =>
        var returnId := VisitExpr(e);
        MakeStatementTerminator(ReturnT(SomeId(returnId)));
      case Discard =>
        MakeStatementTerminator(Kill);
    }

    method VisitIf(s: Stmt)
      requires s.If? && Ok(State())
      modifies this
      ensures State() == LowerStmt(hlsl, old(State()), s)
      decreases s, 1
    {
      hide LowerExpr, LowerStmt, Framed, Grows, Ok, EndIfOk, JoinOne, JoinTwo, SecondArm, BeginIf, BeginElse, EndIf;
      IfLowers(hlsl, State(), s);
      var condition := VisitExpr(s.cond);
      ghost var b1 := State();
      var header, thenBlock, merge := BeginThen();
      VisitStmt(s.yes);
      ghost var b2 := State();
      var elseBlock := merge;
      if s.hasElse {
        SecondArmSteps(b1, b2);
        elseBlock := MakeBeginElse(merge);
        VisitStmt(s.no);
        JoinTwoSteps(b1, b2, State(), condition);
      } else {
        JoinOneSteps(b1, b2, condition);
      }
      MakeEndIf(header, condition, thenBlock, elseBlock, merge);
    }

    method VisitMaybe(m: MaybeExpr)
      requires Ok(State())
      modifies this
      ensures State() == LowerMaybe(hlsl, old(State()), m)
    {
      if m.SomeExpr? {
        var _ := VisitExpr(m.e);
      }
    }

    method MakeNewLoopBlocks() returns (l: LoopBlocks)
      modifies `blocks, `loops
      ensures State() == MakeNewLoop(old(State())) && l == LoopOf(old(State()))
    {
      var n := |blocks|;
      l := LoopBlocks(n, n + 1, n + 2, n + 3);
      blocks := blocks + [EMPTY_BLOCK, EMPTY_BLOCK, EMPTY_BLOCK, EMPTY_BLOCK];
      loops := loops + [l];
    }

    /** Makes the header block and goes on there. */
    method BeginLoop() returns (l: LoopBlocks)
      requires Ok(State())
      modifies `blocks, `loops, `buildPoint
      ensures State() == LoopHeader(old(State())) && l == LoopOf(old(State()))
    {
      l := MakeNewLoopBlocks();
      AddTerminator(Branch(l.head));
      buildPoint := l.head;
      AddInstruction(LoopMerge(l.merge, l.cont));
    }

    method StartBody(t: Terminator, body: nat)
      requires Ok(State())
      modifies `blocks, `buildPoint, `breakForLoop
      ensures State() == EnterBody(old(State()), t, body)
    {
      AddTerminator(t);
      buildPoint := body;
      breakForLoop := breakForLoop + [true];
    }

    method StartContinue(cont: nat)
      requires Ok(State()) && breakForLoop != []
      modifies `blocks, `buildPoint, `breakForLoop
      ensures State() == EnterContinue(old(State()), cont)
    {
      AddTerminator(Branch(cont));
      breakForLoop := breakForLoop[..|breakForLoop| - 1];
      buildPoint := cont;
    }

    method FinishLoop(t: Terminator, merge: nat)
      requires Ok(State()) && loops != []
      modifies `blocks, `buildPoint, `loops
      ensures State() == EndLoop(old(State()), t, merge)
    {
      AddTerminator(t);
      buildPoint := merge;
      loops := loops[..|loops| - 1];
    }

    method StartTest()
      requires Ok(State())
      modifies `blocks, `buildPoint
      ensures State() == BranchToNew(old(State()))
    {
      var test := AddBlock();
      AddTerminator(Branch(test));
      buildPoint := test;
    }

    method VisitLoop(s: Stmt)
      requires s.Loop? && Ok(State())
      modifies this
      ensures State() == LowerStmt(hlsl, old(State()), s)
      decreases s, 1
    {
      hide LowerExpr, LowerStmt, LowerMaybe, LowerTestFirst, LowerTestLast, Framed, Grows, Within, LoopHeader,
           BranchToNew;
      hide EnterBody, EnterContinue, EndLoop, Ok;
      ghost var b := State();
      LoopLowers(hlsl, b, s);
      ghost var p0, p1, q0, q1;
      if s.testFirst && s.test.SomeExpr? {
        p0, p1, q0, q1 := TestFirstSteps(hlsl, b, s);
        var l := BeginLoop();
        StartTest();
        var condition := VisitExpr(s.test.e);
        StartBody(CondBranch(condition, l.body, l.merge), l.body);
        VisitStmt(s.body);
        StartContinue(l.cont);
        VisitMaybe(s.terminal);
        FinishLoop(Branch(l.head), l.merge);
      } else {
        p0, p1, q0, q1 := TestLastSteps(hlsl, b, s);
        var l := BeginLoop();
        StartBody(Branch(l.body), l.body);
        VisitStmt(s.body);
        StartContinue(l.cont);
        VisitMaybe(s.terminal);
        if s.test.SomeExpr? {
          var condition := VisitExpr(s.test.e);
          FinishLoop(CondBranch(condition, l.head, l.merge), l.merge);
        } else {
          FinishLoop(Branch(l.head), l.merge);
        }
      }
    }

    /**
     * Sorts the children of a switch body into code segments and labels. A segment whose code is missing at the
     * end is counted in `n`.
     */
    method CollectSegments(items: Items)
        returns (codeSegments: seq<Stmt>, caseValues: seq<int>, valueIndexToSegment: seq<nat>, defaultSegment: int,
                 n: nat)
      ensures codeSegments == Segments(items)
      ensures |caseValues| == |valueIndexToSegment| && Zip(caseValues, valueIndexToSegment) == CaseTable(items, 0)
      ensures defaultSegment == DefaultSegment(items, 0)
      ensures n == NumSegments(items)
    {
      codeSegments, caseValues, valueIndexToSegment, defaultSegment := [], [], [], -1;
      var rest := items;
      while rest != NoItems
        invariant Collected(items, rest, codeSegments, caseValues, valueIndexToSegment, defaultSegment)
        decreases rest
      {
        CollectStep(items, rest, codeSegments, caseValues, valueIndexToSegment, defaultSegment);
        hide Collected;
        match rest
        case CaseLabel(v, next) =>
          caseValues := caseValues + [v];
          valueIndexToSegment := valueIndexToSegment + [|codeSegments|];
          rest := next;
        case DefaultLabel(next) =>
          defaultSegment := |codeSegments|;
          rest := next;
        case Code(s, next) =>
          codeSegments := codeSegments + [s];
          rest := next;
      }
      n := |codeSegments|;
      if (caseValues != [] && |codeSegments| == valueIndexToSegment[|caseValues| - 1])
          || |codeSegments| == defaultSegment {
        n := n + 1;
      }
      assert |caseValues| > 0 ==>
          Zip(caseValues, valueIndexToSegment)[|caseValues| - 1].1 == valueIndexToSegment[|caseValues| - 1];
    }

    /** The operands of the switch instruction: each value with the block of its segment. */
    method BlockCases(caseValues: seq<int>, valueIndexToSegment: seq<nat>, first: nat) returns (cases: seq<(int, nat)>)
      requires |caseValues| == |valueIndexToSegment|
      ensures cases == Targets(Zip(caseValues, valueIndexToSegment), first)
    {
      cases := [];
      for i := 0 to |caseValues|
        invariant cases == Targets(Zip(caseValues[..i], valueIndexToSegment[..i]), first)
      {
        cases := cases + [(caseValues[i], first + valueIndexToSegment[i])];
        TargetsAppend(caseValues[..i], valueIndexToSegment[..i], caseValues[i], valueIndexToSegment[i], first);
        assert caseValues[..i + 1] == caseValues[..i] + [caseValues[i]];
        assert valueIndexToSegment[..i + 1] == valueIndexToSegment[..i] + [valueIndexToSegment[i]];
      }
      assert caseValues[..|caseValues|] == caseValues && valueIndexToSegment[..|caseValues|] == valueIndexToSegment;
    }

    method AddBlocks(n: nat)
      modifies `blocks
      ensures blocks == old(blocks) + EmptyBlocks(n)
    {
      ghost var was := blocks;
      assert EmptyBlocks(0) == [];
      for s := 0 to n
        invariant blocks == was + EmptyBlocks(s)
      {
        var _ := AddBlock();
        assert EmptyBlocks(s) + [EMPTY_BLOCK] == EmptyBlocks(s + 1);
      }
    }

    method MakeSwitchBlocks(selector: nat, n: nat, caseValues: seq<int>, valueIndexToSegment: seq<nat>,
                            defaultSegment: int)
        returns (first: nat)
      requires Ok(State()) && |caseValues| == |valueIndexToSegment|
      modifies `blocks, `switchMerges
      ensures first == |old(blocks)|
      ensures State() == MakeSwitch(old(State()), n, selector,
                                    if defaultSegment >= 0 then first + defaultSegment else first + n,
                                    Targets(Zip(caseValues, valueIndexToSegment), first))
    {
      first := |blocks|;
      AddBlocks(n);
      var merge := AddBlock();
      assert EmptyBlocks(n) + [EMPTY_BLOCK] == EmptyBlocks(n + 1);
      AddInstruction(SelectionMerge(merge));
      var defaultOrMerge := if defaultSegment >= 0 then first + defaultSegment else merge;
      var cases := BlockCases(caseValues, valueIndexToSegment, first);
      AddTerminator(SwitchOn(selector, defaultOrMerge, cases));
      switchMerges := switchMerges + [merge];
    }

    method NextSwitchSegment(segment: nat)
      requires Sized(State())
      modifies `blocks, `buildPoint
      ensures State() == NextSegment(old(State()), segment)
    {
      if blocks[buildPoint].term == Open {
        AddTerminator(Branch(segment));
      }
      buildPoint := segment;
    }

    method FinishSwitch()
      requires Sized(State()) && switchMerges != []
      modifies `blocks, `buildPoint, `switchMerges
      ensures State() == EndSwitch(old(State()))
    {
      if blocks[buildPoint].term == Open {
        MakeStatementTerminator(Branch(switchMerges[|switchMerges| - 1]));
      }
      buildPoint := switchMerges[|switchMerges| - 1];
      switchMerges := switchMerges[..|switchMerges| - 1];
    }

    method VisitSwitch(s: Stmt)
      requires s.Switch? && Ok(State())
      modifies this
      ensures State() == LowerStmt(hlsl, old(State()), s)
      decreases s, 1
    {
      hide LowerExpr, LowerStmt, LowerItems, Framed, Grows, Segmented, SegmentsReady, Ok, NumSegments, MakeSwitch,
           EndSwitch;
      SwitchLowers(hlsl, State(), s);
      var selector := VisitExpr(s.cond);
      ghost var b1 := State();
      var codeSegments, caseValues, valueIndexToSegment, defaultSegment, n := CollectSegments(s.items);
      var first := MakeSwitchBlocks(selector, n, caseValues, valueIndexToSegment, defaultSegment);
      breakForLoop := breakForLoop + [false];
      assert State() == SwitchHeader(b1, selector, s.items);
      EmitSegments(s.items, codeSegments, first, n);
      breakForLoop := breakForLoop[..|breakForLoop| - 1];
      FinishSwitch();
    }

    /** Emits the code of the segments, each in its block. */
    method EmitSegments(items: Items, codeSegments: seq<Stmt>, first: nat, n: nat)
      requires SegmentsReady(State(), first, 0, n) && switchMerges != []
      requires codeSegments == Segments(items) && |codeSegments| <= n <= |codeSegments| + 1
      modifies this
      ensures State() == LowerItems(hlsl, old(State()), items, first, 0, n)
      decreases items, 0
    {
      hide LowerStmt, LowerItems, Framed, Grows, Segmented, SegmentsReady, Ok, NextSegment, Jump, NextCode, Segments;
      ghost var b := State();
      ghost var rest := items;
      var s := 0;
      while s < n
        invariant s <= n && Remaining(rest, codeSegments, s, n)
        invariant SegmentsReady(State(), first, s, n) && switchMerges != []
        invariant LowerItems(hlsl, State(), rest, first, s, n) == LowerItems(hlsl, b, items, first, 0, n)
      {
        NextCodeLowers(hlsl, State(), rest, first, s, n);
        NextRemaining(rest, codeSegments, s, n);
        rest := NextCode(rest);
        ReadyIsSized(State(), first, s, n);
        if s < |codeSegments| {
          CodeLowered(hlsl, State(), rest, first, s, n);
          NextSwitchSegment(first + s);
          InSegments(codeSegments, items, s);
          VisitStmt(codeSegments[s]);
          rest := rest.rest;
        } else {
          LastSegment(hlsl, State(), first, s, n);
          NextSwitchSegment(first + s);
          MakeStatementTerminator(Branch(switchMerges[|switchMerges| - 1]));
        }
        s := s + 1;
      }
      NoneLeft(hlsl, State(), rest, first, n);
    }

    /** A function body from its entry block on, with a return at its end. */
    method TranslateBody(valued: bool, body: Stmt)
      requires State() == ENTRY
      modifies this
      ensures blocks == LowerBody(hlsl, valued, body)
    {
      VisitStmt(body);
      if !valued {
        AddTerminator(ReturnT(NoId));
      } else {
        var value := CreateResult(Undef(nextId));
        AddTerminator(ReturnT(SomeId(value)));
      }
    }
  }
}
