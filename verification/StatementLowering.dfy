/** The translation of statements: loops, switches and jumps. */
module StatementLowering {
  import opened ShaderAst
  import opened SpirvBuilder
  import opened Lowering

  // ---------- pieces inside a loop or switch ----------

  /**
   * `x` is inside a construct opened at `b`: `b`'s build point has become `header`, the blocks `todo` are untouched.
   */
  ghost predicate Within(b: Builder, header: Block, x: Builder, todo: set<nat>) {
    && Ok(b) && Sized(x) && header.term != Open
    && |b.blocks| <= |x.blocks| && b.nextId <= x.nextId
    && (forall i :: 0 <= i < |b.blocks| && i != b.cur ==> x.blocks[i] == b.blocks[i])
    && b.blocks[b.cur].instrs <= header.instrs && x.blocks[b.cur] == header
    && (x.cur == b.cur || |b.blocks| <= x.cur)
    && forall i :: i in todo ==> |b.blocks| <= i < |x.blocks| && i != x.cur && x.blocks[i] == EMPTY_BLOCK
  }

  lemma WithinTrans(b: Builder, header: Block, x: Builder, y: Builder, todo: set<nat>)
    requires Within(b, header, x, todo) && Framed(x, y)
    ensures Within(b, header, y, todo) && Ok(y)
  {
  }

  /** Ending the build point with `t` and going on at a block that is still to do. */
  lemma WithinMove(b: Builder, header: Block, x: Builder, todo: set<nat>, t: Terminator, next: nat)
    requires Within(b, header, x, todo) && Ok(x) && next in todo
    ensures var y := SetBuildPoint(Terminate(x, t), next);
            Within(b, header, y, todo - {next}) && Ok(y) && y.blocks[next] == EMPTY_BLOCK
  {
  }

  /** Going on at the last block that was to do, with the stacks as they were. */
  lemma WithinDone(b: Builder, header: Block, x: Builder)
    requires Within(b, header, x, {}) && Ok(x) && |b.blocks| <= x.cur
    requires x.loops == b.loops && x.switchMerges == b.switchMerges && x.breakForLoop == b.breakForLoop
    ensures Framed(b, x)
  {
  }

  // ---------- loops ----------

  function LoopOf(b: Builder): LoopBlocks {
    var n := |b.blocks|;
    LoopBlocks(n, n + 1, n + 2, n + 3)
  }

  function ClosedWith(b: Builder, t: Terminator): Block
    requires Ok(b)
  {
    b.blocks[b.cur].(term := t)
  }

  /** Makes the loop's blocks and branches to the header, which gets the merge instruction. */
  function LoopHeader(b: Builder): (r: Builder)
    requires Ok(b)
    ensures Ok(r) && r.cur == |b.blocks| && |r.blocks| == |b.blocks| + 4
    ensures Within(b, ClosedWith(b, Branch(|b.blocks|)), r, {LoopOf(b).body, LoopOf(b).merge, LoopOf(b).cont})
    ensures r.blocks[r.cur] == Block([LoopMerge(LoopOf(b).merge, LoopOf(b).cont)], Open)
    ensures r.nextId == b.nextId && r.loops == b.loops + [LoopOf(b)]
    ensures r.switchMerges == b.switchMerges && r.breakForLoop == b.breakForLoop
  {
    var l := LoopOf(b);
    Emit(SetBuildPoint(Terminate(MakeNewLoop(b), Branch(l.head)), l.head), LoopMerge(l.merge, l.cont))
  }

  /** Branches to a new block and goes on there. */
  function BranchToNew(b: Builder): (r: Builder)
    requires Ok(b)
    ensures Framed(b, r) && r.cur == |b.blocks| && r.blocks[r.cur] == EMPTY_BLOCK
    ensures Grows(Terminate(b, Branch(r.cur)).blocks, r.blocks)
  {
    SetBuildPoint(NewBlock(Terminate(b, Branch(|b.blocks|))), |b.blocks|)
  }

  function EnterBody(b: Builder, t: Terminator, body: nat): Builder
    requires Ok(b)
  {
    PushBreak(SetBuildPoint(Terminate(b, t), body), true)
  }

  function EnterContinue(b: Builder, cont: nat): Builder
    requires Ok(b) && b.breakForLoop != []
  {
    SetBuildPoint(PopBreak(Terminate(b, Branch(cont))), cont)
  }

  function EndLoop(b: Builder, t: Terminator, merge: nat): Builder
    requires Ok(b) && b.loops != []
  {
    CloseLoop(SetBuildPoint(Terminate(b, t), merge))
  }

  function LowerMaybe(hlsl: bool, b: Builder, m: MaybeExpr): (r: Builder)
    requires Ok(b)
    ensures Ok(r) && Framed(b, r)
  {
    match m
    case NoExpr => b
    case SomeExpr(e) => LowerExpr(hlsl, b, e).0
  }

  /** From the end of the body to the start of the continue target. */
  lemma BodyToContinue(b: Builder, header: Block, p0: Builder, p1: Builder)
    requires Within(b, header, p0, {LoopOf(b).merge, LoopOf(b).cont}) && Framed(p0, p1)
    requires p0.loops == b.loops + [LoopOf(b)] && p0.switchMerges == b.switchMerges
    requires p0.breakForLoop == b.breakForLoop + [true]
    ensures var q := EnterContinue(p1, LoopOf(b).cont);
            && Ok(q) && Within(b, header, q, {LoopOf(b).merge}) && q.blocks[q.cur] == EMPTY_BLOCK
            && q.loops == b.loops + [LoopOf(b)] && q.switchMerges == b.switchMerges && q.breakForLoop == b.breakForLoop
  {
    WithinTrans(b, header, p0, p1, {LoopOf(b).merge, LoopOf(b).cont});
    WithinMove(b, header, p1, {LoopOf(b).merge, LoopOf(b).cont}, Branch(LoopOf(b).cont), LoopOf(b).cont);
    assert {LoopOf(b).merge, LoopOf(b).cont} - {LoopOf(b).cont} == {LoopOf(b).merge};
  }

  lemma ContinueToMerge(b: Builder, header: Block, q0: Builder, q1: Builder, t: Terminator)
    requires Within(b, header, q0, {LoopOf(b).merge}) && Framed(q0, q1)
    requires q0.loops == b.loops + [LoopOf(b)] && q0.switchMerges == b.switchMerges && q0.breakForLoop == b.breakForLoop
    ensures var r := EndLoop(q1, t, LoopOf(b).merge);
            Ok(r) && Framed(b, r) && r.blocks[r.cur] == EMPTY_BLOCK
  {
    WithinTrans(b, header, q0, q1, {LoopOf(b).merge});
    WithinMove(b, header, q1, {LoopOf(b).merge}, t, LoopOf(b).merge);
    assert {LoopOf(b).merge} - {LoopOf(b).merge} == {};
    WithinDone(b, header, EndLoop(q1, t, LoopOf(b).merge));
  }

  // ---------- switches ----------

  function SegCount(items: Items): nat {
    match items
    case NoItems => 0
    case CaseLabel(_, rest) => SegCount(rest)
    case DefaultLabel(rest) => SegCount(rest)
    case Code(_, rest) => 1 + SegCount(rest)
  }

  /** Case values in order with the segment that follows each; `k` segments came before. */
  function CaseTable(items: Items, k: nat): seq<(int, nat)> {
    match items
    case NoItems => []
    case CaseLabel(v, rest) => [(v, k)] + CaseTable(rest, k)
    case DefaultLabel(rest) => CaseTable(rest, k)
    case Code(_, rest) => CaseTable(rest, k + 1)
  }

  /** The segment after the last default label, or -1. */
  function DefaultSegment(items: Items, k: nat): int {
    match items
    case NoItems => -1
    case CaseLabel(_, rest) => DefaultSegment(rest, k)
    case DefaultLabel(rest) => if DefaultSegment(rest, k) != -1 then DefaultSegment(rest, k) else k
    case Code(_, rest) => DefaultSegment(rest, k + 1)
  }

  /** One more segment if no code follows the last case label or the default label. */
  function NumSegments(items: Items): nat {
    var cases := CaseTable(items, 0);
    var n := SegCount(items);
    if (cases != [] && n == cases[|cases| - 1].1) || n == DefaultSegment(items, 0) then n + 1 else n
  }

  /** Segment numbers to block numbers. */
  function Targets(cases: seq<(int, nat)>, first: nat): (r: seq<(int, nat)>)
    ensures |r| == |cases|
  {
    if cases == [] then [] else [(cases[0].0, first + cases[0].1)] + Targets(cases[1..], first)
  }

  function SwitchHeader(b: Builder, selector: nat, items: Items): Builder
    requires Ok(b)
  {
    var n := NumSegments(items);
    var first := |b.blocks|;
    var d := DefaultSegment(items, 0);
    PushBreak(MakeSwitch(b, n, selector, if d >= 0 then first + d else first + n, Targets(CaseTable(items, 0), first)),
              false)
  }

  /** What emitting the segments from `k` on does, where the segment blocks are `first..first + n`. */
  ghost predicate Segmented(b: Builder, r: Builder, first: nat, k: nat, n: nat) {
    && Sized(b) && Sized(r) && Grows(b.blocks, r.blocks)
    && (forall i :: 0 <= i < |b.blocks| && i != b.cur && !(first + k <= i < first + n) ==> r.blocks[i] == b.blocks[i])
    && (r.cur == b.cur || first + k <= r.cur < first + n || |b.blocks| <= r.cur)
    && b.nextId <= r.nextId
    && r.loops == b.loops && r.switchMerges == b.switchMerges && r.breakForLoop == b.breakForLoop
  }

  predicate SegmentsReady(b: Builder, first: nat, k: nat, n: nat) {
    && Sized(b) && first + n <= |b.blocks| && k <= n
    && forall i :: first + k <= i < first + n ==> i != b.cur && b.blocks[i] == EMPTY_BLOCK
  }

  /** Emits a segment in its block; the remaining segment blocks stay as they are. */
  lemma OneSegment(b: Builder, first: nat, k: nat, n: nat, r: Builder)
    requires SegmentsReady(b, first, k, n) && k < n
    requires Ok(NextSegment(b, first + k)) ==> Framed(NextSegment(b, first + k), r)
    ensures Ok(NextSegment(b, first + k)) && Segmented(b, r, first, k, n) && SegmentsReady(r, first, k + 1, n) && Ok(r)
  {
    var x := NextSegment(b, first + k);
    assert Grows(b.blocks, x.blocks);
    GrowsTrans(b.blocks, x.blocks, r.blocks);
  }

  lemma SegmentedTrans(b: Builder, x: Builder, r: Builder, first: nat, k: nat, n: nat)
    requires k < n && Segmented(b, x, first, k, n) && Segmented(x, r, first, k + 1, n)
    requires SegmentsReady(x, first, k + 1, n)
    ensures Segmented(b, r, first, k, n)
  {
    GrowsTrans(b.blocks, x.blocks, r.blocks);
  }

  /** The switch as a whole. */
  lemma SwitchFramed(b: Builder, selector: nat, items: Items, r: Builder)
    requires Ok(b)
    requires Segmented(SwitchHeader(b, selector, items), r, |b.blocks|, 0, NumSegments(items))
    ensures var x := SwitchHeader(b, selector, items);
            && r.breakForLoop != [] && r.switchMerges != []
            && var e := EndSwitch(PopBreak(r));
            Ok(e) && Framed(b, e) && Grows(r.blocks, e.blocks) && e.cur == |b.blocks| + NumSegments(items)
            && e.blocks[e.cur] == EMPTY_BLOCK
  {
    var x := SwitchHeader(b, selector, items);
    var e := EndSwitch(PopBreak(r));
    assert Grows(b.blocks, x.blocks);
    GrowsTrans(b.blocks, x.blocks, r.blocks);
    assert Grows(r.blocks, e.blocks);
    GrowsTrans(b.blocks, r.blocks, e.blocks);
  }

  lemma SwitchReady(b: Builder, selector: nat, items: Items)
    requires Ok(b)
    ensures var x := SwitchHeader(b, selector, items);
            && SegmentsReady(x, |b.blocks|, 0, NumSegments(items)) && x.switchMerges != []
            && SegCount(items) <= NumSegments(items) <= SegCount(items) + 1
            && x.nextId == b.nextId && x.loops == b.loops
            && x.switchMerges == b.switchMerges + [|b.blocks| + NumSegments(items)]
            && x.breakForLoop == b.breakForLoop + [false]
            && !Ok(x) && x.blocks[|b.blocks| + NumSegments(items)] == EMPTY_BLOCK
  {
  }

  // ---------- statements ----------

  /** A piece that is not followed by anything reachable. */
  function Jump(b: Builder, t: Terminator): (r: Builder)
    requires Ok(b)
    ensures Ok(r) && Framed(b, r)
  {
    EndWithFramed(b, t);
    EndWith(b, t)
  }

  function LowerStmt(hlsl: bool, b: Builder, s: Stmt): (r: Builder)
    requires Ok(b)
    ensures Ok(r) && Framed(b, r)
    decreases s, 1
  {
    hide Framed, Ok;
    match s
    case Skip => FramedRefl(b); b
    case Eval(e) => LowerExpr(hlsl, b, e).0
    case Seq(first, second) =>
      var b1 := LowerStmt(hlsl, b, first);
      var r := LowerStmt(hlsl, b1, second);
      FramedTrans(b, b1, r);
      r
    case If(c, yes, no, hasElse) =>
      var (b1, k) := LowerExpr(hlsl, b, c);
      BeginIfShape(b1);
      var b2 := LowerStmt(hlsl, BeginIf(b1), yes);
      var r := if hasElse then JoinTwo(b1, b2, LowerStmt(hlsl, SecondArm(b1, b2), no), k) else JoinOne(b1, b2, k);
      FramedTrans(b, b1, r);
      r
    case Loop(testFirst, test, _, _) =>
      if testFirst && test.SomeExpr? then LowerTestFirst(hlsl, b, s) else LowerTestLast(hlsl, b, s)
    case Switch(c, items) =>
      var (b1, k) := LowerExpr(hlsl, b, c);
      SwitchReady(b1, k, items);
      var b2 := LowerItems(hlsl, SwitchHeader(b1, k, items), items, |b1.blocks|, 0, NumSegments(items));
      SwitchFramed(b1, k, items, b2);
      var r := EndSwitch(PopBreak(b2));
      FramedTrans(b, b1, r);
      r
    case Break => Jump(b, Branch(BreakTarget(b)))
    case Continue => Jump(b, Branch(ContinueTarget(b)))
    case Return(m) =>
      (match m
       case NoExpr => Jump(b, ReturnT(NoId))
       case SomeExpr(e) =>
         var (b1, v) := LowerExpr(hlsl, b, e);
         var r := Jump(b1, ReturnT(SomeId(v)));
         FramedTrans(b, b1, r);
         r)
    case Discard => Jump(b, Kill)
  }

  /** while and for: header, test in a block of its own, body, continue target. */
  function LowerTestFirst(hlsl: bool, b: Builder, s: Stmt): (r: Builder)
    requires Ok(b) && s.Loop? && s.testFirst && s.test.SomeExpr?
    ensures Ok(r) && Framed(b, r)
    decreases s, 0
  {
    hide Framed, Grows;
    var l := LoopOf(b);
    var header := ClosedWith(b, Branch(l.head));
    var h := LoopHeader(b);
    var t0 := BranchToNew(h);
    WithinTrans(b, header, h, t0, {l.body, l.merge, l.cont});
    var (t1, k) := LowerExpr(hlsl, t0, s.test.e);
    WithinTrans(b, header, t0, t1, {l.body, l.merge, l.cont});
    WithinMove(b, header, t1, {l.body, l.merge, l.cont}, CondBranch(k, l.body, l.merge), l.body);
    assert {l.body, l.merge, l.cont} - {l.body} == {l.merge, l.cont};
    assert t1.loops == h.loops && t1.switchMerges == h.switchMerges && t1.breakForLoop == h.breakForLoop by {
      FramedStacks(h, t0);
      FramedStacks(t0, t1);
    }
    var p0 := EnterBody(t1, CondBranch(k, l.body, l.merge), l.body);
    assert Within(b, header, p0, {l.merge, l.cont});
    hide Within;
    var p1 := LowerStmt(hlsl, p0, s.body);
    FramedStacks(p0, p1);
    BodyToContinue(b, header, p0, p1);
    var q0 := EnterContinue(p1, l.cont);
    var q1 := LowerMaybe(hlsl, q0, s.terminal);
    FramedStacks(q0, q1);
    ContinueToMerge(b, header, q0, q1, Branch(l.head));
    EndLoop(q1, Branch(l.head), l.merge)
  }

  /** do-while, and loops without a test: the body directly after the header, a test after the terminal expression. */
  function LowerTestLast(hlsl: bool, b: Builder, s: Stmt): (r: Builder)
    requires Ok(b) && s.Loop?
    ensures Ok(r) && Framed(b, r)
    decreases s, 0
  {
    hide Framed, Grows;
    var l := LoopOf(b);
    var header := ClosedWith(b, Branch(l.head));
    var h := LoopHeader(b);
    WithinMove(b, header, h, {l.body, l.merge, l.cont}, Branch(l.body), l.body);
    assert {l.body, l.merge, l.cont} - {l.body} == {l.merge, l.cont};
    var p0 := EnterBody(h, Branch(l.body), l.body);
    assert Within(b, header, p0, {l.merge, l.cont});
    hide Within;
    var p1 := LowerStmt(hlsl, p0, s.body);
    FramedStacks(p0, p1);
    BodyToContinue(b, header, p0, p1);
    var q0 := EnterContinue(p1, l.cont);
    var q1 := LowerMaybe(hlsl, q0, s.terminal);
    FramedStacks(q0, q1);
    if s.test.SomeExpr? then
      var (q2, k) := LowerExpr(hlsl, q1, s.test.e);
      FramedTrans(q0, q1, q2);
      FramedStacks(q0, q2);
      ContinueToMerge(b, header, q0, q2, CondBranch(k, l.head, l.merge));
      EndLoop(q2, CondBranch(k, l.head, l.merge), l.merge)
    else
      ContinueToMerge(b, header, q0, q1, Branch(l.head));
      EndLoop(q1, Branch(l.head), l.merge)
  }

  lemma FramedStacks(b: Builder, r: Builder)
    requires Framed(b, r)
    ensures r.loops == b.loops && r.switchMerges == b.switchMerges && r.breakForLoop == b.breakForLoop
  {
  }

  /** The segments from number `k` on, and a break in the extra one that has no code. */
  function LowerItems(hlsl: bool, b: Builder, items: Items, first: nat, k: nat, n: nat): (r: Builder)
    requires SegmentsReady(b, first, k, n) && k + SegCount(items) <= n <= k + SegCount(items) + 1
    requires b.switchMerges != []
    ensures Segmented(b, r, first, k, n)
    decreases items, 0
  {
    match items
    case NoItems =>
      if k == n then b
      else
        var x := NextSegment(b, first + k);
        var r := Jump(x, Branch(b.switchMerges[|b.switchMerges| - 1]));
        OneSegment(b, first, k, n, r);
        r
    case CaseLabel(_, rest) => LowerItems(hlsl, b, rest, first, k, n)
    case DefaultLabel(rest) => LowerItems(hlsl, b, rest, first, k, n)
    case Code(s, rest) =>
      var x := LowerStmt(hlsl, NextSegment(b, first + k), s);
      OneSegment(b, first, k, n, x);
      var r := LowerItems(hlsl, x, rest, first, k + 1, n);
      SegmentedTrans(b, x, r, first, k, n);
      r
  }

  /** A segment is emitted in its block, then come the others. */
  lemma CodeLowered(hlsl: bool, b: Builder, items: Items, first: nat, k: nat, n: nat)
    requires SegmentsReady(b, first, k, n) && k + SegCount(items) <= n <= k + SegCount(items) + 1 && k < n
    requires items.Code? && b.switchMerges != []
    ensures var x := NextSegment(b, first + k);
            && Ok(x)
            && var y := LowerStmt(hlsl, x, items.segment);
            && SegmentsReady(y, first, k + 1, n) && y.switchMerges != []
            && LowerItems(hlsl, b, items, first, k, n) == LowerItems(hlsl, y, items.rest, first, k + 1, n)
  {
    OneSegment(b, first, k, n, LowerStmt(hlsl, NextSegment(b, first + k), items.segment));
  }

  // ---------- statements by their parts ----------

  lemma LoopLowers(hlsl: bool, b: Builder, s: Stmt)
    requires s.Loop? && Ok(b)
    ensures LowerStmt(hlsl, b, s) == if s.testFirst && s.test.SomeExpr? then LowerTestFirst(hlsl, b, s)
                                     else LowerTestLast(hlsl, b, s)
  {
  }

  lemma IfLowers(hlsl: bool, b: Builder, s: Stmt)
    requires s.If? && Ok(b)
    ensures var (b1, k) := LowerExpr(hlsl, b, s.cond);
            && Ok(BeginIf(b1))
            && var b2 := LowerStmt(hlsl, BeginIf(b1), s.yes);
            LowerStmt(hlsl, b, s) == if s.hasElse then JoinTwo(b1, b2, LowerStmt(hlsl, SecondArm(b1, b2), s.no), k)
                                     else JoinOne(b1, b2, k)
  {
    var (b1, k) := LowerExpr(hlsl, b, s.cond);
    BeginIfShape(b1);
    hide Framed, LowerTestFirst, LowerTestLast, LowerItems, JoinOne, JoinTwo, SecondArm;
  }

  lemma SwitchLowers(hlsl: bool, b: Builder, s: Stmt)
    requires s.Switch? && Ok(b)
    ensures var (b1, v) := LowerExpr(hlsl, b, s.cond);
            var x := SwitchHeader(b1, v, s.items); var n := NumSegments(s.items);
            && SegmentsReady(x, |b1.blocks|, 0, n) && SegCount(s.items) <= n <= SegCount(s.items) + 1
            && x.switchMerges != []
            && var r := LowerItems(hlsl, x, s.items, |b1.blocks|, 0, n);
            && r.breakForLoop != [] && r.switchMerges != [] && Sized(r)
            && LowerStmt(hlsl, b, s) == EndSwitch(PopBreak(r))
  {
    hide Framed, LowerTestFirst, LowerTestLast, LowerExpr, EndSwitch, Grows;
    var (b1, v) := LowerExpr(hlsl, b, s.cond);
    SwitchReady(b1, v, s.items);
  }

  /** After the last segment nothing more is emitted. */
  lemma {:induction false} NoneLeft(hlsl: bool, b: Builder, items: Items, first: nat, n: nat)
    requires SegmentsReady(b, first, n, n) && SegCount(items) == 0 && b.switchMerges != []
    ensures LowerItems(hlsl, b, items, first, n, n) == b
    decreases items
  {
    match items
    case NoItems =>
    case CaseLabel(_, rest) => NoneLeft(hlsl, b, rest, first, n);
    case DefaultLabel(rest) => NoneLeft(hlsl, b, rest, first, n);
  }

  // ---------- the steps of a loop's translation ----------

  /** The body's start and what comes before the end of the continue target. */
  ghost predicate BodySteps(hlsl: bool, b: Builder, s: Stmt, p0: Builder, p1: Builder, q0: Builder, q1: Builder)
    requires s.Loop?
  {
    var l := LoopOf(b);
    && Ok(p0) && p0.cur == l.body && p0.blocks[p0.cur] == EMPTY_BLOCK
    && BreakTarget(p0) == l.merge && ContinueTarget(p0) == l.cont
    && p1 == LowerStmt(hlsl, p0, s.body) && Ok(p1) && p1.breakForLoop != []
    && q0 == EnterContinue(p1, l.cont) && Ok(q0) && q0.cur == l.cont && q0.blocks[q0.cur] == EMPTY_BLOCK
    && q1 == LowerMaybe(hlsl, q0, s.terminal) && Ok(q1) && q1.loops != []
  }

  lemma TestFirstSteps(hlsl: bool, b: Builder, s: Stmt) returns (p0: Builder, p1: Builder, q0: Builder, q1: Builder)
    requires Ok(b) && s.Loop? && s.testFirst && s.test.SomeExpr?
    ensures BodySteps(hlsl, b, s, p0, p1, q0, q1)
    ensures var l := LoopOf(b); var h := LoopHeader(b); var t0 := BranchToNew(h);
            && Ok(t0)
            && var (t1, k) := LowerExpr(hlsl, t0, s.test.e);
            && p0 == EnterBody(t1, CondBranch(k, l.body, l.merge), l.body)
            && var r := LowerTestFirst(hlsl, b, s);
            r == EndLoop(q1, Branch(l.head), l.merge) && r.cur == l.merge && r.blocks[r.cur] == EMPTY_BLOCK
  {
    hide LowerExpr, LowerStmt, LowerMaybe;
    var l := LoopOf(b);
    var header := ClosedWith(b, Branch(l.head));
    var h := LoopHeader(b);
    var t0 := BranchToNew(h);
    WithinTrans(b, header, h, t0, {l.body, l.merge, l.cont});
    var (t1, k) := LowerExpr(hlsl, t0, s.test.e);
    WithinTrans(b, header, t0, t1, {l.body, l.merge, l.cont});
    WithinMove(b, header, t1, {l.body, l.merge, l.cont}, CondBranch(k, l.body, l.merge), l.body);
    assert {l.body, l.merge, l.cont} - {l.body} == {l.merge, l.cont};
    p0 := EnterBody(t1, CondBranch(k, l.body, l.merge), l.body);
    assert Within(b, header, p0, {l.merge, l.cont});
    FramedStacks(h, t0);
    FramedStacks(t0, t1);
    hide Within, Framed, Grows;
    p1 := LowerStmt(hlsl, p0, s.body);
    FramedStacks(p0, p1);
    BodyToContinue(b, header, p0, p1);
    q0 := EnterContinue(p1, l.cont);
    q1 := LowerMaybe(hlsl, q0, s.terminal);
    FramedStacks(q0, q1);
    ContinueToMerge(b, header, q0, q1, Branch(l.head));
  }

  lemma TestLastSteps(hlsl: bool, b: Builder, s: Stmt) returns (p0: Builder, p1: Builder, q0: Builder, q1: Builder)
    requires Ok(b) && s.Loop?
    ensures BodySteps(hlsl, b, s, p0, p1, q0, q1)
    ensures var l := LoopOf(b);
            && p0 == EnterBody(LoopHeader(b), Branch(l.body), l.body)
            && var r := LowerTestLast(hlsl, b, s);
            && r.cur == l.merge && r.blocks[r.cur] == EMPTY_BLOCK
            && if s.test.SomeExpr? then
                 var (q2, k) := LowerExpr(hlsl, q1, s.test.e);
                 q2.loops != [] && r == EndLoop(q2, CondBranch(k, l.head, l.merge), l.merge)
               else
                 r == EndLoop(q1, Branch(l.head), l.merge)
  {
    hide LowerExpr, LowerStmt, LowerMaybe;
    var l := LoopOf(b);
    var header := ClosedWith(b, Branch(l.head));
    var h := LoopHeader(b);
    WithinMove(b, header, h, {l.body, l.merge, l.cont}, Branch(l.body), l.body);
    assert {l.body, l.merge, l.cont} - {l.body} == {l.merge, l.cont};
    p0 := EnterBody(h, Branch(l.body), l.body);
    assert Within(b, header, p0, {l.merge, l.cont});
    hide Within, Framed, Grows;
    p1 := LowerStmt(hlsl, p0, s.body);
    FramedStacks(p0, p1);
    BodyToContinue(b, header, p0, p1);
    q0 := EnterContinue(p1, l.cont);
    q1 := LowerMaybe(hlsl, q0, s.terminal);
    FramedStacks(q0, q1);
    if s.test.SomeExpr? {
      var (q2, k) := LowerExpr(hlsl, q1, s.test.e);
      FramedTrans(q0, q1, q2);
      FramedStacks(q0, q2);
      ContinueToMerge(b, header, q0, q2, CondBranch(k, l.head, l.merge));
    } else {
      ContinueToMerge(b, header, q0, q1, Branch(l.head));
    }
  }
}
