/** The control-flow graph of lowered expressions: every "if" made for them is a construct. */
module LoweredGraph {
  import opened ShaderAst
  import opened SpirvBuilder
  import opened Lowering
  import opened ConstructRegions
  import C = Cfg

  /** The merge instruction is the one before the terminator. */
  function MergeOf(instrs: seq<Instr>): C.MergeInst {
    if instrs == [] then C.NoMerge
    else
      match instrs[|instrs| - 1]
      case SelectionMerge(m) => C.SelectionMerge(m)
      case LoopMerge(m, c) => C.LoopMerge(m, c)
      case _ => C.NoMerge
  }

  function Successors(t: Terminator): seq<nat> {
    match t
    case Branch(x) => [x]
    case CondBranch(_, y, n) => [y, n]
    case SwitchOn(_, otherwise, cases) => [otherwise] + CaseBlocks(cases)
    case _ => []
  }

  function CaseBlocks(cases: seq<(int, nat)>): (r: seq<nat>)
    ensures |r| == |cases| && forall i :: 0 <= i < |r| ==> r[i] == cases[i].1
  {
    seq(|cases|, i requires 0 <= i < |cases| => cases[i].1)
  }

  function ShapeOf(b: Block): C.Shape {
    C.Shape(MergeOf(b.instrs), Successors(b.term))
  }

  function GraphOf(f: seq<Block>): (g: C.Graph)
    ensures forall i: nat :: i in g <==> i < |f|
    ensures forall i: nat :: i < |f| ==> g[i] == ShapeOf(f[i])
  {
    map i: nat | i < |f| :: ShapeOf(f[i])
  }

  function Range(lo: nat, hi: nat): (s: set<nat>)
    ensures forall i: nat :: i in s <==> lo <= i < hi
  {
    if lo >= hi then {} else Range(lo, hi - 1) + {hi - 1}
  }

  /** The blocks that a step of the translation adds. */
  function New(b: Builder, r: Builder): set<nat> {
    Range(|b.blocks|, |r.blocks|)
  }

  lemma NewIs(b: Builder, r: Builder)
    ensures New(b, r) == Range(|b.blocks|, |r.blocks|)
  {
  }

  predicate Calm(b: Builder) {
    Ok(b) && MergeOf(b.blocks[b.cur].instrs).NoMerge?
  }

  /** The build point as it was and the new blocks are a piece whose regions are all new. */
  ghost predicate Lowered(b: Builder, r: Builder, e: set<nat>, rg: Regions) {
    && Framed(b, r) && Calm(b) && Calm(r)
    && Piece(GraphOf(r.blocks), {b.cur} + New(b, r), New(b, r), e, rg)
  }

  /** In `f` the blocks of a translated piece are as they were made, and the last one has got a terminator. */
  predicate Ended(f: seq<Block>, b: Builder, r: Builder) {
    && r.cur < |r.blocks| <= |f| && b.cur < |r.blocks|
    && f[r.cur].instrs == r.blocks[r.cur].instrs
    && forall i <- {b.cur} + New(b, r) | i != r.cur :: f[i] == r.blocks[i]
  }

  // ---------- pieces of translations ----------

  lemma NothingLowered(b: Builder, e: set<nat>)
    requires Calm(b)
    ensures Lowered(b, b, e, map[])
  {
    OneBlock(GraphOf(b.blocks), b.cur, e);
    assert {b.cur} + New(b, b) == {b.cur} && New(b, b) == {};
  }

  lemma EmitLowered(b: Builder, i: Instr)
    requires Calm(b) && MergeOf([i]).NoMerge?
    ensures Lowered(b, Emit(b, i), {}, map[]) && Lowered(b, Emit(FreshId(b), i), {}, map[])
  {
    var r := Emit(b, i);
    EmitFramed(b, i);
    OneBlock(GraphOf(r.blocks), b.cur, {});
    assert {b.cur} + New(b, r) == {b.cur} && New(b, r) == {};
    assert Emit(FreshId(b), i).blocks == r.blocks;
  }

  lemma LoweredWiden(b: Builder, r: Builder, e: set<nat>, rg: Regions, e': set<nat>)
    requires Lowered(b, r, e, rg) && e <= e'
    ensures Lowered(b, r, e', rg)
  {
    PieceWiden(GraphOf(r.blocks), {b.cur} + New(b, r), New(b, r), e, rg, New(b, r), e');
  }

  lemma LoweredParts(b: Builder, r: Builder, e: set<nat>, rg: Regions)
    requires Lowered(b, r, e, rg)
    ensures Framed(b, r) && Calm(b) && Calm(r) && Piece(GraphOf(r.blocks), {b.cur} + New(b, r), New(b, r), e, rg)
    ensures r.cur in {b.cur} + New(b, r) && r.cur !in rg && rg.Keys <= {b.cur} + New(b, r)
  {
    assert r.cur in rg ==> HasRegion(GraphOf(r.blocks), r.cur, New(b, r), rg);
  }

  lemma EndedGraph(b: Builder, r: Builder, f: seq<Block>)
    requires Ended(f, b, r) && Calm(r)
    ensures {b.cur} + New(b, r) <= GraphOf(f).Keys && r.cur in GraphOf(f)
    ensures forall x <- {b.cur} + New(b, r) - {r.cur} :: GraphOf(f)[x] == GraphOf(r.blocks)[x]
    ensures GraphOf(f)[r.cur] == C.Shape(C.NoMerge, Successors(f[r.cur].term))
  {
  }

  /** The piece after its build point has been ended with branches to `ys`. */
  lemma EndedPiece(b: Builder, r: Builder, e: set<nat>, rg: Regions, f: seq<Block>, ys: set<nat>)
    requires Lowered(b, r, e, rg) && Ended(f, b, r)
    requires (forall y <- Successors(f[r.cur].term) :: y in ys) && ys !! New(b, r)
    ensures Piece(GraphOf(f), {b.cur} + New(b, r), New(b, r), e + ys, rg)
  {
    hide *;
    LoweredParts(b, r, e, rg);
    EndedGraph(b, r, f);
    var s, n, g := {b.cur} + New(b, r), New(b, r), GraphOf(f);
    PieceDrop(GraphOf(r.blocks), s, n, e, rg, r.cur);
    PieceFrame(GraphOf(r.blocks), g, s - {r.cur}, n, e, rg);
    OneBlock(g, r.cur, ys);
    PieceUnion(g, s - {r.cur}, n, e, rg, {r.cur}, {}, ys, map[]);
    assert s - {r.cur} + {r.cur} == s && n + {} == n && rg + map[] == rg;
  }

  lemma NextGraph(b: Builder, b1: Builder, r: Builder)
    requires Framed(b, b1) && Framed(b1, r)
    ensures {b.cur} + New(b, b1) - {b1.cur} <= GraphOf(r.blocks).Keys
    ensures forall x <- {b.cur} + New(b, b1) - {b1.cur} :: GraphOf(r.blocks)[x] == GraphOf(b1.blocks)[x]
  {
  }

  lemma NextSizes(b: Builder, b1: Builder, r: Builder)
    requires Framed(b, b1) && Framed(b1, r)
    ensures b.cur < |b.blocks| <= |b1.blocks| <= |r.blocks| && b1.cur < |b1.blocks|
    ensures b1.cur == b.cur || |b.blocks| <= b1.cur
  {
  }

  lemma NextBlocks(cur: nat, cur1: nat, lo: nat, mid: nat, hi: nat, e: set<nat>)
    requires cur < lo <= mid <= hi && (cur1 == cur || lo <= cur1 < mid) && forall x <- e :: x < lo
    ensures e !! Range(lo, mid) && e !! Range(mid, hi) && Range(lo, mid) !! Range(mid, hi)
    ensures {cur} + Range(lo, mid) - {cur1} !! {cur1} + Range(mid, hi)
    ensures {cur} + Range(lo, mid) - {cur1} + ({cur1} + Range(mid, hi)) == {cur} + Range(lo, hi)
    ensures Range(lo, mid) + Range(mid, hi) == Range(lo, hi)
  {
  }

  /** One piece after another. */
  lemma LoweredTrans(b: Builder, b1: Builder, r: Builder, e: set<nat>, r1: Regions, r2: Regions)
    requires Lowered(b, b1, e, r1) && Lowered(b1, r, e, r2)
    requires forall x <- e :: x < |b.blocks|
    ensures Lowered(b, r, e, r1 + r2)
  {
    hide *;
    LoweredParts(b, b1, e, r1);
    LoweredParts(b1, r, e, r2);
    FramedTrans(b, b1, r);
    NextGraph(b, b1, r);
    NextSizes(b, b1, r);
    NextBlocks(b.cur, b1.cur, |b.blocks|, |b1.blocks|, |r.blocks|, e);
    NewIs(b, b1);
    NewIs(b1, r);
    NewIs(b, r);
    var s, n, n2, g := {b.cur} + New(b, b1), New(b, b1), New(b1, r), GraphOf(r.blocks);
    PieceDrop(GraphOf(b1.blocks), s, n, e, r1, b1.cur);
    PieceFrame(GraphOf(b1.blocks), g, s - {b1.cur}, n, e, r1);
    PieceUnion(g, s - {b1.cur}, n, e, r1, {b1.cur} + n2, n2, e, r2);
    assert e + e == e;
    LoweredIs(b, r, e, r1 + r2);
  }

  // ---------- constructs ----------

  lemma LoweredIs(b: Builder, r: Builder, e: set<nat>, rg: Regions)
    requires Framed(b, r) && Calm(b) && Calm(r)
    requires Piece(GraphOf(r.blocks), {b.cur} + New(b, r), New(b, r), e, rg)
    ensures Lowered(b, r, e, rg)
  {
  }

  lemma OneArmedShape(b: Builder, yes: Builder, cond: nat)
    requires Calm(b) && Framed(BeginIf(b), yes)
    ensures var n := |b.blocks|; var r := JoinOne(b, yes, cond);
            && Framed(b, r) && Calm(r) && BeginIf(b).cur == n && yes.cur < |r.blocks| == |yes.blocks|
            && |BeginIf(b).blocks| == n + 2 < |yes.blocks| + 1
            && r.blocks[yes.cur] == yes.blocks[yes.cur].(term := Branch(n + 1)) && r.blocks[n + 1] == EMPTY_BLOCK
            && r.blocks[b.cur] == Block(b.blocks[b.cur].instrs + [SelectionMerge(n + 1)], CondBranch(cond, n, n + 1))
            && forall i :: 0 <= i < |r.blocks| && i != yes.cur && i != b.cur ==> r.blocks[i] == yes.blocks[i]
  {
    BeginIfShape(b);
    OneArmed(b, yes, cond, |b.blocks| + 1);
    hide BeginIf, Framed;
  }

  lemma OneArmedEnded(b: Builder, yes: Builder, cond: nat)
    requires Calm(b) && Framed(BeginIf(b), yes)
    ensures var n := |b.blocks|; var x := BeginIf(b); var r := JoinOne(b, yes, cond); var g := GraphOf(r.blocks);
            && Ended(r.blocks, x, yes) && Framed(b, r) && Calm(r)
            && Ok(b) && b.cur < n && n + 2 <= |r.blocks| && yes.cur < |r.blocks| && b.cur in g && n + 1 in g
            && {x.cur} == {n} && New(x, yes) == Range(n + 2, |r.blocks|)
            && Successors(r.blocks[yes.cur].term) == [n + 1]
            && g[b.cur] == C.Shape(C.SelectionMerge(n + 1), [n, n + 1]) && g[n + 1] == C.Shape(C.NoMerge, [])
            && New(b, r) == Range(n, |r.blocks|)
  {
    OneArmedShape(b, yes, cond);
    hide BeginIf, Framed, JoinOne, Grows;
  }

  /** The blocks of an "if" with one arm. */
  lemma OneArmedPiece(b: Builder, yes: Builder, cond: nat, e: set<nat>, rg: Regions) returns (all: Regions)
    requires Calm(b) && Framed(BeginIf(b), yes) && Lowered(BeginIf(b), yes, e, rg)
    requires forall x <- e :: x < |b.blocks|
    ensures Lowered(b, JoinOne(b, yes, cond), e, all)
  {
    hide *;
    OneArmedEnded(b, yes, cond);
    var n, x, r := |b.blocks|, BeginIf(b), JoinOne(b, yes, cond);
    EndedPiece(x, yes, e, rg, r.blocks, {n + 1});
    all := SelectionPiece(GraphOf(r.blocks), b.cur, n, |r.blocks|, {n}, Range(n + 2, |r.blocks|), e, rg);
    LoweredIs(b, r, e, all);
  }

  lemma TwoArmedShape(b: Builder, yes: Builder, no: Builder, cond: nat)
    requires Calm(b) && Framed(BeginIf(b), yes) && Framed(SecondArm(b, yes), no)
    ensures var n := |b.blocks|; var second := |yes.blocks|; var r := JoinTwo(b, yes, no, cond);
            && Framed(b, r) && Calm(r) && BeginIf(b).cur == n && |BeginIf(b).blocks| == n + 2 <= second
            && SecondArm(b, yes).cur == second && |SecondArm(b, yes).blocks| == second + 1 <= |no.blocks| == |r.blocks|
            && yes.cur < second && no.cur < |r.blocks| && r.blocks[n + 1] == EMPTY_BLOCK
            && (yes.cur == n || n + 2 <= yes.cur) && (no.cur == second || second + 1 <= no.cur)
            && r.blocks[yes.cur] == yes.blocks[yes.cur].(term := Branch(n + 1))
            && r.blocks[no.cur] == no.blocks[no.cur].(term := Branch(n + 1))
            && r.blocks[b.cur] == Block(b.blocks[b.cur].instrs + [SelectionMerge(n + 1)], CondBranch(cond, n, second))
  {
    BeginIfShape(b);
    ThenArm(b, yes);
    TwoArmed(b, yes, no, cond);
  }

  lemma TwoArmedRest(b: Builder, yes: Builder, no: Builder, cond: nat)
    requires Calm(b) && Framed(BeginIf(b), yes) && Framed(SecondArm(b, yes), no)
    ensures var n := |b.blocks|; var second := |yes.blocks|; var r := JoinTwo(b, yes, no, cond);
            && second + 1 <= |no.blocks| == |r.blocks|
            && (forall i :: n <= i < second && i != yes.cur ==> r.blocks[i] == yes.blocks[i])
            && (forall i :: second <= i < |r.blocks| && i != no.cur ==> r.blocks[i] == no.blocks[i])
  {
    BeginIfShape(b);
    ThenArm(b, yes);
    hide BeginIf, Grows;
  }

  lemma EndedBy(f: seq<Block>, x: Builder, m: Builder, t: Terminator)
    requires x.cur < |m.blocks| <= |f| && m.cur < |m.blocks| && f[m.cur] == m.blocks[m.cur].(term := t)
    requires forall i :: (i == x.cur || |x.blocks| <= i < |m.blocks|) && i != m.cur ==> f[i] == m.blocks[i]
    ensures Ended(f, x, m) && Successors(f[m.cur].term) == Successors(t)
  {
  }

  lemma HeadOfSelection(f: seq<Block>, h: nat, m: nat, instrs: seq<Instr>, cond: nat, x: nat, y: nat)
    requires h < |f| && m < |f| && f[h] == Block(instrs + [SelectionMerge(m)], CondBranch(cond, x, y))
             && f[m] == EMPTY_BLOCK
    ensures var g := GraphOf(f);
            h in g && m in g && g[h] == C.Shape(C.SelectionMerge(m), [x, y]) && g[m] == C.Shape(C.NoMerge, [])
  {
  }

  lemma BranchSuccessor(x: nat)
    ensures Successors(Branch(x)) == [x]
  {
  }

  lemma TwoArmedEnded(b: Builder, yes: Builder, no: Builder, cond: nat)
    requires Calm(b) && Framed(BeginIf(b), yes) && Framed(SecondArm(b, yes), no)
    ensures var n := |b.blocks|; var second := |yes.blocks|; var r := JoinTwo(b, yes, no, cond);
            var g := GraphOf(r.blocks);
            var x := BeginIf(b); var y := SecondArm(b, yes);
            && Ended(r.blocks, x, yes) && Ended(r.blocks, y, no) && Framed(b, r) && Calm(r)
            && Ok(b) && b.cur < n && n + 2 <= second < |r.blocks| && b.cur in g && n + 1 in g
            && yes.cur < |r.blocks| && no.cur < |r.blocks|
            && {x.cur} == {n} && New(x, yes) == Range(n + 2, second)
            && {y.cur} == {second} && New(y, no) == Range(second + 1, |r.blocks|)
            && Successors(r.blocks[yes.cur].term) == [n + 1] == Successors(r.blocks[no.cur].term)
            && g[b.cur] == C.Shape(C.SelectionMerge(n + 1), [n, second]) && g[n + 1] == C.Shape(C.NoMerge, [])
            && New(b, r) == Range(n, |r.blocks|)
  {
    hide BeginIf, SecondArm, Framed, JoinTwo, Grows, GraphOf, Ended, Successors, Range, MergeOf;
    TwoArmedShape(b, yes, no, cond);
    TwoArmedRest(b, yes, no, cond);
    var n, r := |b.blocks|, JoinTwo(b, yes, no, cond);
    BranchSuccessor(n + 1);
    EndedBy(r.blocks, BeginIf(b), yes, Branch(n + 1));
    EndedBy(r.blocks, SecondArm(b, yes), no, Branch(n + 1));
    HeadOfSelection(r.blocks, b.cur, n + 1, b.blocks[b.cur].instrs, cond, n, |yes.blocks|);
  }

  /** The blocks of an "if" with two arms. */
  lemma TwoArmedPiece(b: Builder, yes: Builder, no: Builder, cond: nat, e: set<nat>, r1: Regions, r2: Regions)
    returns (all: Regions)
    requires Calm(b) && Framed(BeginIf(b), yes) && Framed(SecondArm(b, yes), no)
    requires Lowered(BeginIf(b), yes, e, r1) && Lowered(SecondArm(b, yes), no, e, r2)
    requires forall x <- e :: x < |b.blocks|
    ensures Lowered(b, JoinTwo(b, yes, no, cond), e, all)
  {
    hide *;
    TwoArmedEnded(b, yes, no, cond);
    var n, second, r := |b.blocks|, |yes.blocks|, JoinTwo(b, yes, no, cond);
    var g, hi := GraphOf(r.blocks), |r.blocks|;
    var e1 := e + {n + 1};
    EndedPiece(BeginIf(b), yes, e, r1, r.blocks, {n + 1});
    EndedPiece(SecondArm(b, yes), no, e, r2, r.blocks, {n + 1});
    PieceUnion(g, {n} + Range(n + 2, second), Range(n + 2, second), e1, r1,
               {second} + Range(second + 1, hi), Range(second + 1, hi), e1, r2);
    var arms, news := {n, second}, Range(n + 2, second) + Range(second + 1, hi);
    assert {n} + Range(n + 2, second) + ({second} + Range(second + 1, hi)) == arms + news && e1 + e1 == e1;
    all := SelectionPiece(g, b.cur, n, hi, arms, news, e, r1 + r2);
    LoweredIs(b, r, e, all);
  }

  /** A selection's header around its arms: merge block `n + 1`, new blocks from `n` to `hi`. */
  lemma SelectionPiece(g: C.Graph, h: nat, n: nat, hi: nat, arms: set<nat>, news: set<nat>, e: set<nat>, rg: Regions)
    returns (all: Regions)
    requires Piece(g, arms + news, news, e + {n + 1}, rg) && h < n < n + 1 < hi && h in g && n + 1 in g
    requires arms + news + {n + 1} == Range(n, hi) && n + 1 !in arms && n + 1 !in news && arms !! news
    requires g[h].mergeInst == C.SelectionMerge(n + 1) && g[n + 1] == C.Shape(C.NoMerge, [])
    requires forall y <- g[h].successors :: y in arms || y == n + 1
    requires forall x <- e :: x < n
    ensures Piece(g, {h} + Range(n, hi), Range(n, hi), e, all)
  {
    hide Piece;
    OneBlock(g, n + 1, {});
    PieceUnion(g, arms + news, news, e + {n + 1}, rg, {n + 1}, {}, {}, map[]);
    assert news + {} == news && rg + map[] == rg && e + {n + 1} + {} == e + {n + 1};
    PieceWrap(g, Range(n, hi), news, e + {n + 1}, rg, h, Range(n, hi), e);
    all := rg[h := Range(n, hi)];
    assert Range(n, hi) + {h} == {h} + Range(n, hi);
  }

  // ---------- expressions ----------

  lemma FreshLowered(b: Builder, r: Builder, e: set<nat>, rg: Regions)
    requires Lowered(FreshId(b), r, e, rg)
    ensures Calm(b) && (Framed(b, r) ==> Lowered(b, r, e, rg))
  {
  }

  lemma BeginIsCalm(b: Builder)
    requires Calm(b)
    ensures Ok(b) && Calm(FreshId(b)) && Calm(BeginIf(b)) && Calm(BeginSelection(b))
  {
    BeginIfShape(b);
  }

  lemma SecondIsCalm(b: Builder, yes: Builder)
    requires Ok(b) && Framed(BeginIf(b), yes)
    ensures Calm(SecondArm(b, yes))
  {
    ThenArm(b, yes);
  }

  lemma StoreLowered(b: Builder, arm: Builder, result: nat, value: nat, rg: Regions) returns (all: Regions)
    requires Lowered(b, arm, {}, rg) && Framed(b, arm)
    ensures Lowered(b, StoreResult(b, arm, result, value), {}, all)
  {
    EmitLowered(arm, StoreVar(result, value));
    LoweredTrans(b, arm, StoreResult(b, arm, result, value), {}, rg, map[]);
    all := rg + map[];
  }

  lemma EmittedLowered(b: Builder, i: Instr)
    requires Calm(b) && MergeOf([i]).NoMerge?
    ensures Ok(b) && Lowered(b, Emitted(b, i).0, {}, map[])
  {
    EmitLowered(b, i);
  }

  lemma GuardLowered(b: Builder, isAnd: bool, left: nat)
    requires Calm(b) && left < b.nextId
    ensures Ok(b) && Lowered(b, Guard(b, isAnd, left).0, {}, map[])
  {
    NothingLowered(b, {});
    EmitLowered(b, NotI(b.nextId, left));
  }

  lemma LogicalLowered(b: Builder, left: nat, guard: nat, right: Builder, value: nat, rg: Regions)
    returns (all: Regions)
    requires Calm(b) && Framed(BeginIf(b), right) && Lowered(BeginIf(b), right, {}, rg)
    ensures Ok(b) && Lowered(b, JoinLogical(b, left, guard, right, value).0, {}, all)
  {
    hide Lowered, Framed, JoinOne, BeginIf;
    var joined := JoinOne(b, right, guard);
    var r1 := OneArmedPiece(b, right, guard, {}, rg);
    LoweredParts(b, joined, {}, r1);
    var i := Phi(joined.nextId, [(left, b.cur), (value, right.cur)]);
    EmittedLowered(joined, i);
    LoweredTrans(b, joined, Emitted(joined, i).0, {}, r1, map[]);
    all := r1 + map[];
  }

  lemma SelectionLowered(b: Builder, yes: Builder, no: Builder, cond: nat, r1: Regions, r2: Regions)
    returns (all: Regions)
    requires Calm(b) && Ok(b) && Framed(BeginSelection(b), yes) && Framed(SecondArm(FreshId(b), yes), no)
    requires Lowered(BeginSelection(b), yes, {}, r1) && Lowered(SecondArm(FreshId(b), yes), no, {}, r2)
    ensures Lowered(b, JoinSelection(b, yes, no, cond).0, {}, all)
  {
    hide Lowered, Framed, JoinTwo, BeginIf, SecondArm;
    var b1 := FreshId(b);
    var joined := JoinTwo(b1, yes, no, cond);
    var r3 := TwoArmedPiece(b1, yes, no, cond, {}, r1, r2);
    LoweredParts(b1, joined, {}, r3);
    var i := LoadVar(joined.nextId, b.nextId);
    EmittedLowered(joined, i);
    var r := Emitted(joined, i).0;
    LoweredTrans(b1, joined, r, {}, r3, map[]);
    all := r3 + map[];
    assert Framed(b, r) by {
      assert JoinSelection(b, yes, no, cond).0 == r;
    }
    FreshLowered(b, r, {}, all);
  }

  lemma ChooseLowered(b: Builder, cond: nat, yes: nat, no: nat) returns (all: Regions)
    requires Calm(b) && Ok(b)
    ensures Lowered(b, ChooseByVariable(b, cond, yes, no).0, {}, all)
  {
    hide Lowered, JoinSelection;
    BeginIsCalm(b);
    var b1 := BeginSelection(b);
    FramedRefl(b1);
    NothingLowered(b1, {});
    var r1 := StoreLowered(b1, b1, b.nextId, yes, map[]);
    var b2 := StoreResult(b1, b1, b.nextId, yes);
    SecondIsCalm(FreshId(b), b2);
    var b3 := SecondArm(FreshId(b), b2);
    FramedRefl(b3);
    NothingLowered(b3, {});
    var r2 := StoreLowered(b3, b3, b.nextId, no, map[]);
    hide Framed, BeginSelection, StoreResult, SecondArm;
    all := SelectionLowered(b, b2, StoreResult(b3, b3, b.nextId, no), cond, r1, r2);
  }

  /** An expression's blocks: every "if" made for it is a construct, and nothing branches out. */
  lemma {:induction false} ExprLowered(hlsl: bool, b: Builder, e: Expr) returns (rg: Regions)
    requires Calm(b)
    ensures Ok(b) && Lowered(b, LowerExpr(hlsl, b, e).0, {}, rg)
    decreases ExprSize(e), 1
  {
    hide Lowered, MergeOf, BothSides, IsTrivial;
    match e
    case LeafExpr(leaf, _) =>
      LoadIsCalm(b, leaf);
      EmittedLowered(b, Load(b.nextId, leaf));
      rg := map[];
    case Unary(op, a, _) =>
      var r1 := ExprLowered(hlsl, b, a);
      rg := UnaryLowered(hlsl, b, e, r1);
    case Binary(_, x, y, _) =>
      var r1 := PairLowered(hlsl, b, x, y);
      rg := BinaryLowered(hlsl, b, e, r1);
    case Logical(isAnd, x, y, _) =>
      if IsTrivial(hlsl, y) {
        var r1 := PairLowered(hlsl, b, x, y);
        rg := StrictLowered(hlsl, b, e, r1);
      } else {
        rg := ShortCircuitLowered(hlsl, b, e);
      }
    case Choice(_, _, _, _, _) =>
      if BothSides(e) {
        rg := BothSidesLowered(hlsl, b, e);
      } else {
        rg := OneSideLowered(hlsl, b, e);
      }
  }

  lemma LoadIsCalm(b: Builder, leaf: Leaf)
    ensures MergeOf([Load(b.nextId, leaf)]).NoMerge?
  {
  }

  /** Two expressions, one after the other. */
  lemma {:induction false} PairLowered(hlsl: bool, b: Builder, x: Expr, y: Expr) returns (rg: Regions)
    requires Calm(b)
    ensures Ok(b) && Lowered(b, LowerExpr(hlsl, LowerExpr(hlsl, b, x).0, y).0, {}, rg)
    decreases ExprSize(x) + ExprSize(y), 2
  {
    hide Lowered, LowerExpr, MergeOf;
    var r1 := ExprLowered(hlsl, b, x);
    var b1 := LowerExpr(hlsl, b, x).0;
    LoweredParts(b, b1, {}, r1);
    var r2 := ExprLowered(hlsl, b1, y);
    LoweredTrans(b, b1, LowerExpr(hlsl, b1, y).0, {}, r1, r2);
    rg := r1 + r2;
  }

  /** One more instruction after a piece. */
  lemma ThenEmitted(b: Builder, b1: Builder, i: Instr, rg: Regions) returns (all: Regions)
    requires Lowered(b, b1, {}, rg) && MergeOf([i]).NoMerge?
    ensures Ok(b1) && Lowered(b, Emitted(b1, i).0, {}, all)
  {
    hide Lowered, Emitted;
    LoweredParts(b, b1, {}, rg);
    EmittedLowered(b1, i);
    LoweredTrans(b, b1, Emitted(b1, i).0, {}, rg, map[]);
    all := rg + map[];
  }

  lemma UnaryLowered(hlsl: bool, b: Builder, e: Expr, r1: Regions) returns (rg: Regions)
    requires e.Unary? && Ok(b) && Lowered(b, LowerExpr(hlsl, b, e.operand).0, {}, r1)
    ensures Lowered(b, LowerExpr(hlsl, b, e).0, {}, rg)
  {
    hide Lowered;
    var (b1, va) := LowerExpr(hlsl, b, e.operand);
    rg := ThenEmitted(b, b1, Apply(b1.nextId, e.op, [va]), r1);
  }

  lemma BinaryLowered(hlsl: bool, b: Builder, e: Expr, r1: Regions) returns (rg: Regions)
    requires e.Binary? && Ok(b) && Lowered(b, LowerExpr(hlsl, LowerExpr(hlsl, b, e.left).0, e.right).0, {}, r1)
    ensures Lowered(b, LowerExpr(hlsl, b, e).0, {}, rg)
  {
    hide Lowered;
    var (b1, vx) := LowerExpr(hlsl, b, e.left);
    var (b2, vy) := LowerExpr(hlsl, b1, e.right);
    rg := ThenEmitted(b, b2, Apply(b2.nextId, e.op, [vx, vy]), r1);
  }

  lemma StrictLowered(hlsl: bool, b: Builder, e: Expr, r1: Regions) returns (rg: Regions)
    requires e.Logical? && IsTrivial(hlsl, e.right)
    requires Ok(b) && Lowered(b, LowerExpr(hlsl, LowerExpr(hlsl, b, e.left).0, e.right).0, {}, r1)
    ensures Lowered(b, LowerExpr(hlsl, b, e).0, {}, rg)
  {
    hide Lowered, IsTrivial;
    var (b1, vx) := LowerExpr(hlsl, b, e.left);
    var (b2, vy) := LowerExpr(hlsl, b1, e.right);
    rg := ThenEmitted(b, b2, LogicalBin(b2.nextId, e.isAnd, vx, vy), r1);
  }

  lemma {:induction false} ShortCircuitLowered(hlsl: bool, b: Builder, e: Expr) returns (rg: Regions)
    requires Calm(b) && e.Logical? && !IsTrivial(hlsl, e.right)
    ensures Ok(b) && Lowered(b, LowerExpr(hlsl, b, e).0, {}, rg)
    decreases ExprSize(e), 0
  {
    hide Lowered, LowerExpr, IsTrivial, Guard, BeginIf, JoinLogical, Framed;
    var r1 := ExprLowered(hlsl, b, e.left);
    ShortCircuitSteps(hlsl, b, e);
    var (b1, vx) := LowerExpr(hlsl, b, e.left);
    LoweredParts(b, b1, {}, r1);
    GuardLowered(b1, e.isAnd, vx);
    var (b2, guard) := Guard(b1, e.isAnd, vx);
    LoweredParts(b1, b2, {}, map[]);
    LoweredTrans(b, b1, b2, {}, r1, map[]);
    BeginIsCalm(b2);
    var r2 := ExprLowered(hlsl, BeginIf(b2), e.right);
    var (b3, vy) := LowerExpr(hlsl, BeginIf(b2), e.right);
    var r3 := LogicalLowered(b2, vx, guard, b3, vy, r2);
    LoweredTrans(b, b2, JoinLogical(b2, vx, guard, b3, vy).0, {}, r1 + map[], r3);
    rg := r1 + map[] + r3;
  }

  lemma BothSidesLowers(hlsl: bool, b: Builder, e: Expr)
    requires e.Choice? && BothSides(e) && Ok(b)
    ensures var (b1, vk) := LowerExpr(hlsl, b, e.cond);
            var (b2, vy) := LowerExpr(hlsl, b1, e.yes);
            var (b3, vn) := LowerExpr(hlsl, b2, e.no);
            LowerExpr(hlsl, b, e) == if e.ty.isSelectable then Emitted(b3, Select(b3.nextId, vk, vy, vn))
                                     else ChooseByVariable(b3, vk, vy, vn)
  {
    hide BothSides, Framed;
  }

  lemma {:induction false} BothSidesLowered(hlsl: bool, b: Builder, e: Expr) returns (rg: Regions)
    requires Calm(b) && e.Choice? && BothSides(e)
    ensures Ok(b) && Lowered(b, LowerExpr(hlsl, b, e).0, {}, rg)
    decreases ExprSize(e), 0
  {
    hide Lowered, LowerExpr, BothSides, ChooseByVariable, Framed;
    var r1 := ExprLowered(hlsl, b, e.cond);
    var (b1, vk) := LowerExpr(hlsl, b, e.cond);
    LoweredParts(b, b1, {}, r1);
    var r2 := ExprLowered(hlsl, b1, e.yes);
    var (b2, vy) := LowerExpr(hlsl, b1, e.yes);
    LoweredParts(b1, b2, {}, r2);
    LoweredTrans(b, b1, b2, {}, r1, r2);
    var r3 := ExprLowered(hlsl, b2, e.no);
    var (b3, vn) := LowerExpr(hlsl, b2, e.no);
    LoweredParts(b2, b3, {}, r3);
    LoweredTrans(b, b2, b3, {}, r1 + r2, r3);
    BothSidesLowers(hlsl, b, e);
    if e.ty.isSelectable {
      rg := ThenEmitted(b, b3, Select(b3.nextId, vk, vy, vn), r1 + r2 + r3);
    } else {
      var r4 := ChooseLowered(b3, vk, vy, vn);
      LoweredTrans(b, b3, ChooseByVariable(b3, vk, vy, vn).0, {}, r1 + r2 + r3, r4);
      rg := r1 + r2 + r3 + r4;
    }
  }

  lemma OneSideLowers(hlsl: bool, b: Builder, e: Expr)
    requires e.Choice? && !BothSides(e) && Ok(b)
    ensures var (b1, vk) := LowerExpr(hlsl, b, e.cond);
            var b2 := BeginSelection(b1);
            var (b3, vy) := LowerExpr(hlsl, b2, e.yes);
            var b4 := StoreResult(b2, b3, b1.nextId, vy);
            var b5 := SecondArm(FreshId(b1), b4);
            var (b6, vn) := LowerExpr(hlsl, b5, e.no);
            var b7 := StoreResult(b5, b6, b1.nextId, vn);
            LowerExpr(hlsl, b, e) == JoinSelection(b1, b4, b7, vk)
  {
    hide BothSides, Framed;
  }

  lemma {:induction false} OneSideLowered(hlsl: bool, b: Builder, e: Expr) returns (rg: Regions)
    requires Calm(b) && e.Choice? && !BothSides(e)
    ensures Ok(b) && Lowered(b, LowerExpr(hlsl, b, e).0, {}, rg)
    decreases ExprSize(e), 0
  {
    hide Lowered, LowerExpr, BothSides, Framed, BeginSelection, StoreResult, SecondArm, JoinSelection;
    var r1 := ExprLowered(hlsl, b, e.cond);
    OneSideLowers(hlsl, b, e);
    var (b1, vk) := LowerExpr(hlsl, b, e.cond);
    LoweredParts(b, b1, {}, r1);
    BeginIsCalm(b1);
    var b2 := BeginSelection(b1);
    var r2 := ExprLowered(hlsl, b2, e.yes);
    var (b3, vy) := LowerExpr(hlsl, b2, e.yes);
    var r3 := StoreLowered(b2, b3, b1.nextId, vy, r2);
    var b4 := StoreResult(b2, b3, b1.nextId, vy);
    SecondIsCalm(FreshId(b1), b4);
    var b5 := SecondArm(FreshId(b1), b4);
    var r4 := ExprLowered(hlsl, b5, e.no);
    var (b6, vn) := LowerExpr(hlsl, b5, e.no);
    var r5 := StoreLowered(b5, b6, b1.nextId, vn, r4);
    var b7 := StoreResult(b5, b6, b1.nextId, vn);
    var r6 := SelectionLowered(b1, b4, b7, vk, r3, r5);
    LoweredTrans(b, b1, JoinSelection(b1, b4, b7, vk).0, {}, r1, r6);
    rg := r1 + r6;
  }
}
