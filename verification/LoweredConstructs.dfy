/** The control-flow graph of a whole function body obeys the discipline of structured control flow. */
module LoweredConstructs {
  import opened ShaderAst
  import opened SpirvBuilder
  import opened Lowering
  import opened StatementLowering
  import opened StatementCorrect
  import opened SwitchCorrect
  import opened LoweringTheorem
  import opened FunctionLowering
  import opened ConstructRegions
  import opened LoweredGraph
  import C = Cfg

  /** Where jumps out of a statement go. */
  function Exits(b: Builder, inBreakable: bool, inLoop: bool): set<nat> {
    (if inBreakable then {BreakTarget(b)} else {}) + (if inLoop then {ContinueTarget(b)} else {})
  }

  /** Jump targets exist. */
  predicate ExitsExist(b: Builder, inBreakable: bool, inLoop: bool) {
    && (inBreakable ==> BreakTarget(b) < |b.blocks|)
    && (inLoop ==> ContinueTarget(b) < |b.blocks|)
  }

  lemma JumpLowered(b: Builder, t: Terminator, e: set<nat>)
    requires Calm(b) && t != Open && forall y <- Successors(t) :: y in e
    ensures Lowered(b, Jump(b, t), e, map[])
  {
    var n, r := |b.blocks|, Jump(b, t);
    var g := GraphOf(r.blocks);
    assert g[b.cur] == C.Shape(C.NoMerge, Successors(t)) && g[n] == C.Shape(C.NoMerge, []);
    assert New(b, r) == {n};
    hide Piece;
    var none: Regions := map[];
    OneBlock(g, b.cur, e);
    OneBlock(g, n, {});
    PieceUnion(g, {b.cur}, {}, e, none, {n}, {}, {}, none);
    assert none + none == none;
    PieceWiden(g, {b.cur} + {n}, {} + {}, e + {}, none, New(b, r), e);
  }

  lemma ExprExits(hlsl: bool, b: Builder, x: Expr, e: set<nat>) returns (rg: Regions)
    requires Calm(b)
    ensures Ok(b) && Lowered(b, LowerExpr(hlsl, b, x).0, e, rg)
  {
    rg := ExprLowered(hlsl, b, x);
    LoweredWiden(b, LowerExpr(hlsl, b, x).0, {}, rg, e);
  }

  lemma MaybeLowered(hlsl: bool, b: Builder, m: MaybeExpr) returns (rg: Regions)
    requires Calm(b)
    ensures Ok(b) && Lowered(b, LowerMaybe(hlsl, b, m), {}, rg)
  {
    match m
    case NoExpr =>
      NothingLowered(b, {});
      rg := map[];
    case SomeExpr(e) => rg := ExprLowered(hlsl, b, e);
  }

  // ---------- loops ----------

  /** The blocks of a loop from its body on; those without a fixed place are `from` to `hi`. */
  ghost predicate BodyPiece(g: C.Graph, n: nat, from: nat, hi: nat, rg: Regions) {
    Piece(g, {n + 1, n + 2, n + 3} + Range(from, hi), Range(from, hi), {n, n + 2, n + 3}, rg)
  }

  lemma LoopSets(n: nat, t: nat, b: nat, hi: nat, e2: set<nat>)
    requires n + 4 <= t <= b <= hi && e2 <= {n, n + 2}
    ensures var s := {n + 1} + Range(t, b) + ({n + 3} + Range(b, hi));
            && s + {n + 2} == {n + 1, n + 2, n + 3} + Range(t, hi) && n + 2 !in s
    ensures {n + 1} + Range(t, b) !! {n + 3} + Range(b, hi) && Range(t, b) !! Range(b, hi)
    ensures Range(t, b) !! e2 && Range(b, hi) !! {n + 2, n + 3}
    ensures Range(t, b) + Range(b, hi) == Range(t, hi) && Range(t, hi) + {} == Range(t, hi)
    ensures Range(t, hi) + ({n + 2, n + 3} + e2 + {}) <= Range(t, hi) + {n, n + 2, n + 3}
  {
  }

  /** Body, continue target and merge block; a body from `t` to `b`, then the continue target's blocks up to `hi`. */
  lemma LoopInside(g: C.Graph, n: nat, t: nat, b: nat, hi: nat, r1: Regions, e2: set<nat>, r2: Regions)
    requires n + 4 <= t <= b <= hi && n + 2 in g && g[n + 2] == C.Shape(C.NoMerge, []) && e2 <= {n, n + 2}
    requires Piece(g, {n + 1} + Range(t, b), Range(t, b), {n + 2, n + 3}, r1)
    requires Piece(g, {n + 3} + Range(b, hi), Range(b, hi), e2, r2)
    ensures BodyPiece(g, n, t, hi, r1 + r2)
  {
    hide Piece, Range;
    LoopSets(n, t, b, hi, e2);
    PieceUnion(g, {n + 1} + Range(t, b), Range(t, b), {n + 2, n + 3}, r1, {n + 3} + Range(b, hi), Range(b, hi), e2, r2);
    OneBlock(g, n + 2, {});
    var s := {n + 1} + Range(t, b) + ({n + 3} + Range(b, hi));
    PieceUnion(g, s, Range(t, hi), {n + 2, n + 3} + e2, r1 + r2, {n + 2}, {}, {}, map[]);
    assert r1 + r2 + map[] == r1 + r2;
    PieceWiden(g, s + {n + 2}, Range(t, hi), {n + 2, n + 3} + e2 + {}, r1 + r2, Range(t, hi), {n, n + 2, n + 3});
  }

  /** A loop's header around its blocks, and the block that branches to the header. */
  lemma LoopAround(g: C.Graph, cur: nat, n: nat, hi: nat, news: set<nat>, rg: Regions) returns (all: Regions)
    requires cur < n && n + 4 <= hi && cur in g && n in g && n + 2 in g && news <= Range(n + 4, hi)
    requires Piece(g, Range(n + 1, hi), news, {n, n + 1, n + 2, n + 3}, rg)
    requires g[cur] == C.Shape(C.NoMerge, [n]) && g[n + 2] == C.Shape(C.NoMerge, [])
    requires g[n].mergeInst == C.LoopMerge(n + 2, n + 3)
    requires forall y <- g[n].successors :: y in Range(n + 1, hi) - news
    ensures Piece(g, {cur} + Range(n, hi), Range(n, hi), {}, all)
  {
    hide Piece;
    var inside := Range(n + 1, hi);
    PieceWrap(g, inside, news, {n, n + 1, n + 2, n + 3}, rg, n, inside, {n});
    all := rg[n := inside];
    OneBlock(g, cur, {n});
    PieceUnion(g, {cur}, {}, {n}, map[], inside + {n}, inside, {n}, all);
    assert {cur} + (inside + {n}) == {cur} + Range(n, hi) && {} + inside == inside && map[] + all == all;
    PieceWiden(g, {cur} + Range(n, hi), inside, {n} + {n}, all, Range(n, hi), {});
  }

  /** What the end of a loop leaves of its parts. */
  lemma LoopEnded(n: nat, p0: Builder, p1: Builder, q0: Builder, q: Builder, t: Terminator)
    requires Framed(p0, p1) && p0.cur == n + 1 && n + 4 <= |p0.blocks| && p1.breakForLoop != []
    requires q0 == EnterContinue(p1, n + 3) && Framed(q0, q) && q.loops != [] && t != Open
    ensures var f := EndLoop(q, t, n + 2).blocks;
            && |q0.blocks| == |p1.blocks| && |f| == |q.blocks|
            && |p0.blocks| <= |p1.blocks| <= |q.blocks|
            && Ended(f, p0, p1) && f[p1.cur].term == Branch(n + 3)
            && Ended(f, q0, q) && f[q.cur].term == t
            && p1.cur < |f| && q.cur < |f| && q0.cur == n + 3
            && forall i :: 0 <= i < |p0.blocks| && i != n + 1 && i != n + 3 ==> f[i] == p0.blocks[i]
  {
  }

  /** The blocks of a loop up to the start of its body. */
  ghost predicate Started(b: Builder, p0: Builder, y: nat) {
    var n := |b.blocks|;
    && p0.cur == n + 1 && n + 4 <= |p0.blocks| && b.cur < n && Calm(p0)
    && p0.blocks[b.cur] == b.blocks[b.cur].(term := Branch(n))
    && p0.blocks[n] == Block([LoopMerge(n + 2, n + 3)], Branch(y))
    && p0.blocks[n + 2] == EMPTY_BLOCK
  }

  lemma LastStart(b: Builder)
    requires Ok(b)
    ensures var n := |b.blocks|; var p0 := EnterBody(LoopHeader(b), Branch(n + 1), n + 1);
            Started(b, p0, n + 1) && |p0.blocks| == n + 4
  {
  }

  lemma FirstStart(b: Builder, t1: Builder, k: nat)
    requires Ok(b) && Framed(BranchToNew(LoopHeader(b)), t1)
    ensures var n := |b.blocks|; var t0 := BranchToNew(LoopHeader(b));
            var p0 := EnterBody(t1, CondBranch(k, n + 1, n + 2), n + 1);
            && t0.cur == n + 4 && |t0.blocks| == n + 5 && Calm(t0)
            && Started(b, p0, n + 4) && |p0.blocks| == |t1.blocks| >= n + 5
            && Ended(p0.blocks, t0, t1) && p0.blocks[t1.cur].term == CondBranch(k, n + 1, n + 2) && t1.cur >= n + 4
  {
  }

  lemma EndedLater(f: seq<Block>, f': seq<Block>, b: Builder, r: Builder, lo: nat)
    requires Ended(f, b, r) && |f| <= |f'| && b.cur >= lo && |b.blocks| >= lo && r.cur >= lo
    requires forall i :: lo <= i < |f| ==> f'[i] == f[i]
    ensures Ended(f', b, r)
  {
  }

  lemma StartedGraph(b: Builder, p0: Builder, y: nat, f: seq<Block>)
    requires Calm(b) && Started(b, p0, y) && |p0.blocks| <= |f|
    requires forall i :: 0 <= i < |p0.blocks| && i != |b.blocks| + 1 && i != |b.blocks| + 3 ==> f[i] == p0.blocks[i]
    ensures var n := |b.blocks|; var g := GraphOf(f);
            && b.cur < n && n + 4 <= |f| && b.cur in g && n in g && n + 2 in g
            && g[b.cur] == C.Shape(C.NoMerge, [n]) && g[n + 2] == C.Shape(C.NoMerge, [])
            && g[n] == C.Shape(C.LoopMerge(n + 2, n + 3), [y])
  {
  }

  /** Where break and continue go from a loop opened in `b`. */
  function JumpTargets(b: Builder): set<nat> {
    {|b.blocks| + 2, |b.blocks| + 3}
  }

  /** What the finished blocks hold of a loop; its header branches to `y`. */
  ghost predicate LoopBuilt(b: Builder, p0: Builder, p1: Builder, q0: Builder, q: Builder, r: Builder, y: nat) {
    var n, f := |b.blocks|, r.blocks;
    && n + 4 <= |p0.blocks| <= |p1.blocks| <= |f| && |q0.blocks| == |p1.blocks| && |f| == |q.blocks|
    && p0.cur == n + 1 && q0.cur == n + 3 && p1.cur < |f| && q.cur < |f|
    && Ended(f, p0, p1) && Ended(f, q0, q)
    && Successors(f[p1.cur].term) == [n + 3] && (forall x <- Successors(f[q.cur].term) :: x == n || x == n + 2)
    && HeadIn(GraphOf(f), b.cur, n, y) && Framed(b, r) && Calm(b) && Calm(r)
  }

  /** The block that the loop is opened in, its header and its merge block. */
  predicate HeadIn(g: C.Graph, cur: nat, n: nat, y: nat) {
    && cur < n && cur in g && n in g && n + 2 in g
    && g[cur] == C.Shape(C.NoMerge, [n]) && g[n + 2] == C.Shape(C.NoMerge, [])
    && g[n] == C.Shape(C.LoopMerge(n + 2, n + 3), [y])
  }

  lemma LoopIsBuilt(b: Builder, p0: Builder, p1: Builder, q0: Builder, q: Builder, t: Terminator, y: nat)
    requires Calm(b) && Started(b, p0, y) && Framed(p0, p1) && p1.breakForLoop != []
    requires q0 == EnterContinue(p1, |b.blocks| + 3) && Framed(q0, q) && q.loops != [] && t != Open
    requires forall x <- Successors(t) :: x == |b.blocks| || x == |b.blocks| + 2
    requires var r := EndLoop(q, t, |b.blocks| + 2); Framed(b, r) && Calm(r)
    ensures LoopBuilt(b, p0, p1, q0, q, EndLoop(q, t, |b.blocks| + 2), y)
  {
    hide Framed, Ended, GraphOf, Grows, Started, Calm, Successors, EnterContinue, EndLoop;
    FramedOk(q0, q);
    var n := |b.blocks|;
    StartedSize(b, p0, y);
    LoopEnded(n, p0, p1, q0, q, t);
    BranchSuccessors(n + 3);
    StartedGraph(b, p0, y, EndLoop(q, t, n + 2).blocks);
  }

  /** The blocks of a loop from its body on. */
  lemma LoopParts(b: Builder, p0: Builder, p1: Builder, q0: Builder, q: Builder, r: Builder, y: nat,
                  rb: Regions, rc: Regions)
    requires LoopBuilt(b, p0, p1, q0, q, r, y)
    requires Lowered(p0, p1, JumpTargets(b), rb) && Lowered(q0, q, {}, rc)
    ensures BodyPiece(GraphOf(r.blocks), |b.blocks|, |p0.blocks|, |r.blocks|, rb + rc)
  {
    hide Piece, Ended, Lowered, GraphOf, Range, Successors, Framed, Calm;
    var n := |b.blocks|;
    EndedPiece(p0, p1, JumpTargets(b), rb, r.blocks, {n + 3});
    EndedPiece(q0, q, {}, rc, r.blocks, {n, n + 2});
    assert JumpTargets(b) + {n + 3} == {n + 2, n + 3} && {} + {n, n + 2} == {n, n + 2};
    assert {p0.cur} == {n + 1} && {q0.cur} == {n + 3};
    LoopInside(GraphOf(r.blocks), n, |p0.blocks|, |p1.blocks|, |r.blocks|, rb, {n, n + 2}, rc);
  }

  /** A loop whose body comes directly after the header. */
  lemma LastLoopPiece(b: Builder, p0: Builder, p1: Builder, q0: Builder, q: Builder, r: Builder,
                      rb: Regions, rc: Regions) returns (all: Regions)
    requires LoopBuilt(b, p0, p1, q0, q, r, |b.blocks| + 1) && |p0.blocks| == |b.blocks| + 4
    requires Lowered(p0, p1, JumpTargets(b), rb) && Lowered(q0, q, {}, rc)
    ensures Lowered(b, r, {}, all)
  {
    hide Piece, Ended, Lowered, GraphOf, Range, Successors, Framed, Calm;
    LoopParts(b, p0, p1, q0, q, r, |b.blocks| + 1, rb, rc);
    var n, hi, g := |b.blocks|, |r.blocks|, GraphOf(r.blocks);
    assert {n + 1, n + 2, n + 3} + Range(n + 4, hi) == Range(n + 1, hi);
    PieceWiden(g, Range(n + 1, hi), Range(n + 4, hi), {n, n + 2, n + 3}, rb + rc, Range(n + 4, hi),
               {n, n + 1, n + 2, n + 3});
    all := LoopAround(g, b.cur, n, hi, Range(n + 4, hi), rb + rc);
    LoweredIs(b, r, {}, all);
  }

  /** A loop whose test, from `t0` to `t1`, comes between header and body. */
  lemma FirstLoopPiece(b: Builder, t0: Builder, t1: Builder, p0: Builder, p1: Builder, q0: Builder, q: Builder,
                       r: Builder, rt: Regions, rb: Regions, rc: Regions) returns (all: Regions)
    requires LoopBuilt(b, p0, p1, q0, q, r, |b.blocks| + 4)
    requires Lowered(p0, p1, JumpTargets(b), rb) && Lowered(q0, q, {}, rc)
    requires t0.cur == |b.blocks| + 4 && |t0.blocks| == |b.blocks| + 5 <= |p0.blocks| == |t1.blocks|
    requires Lowered(t0, t1, {}, rt) && Ended(r.blocks, t0, t1)
    requires forall x <- Successors(r.blocks[t1.cur].term) :: x == |b.blocks| + 1 || x == |b.blocks| + 2
    ensures Lowered(b, r, {}, all)
  {
    hide Piece, Ended, Lowered, GraphOf, Range, Successors, Framed, Calm;
    LoopParts(b, p0, p1, q0, q, r, |b.blocks| + 4, rb, rc);
    var n, hi, from, g := |b.blocks|, |r.blocks|, |p0.blocks|, GraphOf(r.blocks);
    EndedPiece(t0, t1, {}, rt, r.blocks, {n + 1, n + 2});
    assert {} + {n + 1, n + 2} == {n + 1, n + 2} && {t0.cur} == {n + 4};
    all := FirstLoopGraph(g, b.cur, n, from, hi, rt, rb + rc);
    LoweredIs(b, r, {}, all);
  }

  lemma FirstLoopSets(n: nat, from: nat, hi: nat)
    requires n + 5 <= from <= hi
    ensures var s1 := {n + 4} + Range(n + 5, from); var s2 := {n + 1, n + 2, n + 3} + Range(from, hi);
            s1 !! s2 && s1 + s2 == Range(n + 1, hi)
    ensures Range(n + 5, from) !! Range(from, hi) && Range(n + 5, from) + Range(from, hi) == Range(n + 5, hi)
    ensures Range(n + 5, from) !! {n, n + 2, n + 3} && Range(from, hi) !! {n + 1, n + 2}
    ensures {n + 1, n + 2} + {n, n + 2, n + 3} == {n, n + 1, n + 2, n + 3}
    ensures Range(n + 5, hi) <= Range(n + 4, hi) && n + 4 in Range(n + 1, hi) - Range(n + 5, hi)
  {
  }

  lemma FirstLoopGraph(g: C.Graph, cur: nat, n: nat, from: nat, hi: nat, rt: Regions, rg: Regions)
    returns (all: Regions)
    requires cur < n && n + 5 <= from <= hi && cur in g && n in g && n + 2 in g
    requires Piece(g, {n + 4} + Range(n + 5, from), Range(n + 5, from), {n + 1, n + 2}, rt)
    requires BodyPiece(g, n, from, hi, rg)
    requires g[cur] == C.Shape(C.NoMerge, [n]) && g[n + 2] == C.Shape(C.NoMerge, [])
    requires g[n] == C.Shape(C.LoopMerge(n + 2, n + 3), [n + 4])
    ensures Piece(g, {cur} + Range(n, hi), Range(n, hi), {}, all)
  {
    hide Piece, Range;
    var s1, s2 := {n + 4} + Range(n + 5, from), {n + 1, n + 2, n + 3} + Range(from, hi);
    FirstLoopSets(n, from, hi);
    PieceUnion(g, s1, Range(n + 5, from), {n + 1, n + 2}, rt, s2, Range(from, hi), {n, n + 2, n + 3}, rg);
    all := LoopAround(g, cur, n, hi, Range(n + 5, hi), rt + rg);
  }

  // ---------- switches ----------

  /** The blocks that emitting segments from `k` on is about. */
  function ItemBlocks(b: Builder, r: Builder, first: nat, k: nat, n: nat): set<nat> {
    (if Ok(b) then {b.cur} else {}) + Range(first + k, first + n) + New(b, r)
  }

  ghost predicate ItemsMade(b: Builder, r: Builder, first: nat, k: nat, n: nat, e: set<nat>, rg: Regions) {
    && Piece(GraphOf(r.blocks), ItemBlocks(b, r, first, k, n), New(b, r), Range(first + k, first + n) + e, rg)
    && (Ok(r) ==> Calm(r))
  }

  /** After the last segment. */
  lemma NoItemsMade(b: Builder, first: nat, n: nat, e: set<nat>)
    requires Sized(b) && (Ok(b) ==> Calm(b))
    ensures ItemsMade(b, b, first, n, n, e, map[])
  {
    var g := GraphOf(b.blocks);
    assert Range(first + n, first + n) == {} && New(b, b) == {} && {} + e == e;
    if Ok(b) {
      OneBlock(g, b.cur, e);
      assert ItemBlocks(b, b, first, n, n) == {b.cur};
    } else {
      assert ItemBlocks(b, b, first, n, n) == {};
    }
  }

  /** A segment, the block before it if that falls through, and the segments after it. */
  lemma SegmentUnion(g: C.Graph, curs: set<nat>, seg: nat, last: nat, rest: set<nat>, lo: nat, mid: nat, hi: nat,
                     e: set<nat>, r1: Regions, r2: Regions)
    requires lo <= mid <= hi && seg < lo && seg !in rest && last in {seg} + Range(lo, mid)
    requires (forall x <- rest :: x < lo) && (forall x <- e :: x < lo)
             && (forall x <- curs :: x < lo && x != seg && x !in rest)
    requires Piece(g, {seg} + Range(lo, mid) - {last}, Range(lo, mid), e, r1)
    requires Piece(g, {last} + rest + Range(mid, hi), Range(mid, hi), rest + e, r2)
    requires Piece(g, curs, {}, {seg}, map[])
    ensures Piece(g, curs + ({seg} + rest) + Range(lo, hi), Range(lo, hi), {seg} + rest + e, r1 + r2)
  {
    hide Piece;
    var s1, s2 := {seg} + Range(lo, mid) - {last}, {last} + rest + Range(mid, hi);
    PieceUnion(g, s1, Range(lo, mid), e, r1, s2, Range(mid, hi), rest + e, r2);
    assert s1 + s2 == {seg} + rest + Range(lo, hi) && Range(lo, mid) + Range(mid, hi) == Range(lo, hi);
    PieceUnion(g, curs, {}, {seg}, map[], s1 + s2, Range(lo, hi), e + (rest + e), r1 + r2);
    assert curs + (s1 + s2) == curs + ({seg} + rest) + Range(lo, hi);
    assert {} + Range(lo, hi) == Range(lo, hi) && map[] + (r1 + r2) == r1 + r2;
    assert {seg} + (e + (rest + e)) == {seg} + rest + e;
  }

  /** What the finished blocks keep of a segment that was emitted in block `first + k`. */
  ghost predicate SegmentKept(b: Builder, y: Builder, r: Builder, first: nat, k: nat, n: nat) {
    var seg := first + k;
    && seg < |b.blocks| <= |y.blocks| <= |r.blocks| && first + n <= |b.blocks| && k < n
    && (y.cur == seg || |b.blocks| <= y.cur < |y.blocks|)
    && (forall i :: (i == seg || |b.blocks| <= i < |y.blocks|) && i != y.cur ==> r.blocks[i] == y.blocks[i])
    && (b.cur < |b.blocks| && !(seg <= b.cur < first + n))
    && (Ok(b) ==> r.blocks[b.cur] == b.blocks[b.cur].(term := Branch(seg)))
    && |NextSegment(b, seg).blocks| == |b.blocks| && NextSegment(b, seg).cur == seg
  }

  lemma SegmentIsKept(b: Builder, y: Builder, r: Builder, first: nat, k: nat, n: nat)
    requires SegmentsReady(b, first, k, n) && k < n
    requires Framed(NextSegment(b, first + k), y) && Segmented(y, r, first, k + 1, n)
    ensures SegmentKept(b, y, r, first, k, n)
  {
  }

  lemma SegmentGraph(b: Builder, y: Builder, r: Builder, first: nat, k: nat, n: nat)
    requires SegmentKept(b, y, r, first, k, n) && (Ok(b) ==> Calm(b))
    ensures var s := {first + k} + Range(|b.blocks|, |y.blocks|) - {y.cur};
            s <= GraphOf(r.blocks).Keys && forall i <- s :: GraphOf(r.blocks)[i] == GraphOf(y.blocks)[i]
    ensures Ok(b) ==> b.cur in GraphOf(r.blocks) && GraphOf(r.blocks)[b.cur] == C.Shape(C.NoMerge, [first + k])
  {
  }

  lemma KeptSized(b: Builder, y: Builder, r: Builder, first: nat, k: nat, n: nat)
    requires SegmentKept(b, y, r, first, k, n)
    ensures Sized(b)
  {
  }

  lemma SegmentSizes(b: Builder, y: Builder, r: Builder, first: nat, k: nat, n: nat)
    requires SegmentKept(b, y, r, first, k, n)
    ensures var seg := first + k; var x := NextSegment(b, seg); var rest := Range(seg + 1, first + n);
            && seg < |b.blocks| <= |y.blocks| <= |r.blocks| && first + n <= |b.blocks| && k < n && x.cur == seg
            && {x.cur} == {seg} && New(x, y) == Range(|b.blocks|, |y.blocks|)
            && (y.cur == seg || |b.blocks| <= y.cur < |y.blocks|) && b.cur < |b.blocks| && !(seg <= b.cur < first + n)
            && first + (k + 1) == seg + 1 && Range(seg, first + n) == {seg} + rest
            && New(b, r) == Range(|b.blocks|, |r.blocks|)
            && (Ok(y) ==> ItemBlocks(y, r, first, k + 1, n) == {y.cur} + rest + Range(|y.blocks|, |r.blocks|))
            && New(y, r) == Range(|y.blocks|, |r.blocks|)
            && ItemBlocks(b, r, first, k, n) == (if Ok(b) then {b.cur} else {}) + ({seg} + rest)
                + Range(|b.blocks|, |r.blocks|)
  {
  }

  lemma ItemsParts(b: Builder, r: Builder, first: nat, k: nat, n: nat, e: set<nat>, rg: Regions)
    requires ItemsMade(b, r, first, k, n, e, rg)
    ensures Piece(GraphOf(r.blocks), ItemBlocks(b, r, first, k, n), New(b, r), Range(first + k, first + n) + e, rg)
    ensures (Ok(r) ==> Calm(r)) && (Ok(r) && r.cur in ItemBlocks(b, r, first, k, n) ==> r.cur !in rg)
  {
    assert r.cur in rg ==> HasRegion(GraphOf(r.blocks), r.cur, New(b, r), rg);
  }

  lemma ItemsAre(b: Builder, r: Builder, first: nat, k: nat, n: nat, e: set<nat>, rg: Regions)
    requires Piece(GraphOf(r.blocks), ItemBlocks(b, r, first, k, n), New(b, r), Range(first + k, first + n) + e, rg)
    requires Ok(r) ==> Calm(r)
    ensures ItemsMade(b, r, first, k, n, e, rg)
  {
  }

  /** A segment and the ones after it. */
  lemma OneSegmentMade(b: Builder, y: Builder, r: Builder, first: nat, k: nat, n: nat, e: set<nat>, r1: Regions,
                       r2: Regions)
    requires SegmentKept(b, y, r, first, k, n) && (Ok(b) ==> Calm(b)) && forall x <- e :: x < |b.blocks|
    requires Lowered(NextSegment(b, first + k), y, e, r1) && ItemsMade(y, r, first, k + 1, n, e, r2)
    ensures ItemsMade(b, r, first, k, n, e, r1 + r2)
  {
    hide *;
    KeptSized(b, y, r, first, k, n);
    var seg, x, g := first + k, NextSegment(b, first + k), GraphOf(r.blocks);
    LoweredParts(x, y, e, r1);
    CalmIsOk(y);
    SegmentGraph(b, y, r, first, k, n);
    SegmentSizes(b, y, r, first, k, n);
    ItemsParts(y, r, first, k + 1, n, e, r2);
    var lo, mid, hi, rest := |b.blocks|, |y.blocks|, |r.blocks|, Range(seg + 1, first + n);
    var curs := if Ok(b) then {b.cur} else {};
    PieceDrop(GraphOf(y.blocks), {x.cur} + New(x, y), New(x, y), e, r1, y.cur);
    PieceFrame(GraphOf(y.blocks), g, {seg} + Range(lo, mid) - {y.cur}, Range(lo, mid), e, r1);
    if Ok(b) {
      OneBlock(g, b.cur, {seg});
    } else {
      NoBlocks(g, {seg});
    }
    SegmentUnion(g, curs, seg, y.cur, rest, lo, mid, hi, e, r1, r2);
    ItemsAre(b, r, first, k, n, e, r1 + r2);
  }

  lemma NoBlocks(g: C.Graph, e: set<nat>)
    ensures Piece(g, {}, {}, e, map[])
  {
  }

  // ---------- statements ----------

  /** A statement's blocks: its selections and loops are constructs, and only jumps branch out. */
  lemma {:induction false} StmtLowered(hlsl: bool, b: Builder, s: Stmt, inBreakable: bool, inLoop: bool)
    returns (rg: Regions)
    requires Calm(b) && Nested(s, inBreakable, inLoop) && ExitsExist(b, inBreakable, inLoop)
    ensures Ok(b) && Lowered(b, LowerStmt(hlsl, b, s), Exits(b, inBreakable, inLoop), rg)
    decreases s, 4
  {
    hide Lowered, Framed, Exits, LowerItems, LowerTestFirst, LowerTestLast;
    var e := Exits(b, inBreakable, inLoop);
    match s
    case Skip =>
      NothingLowered(b, e);
      rg := map[];
    case Eval(x) => rg := ExprExits(hlsl, b, x, e);
    case Seq(_, _) => rg := SeqLowered(hlsl, b, s, inBreakable, inLoop);
    case If(_, _, _, _) => rg := IfLowered(hlsl, b, s, inBreakable, inLoop);
    case Loop(_, _, _, _) =>
      rg := LoopLowered(hlsl, b, s);
      LoweredWiden(b, LowerStmt(hlsl, b, s), {}, rg, e);
    case Switch(_, _) =>
      rg := SwitchLowered(hlsl, b, s, inLoop);
      ExitsGrow(b, inBreakable, inLoop);
      LoweredWiden(b, LowerStmt(hlsl, b, s), Exits(b, false, inLoop), rg, e);
    case Break =>
      ExitsGrow(b, inBreakable, inLoop);
      JumpLowered(b, Branch(BreakTarget(b)), e);
      rg := map[];
    case Continue =>
      ExitsGrow(b, inBreakable, inLoop);
      JumpLowered(b, Branch(ContinueTarget(b)), e);
      rg := map[];
    case Return(m) =>
      ExitsGrow(b, inBreakable, inLoop);
      rg := ReturnLowered(hlsl, b, s, e);
    case Discard =>
      JumpLowered(b, Kill, e);
      rg := map[];
  }

  lemma ExitsGrow(b: Builder, inBreakable: bool, inLoop: bool)
    ensures Exits(b, false, inLoop) <= Exits(b, inBreakable, inLoop)
    ensures inBreakable ==> BreakTarget(b) in Exits(b, inBreakable, inLoop)
    ensures inLoop ==> ContinueTarget(b) in Exits(b, inBreakable, inLoop)
    ensures ExitsExist(b, inBreakable, inLoop) ==> forall x <- Exits(b, inBreakable, inLoop) :: x < |b.blocks|
  {
  }

  lemma ReturnLowered(hlsl: bool, b: Builder, s: Stmt, e: set<nat>) returns (rg: Regions)
    requires Calm(b) && s.Return? && forall x <- e :: x < |b.blocks|
    ensures Ok(b) && Lowered(b, LowerStmt(hlsl, b, s), e, rg)
  {
    hide Lowered, LowerExpr, Framed, EndWith, Grows;
    match s.value
    case NoExpr =>
      JumpLowered(b, ReturnT(NoId), e);
      rg := map[];
    case SomeExpr(x) =>
      var r1 := ExprExits(hlsl, b, x, e);
      var (b1, v) := LowerExpr(hlsl, b, x);
      LoweredParts(b, b1, e, r1);
      JumpLowered(b1, ReturnT(SomeId(v)), e);
      LoweredTrans(b, b1, Jump(b1, ReturnT(SomeId(v))), e, r1, map[]);
      rg := r1 + map[];
  }

  /** The same jumps are possible from a later build point. */
  lemma LaterExits(b: Builder, b1: Builder, inBreakable: bool, inLoop: bool)
    requires SameTargets(b, b1) && |b.blocks| <= |b1.blocks| && ExitsExist(b, inBreakable, inLoop)
    ensures ExitsExist(b1, inBreakable, inLoop) && Exits(b1, inBreakable, inLoop) == Exits(b, inBreakable, inLoop)
  {
  }

  lemma FramedSize(b: Builder, r: Builder)
    requires Framed(b, r)
    ensures |b.blocks| <= |r.blocks|
  {
  }

  lemma SeqLowers(hlsl: bool, b: Builder, s: Stmt)
    requires s.Seq? && Ok(b)
    ensures LowerStmt(hlsl, b, s) == LowerStmt(hlsl, LowerStmt(hlsl, b, s.first), s.second)
  {
    hide Framed, LowerTestFirst, LowerTestLast, LowerItems;
  }

  lemma {:induction false} SeqLowered(hlsl: bool, b: Builder, s: Stmt, inBreakable: bool, inLoop: bool)
    returns (rg: Regions)
    requires Calm(b) && s.Seq? && Nested(s, inBreakable, inLoop) && ExitsExist(b, inBreakable, inLoop)
    ensures Ok(b) && Lowered(b, LowerStmt(hlsl, b, s), Exits(b, inBreakable, inLoop), rg)
    decreases s, 3
  {
    hide Lowered, LowerStmt, Framed, Exits, ExitsExist, BreakTarget, ContinueTarget;
    var e := Exits(b, inBreakable, inLoop);
    var r1 := StmtLowered(hlsl, b, s.first, inBreakable, inLoop);
    var b1 := LowerStmt(hlsl, b, s.first);
    LoweredParts(b, b1, e, r1);
    FramedTargets(b, b1);
    FramedSize(b, b1);
    LaterExits(b, b1, inBreakable, inLoop);
    var r2 := StmtLowered(hlsl, b1, s.second, inBreakable, inLoop);
    ExitsGrow(b, inBreakable, inLoop);
    LoweredTrans(b, b1, LowerStmt(hlsl, b1, s.second), e, r1, r2);
    SeqLowers(hlsl, b, s);
    rg := r1 + r2;
  }

  lemma {:induction false} IfLowered(hlsl: bool, b: Builder, s: Stmt, inBreakable: bool, inLoop: bool)
    returns (rg: Regions)
    requires Calm(b) && s.If? && Nested(s, inBreakable, inLoop) && ExitsExist(b, inBreakable, inLoop)
    ensures Ok(b) && Lowered(b, LowerStmt(hlsl, b, s), Exits(b, inBreakable, inLoop), rg)
    decreases s, 3
  {
    hide Lowered, LowerStmt, LowerExpr, Framed, Exits, ExitsExist, BreakTarget, ContinueTarget, JoinOne, JoinTwo;
    hide SecondArm, BeginIf, SameTargets;
    var e := Exits(b, inBreakable, inLoop);
    var r0 := ExprExits(hlsl, b, s.cond, e);
    var (b1, k) := LowerExpr(hlsl, b, s.cond);
    LoweredParts(b, b1, e, r0);
    BeginIsCalm(b1);
    IfLowers(hlsl, b, s);
    IfTargets(hlsl, b, s);
    var x := BeginIf(b1);
    ArmSizes(b, b1);
    LaterExits(b, x, inBreakable, inLoop);
    var r1 := StmtLowered(hlsl, x, s.yes, inBreakable, inLoop);
    var b2 := LowerStmt(hlsl, x, s.yes);
    ExitsGrow(b, inBreakable, inLoop);
    var r3;
    if s.hasElse {
      SecondIsCalm(b1, b2);
      var y := SecondArm(b1, b2);
      SecondSizes(b, b1, b2);
      LaterExits(b, y, inBreakable, inLoop);
      var r2 := StmtLowered(hlsl, y, s.no, inBreakable, inLoop);
      r3 := TwoArmedPiece(b1, b2, LowerStmt(hlsl, y, s.no), k, e, r1, r2);
    } else {
      r3 := OneArmedPiece(b1, b2, k, e, r1);
    }
    LoweredTrans(b, b1, LowerStmt(hlsl, b, s), e, r0, r3);
    rg := r0 + r3;
  }

  lemma ArmSizes(b: Builder, b1: Builder)
    requires Framed(b, b1)
    ensures |b.blocks| <= |b1.blocks| <= |BeginIf(b1).blocks|
  {
  }

  lemma SecondSizes(b: Builder, b1: Builder, b2: Builder)
    requires Framed(b, b1) && Framed(BeginIf(b1), b2)
    ensures |b.blocks| <= |SecondArm(b1, b2).blocks|
  {
  }

  lemma BodyExits(b: Builder, p0: Builder)
    requires BreakTarget(p0) == LoopOf(b).merge && ContinueTarget(p0) == LoopOf(b).cont && |b.blocks| + 4 <= |p0.blocks|
    ensures ExitsExist(p0, true, true) && Exits(p0, true, true) == JumpTargets(b)
  {
  }

  lemma {:induction false} LoopLowered(hlsl: bool, b: Builder, s: Stmt) returns (rg: Regions)
    requires Calm(b) && s.Loop? && Nested(s.body, true, true)
    ensures Ok(b) && Lowered(b, LowerStmt(hlsl, b, s), {}, rg)
    decreases s, 3
  {
    hide Lowered, LowerStmt, LowerTestFirst, LowerTestLast;
    LoopLowers(hlsl, b, s);
    if s.testFirst && s.test.SomeExpr? {
      rg := FirstLowered(hlsl, b, s);
    } else {
      rg := LastLowered(hlsl, b, s);
    }
  }

  /** The body and the continue target of a loop. */
  lemma {:induction false} BodyLowered(hlsl: bool, b: Builder, s: Stmt, p0: Builder, p1: Builder, q0: Builder,
                                       q1: Builder)
    returns (rb: Regions, rc: Regions)
    requires s.Loop? && Nested(s.body, true, true) && BodySteps(hlsl, b, s, p0, p1, q0, q1)
    requires Calm(p0) && |b.blocks| + 4 <= |p0.blocks|
    ensures Lowered(p0, p1, JumpTargets(b), rb) && Framed(p0, p1) && p1.breakForLoop != []
    ensures Lowered(q0, q1, {}, rc) && Framed(q0, q1) && Calm(q1) && Ok(q1) && q1.loops != []
    ensures Ok(p1) && q0 == EnterContinue(p1, |b.blocks| + 3)
    decreases s, 0
  {
    hide Lowered, LowerStmt, LowerMaybe, Framed, Exits, ExitsExist, BreakTarget, ContinueTarget, EnterContinue;
    BodyExits(b, p0);
    rb := StmtLowered(hlsl, p0, s.body, true, true);
    LoweredParts(p0, p1, JumpTargets(b), rb);
    rc := MaybeLowered(hlsl, q0, s.terminal);
    LoweredParts(q0, q1, {}, rc);
  }

  lemma {:induction false} FirstLowered(hlsl: bool, b: Builder, s: Stmt) returns (rg: Regions)
    requires Calm(b) && s.Loop? && s.testFirst && s.test.SomeExpr? && Nested(s.body, true, true)
    ensures Ok(b) && Lowered(b, LowerTestFirst(hlsl, b, s), {}, rg)
    decreases s, 1
  {
    hide Lowered, LowerStmt, LowerExpr, LowerTestFirst, LowerMaybe, Framed, Exits, ExitsExist, BreakTarget,
         ContinueTarget;
    hide LoopHeader, BranchToNew, EnterBody, EnterContinue, EndLoop, Ended, Started, Grows, LoopBuilt, Successors;
    hide Within, Piece, New, Nested, GraphOf, Calm, Emit, ClosedWith, SetBuildPoint, Terminate, NewBlock, Range;
    CalmIsOk(b);
    var n := |b.blocks|;
    var p0, p1, q0, q1 := TestFirstSteps(hlsl, b, s);
    var r, t0 := LowerTestFirst(hlsl, b, s), BranchToNew(LoopHeader(b));
    var (t1, k) := LowerExpr(hlsl, t0, s.test.e);
    EmptyIsCalm(r);
    FirstStart(b, t1, k);
    var rt := ExprLowered(hlsl, t0, s.test.e);
    StartedSize(b, p0, n + 4);
    var rb, rc := BodyLowered(hlsl, b, s, p0, p1, q0, q1);
    hide BodySteps;
    BranchSuccessors(n);
    TestSuccessors(k, n);
    LoopIsBuilt(b, p0, p1, q0, q1, Branch(n), n + 4);
    LoopEnded(n, p0, p1, q0, q1, Branch(n));
    EndedLater(p0.blocks, r.blocks, t0, t1, n + 4);
    rg := FirstLoopPiece(b, t0, t1, p0, p1, q0, q1, r, rt, rb, rc);
  }

  lemma CalmIsOk(b: Builder)
    requires Calm(b)
    ensures Ok(b)
  {
  }

  lemma FramedOk(b: Builder, r: Builder)
    requires Framed(b, r)
    ensures Ok(b) && Ok(r)
  {
  }

  lemma EmptyIsCalm(r: Builder)
    requires Ok(r) && r.blocks[r.cur] == EMPTY_BLOCK
    ensures Calm(r)
  {
  }

  lemma StartedSize(b: Builder, p0: Builder, y: nat)
    requires Started(b, p0, y)
    ensures p0.cur == |b.blocks| + 1 && |b.blocks| + 4 <= |p0.blocks| && Calm(p0)
  {
  }

  lemma BranchSuccessors(n: nat)
    ensures Successors(Branch(n)) == [n]
  {
  }

  lemma TestSuccessors(k: nat, n: nat)
    ensures Successors(CondBranch(k, n + 1, n + 2)) == [n + 1, n + 2]
            && Successors(CondBranch(k, n, n + 2)) == [n, n + 2]
  {
  }

  lemma {:induction false} LastLowered(hlsl: bool, b: Builder, s: Stmt) returns (rg: Regions)
    requires Calm(b) && s.Loop? && Nested(s.body, true, true)
    ensures Ok(b) && Lowered(b, LowerTestLast(hlsl, b, s), {}, rg)
    decreases s, 1
  {
    hide Lowered, LowerStmt, LowerExpr, LowerTestLast, LowerMaybe, Framed, Exits, ExitsExist, BreakTarget,
         ContinueTarget;
    hide LoopHeader, BranchToNew, EnterBody, EnterContinue, EndLoop, Ended, Started, Grows, LoopBuilt, Successors;
    hide Within, Piece, New, Nested, GraphOf, Calm, Emit, ClosedWith, SetBuildPoint, Terminate, NewBlock, Range;
    CalmIsOk(b);
    var n := |b.blocks|;
    var p0, p1, q0, q1 := TestLastSteps(hlsl, b, s);
    var r := LowerTestLast(hlsl, b, s);
    EmptyIsCalm(r);
    LastStart(b);
    StartedSize(b, p0, n + 1);
    var rb, rc := BodyLowered(hlsl, b, s, p0, p1, q0, q1);
    hide BodySteps;
    if s.test.SomeExpr? {
      var (q2, k) := LowerExpr(hlsl, q1, s.test.e);
      var rd := ExprLowered(hlsl, q1, s.test.e);
      LoweredTrans(q0, q1, q2, {}, rc, rd);
      LoweredParts(q0, q2, {}, rc + rd);
      TestSuccessors(k, n);
      LoopIsBuilt(b, p0, p1, q0, q2, CondBranch(k, n, n + 2), n + 1);
      rg := LastLoopPiece(b, p0, p1, q0, q2, r, rb, rc + rd);
    } else {
      BranchSuccessors(n);
      LoopIsBuilt(b, p0, p1, q0, q1, Branch(n), n + 1);
      rg := LastLoopPiece(b, p0, p1, q0, q1, r, rb, rc);
    }
  }

  // ---------- whole switches ----------

  lemma NextIsCalm(b: Builder, first: nat, k: nat, n: nat)
    requires SegmentsReady(b, first, k, n) && k < n
    ensures var x := NextSegment(b, first + k); Ok(x) && Calm(x) && SameTargets(b, x) && |b.blocks| == |x.blocks|
  {
  }

  /** The segments from number `k` on; jumps out of them go to the merge block or out of the switch. */
  lemma {:induction false} ItemsLowered(hlsl: bool, b: Builder, items: Items, first: nat, k: nat, n: nat, inLoop: bool)
    returns (rg: Regions)
    requires SegmentsReady(b, first, k, n) && k + SegCount(items) <= n <= k + SegCount(items) + 1
    requires b.switchMerges != [] && BreakTarget(b) == b.switchMerges[|b.switchMerges| - 1]
    requires (Ok(b) ==> Calm(b)) && ItemsNested(items, inLoop) && ExitsExist(b, true, inLoop)
    ensures ItemsMade(b, LowerItems(hlsl, b, items, first, k, n), first, k, n, Exits(b, true, inLoop), rg)
    decreases items, 1
  {
    hide Lowered, ItemsMade, Exits, ExitsExist, BreakTarget, ContinueTarget, LowerStmt, Framed, Segmented,
         SegmentsReady, Calm;
    match items
    case NoItems =>
      if k == n {
        ReadySized(b, first, k, n);
        NoItemsMade(b, first, n, Exits(b, true, inLoop));
        rg := map[];
      } else {
        rg := ExtraSegment(b, first, k, n, inLoop);
      }
    case CaseLabel(_, rest) => rg := ItemsLowered(hlsl, b, rest, first, k, n, inLoop);
    case DefaultLabel(rest) => rg := ItemsLowered(hlsl, b, rest, first, k, n, inLoop);
    case Code(_, _) =>
      hide LowerItems;
      rg := CodeMade(hlsl, b, items, first, k, n, inLoop);
  }

  lemma ReadySized(b: Builder, first: nat, k: nat, n: nat)
    requires SegmentsReady(b, first, k, n)
    ensures Sized(b)
  {
  }

  /** A break in the extra segment that has no code. */
  lemma ExtraSegment(b: Builder, first: nat, k: nat, n: nat, inLoop: bool) returns (rg: Regions)
    requires SegmentsReady(b, first, k, n) && n == k + 1
    requires b.switchMerges != [] && BreakTarget(b) == b.switchMerges[|b.switchMerges| - 1]
    requires (Ok(b) ==> Calm(b)) && ExitsExist(b, true, inLoop)
    ensures var x := NextSegment(b, first + k); var e := Exits(b, true, inLoop);
            && Ok(x) && Sized(b)
            && ItemsMade(b, Jump(x, Branch(b.switchMerges[|b.switchMerges| - 1])), first, k, n, e, rg)
  {
    hide Lowered, ItemsMade, Exits, ExitsExist, BreakTarget, ContinueTarget, EndWith, Piece;
    var x, e := NextSegment(b, first + k), Exits(b, true, inLoop);
    NextIsCalm(b, first, k, n);
    ExitsGrow(b, true, inLoop);
    BranchSuccessors(BreakTarget(b));
    var y := Jump(x, Branch(BreakTarget(b)));
    JumpLowered(x, Branch(BreakTarget(b)), e);
    LoweredParts(x, y, e, map[]);
    JumpReady(b, y, first, k, n);
    NoItemsMade(y, first, n, e);
    SegmentIsKept(b, y, y, first, k, n);
    OneSegmentMade(b, y, y, first, k, n, e, map[], map[]);
    rg := map[] + map[];
  }

  lemma JumpReady(b: Builder, y: Builder, first: nat, k: nat, n: nat)
    requires SegmentsReady(b, first, k, n) && k < n && Framed(NextSegment(b, first + k), y) && n == k + 1
    ensures Segmented(y, y, first, k + 1, n)
  {
  }

  /** A segment of code and the ones after it. */
  lemma {:induction false} CodeMade(hlsl: bool, b: Builder, items: Items, first: nat, k: nat, n: nat, inLoop: bool)
    returns (rg: Regions)
    requires SegmentsReady(b, first, k, n) && k + SegCount(items) <= n <= k + SegCount(items) + 1 && items.Code?
    requires b.switchMerges != [] && BreakTarget(b) == b.switchMerges[|b.switchMerges| - 1]
    requires (Ok(b) ==> Calm(b)) && ItemsNested(items, inLoop) && ExitsExist(b, true, inLoop)
    ensures ItemsMade(b, LowerItems(hlsl, b, items, first, k, n), first, k, n, Exits(b, true, inLoop), rg)
    decreases items, 0
  {
    hide Lowered, ItemsMade, Exits, ExitsExist, BreakTarget, ContinueTarget, LowerStmt, LowerItems, Framed, Segmented;
    hide SegmentsReady, Calm, NextSegment, SegmentKept, SameTargets, Grows, Nested, ItemsNested, Piece, New;
    ReadySized(b, first, k, n);
    CodeNested(items, inLoop);
    var x, e := NextSegment(b, first + k), Exits(b, true, inLoop);
    NextIsCalm(b, first, k, n);
    LaterExits(b, x, true, inLoop);
    var r1 := StmtLowered(hlsl, x, items.segment, true, inLoop);
    var y := LowerStmt(hlsl, x, items.segment);
    LoweredParts(x, y, e, r1);
    CodeLowered(hlsl, b, items, first, k, n);
    FramedTargets(x, y);
    FramedSize(x, y);
    SwitchTop(b, x, y, first + k);
    LaterExits(x, y, true, inLoop);
    var r2 := ItemsLowered(hlsl, y, items.rest, first, k + 1, n, inLoop);
    SegmentIsKept(b, y, LowerItems(hlsl, b, items, first, k, n), first, k, n);
    ExitsGrow(b, true, inLoop);
    OneSegmentMade(b, y, LowerItems(hlsl, b, items, first, k, n), first, k, n, e, r1, r2);
    rg := r1 + r2;
  }

  lemma CodeNested(items: Items, inLoop: bool)
    requires items.Code? && ItemsNested(items, inLoop)
    ensures Nested(items.segment, true, inLoop) && ItemsNested(items.rest, inLoop)
  {
  }

  /** The innermost switch is the same one. */
  lemma SwitchTop(b: Builder, x: Builder, y: Builder, segment: nat)
    requires Sized(b) && x == NextSegment(b, segment) && Framed(x, y) && b.switchMerges != []
    requires BreakTarget(b) == b.switchMerges[|b.switchMerges| - 1]
    ensures y.switchMerges != [] && BreakTarget(y) == y.switchMerges[|y.switchMerges| - 1]
  {
  }

  /** All case labels and the default label select one of the segments, or the one after the last. */
  lemma {:induction false} CasesExist(items: Items, k: nat)
    ensures forall i :: 0 <= i < |CaseTable(items, k)| ==> CaseTable(items, k)[i].1 <= k + SegCount(items)
    ensures DefaultSegment(items, k) <= k + SegCount(items)
  {
    match items
    case NoItems =>
    case CaseLabel(_, rest) =>
      CasesExist(rest, k);
      var cases := CaseTable(items, k);
      assert forall i :: 1 <= i < |cases| ==> cases[i] == CaseTable(rest, k)[i - 1];
    case DefaultLabel(rest) => CasesExist(rest, k);
    case Code(_, rest) =>
      CasesExist(rest, k + 1);
      assert CaseTable(items, k) == CaseTable(rest, k + 1);
  }

  lemma {:induction false} TargetAt(cases: seq<(int, nat)>, first: nat, i: nat)
    requires i < |cases|
    ensures Targets(cases, first)[i].1 == first + cases[i].1
  {
    if i > 0 {
      TargetAt(cases[1..], first, i - 1);
    }
  }

  lemma CaseTargetsExist(items: Items, first: nat)
    ensures var targets := Targets(CaseTable(items, 0), first);
            forall i :: 0 <= i < |targets| ==> first <= targets[i].1 <= first + NumSegments(items)
    ensures DefaultSegment(items, 0) <= NumSegments(items)
  {
    var cases := CaseTable(items, 0);
    CasesExist(items, 0);
    assert SegCount(items) <= NumSegments(items);
    hide CaseTable, DefaultSegment, NumSegments, SegCount;
    forall i | 0 <= i < |cases| ensures first <= Targets(cases, first)[i].1 <= first + NumSegments(items) {
      TargetAt(cases, first, i);
    }
  }

  /** Where a switch branches to: its segments and its merge block. */
  lemma SwitchSuccessors(t: Terminator, first: nat, last: nat)
    requires t.SwitchOn? && first <= t.otherwise <= last
    requires forall i :: 0 <= i < |t.cases| ==> first <= t.cases[i].1 <= last
    ensures forall y <- Successors(t) :: first <= y <= last
  {
    forall y <- Successors(t) ensures first <= y <= last {
      var i :| 0 <= i < |Successors(t)| && Successors(t)[i] == y;
      if i > 0 {
        assert y == CaseBlocks(t.cases)[i - 1];
      }
    }
  }

  /** What the finished blocks hold of a switch with header `h`, segments from `first` and merge block `m`. */
  ghost predicate SwitchBuilt(r: Builder, f: seq<Block>, h: nat, first: nat, m: nat) {
    && h < first <= m < |r.blocks| <= |f|
    && f[m] == EMPTY_BLOCK
    && ShapeOf(f[h]).mergeInst == C.SelectionMerge(m) && (forall y <- ShapeOf(f[h]).successors :: first <= y <= m)
    && if Ok(r) then
         && (first <= r.cur < m || m < r.cur) && |f| == |r.blocks| + 1 && f[|r.blocks|] == EMPTY_BLOCK
         && f[r.cur] == r.blocks[r.cur].(term := Branch(m))
         && forall i :: first <= i < |r.blocks| && i != r.cur ==> f[i] == r.blocks[i]
       else |f| == |r.blocks| && forall i :: first <= i < |f| ==> f[i] == r.blocks[i]
  }

  lemma HeaderShape(b: Builder, k: nat, items: Items)
    requires Ok(b)
    ensures var x := SwitchHeader(b, k, items); var m := |b.blocks| + NumSegments(items);
            && b.cur < |x.blocks| == m + 1 && x.blocks[b.cur].term != Open
            && ShapeOf(x.blocks[b.cur]).mergeInst == C.SelectionMerge(m)
            && (forall y <- ShapeOf(x.blocks[b.cur]).successors :: |b.blocks| <= y <= m)
            && BreakTarget(x) == m && x.switchMerges != [] && m == x.switchMerges[|x.switchMerges| - 1]
            && ContinueTarget(x) == ContinueTarget(b) && Sized(x) && !Ok(x) && x.cur == b.cur
  {
    HeaderBlock(b, k, items);
    SwitchReady(b, k, items);
    CaseTargetsExist(items, |b.blocks|);
    var x := SwitchHeader(b, k, items);
    SwitchSuccessors(x.blocks[b.cur].term, |b.blocks|, |b.blocks| + NumSegments(items));
    hide NumSegments, DefaultSegment, Targets, CaseTable, Successors, SegmentsReady;
  }

  /** The end of a switch: a break out of the last segment, and on to the merge block. */
  lemma EndSwitchShape(x: Builder, r: Builder, h: nat, first: nat, m: nat)
    requires Sized(x) && !Ok(x) && x.cur == h < first <= m && |x.blocks| == m + 1
             && Segmented(x, r, first, 0, m - first)
    requires r.breakForLoop != [] && r.switchMerges != [] && r.switchMerges[|r.switchMerges| - 1] == m
    requires ShapeOf(x.blocks[h]).mergeInst == C.SelectionMerge(m) && x.blocks[m] == EMPTY_BLOCK
    requires forall y <- ShapeOf(x.blocks[h]).successors :: first <= y <= m
    ensures SwitchBuilt(r, EndSwitch(PopBreak(r)).blocks, h, first, m)
  {
    hide ShapeOf;
  }

  lemma SwitchIsBuilt(b: Builder, k: nat, items: Items, r: Builder)
    requires Calm(b) && Segmented(SwitchHeader(b, k, items), r, |b.blocks|, 0, NumSegments(items))
    requires r.breakForLoop != [] && r.switchMerges != []
    ensures var m := |b.blocks| + NumSegments(items); var e := EndSwitch(PopBreak(r));
            SwitchBuilt(r, e.blocks, b.cur, |b.blocks|, m) && Framed(b, e) && Calm(e)
  {
    var x, m := SwitchHeader(b, k, items), |b.blocks| + NumSegments(items);
    SwitchReady(b, k, items);
    HeaderShape(b, k, items);
    SwitchFramed(b, k, items, r);
    assert r.switchMerges == x.switchMerges;
    hide NumSegments, SwitchHeader, Framed, Segmented, EndSwitch, PopBreak, ShapeOf, SegmentsReady, Grows, SwitchBuilt;
    EndSwitchShape(x, r, b.cur, |b.blocks|, m);
  }

  lemma SegmentBlocks(x: Builder, r: Builder, f: seq<Block>, h: nat, first: nat, m: nat)
    requires first <= m && SwitchBuilt(r, f, h, first, m) && !Ok(x) && |x.blocks| == m + 1 && (Ok(r) ==> Calm(r))
    ensures var s := Range(first, m) + Range(m + 1, |r.blocks|); var g := GraphOf(f); var was := GraphOf(r.blocks);
            && ItemBlocks(x, r, first, 0, m - first) == s && New(x, r) == Range(m + 1, |r.blocks|)
            && if Ok(r) then
                 && r.cur in s && s - {r.cur} <= g.Keys && (forall i <- s - {r.cur} :: g[i] == was[i])
                 && r.cur in g && g[r.cur] == C.Shape(C.NoMerge, [m])
                 && |r.blocks| in g && g[|r.blocks|] == C.Shape(C.NoMerge, [])
                 && Range(m + 1, |f|) == Range(m + 1, |r.blocks|) + {|r.blocks|}
               else |f| == |r.blocks| && s <= g.Keys && forall i <- s :: g[i] == was[i]
  {
  }

  /** The graph of the segments once the switch is finished. */
  lemma SegmentsFinished(x: Builder, r: Builder, f: seq<Block>, h: nat, first: nat, m: nat, e: set<nat>, rg: Regions)
    requires first <= m && SwitchBuilt(r, f, h, first, m)
    requires ItemsMade(x, r, first, 0, m - first, {m} + e, rg) && !Ok(x) && |x.blocks| == m + 1
    ensures Piece(GraphOf(f), Range(first, m) + Range(m + 1, |f|), Range(m + 1, |r.blocks|),
                  Range(first, m) + ({m} + e), rg)
  {
    hide *;
    var s, n, out := Range(first, m) + Range(m + 1, |r.blocks|), Range(m + 1, |r.blocks|), Range(first, m) + ({m} + e);
    var g, was := GraphOf(f), GraphOf(r.blocks);
    ItemsParts(x, r, first, 0, m - first, {m} + e, rg);
    SegmentBlocks(x, r, f, h, first, m);
    assert first + (m - first) == m && first + 0 == first;
    if Ok(r) {
      PieceDrop(was, s, n, out, rg, r.cur);
      PieceFrame(was, g, s - {r.cur}, n, out, rg);
      OneBlock(g, r.cur, {m});
      PieceUnion(g, s - {r.cur}, n, out, rg, {r.cur}, {}, {m}, map[]);
      OneBlock(g, |r.blocks|, {});
      assert s - {r.cur} + {r.cur} == s && n + {} == n && out + {m} == out && rg + map[] == rg;
      PieceUnion(g, s, n, out, rg, {|r.blocks|}, {}, {}, map[]);
      assert s + {|r.blocks|} == Range(first, m) + Range(m + 1, |f|) && out + {} == out;
    } else {
      PieceFrame(was, g, s, n, out, rg);
    }
  }

  /** A switch's header around its segments. */
  lemma SwitchAround(g: C.Graph, h: nat, first: nat, m: nat, mid: nat, hi: nat, e: set<nat>, rg: Regions)
    returns (all: Regions)
    requires h < first <= m < mid <= hi && h in g && m in g && forall y <- e :: y < first
    requires Piece(g, Range(first, m) + Range(m + 1, hi), Range(m + 1, mid), Range(first, m) + ({m} + e), rg)
    requires g[h].mergeInst == C.SelectionMerge(m) && g[m] == C.Shape(C.NoMerge, [])
    requires forall y <- g[h].successors :: first <= y <= m
    ensures Piece(g, {h} + Range(first, hi), Range(first, hi), e, all)
  {
    hide Piece;
    var s, out := Range(first, m) + Range(m + 1, hi), Range(first, m) + ({m} + e);
    OneBlock(g, m, {});
    PieceUnion(g, s, Range(m + 1, mid), out, rg, {m}, {}, {}, map[]);
    assert s + {m} == Range(first, hi) && Range(m + 1, mid) + {} == Range(m + 1, mid) && out + {} == out
           && rg + map[] == rg;
    PieceWrap(g, Range(first, hi), Range(m + 1, mid), out, rg, h, Range(first, hi), e);
    all := rg[h := Range(first, hi)];
    assert Range(first, hi) + {h} == {h} + Range(first, hi);
  }

  lemma HeadOfSwitch(r: Builder, f: seq<Block>, h: nat, first: nat, m: nat)
    requires SwitchBuilt(r, f, h, first, m)
    ensures var g := GraphOf(f);
            && h < first <= m < |r.blocks| <= |f| && h in g && m in g
            && g[h].mergeInst == C.SelectionMerge(m) && g[m] == C.Shape(C.NoMerge, [])
            && forall y <- g[h].successors :: first <= y <= m
  {
  }

  lemma SwitchExits(b: Builder, x: Builder, m: nat, inLoop: bool)
    requires BreakTarget(x) == m < |x.blocks| && ContinueTarget(x) == ContinueTarget(b) && |b.blocks| <= |x.blocks|
    requires ExitsExist(b, false, inLoop)
    ensures ExitsExist(x, true, inLoop) && Exits(x, true, inLoop) == {m} + Exits(b, false, inLoop)
  {
  }

  lemma SegmentedSized(x: Builder, r: Builder, first: nat, n: nat)
    requires Segmented(x, r, first, 0, n)
    ensures Sized(r)
  {
  }

  /** A switch's segments and its end. */
  lemma SwitchPiece(b: Builder, k: nat, items: Items, r: Builder, e: set<nat>, rg: Regions) returns (all: Regions)
    requires Calm(b) && Segmented(SwitchHeader(b, k, items), r, |b.blocks|, 0, NumSegments(items))
    requires r.breakForLoop != [] && r.switchMerges != [] && forall y <- e :: y < |b.blocks|
    requires ItemsMade(SwitchHeader(b, k, items), r, |b.blocks|, 0, NumSegments(items),
                       {|b.blocks| + NumSegments(items)} + e, rg)
    ensures Sized(r) && Lowered(b, EndSwitch(PopBreak(r)), e, all)
  {
    hide NumSegments, SwitchHeader, Framed, Segmented, EndSwitch, ShapeOf, Grows, SwitchBuilt, ItemsMade, Piece;
    hide GraphOf, Calm, Range, Lowered;
    CalmIsOk(b);
    var x, first, m := SwitchHeader(b, k, items), |b.blocks|, |b.blocks| + NumSegments(items);
    HeaderShape(b, k, items);
    SwitchIsBuilt(b, k, items, r);
    SegmentedSized(x, r, first, NumSegments(items));
    var end := EndSwitch(PopBreak(r));
    SegmentsFinished(x, r, end.blocks, b.cur, first, m, e, rg);
    HeadOfSwitch(r, end.blocks, b.cur, first, m);
    all := SwitchAround(GraphOf(end.blocks), b.cur, first, m, |r.blocks|, |end.blocks|, e, rg);
    LoweredIs(b, end, e, all);
  }

  lemma {:induction false} SwitchLowered(hlsl: bool, b: Builder, s: Stmt, inLoop: bool) returns (rg: Regions)
    requires Calm(b) && s.Switch? && ItemsNested(s.items, inLoop) && ExitsExist(b, false, inLoop)
    ensures Ok(b) && Lowered(b, LowerStmt(hlsl, b, s), Exits(b, false, inLoop), rg)
    decreases s, 3
  {
    hide Lowered, LowerStmt, LowerExpr, LowerItems, SwitchHeader, EndSwitch, PopBreak, Framed, Exits, ExitsExist,
         Segmented;
    hide BreakTarget, ContinueTarget, NumSegments, Calm, ItemsMade, SegmentsReady, Grows;
    var e := Exits(b, false, inLoop);
    var r0 := ExprExits(hlsl, b, s.cond, e);
    var (b1, v) := LowerExpr(hlsl, b, s.cond);
    LoweredParts(b, b1, e, r0);
    CalmIsOk(b1);
    SwitchLowers(hlsl, b, s);
    HeaderShape(b1, v, s.items);
    FramedTargets(b, b1);
    FramedSize(b, b1);
    LaterExits(b, b1, false, inLoop);
    var x, m := SwitchHeader(b1, v, s.items), |b1.blocks| + NumSegments(s.items);
    SwitchExits(b1, x, m, inLoop);
    var ri := ItemsLowered(hlsl, x, s.items, |b1.blocks|, 0, NumSegments(s.items), inLoop);
    var r := LowerItems(hlsl, x, s.items, |b1.blocks|, 0, NumSegments(s.items));
    ExitsGrow(b, false, inLoop);
    var r2 := SwitchPiece(b1, v, s.items, r, e, ri);
    LoweredTrans(b, b1, LowerStmt(hlsl, b, s), e, r0, r2);
    rg := r0 + r2;
  }

  // ---------- whole bodies ----------

  /** The merge and continue blocks of a body's graph are entered from their constructs only. */
  lemma {:induction false} LoweredBodyIsStructured(hlsl: bool, valued: bool, body: Stmt)
    requires Nested(body, false, false)
    ensures var g := GraphOf(LowerBody(hlsl, valued, body));
            C.Closed(g) && C.Structured(g, 0) && C.ProperTargets(g, 0)
  {
    hide *;
    NoExits(ENTRY);
    EntryIsCalm();
    var rg := StmtLowered(hlsl, ENTRY, body, false, false);
    var b, f := LowerStmt(hlsl, ENTRY, body), LowerBody(hlsl, valued, body);
    LoweredParts(ENTRY, b, {}, rg);
    var r, t := EndOfBody(hlsl, valued, body, rg);
    LoweredParts(ENTRY, r, {}, rg);
    LeaveEnds(r, t);
    EndedPiece(ENTRY, r, {}, rg, f, {});
    BodyIsWhole(GraphOf(f), |f|, {ENTRY.cur} + New(ENTRY, r), New(ENTRY, r), rg);
    WholeIsStructured(GraphOf(f), 0, Range(1, |f|), rg);
  }

  lemma UndefIsCalm(id: nat)
    ensures MergeOf([Undef(id)]).NoMerge?
  {
  }

  /** What is added at the end of a body. */
  lemma EndOfBody(hlsl: bool, valued: bool, body: Stmt, rg: Regions) returns (r: Builder, t: Terminator)
    requires Lowered(ENTRY, LowerStmt(hlsl, ENTRY, body), {}, rg)
    ensures Lowered(ENTRY, r, {}, rg) && Ok(r) && LowerBody(hlsl, valued, body) == Terminate(r, t).blocks
    ensures Successors(t) == []
  {
    hide Lowered, LowerStmt, Framed, MergeOf, Calm, Emit, Terminate, FreshId, ExitsExist;
    var b := LowerStmt(hlsl, ENTRY, body);
    if valued {
      UndefIsCalm(b.nextId);
      LoweredParts(ENTRY, b, {}, rg);
      EmittedLowered(b, Undef(b.nextId));
      r, t := Emitted(b, Undef(b.nextId)).0, ReturnT(SomeId(b.nextId));
      LoweredTrans(ENTRY, b, r, {}, rg, map[]);
      assert rg + map[] == rg;
    } else {
      r, t := b, ReturnT(NoId);
    }
  }

  lemma BodyIsWhole(g: C.Graph, k: nat, s: set<nat>, n: set<nat>, rg: Regions)
    requires Piece(g, s, n, {} + {}, rg) && k > 0 && g.Keys == Range(0, k) && s == {0} + Range(1, k) && n == Range(1, k)
    ensures Whole(g, 0, Range(1, k), rg) && Range(1, k) <= g.Keys
  {
    hide Piece;
    var none: set<nat> := {};
    assert g.Keys == s && none + none == none;
  }

  lemma NoExits(b: Builder)
    ensures Exits(b, false, false) == {}
  {
  }

  lemma LeaveEnds(b: Builder, t: Terminator)
    requires Calm(b) && Ok(b) && Framed(ENTRY, b) && Successors(t) == []
    ensures var f := Terminate(b, t).blocks;
            && Ended(f, ENTRY, b) && b.cur < |f| && Successors(f[b.cur].term) == []
            && New(ENTRY, b) == Range(1, |f|) && ENTRY.cur == 0 < |f| && GraphOf(f).Keys == Range(0, |f|)
  {
  }

  lemma EntryIsCalm()
    ensures Calm(ENTRY) && ExitsExist(ENTRY, false, false)
  {
  }
}
