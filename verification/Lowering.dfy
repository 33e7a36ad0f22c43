/** The translation of structured programs to blocks, as a function on the builder's state. */
module Lowering {
  import opened ShaderAst
  import opened SpirvBuilder

  // ---------- when both sides are evaluated ----------

  predicate IsTrivialLeaf(e: Expr) {
    && e.LeafExpr?
    && (e.leaf.Symbol? ==> !e.leaf.storage.OtherStorage?)
  }

  predicate IsSimple(op: Op) {
    || op.LogicalNot? || op.Equal? || op.NotEqual? || op.LessThan? || op.GreaterThan? || op.LessThanEqual?
    || op.GreaterThanEqual? || op.IndexDirect? || op.IndexDirectStruct? || op.LogicalXor? || op.Any? || op.All?
    || (op.NumericConversion? && op.toBool)
  }

  /** A single operation without side effects; HLSL and vectors do not short-circuit at all. */
  predicate IsTrivial(hlsl: bool, e: Expr) {
    || !e.ty.isScalar || hlsl
    || IsTrivialLeaf(e)
    || (e.Unary? && IsTrivialLeaf(e.operand) && IsSimple(e.op))
    || (e.Binary? && IsTrivialLeaf(e.left) && IsTrivialLeaf(e.right) && IsSimple(e.op))
  }

  predicate OperandOkay(e: Expr) {
    (e.LeafExpr? && e.leaf.Symbol?) || e.ty.isConstant
  }

  predicate BothSides(e: Expr)
    requires e.Choice?
  {
    !e.shortCircuit || (e.ty.isSelectable && OperandOkay(e.yes) && OperandOkay(e.no))
  }

  // ---------- the shape of an "if" ----------

  lemma BeginIfShape(b: Builder)
    requires Ok(b)
    ensures var r := BeginIf(b); var n := |b.blocks|;
            && Ok(r) && r.cur == n && |r.blocks| == n + 2 && Grows(b.blocks, r.blocks)
            && r.blocks[n] == EMPTY_BLOCK == r.blocks[n + 1]
            && r.blocks[b.cur] == Block(b.blocks[b.cur].instrs + [SelectionMerge(n + 1)], Open)
            && (forall i :: 0 <= i < n && i != b.cur ==> r.blocks[i] == b.blocks[i])
  {
  }

  /** After the then arm the header and the merge block are as `BeginIf` left them. */
  lemma ThenArm(b: Builder, m: Builder)
    requires Ok(b) && Framed(BeginIf(b), m)
    ensures var n := |b.blocks|;
            && Grows(b.blocks, m.blocks) && n + 2 <= |m.blocks|
            && m.cur != b.cur && m.cur != n + 1
            && m.blocks[n + 1] == EMPTY_BLOCK
            && m.blocks[b.cur] == Block(b.blocks[b.cur].instrs + [SelectionMerge(n + 1)], Open)
            && (forall i :: 0 <= i < n && i != b.cur ==> m.blocks[i] == b.blocks[i])
    ensures var r := BeginElse(m, |b.blocks| + 1);
            && Ok(r) && r.cur == |m.blocks| && Grows(m.blocks, r.blocks)
            && r.blocks[|m.blocks|] == EMPTY_BLOCK
  {
    BeginIfShape(b);
    GrowsTrans(b.blocks, BeginIf(b).blocks, m.blocks);
  }

  lemma OneArmed(b: Builder, m: Builder, cond: nat, otherwise: nat)
    requires Ok(b) && Framed(BeginIf(b), m)
    ensures m.cur != b.cur && m.blocks[b.cur].term == Open
    ensures var n := |b.blocks|; var r := EndIf(m, b.cur, cond, n, otherwise, n + 1);
            && Framed(b, r) && Grows(m.blocks, r.blocks) && r.cur == n + 1
            && r.blocks[n + 1] == EMPTY_BLOCK && |r.blocks| == |m.blocks|
            && r.blocks[m.cur] == m.blocks[m.cur].(term := Branch(n + 1))
            && r.blocks[b.cur] == Block(b.blocks[b.cur].instrs + [SelectionMerge(n + 1)],
                                        CondBranch(cond, n, otherwise))
  {
    ThenArm(b, m);
    var n := |b.blocks|;
    var r := EndIf(m, b.cur, cond, n, otherwise, n + 1);
    GrowsTrans(b.blocks, m.blocks, r.blocks);
  }

  lemma TwoArmed(b: Builder, m: Builder, k: Builder, cond: nat)
    requires Ok(b) && Framed(BeginIf(b), m)
    requires Framed(BeginElse(m, |b.blocks| + 1), k)
    ensures k.cur != b.cur && b.cur < |k.blocks| && k.blocks[b.cur].term == Open && Ok(m) && Ok(k)
    ensures var n := |b.blocks|; var r := EndIf(k, b.cur, cond, n, |m.blocks|, n + 1);
            && Framed(b, r) && Grows(b.blocks, r.blocks) && Grows(m.blocks, r.blocks) && Grows(k.blocks, r.blocks)
            && r.cur == n + 1
            && r.blocks[n + 1] == EMPTY_BLOCK && m.cur < |r.blocks| && k.cur < |r.blocks|
            && r.blocks[m.cur] == m.blocks[m.cur].(term := Branch(n + 1))
            && r.blocks[k.cur] == k.blocks[k.cur].(term := Branch(n + 1))
            && r.blocks[b.cur] == Block(b.blocks[b.cur].instrs + [SelectionMerge(n + 1)],
                                        CondBranch(cond, n, |m.blocks|))
  {
    ThenArm(b, m);
    var n := |b.blocks|;
    var e := BeginElse(m, n + 1);
    assert e.cur == |m.blocks| && m.cur < |m.blocks|;
    var r := EndIf(k, b.cur, cond, n, |m.blocks|, n + 1);
    assert Grows(k.blocks, r.blocks);
    GrowsTrans(m.blocks, e.blocks, k.blocks);
    GrowsTrans(m.blocks, k.blocks, r.blocks);
    GrowsTrans(b.blocks, m.blocks, r.blocks);
  }

  // ---------- expressions ----------

  /** Emits an instruction that defines the next id. */
  function Emitted(b: Builder, i: Instr): (r: (Builder, nat))
    requires Ok(b)
    ensures Ok(r.0) && Framed(b, r.0) && b.nextId == r.1 < r.0.nextId
  {
    EmitFramed(b, i);
    (Emit(FreshId(b), i), b.nextId)
  }

  /** "or" evaluates its right operand if the left one is false. */
  function Guard(b: Builder, isAnd: bool, left: nat): (r: (Builder, nat))
    requires Ok(b) && left < b.nextId
    ensures Ok(r.0) && Framed(b, r.0) && r.1 < r.0.nextId && r.0.cur == b.cur && |r.0.blocks| == |b.blocks|
  {
    if isAnd then (b, left) else Emitted(b, NotI(b.nextId, left))
  }

  /** Makes the result variable of a selection and starts the "if". */
  function BeginSelection(b: Builder): (r: Builder)
    requires Ok(b)
    ensures Ok(FreshId(b)) && r == BeginIf(FreshId(b)) && Ok(r) && r.nextId == b.nextId + 1
  {
    BeginIfShape(FreshId(b));
    BeginIf(FreshId(b))
  }

  /** Ends an arm of a selection. */
  function StoreResult(b: Builder, arm: Builder, result: nat, value: nat): (r: Builder)
    requires Framed(b, arm)
    ensures Ok(r) && Framed(b, r)
  {
    EmitFramed(arm, StoreVar(result, value));
    FramedTrans(b, arm, Emit(arm, StoreVar(result, value)));
    Emit(arm, StoreVar(result, value))
  }

  function SecondArm(b: Builder, yes: Builder): (r: Builder)
    requires Ok(b) && Framed(BeginIf(b), yes)
    ensures Ok(r) && r.nextId == yes.nextId
  {
    ThenArm(b, yes);
    BeginElse(yes, |b.blocks| + 1)
  }

  function JoinOne(b: Builder, yes: Builder, cond: nat): (r: Builder)
    requires Ok(b) && Framed(BeginIf(b), yes)
    ensures Ok(r) && Framed(b, r)
  {
    OneArmed(b, yes, cond, |b.blocks| + 1);
    EndIf(yes, b.cur, cond, |b.blocks|, |b.blocks| + 1, |b.blocks| + 1)
  }

  /** Ends a short-circuited operator: the left value if `right` was skipped, else the right one. */
  function JoinLogical(b: Builder, left: nat, guard: nat, right: Builder, value: nat): (r: (Builder, nat))
    requires Ok(b) && Framed(BeginIf(b), right)
    ensures Ok(r.0) && Framed(b, r.0) && b.nextId <= r.1 < r.0.nextId
  {
    var joined := JoinOne(b, right, guard);
    var r := Emitted(joined, Phi(joined.nextId, [(left, b.cur), (value, right.cur)]));
    FramedTrans(b, joined, r.0);
    r
  }

  function JoinTwo(b: Builder, yes: Builder, no: Builder, cond: nat): (r: Builder)
    requires Ok(b) && Framed(BeginIf(b), yes) && Framed(SecondArm(b, yes), no)
    ensures Ok(r) && Framed(b, r) && |b.blocks| < |r.blocks|
  {
    TwoArmed(b, yes, no, cond);
    EndIf(no, b.cur, cond, |b.blocks|, |yes.blocks|, |b.blocks| + 1)
  }

  function JoinSelection(b: Builder, yes: Builder, no: Builder, cond: nat): (r: (Builder, nat))
    requires Ok(b) && Framed(BeginSelection(b), yes) && Framed(SecondArm(FreshId(b), yes), no)
    ensures Ok(r.0) && Framed(b, r.0) && b.nextId <= r.1 < r.0.nextId && |b.blocks| < |r.0.blocks|
  {
    var joined := JoinTwo(FreshId(b), yes, no, cond);
    var r := Emitted(joined, LoadVar(joined.nextId, b.nextId));
    FramedTrans(FreshId(b), joined, r.0);
    r
  }

  /** Selects between two values by storing one of them, for types OpSelect cannot handle. */
  function ChooseByVariable(b: Builder, cond: nat, yes: nat, no: nat): (r: (Builder, nat))
    requires Ok(b)
    ensures Ok(r.0) && Framed(b, r.0) && b.nextId <= r.1 < r.0.nextId && |b.blocks| < |r.0.blocks|
  {
    var b1 := BeginSelection(b);
    var b2 := StoreResult(b1, b1, b.nextId, yes);
    var b3 := SecondArm(FreshId(b), b2);
    var b4 := StoreResult(b3, b3, b.nextId, no);
    JoinSelection(b, b2, b4, cond)
  }

  /** Extends the builder and returns the id that holds the value. */
  function LowerExpr(hlsl: bool, b: Builder, e: Expr): (r: (Builder, nat))
    requires Ok(b)
    ensures Ok(r.0) && Framed(b, r.0) && b.nextId <= r.1 < r.0.nextId
    decreases e
  {
    hide Framed, Ok, IsTrivial, BothSides;
    match e
    case LeafExpr(leaf, _) => Emitted(b, Load(b.nextId, leaf))
    case Unary(op, a, _) =>
      var (b1, va) := LowerExpr(hlsl, b, a);
      var r := Emitted(b1, Apply(b1.nextId, op, [va]));
      FramedTrans(b, b1, r.0);
      r
    case Binary(op, x, y, _) =>
      var (b1, vx) := LowerExpr(hlsl, b, x);
      var (b2, vy) := LowerExpr(hlsl, b1, y);
      var r := Emitted(b2, Apply(b2.nextId, op, [vx, vy]));
      FramedTrans(b, b1, b2);
      FramedTrans(b, b2, r.0);
      r
    case Logical(isAnd, x, y, _) =>
      var (b1, vx) := LowerExpr(hlsl, b, x);
      if IsTrivial(hlsl, y) then
        var (b2, vy) := LowerExpr(hlsl, b1, y);
        var r := Emitted(b2, LogicalBin(b2.nextId, isAnd, vx, vy));
        FramedTrans(b, b1, b2);
        FramedTrans(b, b2, r.0);
        r
      else
        var (b2, guard) := Guard(b1, isAnd, vx);
        BeginIfShape(b2);
        var (b3, vy) := LowerExpr(hlsl, BeginIf(b2), y);
        var r := JoinLogical(b2, vx, guard, b3, vy);
        FramedTrans(b, b1, b2);
        FramedTrans(b, b2, r.0);
        r
    case Choice(k, yes, no, _, _) =>
      var (b1, vk) := LowerExpr(hlsl, b, k);
      if BothSides(e) then
        var (b2, vy) := LowerExpr(hlsl, b1, yes);
        var (b3, vn) := LowerExpr(hlsl, b2, no);
        var r := if e.ty.isSelectable then Emitted(b3, Select(b3.nextId, vk, vy, vn))
                 else ChooseByVariable(b3, vk, vy, vn);
        FramedTrans(b, b1, b2);
        FramedTrans(b, b2, b3);
        FramedTrans(b, b3, r.0);
        r
      else
        var b2 := BeginSelection(b1);
        var (b3, vy) := LowerExpr(hlsl, b2, yes);
        var b4 := StoreResult(b2, b3, b1.nextId, vy);
        var b5 := SecondArm(FreshId(b1), b4);
        var (b6, vn) := LowerExpr(hlsl, b5, no);
        var b7 := StoreResult(b5, b6, b1.nextId, vn);
        var r := JoinSelection(b1, b4, b7, vk);
        FramedTrans(b, b1, r.0);
        r
  }

  // ---------- when no blocks are made ----------

  /** A constant, or a symbol of one of seven storage classes. */
  predicate ReadsCheaply(e: Expr) {
    e.LeafExpr? && (e.leaf.Symbol? ==> e.leaf.storage in {Temporary, Global, In, InOut, Const, ConstReadOnly, Uniform})
  }

  predicate NeverFails(op: Op) {
    op in {LogicalNot, LogicalXor, Equal, NotEqual, LessThan, GreaterThan, LessThanEqual, GreaterThanEqual, IndexDirect,
           IndexDirectStruct, Any, All, NumericConversion(true)}
  }

  /** A scalar right operand of "and" or "or" is evaluated without branching if and only if it is a constant or a
      variable that is cheap to read, or one operation on such that can neither fail nor have effects. */
  lemma RightOperandInline(b: Builder, isAnd: bool, x: Expr, y: Expr, ty: Type)
    requires Ok(b) && x.LeafExpr? && y.ty.isScalar
    ensures |LowerExpr(false, b, Logical(isAnd, x, y, ty)).0.blocks| == |b.blocks|
            <==> || ReadsCheaply(y)
                 || (y.Unary? && NeverFails(y.op) && ReadsCheaply(y.operand))
                 || (y.Binary? && NeverFails(y.op) && ReadsCheaply(y.left) && ReadsCheaply(y.right))
  {
    hide LowerExpr, Framed, Guard, JoinLogical;
    SimpleIff(y);
    var b1 := LowerExpr(false, b, x).0;
    LeafInline(false, b, x);
    LogicalIs(b, Logical(isAnd, x, y, ty));
    if IsTrivial(false, y) {
      TrivialInline(b1, y);
    }
  }

  lemma SimpleIff(y: Expr)
    requires y.ty.isScalar
    ensures IsTrivial(false, y)
            <==> || ReadsCheaply(y)
                 || (y.Unary? && NeverFails(y.op) && ReadsCheaply(y.operand))
                 || (y.Binary? && NeverFails(y.op) && ReadsCheaply(y.left) && ReadsCheaply(y.right))
  {
  }

  lemma LeafInline(hlsl: bool, b: Builder, e: Expr)
    requires Ok(b) && e.LeafExpr?
    ensures |LowerExpr(hlsl, b, e).0.blocks| == |b.blocks|
  {
  }

  lemma TrivialInline(b: Builder, e: Expr)
    requires Ok(b) && e.ty.isScalar && IsTrivial(false, e)
    ensures |LowerExpr(false, b, e).0.blocks| == |b.blocks|
  {
    hide Framed;
    match e
    case LeafExpr(_, _) =>
    case Unary(_, a, _) => LeafInline(false, b, a);
    case Binary(_, x, y, _) =>
      LeafInline(false, b, x);
      LeafInline(false, LowerExpr(false, b, x).0, y);
  }

  /** A short-circuited operator, step by step. */
  lemma ShortCircuitSteps(hlsl: bool, b: Builder, e: Expr)
    requires e.Logical? && !IsTrivial(hlsl, e.right) && Ok(b)
    ensures var (b1, left) := LowerExpr(hlsl, b, e.left);
            var (b2, cond) := Guard(b1, e.isAnd, left);
            && Ok(BeginIf(b2))
            && var (b3, right) := LowerExpr(hlsl, BeginIf(b2), e.right);
            LowerExpr(hlsl, b, e) == JoinLogical(b2, left, cond, b3, right)
  {
    hide Framed, Grows, JoinLogical, BeginIf;
    var (b1, left) := LowerExpr(hlsl, b, e.left);
    var (b2, cond) := Guard(b1, e.isAnd, left);
    BeginIfShape(b2);
  }

  lemma StrictSteps(hlsl: bool, b: Builder, e: Expr)
    requires e.Logical? && IsTrivial(hlsl, e.right) && Ok(b)
    ensures var (b1, left) := LowerExpr(hlsl, b, e.left);
            var (b2, right) := LowerExpr(hlsl, b1, e.right);
            LowerExpr(hlsl, b, e) == Emitted(b2, LogicalBin(b2.nextId, e.isAnd, left, right))
  {
    hide Framed, Grows, IsTrivial, Emitted;
  }

  /** The two ways to translate an "and" or "or", by the number of blocks. */
  lemma LogicalIs(b: Builder, e: Expr)
    requires Ok(b) && e.Logical?
    ensures var n := |LowerExpr(false, b, e).0.blocks|;
            var b1 := LowerExpr(false, b, e.left).0;
            if IsTrivial(false, e.right) then n == |LowerExpr(false, b1, e.right).0.blocks| else n >= |b1.blocks| + 2
  {
    hide *;
    var (b1, left) := LowerExpr(false, b, e.left);
    if IsTrivial(false, e.right) {
      var (b2, right) := LowerExpr(false, b1, e.right);
      StrictSteps(false, b, e);
      EmittedLength(b2, LogicalBin(b2.nextId, e.isAnd, left, right));
    } else {
      ShortCircuitSteps(false, b, e);
      var (b2, cond) := Guard(b1, e.isAnd, left);
      BeginIfShape(b2);
      var (b3, right) := LowerExpr(false, BeginIf(b2), e.right);
      JoinedLength(b2, left, cond, b3, right);
    }
  }

  lemma EmittedLength(b: Builder, i: Instr)
    requires Ok(b)
    ensures |Emitted(b, i).0.blocks| == |b.blocks|
  {
  }

  lemma JoinedLength(b: Builder, left: nat, guard: nat, right: Builder, value: nat)
    requires Ok(b) && Framed(BeginIf(b), right)
    ensures |JoinLogical(b, left, guard, right, value).0.blocks| >= |b.blocks| + 2
  {
    OneArmed(b, right, guard, |b.blocks| + 1);
  }

  /** A selection between constants and variables makes no blocks if and only if its type can be selected and, where it
      short-circuits, both sides are symbols or constants. */
  lemma ChoiceInline(hlsl: bool, b: Builder, c: Expr, yes: Expr, no: Expr, shortCircuit: bool, ty: Type)
    requires Ok(b) && c.LeafExpr? && yes.LeafExpr? && no.LeafExpr?
    ensures |LowerExpr(hlsl, b, Choice(c, yes, no, shortCircuit, ty)).0.blocks| == |b.blocks|
            <==> && ty.isSelectable
                 && (shortCircuit ==> (yes.leaf.Symbol? || yes.ty.isConstant) && (no.leaf.Symbol? || no.ty.isConstant))
  {
    hide LowerExpr, Framed, Ok;
    var e := Choice(c, yes, no, shortCircuit, ty);
    var b1 := LowerExpr(hlsl, b, c).0;
    LeafInline(hlsl, b, c);
    LeafInline(hlsl, b1, yes);
    LeafInline(hlsl, LowerExpr(hlsl, b1, yes).0, no);
    ChoiceBlocks(hlsl, b, e);
  }

  lemma ChoiceBlocks(hlsl: bool, b: Builder, e: Expr)
    requires Ok(b) && e.Choice?
    ensures var b1 := LowerExpr(hlsl, b, e.cond).0;
            var b3 := LowerExpr(hlsl, LowerExpr(hlsl, b1, e.yes).0, e.no).0;
            var n := |LowerExpr(hlsl, b, e).0.blocks|;
            if !BothSides(e) then n > |b1.blocks| else if e.ty.isSelectable then n == |b3.blocks| else n > |b3.blocks|
  {
    hide Framed, StoreResult, JoinSelection, SecondArm, BothSides, ChooseByVariable;
  }
}
