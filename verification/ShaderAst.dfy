/** The structured programs that are lowered, and what they mean. */
module ShaderAst {

  // values and states of the world are numbered
  type Value = int
  type Store = int

  /** Operators. All but `Other` compute a value from their operands, and some of them may fail on some operands.
      Operations on specialization constants are done when the module is specialized, before it runs. */
  datatype Op =
    | LogicalNot | LogicalXor | Equal | NotEqual | LessThan | GreaterThan | LessThanEqual | GreaterThanEqual
    | IndexDirect | IndexDirectStruct | Any | All
    | NumericConversion(toBool: bool)
    | Arithmetic(code: nat)
    | SpecConstantOp(code: nat)
    | Other(effect: nat)

  /** Storage classes of symbols; `OtherStorage` stands for the ones that are costly to read. */
  datatype Storage = Temporary | Global | In | InOut | Const | ConstReadOnly | Uniform | OtherStorage

  datatype Leaf = Constant(value: Value) | Symbol(name: nat, storage: Storage)

  /** What the translation looks at in an expression's type. */
  datatype Type = Type(isScalar: bool, isConstant: bool, isSelectable: bool)

  datatype Expr =
    | LeafExpr(leaf: Leaf, ty: Type)
    | Unary(op: Op, operand: Expr, ty: Type)
    | Binary(op: Op, left: Expr, right: Expr, ty: Type)
    | Logical(isAnd: bool, left: Expr, right: Expr, ty: Type)
    | Choice(cond: Expr, yes: Expr, no: Expr, shortCircuit: bool, ty: Type)

  datatype MaybeExpr = NoExpr | SomeExpr(e: Expr)

  datatype Stmt =
    | Skip
    | Eval(e: Expr)
    | Seq(first: Stmt, second: Stmt)
    | If(cond: Expr, yes: Stmt, no: Stmt, hasElse: bool)
    | Loop(testFirst: bool, test: MaybeExpr, terminal: MaybeExpr, body: Stmt)
    | Switch(cond: Expr, items: Items)
    | Break
    | Continue
    | Return(value: MaybeExpr)
    | Discard

  /** The body of a switch: case labels, default labels and segments of code. */
  datatype Items =
    | NoItems
    | CaseLabel(value: int, rest: Items)
    | DefaultLabel(rest: Items)
    | Code(segment: Stmt, rest: Items)

  // ---------- expressions ----------

  /** The meaning of leaves and operators, and the value that an undefined value happens to have. `fault` is what an
      operator that may fail does to the world: anything at all on operands that it fails on. */
  datatype Meaning = Meaning(read: (Leaf, Store) -> Value,
                             pure: (Op, seq<Value>) -> Value,
                             fault: (Op, seq<Value>, Store) -> Store,
                             logical: (bool, Value, Value) -> Value,
                             effect: (nat, seq<Value>, Store) -> (Value, Store),
                             undefined: Store -> Value)

  /** Divisions by zero and the like, and conversions of numbers that the target type cannot represent. */
  predicate MayFail(op: Op) {
    op.Arithmetic? || (op.NumericConversion? && !op.toBool)
  }

  function Operate(mg: Meaning, op: Op, args: seq<Value>, st: Store): (Value, Store) {
    if op.Other? then mg.effect(op.effect, args, st)
    else (mg.pure(op, args), if MayFail(op) then mg.fault(op, args, st) else st)
  }

  /** GLSL's logical operators are on booleans: the left operand if it decides, else the right one. */
  ghost predicate BooleanLogic(mg: Meaning) {
    forall isAnd, a, b :: mg.logical(isAnd, a, b) == if (a != 0) == isAnd then b else a
  }

  /** HLSL evaluates both operands of logical operators, GLSL the right one only if it matters. */
  function EvalExpr(mg: Meaning, hlsl: bool, e: Expr, st: Store): (Value, Store) {
    match e
    case LeafExpr(leaf, _) => (mg.read(leaf, st), st)
    case Unary(op, a, _) =>
      var (va, st1) := EvalExpr(mg, hlsl, a, st);
      Operate(mg, op, [va], st1)
    case Binary(op, a, b, _) =>
      var (va, st1) := EvalExpr(mg, hlsl, a, st);
      var (vb, st2) := EvalExpr(mg, hlsl, b, st1);
      Operate(mg, op, [va, vb], st2)
    case Logical(isAnd, a, b, _) =>
      var (va, st1) := EvalExpr(mg, hlsl, a, st);
      if hlsl then
        var (vb, st2) := EvalExpr(mg, hlsl, b, st1);
        (mg.logical(isAnd, va, vb), st2)
      else if (va != 0) == isAnd then EvalExpr(mg, hlsl, b, st1)
      else (va, st1)
    case Choice(c, yes, no, shortCircuit, _) =>
      var (vc, st1) := EvalExpr(mg, hlsl, c, st);
      if shortCircuit then
        EvalExpr(mg, hlsl, if vc != 0 then yes else no, st1)
      else
        var (vy, st2) := EvalExpr(mg, hlsl, yes, st1);
        var (vn, st3) := EvalExpr(mg, hlsl, no, st2);
        (if vc != 0 then vy else vn, st3)
  }

  function ExprSize(e: Expr): nat {
    match e
    case LeafExpr(_, _) => 1
    case Unary(_, a, _) => 1 + ExprSize(a)
    case Binary(_, a, b, _) => 1 + ExprSize(a) + ExprSize(b)
    case Logical(_, a, b, _) => 1 + ExprSize(a) + ExprSize(b)
    case Choice(c, yes, no, _, _) => 1 + ExprSize(c) + ExprSize(yes) + ExprSize(no)
  }

  /** No operator in the expression has effects or may fail. */
  predicate IsPure(e: Expr) {
    match e
    case LeafExpr(_, _) => true
    case Unary(op, a, _) => !op.Other? && !MayFail(op) && IsPure(a)
    case Binary(op, a, b, _) => !op.Other? && !MayFail(op) && IsPure(a) && IsPure(b)
    case Logical(_, a, b, _) => IsPure(a) && IsPure(b)
    case Choice(c, yes, no, _, _) => IsPure(c) && IsPure(yes) && IsPure(no)
  }

  lemma {:induction false} PureKeepsStore(mg: Meaning, hlsl: bool, e: Expr, st: Store)
    requires IsPure(e)
    ensures EvalExpr(mg, hlsl, e, st).1 == st
  {
    match e
    case LeafExpr(_, _) =>
    case Unary(_, a, _) => PureKeepsStore(mg, hlsl, a, st);
    case Binary(_, a, b, _) =>
      PureKeepsStore(mg, hlsl, a, st);
      PureKeepsStore(mg, hlsl, b, st);
    case Logical(_, a, b, _) =>
      PureKeepsStore(mg, hlsl, a, st);
      PureKeepsStore(mg, hlsl, b, st);
    case Choice(c, yes, no, _, _) =>
      PureKeepsStore(mg, hlsl, c, st);
      PureKeepsStore(mg, hlsl, yes, st);
      PureKeepsStore(mg, hlsl, no, st);
  }

  /** Typing: constant expressions are pure, and GLSL's logical operators have scalar operands. */
  predicate WellTyped(hlsl: bool, e: Expr) {
    && (e.ty.isConstant ==> IsPure(e))
    && match e
       case LeafExpr(_, _) => true
       case Unary(_, a, _) => WellTyped(hlsl, a)
       case Binary(_, a, b, _) => WellTyped(hlsl, a) && WellTyped(hlsl, b)
       case Logical(_, a, b, _) => WellTyped(hlsl, a) && WellTyped(hlsl, b) && (hlsl || b.ty.isScalar)
       case Choice(c, yes, no, _, _) => WellTyped(hlsl, c) && WellTyped(hlsl, yes) && WellTyped(hlsl, no)
  }

  predicate MaybeWellTyped(hlsl: bool, m: MaybeExpr) {
    m.SomeExpr? ==> WellTyped(hlsl, m.e)
  }

  // ---------- statements ----------

  datatype Outcome = Normal | Broke | Continued | Returned(value: MaybeValue) | Discarded

  datatype MaybeValue = NoValue | SomeValue(v: Value)

  /** The result of running a statement with a bound on the number of loop iterations. */
  datatype Result = OutOfFuel | Done(out: Outcome, st: Store)

  function EvalMaybe(mg: Meaning, hlsl: bool, m: MaybeExpr, st: Store): (MaybeValue, Store) {
    match m
    case NoExpr => (NoValue, st)
    case SomeExpr(e) => var (v, st1) := EvalExpr(mg, hlsl, e, st); (SomeValue(v), st1)
  }

  /** The items from the label that `v` selects on: a matching case label, else the default label. */
  function CaseItems(items: Items, v: int): (r: Items)
    ensures r == items || r < items
  {
    match items
    case NoItems => NoItems
    case CaseLabel(w, rest) => if v == w then items else CaseItems(rest, v)
    case DefaultLabel(rest) => CaseItems(rest, v)
    case Code(_, rest) => CaseItems(rest, v)
  }

  /** Of several default labels the last one counts. */
  function DefaultItems(items: Items): (r: Items)
    ensures r == items || r < items
  {
    match items
    case NoItems => NoItems
    case CaseLabel(_, rest) => DefaultItems(rest)
    case DefaultLabel(rest) => if DefaultItems(rest) != NoItems then DefaultItems(rest) else items
    case Code(_, rest) => DefaultItems(rest)
  }

  function SelectedItems(items: Items, v: int): (r: Items)
    ensures r == items || r < items
  {
    if CaseItems(items, v) != NoItems then CaseItems(items, v) else DefaultItems(items)
  }

  function Exec(mg: Meaning, hlsl: bool, s: Stmt, st: Store, fuel: nat): Result
    decreases fuel, s, 0
  {
    match s
    case Skip => Done(Normal, st)
    case Eval(e) => Done(Normal, EvalExpr(mg, hlsl, e, st).1)
    case Seq(first, second) =>
      (match Exec(mg, hlsl, first, st, fuel)
       case Done(Normal, st1) => Exec(mg, hlsl, second, st1, fuel)
       case other => other)
    case If(c, yes, no, hasElse) =>
      var (v, st1) := EvalExpr(mg, hlsl, c, st);
      if v != 0 then Exec(mg, hlsl, yes, st1, fuel)
      else if hasElse then Exec(mg, hlsl, no, st1, fuel)
      else Done(Normal, st1)
    case Loop(testFirst, test, terminal, body) =>
      if fuel == 0 then OutOfFuel
      else if testFirst && test.SomeExpr? then
        var (v, st1) := EvalExpr(mg, hlsl, test.e, st);
        if v == 0 then Done(Normal, st1)
        else
          (match Exec(mg, hlsl, body, st1, fuel)
           case Done(Broke, st2) => Done(Normal, st2)
           case Done(Normal, st2) => Exec(mg, hlsl, s, EvalMaybe(mg, hlsl, terminal, st2).1, fuel - 1)
           case Done(Continued, st2) => Exec(mg, hlsl, s, EvalMaybe(mg, hlsl, terminal, st2).1, fuel - 1)
           case other => other)
      else
        (match Exec(mg, hlsl, body, st, fuel)
         case Done(Broke, st2) => Done(Normal, st2)
         case Done(Normal, st2) => AfterBody(mg, hlsl, s, st2, fuel)
         case Done(Continued, st2) => AfterBody(mg, hlsl, s, st2, fuel)
         case other => other)
    case Switch(c, items) =>
      var (v, st1) := EvalExpr(mg, hlsl, c, st);
      (match ExecItems(mg, hlsl, SelectedItems(items, v), st1, fuel)
       case Done(Broke, st2) => Done(Normal, st2)
       case other => other)
    case Break => Done(Broke, st)
    case Continue => Done(Continued, st)
    case Return(m) => var (v, st1) := EvalMaybe(mg, hlsl, m, st); Done(Returned(v), st1)
    case Discard => Done(Discarded, st)
  }

  /** A loop that tests last: terminal expression, test, next iteration. */
  function AfterBody(mg: Meaning, hlsl: bool, s: Stmt, st: Store, fuel: nat): Result
    requires s.Loop? && fuel > 0
    decreases fuel - 1, s, 1
  {
    var st1 := EvalMaybe(mg, hlsl, s.terminal, st).1;
    if s.test.SomeExpr? then
      var (v, st2) := EvalExpr(mg, hlsl, s.test.e, st1);
      if v != 0 then Exec(mg, hlsl, s, st2, fuel - 1) else Done(Normal, st2)
    else
      Exec(mg, hlsl, s, st1, fuel - 1)
  }

  /** Runs the segments in order, falling through labels. */
  function ExecItems(mg: Meaning, hlsl: bool, items: Items, st: Store, fuel: nat): Result
    decreases fuel, items, 0
  {
    match items
    case NoItems => Done(Normal, st)
    case CaseLabel(_, rest) => ExecItems(mg, hlsl, rest, st, fuel)
    case DefaultLabel(rest) => ExecItems(mg, hlsl, rest, st, fuel)
    case Code(s, rest) =>
      (match Exec(mg, hlsl, s, st, fuel)
       case Done(Normal, st1) => ExecItems(mg, hlsl, rest, st1, fuel)
       case other => other)
  }
}
