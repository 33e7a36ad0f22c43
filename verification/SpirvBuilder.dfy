/** The builder the translation writes to, and the machine that runs the blocks it makes. */
module SpirvBuilder {
  import opened ShaderAst

  datatype Instr =
    | Load(dst: nat, leaf: Leaf)
    | Apply(dst: nat, op: Op, args: seq<nat>)
    | LogicalBin(dst: nat, isAnd: bool, left: nat, right: nat)
    | NotI(dst: nat, src: nat)
    | Select(dst: nat, cond: nat, yes: nat, no: nat)
    | Phi(dst: nat, srcs: seq<(nat, nat)>)
    | StoreVar(variable: nat, src: nat)
    | LoadVar(dst: nat, variable: nat)
    | Undef(dst: nat)
    | SelectionMerge(mergeBlock: nat)
    | LoopMerge(mergeBlock: nat, continueBlock: nat)

  datatype MaybeId = NoId | SomeId(id: nat)

  datatype Terminator =
    | Open
    | Branch(target: nat)
    | CondBranch(cond: nat, yes: nat, no: nat)
    | SwitchOn(selector: nat, otherwise: nat, cases: seq<(int, nat)>)
    | ReturnT(value: MaybeId)
    | Kill

  datatype Block = Block(instrs: seq<Instr>, term: Terminator)

  const EMPTY_BLOCK := Block([], Open)

  datatype LoopBlocks = LoopBlocks(head: nat, body: nat, merge: nat, cont: nat)

  /** Blocks are numbered from 0, the entry. The last element of a stack is its top. */
  datatype Builder = Builder(blocks: seq<Block>, cur: nat, nextId: nat,
                             loops: seq<LoopBlocks>, switchMerges: seq<nat>, breakForLoop: seq<bool>)

  predicate Sized(b: Builder) {
    b.cur < |b.blocks|
  }

  /** The build point exists and is not terminated. */
  predicate Ok(b: Builder) {
    Sized(b) && b.blocks[b.cur].term == Open
  }

  // ---------- primitives ----------

  function Emit(b: Builder, i: Instr): Builder
    requires Ok(b)
  {
    b.(blocks := b.blocks[b.cur := Block(b.blocks[b.cur].instrs + [i], Open)])
  }

  function FreshId(b: Builder): Builder {
    b.(nextId := b.nextId + 1)
  }

  /** Ends the build point. */
  function Terminate(b: Builder, t: Terminator): Builder
    requires Ok(b)
  {
    b.(blocks := b.blocks[b.cur := b.blocks[b.cur].(term := t)])
  }

  function SetBuildPoint(b: Builder, block: nat): Builder {
    b.(cur := block)
  }

  function NewBlock(b: Builder): Builder {
    b.(blocks := b.blocks + [EMPTY_BLOCK])
  }

  /** A terminator in the middle of a statement list: what follows goes to a block nothing branches to. */
  function EndWith(b: Builder, t: Terminator): Builder
    requires Ok(b)
  {
    SetBuildPoint(NewBlock(Terminate(b, t)), |b.blocks|)
  }

  // ---------- If ----------

  /** Opens an "if" in the build point: the then block is `|b.blocks|`, the merge block the next one. */
  function BeginIf(b: Builder): Builder
    requires Ok(b)
  {
    var n := |b.blocks|;
    SetBuildPoint(Emit(NewBlock(NewBlock(b)), SelectionMerge(n + 1)), n)
  }

  function BeginElse(b: Builder, merge: nat): Builder
    requires Ok(b)
  {
    SetBuildPoint(NewBlock(Terminate(b, Branch(merge))), |b.blocks|)
  }

  function EndIf(b: Builder, header: nat, cond: nat, thenBlock: nat, elseBlock: nat, merge: nat): Builder
    requires Ok(b) && header < |b.blocks| && header != b.cur && b.blocks[header].term == Open
  {
    var b1 := SetBuildPoint(Terminate(b, Branch(merge)), header);
    SetBuildPoint(Terminate(b1, CondBranch(cond, thenBlock, elseBlock)), merge)
  }

  // ---------- loops and switches ----------

  function MakeNewLoop(b: Builder): Builder {
    var n := |b.blocks|;
    b.(blocks := b.blocks + [EMPTY_BLOCK, EMPTY_BLOCK, EMPTY_BLOCK, EMPTY_BLOCK],
       loops := b.loops + [LoopBlocks(n, n + 1, n + 2, n + 3)])
  }

  function CloseLoop(b: Builder): Builder
    requires b.loops != []
  {
    b.(loops := b.loops[..|b.loops| - 1])
  }

  function PushBreak(b: Builder, forLoop: bool): Builder {
    b.(breakForLoop := b.breakForLoop + [forLoop])
  }

  function PopBreak(b: Builder): Builder
    requires b.breakForLoop != []
  {
    b.(breakForLoop := b.breakForLoop[..|b.breakForLoop| - 1])
  }

  /** Where break goes: the merge block of the innermost loop or switch. */
  function BreakTarget(b: Builder): nat {
    if b.breakForLoop == [] then 0
    else if b.breakForLoop[|b.breakForLoop| - 1] then
      if b.loops == [] then 0 else b.loops[|b.loops| - 1].merge
    else if b.switchMerges == [] then 0 else b.switchMerges[|b.switchMerges| - 1]
  }

  /** Where continue goes: the continue target of the innermost loop. */
  function ContinueTarget(b: Builder): nat {
    if b.loops == [] then 0 else b.loops[|b.loops| - 1].cont
  }

  function EmptyBlocks(n: nat): (r: seq<Block>)
    ensures |r| == n && forall i :: 0 <= i < n ==> r[i] == EMPTY_BLOCK
  {
    seq(n, _ => EMPTY_BLOCK)
  }

  /** Makes `n` segment blocks starting at `|b.blocks|`, then the merge block, and ends the header. */
  function MakeSwitch(b: Builder, n: nat, selector: nat, otherwise: nat, cases: seq<(int, nat)>): Builder
    requires Ok(b)
  {
    var merge := |b.blocks| + n;
    var b1 := Emit(b.(blocks := b.blocks + EmptyBlocks(n + 1)), SelectionMerge(merge));
    Terminate(b1, SwitchOn(selector, otherwise, cases)).(switchMerges := b.switchMerges + [merge])
  }

  /** Falls through into the next segment unless the build point is terminated. */
  function NextSegment(b: Builder, segment: nat): Builder
    requires Sized(b)
  {
    SetBuildPoint(if Ok(b) then Terminate(b, Branch(segment)) else b, segment)
  }

  function AddSwitchBreak(b: Builder): Builder
    requires Ok(b) && b.switchMerges != []
  {
    EndWith(b, Branch(b.switchMerges[|b.switchMerges| - 1]))
  }

  function EndSwitch(b: Builder): Builder
    requires Sized(b) && b.switchMerges != []
  {
    var b1 := if Ok(b) then AddSwitchBreak(b) else b;
    b1.(cur := b.switchMerges[|b.switchMerges| - 1], switchMerges := b.switchMerges[..|b.switchMerges| - 1])
  }

  // ---------- running blocks ----------

  datatype Machine = Machine(mg: Meaning, f: seq<Block>)

  /** A run is at an instruction of a block it entered from `prev`, or over, or at a block without an end. */
  datatype Config =
    | Going(block: nat, pc: nat, prev: nat, env: map<nat, Value>, st: Store)
    | Halted(out: Outcome, final: Store)
    | Stuck

  /** Ids without a value read as zero; results do not depend on it, since runs start with any environment. */
  function Get(env: map<nat, Value>, id: nat): Value {
    if id in env then env[id] else 0
  }

  function PhiValue(env: map<nat, Value>, srcs: seq<(nat, nat)>, prev: nat): Value {
    if srcs == [] then 0
    else if srcs[0].1 == prev then Get(env, srcs[0].0)
    else PhiValue(env, srcs[1..], prev)
  }

  function Define(c: Config, id: nat, v: Value): Config
    requires c.Going?
  {
    c.(pc := c.pc + 1, env := c.env[id := v])
  }

  function Perform(mg: Meaning, i: Instr, c: Config): Config
    requires c.Going?
  {
    match i
    case Load(d, leaf) => Define(c, d, mg.read(leaf, c.st))
    case Apply(d, op, args) =>
      var (v, st1) := Operate(mg, op, seq(|args|, k requires 0 <= k < |args| => Get(c.env, args[k])), c.st);
      Define(c, d, v).(st := st1)
    case LogicalBin(d, isAnd, l, r) => Define(c, d, mg.logical(isAnd, Get(c.env, l), Get(c.env, r)))
    case NotI(d, s) => Define(c, d, if Get(c.env, s) != 0 then 0 else 1)
    case Select(d, k, y, n) => Define(c, d, if Get(c.env, k) != 0 then Get(c.env, y) else Get(c.env, n))
    case Phi(d, srcs) => Define(c, d, PhiValue(c.env, srcs, c.prev))
    case StoreVar(x, s) => Define(c, x, Get(c.env, s))
    case LoadVar(d, x) => Define(c, d, Get(c.env, x))
    case Undef(d) => Define(c, d, mg.undefined(c.st))
    case SelectionMerge(_) => c.(pc := c.pc + 1)
    case LoopMerge(_, _) => c.(pc := c.pc + 1)
  }

  function SwitchTarget(cases: seq<(int, nat)>, v: int, otherwise: nat): nat {
    if cases == [] then otherwise
    else if cases[0].0 == v then cases[0].1
    else SwitchTarget(cases[1..], v, otherwise)
  }

  function Goto(c: Config, target: nat): Config
    requires c.Going?
  {
    c.(block := target, pc := 0, prev := c.block)
  }

  function Leave(t: Terminator, c: Config): Config
    requires c.Going?
  {
    match t
    case Open => Stuck
    case Branch(x) => Goto(c, x)
    case CondBranch(k, y, n) => Goto(c, if Get(c.env, k) != 0 then y else n)
    case SwitchOn(s, otherwise, cases) => Goto(c, SwitchTarget(cases, Get(c.env, s), otherwise))
    case ReturnT(v) => Halted(Returned(if v.SomeId? then SomeValue(Get(c.env, v.id)) else NoValue), c.st)
    case Kill => Halted(Discarded, c.st)
  }

  function Step(m: Machine, c: Config): Config {
    if !c.Going? then c
    else if c.block >= |m.f| then Stuck
    else if c.pc < |m.f[c.block].instrs| then Perform(m.mg, m.f[c.block].instrs[c.pc], c)
    else Leave(m.f[c.block].term, c)
  }

  function Run(m: Machine, c: Config, n: nat): Config
    decreases n
  {
    if n == 0 then c else Run(m, Step(m, c), n - 1)
  }

  lemma {:induction false} RunAdds(m: Machine, c: Config, j: nat, k: nat)
    ensures Run(m, c, j + k) == Run(m, Run(m, c, j), k)
    decreases j
  {
    if j > 0 {
      RunAdds(m, Step(m, c), j - 1, k);
    }
  }

  /** A run that is over stays over. */
  lemma {:induction false} OverStaysOver(m: Machine, c: Config, n: nat)
    requires !c.Going?
    ensures Run(m, c, n) == c
    decreases n
  {
    if n > 0 {
      OverStaysOver(m, c, n - 1);
    }
  }

  // ---------- how building changes blocks ----------

  /** Blocks only get longer, and not at all once they are terminated. */
  ghost predicate Grows(xs: seq<Block>, ys: seq<Block>) {
    && |xs| <= |ys|
    && forall i :: 0 <= i < |xs| ==>
         && xs[i].instrs <= ys[i].instrs
         && (xs[i].term != Open ==> xs[i] == ys[i])
  }

  lemma GrowsTrans(xs: seq<Block>, ys: seq<Block>, zs: seq<Block>)
    requires Grows(xs, ys) && Grows(ys, zs)
    ensures Grows(xs, zs)
  {
    forall i | 0 <= i < |xs|
      ensures xs[i].instrs <= zs[i].instrs && (xs[i].term != Open ==> xs[i] == zs[i])
    {
      assert xs[i].instrs <= ys[i].instrs <= zs[i].instrs;
    }
  }

  /** What translating a piece of program at a build point does to the builder. */
  ghost predicate Framed(b: Builder, r: Builder) {
    && Ok(b) && Ok(r)
    && Grows(b.blocks, r.blocks)
    && (forall i :: 0 <= i < |b.blocks| && i != b.cur ==> r.blocks[i] == b.blocks[i])
    && (r.cur == b.cur || |b.blocks| <= r.cur)
    && b.nextId <= r.nextId
    && r.loops == b.loops && r.switchMerges == b.switchMerges && r.breakForLoop == b.breakForLoop
  }

  lemma FramedTrans(a: Builder, b: Builder, c: Builder)
    requires Framed(a, b) && Framed(b, c)
    ensures Framed(a, c) && Ok(c)
    ensures a.nextId <= b.nextId <= c.nextId
  {
    GrowsTrans(a.blocks, b.blocks, c.blocks);
  }

  lemma FramedRefl(b: Builder)
    requires Ok(b)
    ensures Framed(b, b)
  {
  }

  lemma EmitFramed(b: Builder, i: Instr)
    requires Ok(b)
    ensures Framed(b, Emit(b, i)) && Framed(b, Emit(FreshId(b), i))
  {
  }

  lemma EndWithFramed(b: Builder, t: Terminator)
    requires Ok(b)
    ensures Framed(b, EndWith(b, t))
    ensures Grows(Terminate(b, t).blocks, EndWith(b, t).blocks)
  {
  }
}
