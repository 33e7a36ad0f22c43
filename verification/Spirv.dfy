/** Decoded SPIR-V modules, as the remapper's passes see them. */
module Spirv {

  type Id = nat

  /** One operand word: an id, or a word that is not an id. */
  datatype Operand = IdRef(id: Id) | Literal(value: nat)
  {
    function Word(): nat {
      match this
      case IdRef(x) => x
      case Literal(w) => w
    }
  }

  /** A decoded instruction. A type or result id of 0 means that there is none. */
  datatype Inst = Inst(op: nat, typeId: Id, resultId: Id, operands: seq<Operand>)

  const OP_NAME := 5
  const OP_MEMBER_NAME := 6
  const OP_ENTRY_POINT := 15
  const OP_EXECUTION_MODE := 16
  const OP_FUNCTION := 54
  const OP_FUNCTION_END := 56
  const OP_FUNCTION_CALL := 57
  const OP_VARIABLE := 59
  const OP_LOAD := 61
  const OP_STORE := 62
  const OP_ACCESS_CHAIN := 65
  const OP_IN_BOUNDS_ACCESS_CHAIN := 66
  const OP_DECORATE := 71
  const OP_MEMBER_DECORATE := 72
  const OP_PHI := 245
  const OP_LABEL := 248
  const OP_BRANCH := 249
  const OP_BRANCH_CONDITIONAL := 250
  const OP_SWITCH := 251

  const STORAGE_CLASS_FUNCTION := 7
  const MEMORY_ACCESS_VOLATILE := 1

  /** OpTypeVoid to OpTypePipe. */
  predicate IsTypeOp(op: nat) {
    19 <= op <= 38
  }

  /** OpConstantTrue to OpConstantNull. */
  predicate IsConstOp(op: nat) {
    41 <= op <= 46
  }

  /** OpLoopMerge to OpSwitch, OpFunction and OpFunctionEnd. */
  predicate IsFlowCtrl(op: nat) {
    246 <= op <= 251 || op == OP_FUNCTION || op == OP_FUNCTION_END
  }

  /** The block ends here: OpBranch to OpUnreachable, OpTerminateInvocation. */
  predicate IsTerminator(op: nat) {
    249 <= op <= 255 || op == 4416
  }

  /** The numbers of the standard's enumerations. */
  lemma Enumerants()
    ensures [OP_NAME, OP_MEMBER_NAME, OP_DECORATE, OP_MEMBER_DECORATE] == [5, 6, 71, 72]
    ensures [OP_ENTRY_POINT, OP_EXECUTION_MODE, OP_VARIABLE] == [15, 16, 59]
    ensures [OP_FUNCTION, OP_FUNCTION_END, OP_FUNCTION_CALL] == [54, 56, 57]
    ensures [OP_LOAD, OP_STORE, OP_ACCESS_CHAIN, OP_IN_BOUNDS_ACCESS_CHAIN] == [61, 62, 65, 66]
    ensures [OP_PHI, OP_LABEL, OP_BRANCH, OP_BRANCH_CONDITIONAL, OP_SWITCH] == [245, 248, 249, 250, 251]
    ensures [STORAGE_CLASS_FUNCTION, MEMORY_ACCESS_VOLATILE] == [7, 1]
    ensures forall op :: IsTypeOp(op) <==> 19 <= op <= 38
    ensures forall op :: IsConstOp(op) <==> 41 <= op <= 46
    ensures forall op :: IsFlowCtrl(op) <==> op in {54, 56, 246, 247, 248, 249, 250, 251}
    ensures forall op :: IsTerminator(op) <==> op in {249, 250, 251, 252, 253, 254, 255, 4416}
  {
  }

  predicate OperandIs(inst: Inst, k: nat, x: Id) {
    k < |inst.operands| && inst.operands[k] == IdRef(x)
  }

  predicate UsesOperand(inst: Inst, x: Id) {
    IdRef(x) in inst.operands
  }

  /** Some id position of the instruction holds `x`. */
  predicate Mentions(inst: Inst, x: Id) {
    x != 0 && (inst.typeId == x || inst.resultId == x || UsesOperand(inst, x))
  }

  predicate Defines(inst: Inst, x: Id) {
    x != 0 && inst.resultId == x
  }

  /** The ids in the id positions of an instruction. */
  function IdsOf(inst: Inst): (ids: seq<Id>)
    ensures forall x | x != 0 :: x in ids <==> Mentions(inst, x)
  {
    [inst.typeId, inst.resultId] + IdOperands(inst.operands)
  }

  function IdOperands(operands: seq<Operand>): (ids: seq<Id>)
    ensures forall x :: x in ids <==> IdRef(x) in operands
  {
    if operands == [] then []
    else IdOperands(operands[..|operands| - 1]) +
         (match operands[|operands| - 1] case IdRef(x) => [x] case Literal(_) => [])
  }

  /** How often `x` is in the list. */
  function Occurs(ids: seq<Id>, x: Id): nat {
    if ids == [] then 0 else Occurs(ids[..|ids| - 1], x) + if ids[|ids| - 1] == x then 1 else 0
  }

  lemma {:induction false} OccursIn(ids: seq<Id>, x: Id)
    ensures Occurs(ids, x) > 0 <==> x in ids
  {
    if ids != [] {
      OccursIn(ids[..|ids| - 1], x);
      assert ids == ids[..|ids| - 1] + [ids[|ids| - 1]];
    }
  }

  lemma {:induction false} OccursAppend(a: seq<Id>, b: seq<Id>, x: Id)
    ensures Occurs(a + b, x) == Occurs(a, x) + Occurs(b, x)
    decreases |b|
  {
    if b == [] {
      assert a + b == a;
    } else {
      assert (a + b)[..|a + b| - 1] == a + b[..|b| - 1];
      OccursAppend(a, b[..|b| - 1], x);
    }
  }

  lemma NoneOccur()
    ensures forall x :: Occurs([], x) == 0
  {
  }

  lemma OccursNext(calls: seq<Id>, c: nat)
    requires c < |calls|
    ensures forall x :: Occurs(calls[..c + 1], x) == Occurs(calls[..c], x) + if calls[c] == x then 1 else 0
    ensures forall x :: Occurs(calls[..c + 1], x) <= Occurs(calls, x)
  {
    assert calls[..c + 1][..c] == calls[..c];
    forall x ensures Occurs(calls[..c + 1], x) <= Occurs(calls, x) {
      OccursPrefix(calls, c + 1, x);
    }
  }

  lemma {:induction false} OccursPrefix(calls: seq<Id>, c: nat, x: Id)
    requires c <= |calls|
    ensures Occurs(calls[..c], x) <= Occurs(calls, x)
    decreases |calls| - c
  {
    if c < |calls| {
      assert calls[..c + 1][..c] == calls[..c];
      OccursPrefix(calls, c + 1, x);
    } else {
      assert calls[..c] == calls;
    }
  }

  /** No id is the result of two instructions. */
  ghost predicate UniqueResults(p: seq<Inst>) {
    forall i, j | 0 <= i < |p| && 0 <= j < |p| && p[i].resultId == p[j].resultId != 0 :: i == j
  }

  /** The instructions whose index is not marked. */
  function Compact(p: seq<Inst>, marks: set<nat>): seq<Inst> {
    if p == [] then []
    else if |p| - 1 in marks then Compact(p[..|p| - 1], marks)
    else Compact(p[..|p| - 1], marks) + [p[|p| - 1]]
  }

  /** How many of the first `i` indices survive. */
  function NewIndex(marks: set<nat>, i: nat): nat {
    if i == 0 then 0 else NewIndex(marks, i - 1) + if i - 1 in marks then 0 else 1
  }

  lemma {:induction false} CompactLength(p: seq<Inst>, marks: set<nat>)
    ensures |Compact(p, marks)| == NewIndex(marks, |p|)
  {
    if p != [] {
      CompactLength(p[..|p| - 1], marks);
    }
  }

  lemma {:induction false} NewIndexMonotone(marks: set<nat>, i: nat, j: nat)
    requires i <= j
    ensures NewIndex(marks, i) <= NewIndex(marks, j)
    ensures i < j && i !in marks ==> NewIndex(marks, i) < NewIndex(marks, j)
    decreases j - i
  {
    if i < j {
      NewIndexMonotone(marks, i + 1, j);
    }
  }

  /** A surviving instruction is found at its new index. */
  lemma {:induction false} CompactAt(p: seq<Inst>, marks: set<nat>, i: nat)
    requires i < |p| && i !in marks
    ensures NewIndex(marks, i) < |Compact(p, marks)|
    ensures Compact(p, marks)[NewIndex(marks, i)] == p[i]
  {
    CompactLength(p, marks);
    CompactLength(p[..|p| - 1], marks);
    NewIndexMonotone(marks, i, |p|);
    if i < |p| - 1 {
      CompactAt(p[..|p| - 1], marks, i);
      NewIndexMonotone(marks, i, |p| - 1);
    }
  }

  /** Every instruction of the compacted module is a surviving one. */
  lemma {:induction false} CompactOrigin(p: seq<Inst>, marks: set<nat>, k: nat) returns (i: nat)
    requires k < |Compact(p, marks)|
    ensures i < |p| && i !in marks && NewIndex(marks, i) == k && Compact(p, marks)[k] == p[i]
  {
    var q := p[..|p| - 1];
    if k < |Compact(q, marks)| {
      i := CompactOrigin(q, marks, k);
      CompactAt(p, marks, i);
    } else {
      i := |p| - 1;
      CompactLength(q, marks);
    }
  }
}
