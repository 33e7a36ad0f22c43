/** Modules in which every id that is used is defined, and what removing instructions does to them. */
module ModuleShape {
  import opened Spirv

  /** Instructions that may name an id before it is defined and may be dropped with it. */
  predicate IsDebug(inst: Inst) {
    inst.op == OP_NAME || inst.op == OP_MEMBER_NAME || inst.op == OP_DECORATE || inst.op == OP_MEMBER_DECORATE
  }

  predicate CoreMentions(inst: Inst, x: Id) {
    !IsDebug(inst) && Mentions(inst, x)
  }

  ghost predicate Defined(p: seq<Inst>, x: Id) {
    exists d :: 0 <= d < |p| && Defines(p[d], x)
  }

  /** Every id used outside of debug instructions is defined. */
  ghost predicate ClosedCore(p: seq<Inst>) {
    forall q, x :: 0 <= q < |p| && CoreMentions(p[q], x) ==> Defined(p, x)
  }

  /** Every id used is defined. */
  ghost predicate Closed(p: seq<Inst>) {
    forall q, x :: 0 <= q < |p| && Mentions(p[q], x) ==> Defined(p, x)
  }

  /** A debug instruction names one id, its first operand. */
  predicate DebugOk(inst: Inst) {
    IsDebug(inst) ==>
      && inst.typeId == 0 && inst.resultId == 0 && |inst.operands| > 0 && inst.operands[0].IdRef?
      && forall k :: 1 <= k < |inst.operands| ==> inst.operands[k].Literal?
  }

  ghost predicate DebugShape(p: seq<Inst>) {
    forall q :: 0 <= q < |p| ==> DebugOk(p[q])
  }

  /** Nothing that stays, debug instructions aside, uses an id that goes. */
  ghost predicate Unused(p: seq<Inst>, marks: set<nat>) {
    forall d, q, x :: 0 <= d < |p| && 0 <= q < |p| && d in marks && q !in marks && Defines(p[d], x)
        ==> !CoreMentions(p[q], x)
  }

  lemma DefinedAfter(p: seq<Inst>, marks: set<nat>, d: nat, x: Id)
    requires d < |p| && d !in marks && Defines(p[d], x)
    ensures Defined(Compact(p, marks), x)
  {
    CompactAt(p, marks, d);
    assert Defines(Compact(p, marks)[NewIndex(marks, d)], x);
  }

  /** Removing instructions whose ids are not used otherwise keeps the module closed. */
  lemma RemoveClosed(p: seq<Inst>, marks: set<nat>)
    requires ClosedCore(p) && Unused(p, marks)
    ensures ClosedCore(Compact(p, marks))
  {
    var r := Compact(p, marks);
    forall k, x | 0 <= k < |r| && CoreMentions(r[k], x)
      ensures Defined(r, x)
    {
      var q := CompactOrigin(p, marks, k);
      assert Defined(p, x);
      var d :| 0 <= d < |p| && Defines(p[d], x);
      DefinedAfter(p, marks, d, x);
    }
  }

  lemma RemoveUnique(p: seq<Inst>, marks: set<nat>)
    requires UniqueResults(p)
    ensures UniqueResults(Compact(p, marks))
  {
    var r := Compact(p, marks);
    forall i, j | 0 <= i < |r| && 0 <= j < |r| && r[i].resultId == r[j].resultId != 0
      ensures i == j
    {
      var a := CompactOrigin(p, marks, i);
      var b := CompactOrigin(p, marks, j);
    }
  }

  /** The indices below `n` that are not marked keep their order. */
  lemma NewIndexBelow(marks: set<nat>, i: nat, j: nat)
    requires i !in marks && j !in marks
    ensures i < j <==> NewIndex(marks, i) < NewIndex(marks, j)
  {
    if i < j {
      NewIndexMonotone(marks, i, j);
    } else {
      NewIndexMonotone(marks, j, i);
    }
  }

  /** Marks on a compacted list, as marks on the original one. */
  function Lift(n: nat, dead: set<nat>, marks: set<nat>): set<nat> {
    dead + set i: nat | i < n && i !in dead && NewIndex(dead, i) in marks
  }

  /** Compacting twice is compacting once. */
  lemma {:induction false} CompactTwice(p: seq<Inst>, dead: set<nat>, marks: set<nat>)
    ensures Compact(Compact(p, dead), marks) == Compact(p, Lift(|p|, dead, marks))
    decreases |p|
  {
    if p != [] {
      var n := |p| - 1;
      var q := p[..n];
      CompactTwice(q, dead, marks);
      CompactLength(q, dead);
      LiftLess(q, n, dead, marks);
      if n !in dead {
        var c := Compact(p, dead);
        assert c[..|c| - 1] == Compact(q, dead) && c[|c| - 1] == p[n];
      }
    }
  }

  lemma LiftLess(q: seq<Inst>, n: nat, dead: set<nat>, marks: set<nat>)
    requires |q| == n
    ensures Compact(q, Lift(n, dead, marks)) == Compact(q, Lift(n + 1, dead, marks))
    ensures n in Lift(n + 1, dead, marks) <==> n in dead || NewIndex(dead, n) in marks
  {
    SameMarks(q, Lift(n, dead, marks), Lift(n + 1, dead, marks));
  }

  lemma {:induction false} SameMarks(p: seq<Inst>, a: set<nat>, b: set<nat>)
    requires forall i: nat :: i < |p| ==> (i in a <==> i in b)
    ensures Compact(p, a) == Compact(p, b)
    decreases |p|
  {
    if p != [] {
      SameMarks(p[..|p| - 1], a, b);
    }
  }
}
