/** Removing variables that are only declared, and the names and decorations of such ids. */
module DeadVars {
  import opened Spirv
  import opened ModuleShape
  import opened DeadTypes
  import S = StringLiterals

  /** Words of an entry point that are counted: from the fifth word of the instruction on. */
  function InterfaceWords(inst: Inst): seq<nat> {
    if |inst.operands| <= 3 then [] else Words(inst.operands[3..])
  }

  function Words(operands: seq<Operand>): (r: seq<nat>)
    ensures |r| == |operands| && forall k :: 0 <= k < |r| ==> r[k] == operands[k].Word()
  {
    seq(|operands|, k requires 0 <= k < |operands| => operands[k].Word())
  }

  /**
   * The use count of `x` after the first instructions: only ids counted by a variable or entry point go on counting.
   */
  function UseCount(p: seq<Inst>, x: Id): nat {
    if p == [] then 0
    else
      var n := |p| - 1;
      var c := UseCount(p[..n], x);
      if p[n].op == OP_VARIABLE then c + if p[n].resultId == x then 1 else 0
      else if p[n].op == OP_ENTRY_POINT then c + Occurs(InterfaceWords(p[n]), x)
      else if c == 0 then 0
      else c + Occurs(IdsOf(p[n]), x)
  }

  predicate IsVarMark(p: seq<Inst>, k: nat) {
    && k < |p|
    && if p[k].op == OP_VARIABLE then p[k].resultId != 0 && UseCount(p, p[k].resultId) == 1
       else
         && (p[k].op == OP_DECORATE || p[k].op == OP_NAME)
         && |p[k].operands| > 0 && p[k].operands[0].Word() != 0 && UseCount(p, p[k].operands[0].Word()) == 1
  }

  lemma {:induction false} CountGrows(p: seq<Inst>, x: Id, k: nat)
    requires k <= |p|
    ensures UseCount(p[..k], x) <= UseCount(p, x)
    decreases |p|
  {
    if k < |p| {
      assert p[..|p| - 1][..k] == p[..k];
      CountGrows(p[..|p| - 1], x, k);
    } else {
      assert p[..k] == p;
    }
  }

  /** An entry point: execution model, function, name and interface variables. */
  function EntryPoint(model: nat, f: Id, name: seq<S.Byte>, variables: seq<Id>): Inst {
    var packed := S.Packed(name);
    Inst(15, 0, 0, [Literal(model), IdRef(f)] + seq(|packed|, i requires 0 <= i < |packed| => Literal(packed[i]))
                   + seq(|variables|, i requires 0 <= i < |variables| => IdRef(variables[i])))
  }

  /** What is counted of it: the interface variables, and all words of the name but the first. */
  lemma EntryPointCounts(model: nat, f: Id, name: seq<S.Byte>, variables: seq<Id>)
    ensures InterfaceWords(EntryPoint(model, f, name, variables)) == S.Packed(name)[1..] + variables
  {
    hide S.Packed;
    var inst := EntryPoint(model, f, name, variables);
    var packed := S.Packed(name);
    assert |packed| > 0;
    assert |inst.operands| == 2 + |packed| + |variables|;
    var counted := packed[1..] + variables;
    forall k | 0 <= k < |counted|
      ensures |inst.operands| > 3 && inst.operands[3..][k].Word() == counted[k]
    {
      assert k >= |packed| - 1 ==> inst.operands[k + 3] == IdRef(variables[k - (|packed| - 1)]);
      assert k < |packed| - 1 ==> inst.operands[k + 3] == Literal(packed[k + 1]);
    }
    assert |inst.operands| <= 3 ==> counted == [];
  }

  /** Instruction `q` counts the variable declared at `d` once more. */
  predicate Recounts(p: seq<Inst>, x: Id, d: nat, q: nat)
    requires q < |p|
  {
    && q != d
    && if p[q].op == OP_ENTRY_POINT then x in InterfaceWords(p[q])
       else if p[q].op == OP_VARIABLE then p[q].resultId == x
       else d < q && Mentions(p[q], x)
  }

  /** What the instructions up to `k` count. */
  lemma OneMore(p: seq<Inst>, x: Id, k: nat)
    requires x != 0 && k < |p|
    ensures var was := UseCount(p[..k], x); var now := UseCount(p[..k + 1], x);
            && now >= was
            && (p[k].op == OP_ENTRY_POINT ==> (now > was <==> x in InterfaceWords(p[k])))
            && (p[k].op == OP_VARIABLE ==> (now > was <==> p[k].resultId == x))
            && (p[k].op != OP_ENTRY_POINT && p[k].op != OP_VARIABLE ==> (now > was <==> was > 0 && Mentions(p[k], x)))
  {
    assert p[..k + 1][..k] == p[..k];
    OccursIn(InterfaceWords(p[k]), x);
    OccursIn(IdsOf(p[k]), x);
  }

  lemma CountedAgain(p: seq<Inst>, x: Id, d: nat, q: nat)
    requires x != 0 && d < |p| && q < |p| && p[d].op == OP_VARIABLE && p[d].resultId == x && Recounts(p, x, d, q)
    ensures UseCount(p, x) >= 2
  {
    hide UseCount;
    OneMore(p, x, d);
    OneMore(p, x, q);
    var lo, hi := if d < q then d else q, if d < q then q else d;
    assert p[..hi][..lo + 1] == p[..lo + 1];
    CountGrows(p[..hi], x, lo + 1);
    CountGrows(p, x, hi + 1);
  }

  /** A variable of the interface of an entry point is never marked. */
  lemma InterfaceStays(p: seq<Inst>, d: nat, q: nat, model: nat, f: Id, name: seq<S.Byte>, variables: seq<Id>)
    requires d < |p| && p[d].op == 59 && p[d].resultId != 0 && p[d].resultId in variables
    requires q < |p| && p[q] == EntryPoint(model, f, name, variables)
    ensures !IsVarMark(p, d)
  {
    EntryPointCounts(model, f, name, variables);
    hide EntryPoint, InterfaceWords, S.Packed;
    EntryPointIs(model, f, name, variables);
    assert Recounts(p, p[d].resultId, d, q);
    CountedAgain(p, p[d].resultId, d, q);
  }

  lemma EntryPointIs(model: nat, f: Id, name: seq<S.Byte>, variables: seq<Id>)
    ensures EntryPoint(model, f, name, variables).op == OP_ENTRY_POINT
  {
  }

  /** Without another count there is exactly one. */
  lemma {:induction false} CountedIf(p: seq<Inst>, x: Id, d: nat, k: nat)
    requires x != 0 && d < |p| && k <= |p| && p[d].op == OP_VARIABLE && p[d].resultId == x
    requires forall q :: 0 <= q < k ==> !Recounts(p, x, d, q)
    ensures UseCount(p[..k], x) == if d < k then 1 else 0
  {
    if k > 0 {
      hide UseCount;
      CountedIf(p, x, d, k - 1);
      OneMore(p, x, k - 1);
      if k - 1 == d {
        DeclarationCounts(p, x, d);
      } else {
        assert !Recounts(p, x, d, k - 1);
      }
    } else {
      assert p[..0] == [];
    }
  }

  lemma DeclarationCounts(p: seq<Inst>, x: Id, d: nat)
    requires d < |p| && p[d].op == OP_VARIABLE && p[d].resultId == x
    ensures UseCount(p[..d + 1], x) == UseCount(p[..d], x) + 1
  {
    assert p[..d + 1][..d] == p[..d];
  }

  /** A variable is marked exactly if nothing counts it again. */
  lemma MarkedIff(p: seq<Inst>, d: nat)
    requires d < |p| && p[d].op == OP_VARIABLE && p[d].resultId != 0
    ensures IsVarMark(p, d) <==> forall q :: 0 <= q < |p| ==> !Recounts(p, p[d].resultId, d, q)
  {
    var x := p[d].resultId;
    if forall q :: 0 <= q < |p| ==> !Recounts(p, x, d, q) {
      CountedIf(p, x, d, |p|);
      assert p[..|p|] == p;
    } else {
      var q :| 0 <= q < |p| && Recounts(p, x, d, q);
      CountedAgain(p, x, d, q);
    }
  }

  /** Only variables, names and decorations are marked. */
  lemma MarkedOps(p: seq<Inst>, k: nat)
    requires IsVarMark(p, k)
    ensures p[k].op == 59 || p[k].op == 5 || p[k].op == 71
  {
  }

  /** The name or decoration of `x`. */
  predicate NamesOrDecorates(inst: Inst, x: Id) {
    (inst.op == 5 || inst.op == 71) && |inst.operands| > 0 && inst.operands[0] == IdRef(x)
  }

  /** A name or decoration of a variable is marked exactly if nothing counts the variable again. */
  lemma DebugMarkedIff(p: seq<Inst>, d: nat, k: nat, x: Id)
    requires d < |p| && p[d].op == OP_VARIABLE && Defines(p[d], x) && k < |p| && NamesOrDecorates(p[k], x)
    ensures IsVarMark(p, k) <==> forall q :: 0 <= q < |p| ==> !Recounts(p, x, d, q)
  {
    MarkedIff(p, d);
  }

  /** No variable has the result `x` and no entry point lists it. */
  ghost predicate NotAVariable(p: seq<Inst>, x: Id) {
    forall q :: 0 <= q < |p| ==>
      (p[q].op == OP_VARIABLE ==> p[q].resultId != x) && (p[q].op == OP_ENTRY_POINT ==> x !in InterfaceWords(p[q]))
  }

  lemma {:induction false} NotCounted(p: seq<Inst>, x: Id)
    requires NotAVariable(p, x)
    ensures UseCount(p, x) == 0
  {
    if p != [] {
      var n := |p| - 1;
      assert NotAVariable(p[..n], x);
      NotCounted(p[..n], x);
      OccursIn(InterfaceWords(p[n]), x);
    }
  }

  /** Names and decorations of anything else are not marked. */
  lemma OthersUnmarked(p: seq<Inst>, k: nat, x: Id)
    requires k < |p| && NamesOrDecorates(p[k], x) && NotAVariable(p, x)
    ensures !IsVarMark(p, k)
  {
    NotCounted(p, x);
  }

  /** Debug instructions and entry points aside, variables are used after their declarations. */
  ghost predicate VarsDefinedFirst(p: seq<Inst>) {
    forall d, q, x | 0 <= d < |p| && 0 <= q < |p| && p[d].op == OP_VARIABLE && Defines(p[d], x)
                     && CoreMentions(p[q], x) && p[q].op != OP_ENTRY_POINT && d != q :: d < q
  }

  /** Entry points name variables only in their interface lists, declarations of variables name no variable. */
  ghost predicate VarsWhereExpected(p: seq<Inst>) {
    forall d, q, x :: 0 <= d < |p| && 0 <= q < |p| && p[d].op == OP_VARIABLE && Defines(p[d], x)
                      && d != q && Mentions(p[q], x) ==>
      && p[q].op != OP_VARIABLE
      && (p[q].op == OP_ENTRY_POINT ==> x in InterfaceWords(p[q]))
  }

  /** A variable that is marked is not used outside of debug instructions. */
  lemma MarkedUnused(p: seq<Inst>, d: nat, q: nat, x: Id)
    requires VarsDefinedFirst(p) && VarsWhereExpected(p)
    requires d < |p| && p[d].op == OP_VARIABLE && IsVarMark(p, d) && Defines(p[d], x) && q < |p| && q != d
    ensures !CoreMentions(p[q], x)
  {
    MarkedIff(p, d);
    assert !Recounts(p, x, d, q);
  }

  /** Counts, then marks. */
  method DceVars(p: seq<Inst>) returns (marks: set<nat>)
    ensures forall k: nat :: k in marks <==> IsVarMark(p, k)
  {
    var varUseCount := CountVarUses(p);
    marks := {};
    for k := 0 to |p|
      invariant forall j: nat :: j in marks <==> j < k && IsVarMark(p, j)
    {
      var id := 0;
      if p[k].op == OP_VARIABLE {
        id := p[k].resultId;
      }
      if (p[k].op == OP_DECORATE || p[k].op == OP_NAME) && |p[k].operands| > 0 {
        id := p[k].operands[0].Word();
      }
      if id != 0 && id in varUseCount && varUseCount[id] == 1 {
        marks := marks + {k};
      }
    }
  }

  ghost predicate CountsUses(count: map<Id, nat>, p: seq<Inst>) {
    forall x :: (if x in count then count[x] else 0) == UseCount(p, x)
  }

  method CountVarUses(p: seq<Inst>) returns (count: map<Id, nat>)
    ensures CountsUses(count, p)
  {
    count := map[];
    for k := 0 to |p|
      invariant CountsUses(count, p[..k])
    {
      assert p[..k + 1][..k] == p[..k];
      if p[k].op == OP_VARIABLE {
        var id := p[k].resultId;
        count := count[id := (if id in count then count[id] else 0) + 1];
      } else if p[k].op == OP_ENTRY_POINT {
        count := AddAll(count, InterfaceWords(p[k]));
      } else {
        count := AddKnown(count, IdsOf(p[k]));
      }
    }
    assert p[..|p|] == p;
  }

  method AddAll(was: map<Id, nat>, ids: seq<Id>) returns (count: map<Id, nat>)
    ensures forall x :: (if x in count then count[x] else 0) == (if x in was then was[x] else 0) + Occurs(ids, x)
  {
    count := was;
    for c := 0 to |ids|
      invariant forall x :: (if x in count then count[x] else 0)
                            == (if x in was then was[x] else 0) + Occurs(ids[..c], x)
    {
      assert ids[..c + 1][..c] == ids[..c];
      count := count[ids[c] := (if ids[c] in count then count[ids[c]] else 0) + 1];
    }
    assert ids[..|ids|] == ids;
  }

  method AddKnown(was: map<Id, nat>, ids: seq<Id>) returns (count: map<Id, nat>)
    ensures forall x :: (if x in count then count[x] else 0)
                        == var w := if x in was then was[x] else 0; if w == 0 then 0 else w + Occurs(ids, x)
  {
    count := was;
    for c := 0 to |ids|
      invariant forall x :: (if x in count then count[x] else 0)
                            == var w := if x in was then was[x] else 0; if w == 0 then 0 else w + Occurs(ids[..c], x)
    {
      assert ids[..c + 1][..c] == ids[..c];
      if ids[c] in count && count[ids[c]] != 0 {
        count := count[ids[c] := count[ids[c]] + 1];
      }
    }
    assert ids[..|ids|] == ids;
  }
}
