/** Functions in a list of instructions, and what a well-formed module looks like to the remapper's passes. */
module FunctionShape {
  import opened Spirv
  import opened ModuleShape
  import opened DeadVars

  /** The function that is open after the instructions, or 0. */
  function FnAfter(p: seq<Inst>): Id {
    if p == [] then 0
    else
      var last := p[|p| - 1];
      if last.op == OP_FUNCTION_END then 0
      else if last.op == OP_FUNCTION then last.resultId
      else FnAfter(p[..|p| - 1])
  }

  lemma FnAfterStep(p: seq<Inst>, i: nat)
    requires i < |p|
    ensures FnAfter(p[..i + 1]) == if p[i].op == OP_FUNCTION_END then 0
                                   else if p[i].op == OP_FUNCTION then p[i].resultId
                                   else FnAfter(p[..i])
  {
    assert p[..i + 1][..i] == p[..i];
  }

  /** The function that instruction `i` belongs to, or 0. */
  function FnOf(p: seq<Inst>, i: nat): Id
    requires i < |p|
  {
    if p[i].op == OP_FUNCTION then p[i].resultId else FnAfter(p[..i])
  }

  predicate IsBracket(inst: Inst) {
    inst.op == OP_FUNCTION || inst.op == OP_FUNCTION_END
  }

  /** Functions are not nested; calls and local variables are inside functions, entry points are not. */
  ghost predicate FnStructure(p: seq<Inst>) {
    forall i :: 0 <= i < |p| ==> FnOk(p, i)
  }

  predicate FnOk(p: seq<Inst>, i: nat)
    requires i < |p|
  {
    && (p[i].op == OP_FUNCTION ==> p[i].resultId != 0 && FnAfter(p[..i]) == 0)
    && (p[i].op == OP_FUNCTION_END ==> p[i].resultId == 0)
    && (p[i].op == OP_ENTRY_POINT ==> FnAfter(p[..i]) == 0)
    && (p[i].op == OP_VARIABLE && p[i].operands == [Literal(STORAGE_CLASS_FUNCTION)] ==> FnOf(p, i) != 0)
    && (p[i].op == OP_FUNCTION_CALL ==> FnOf(p, i) != 0 && |p[i].operands| > 0 && p[i].operands[0].IdRef?)
  }

  /**
   * `q` may use the id defined at `d`: ids of a function's body stay in it, and functions are called, named in their
   * own bodies or, the entry point, named anywhere, as by OpEntryPoint and OpExecutionMode. Functions are not stored.
   */
  predicate UseOk(p: seq<Inst>, entry: Id, d: nat, q: nat, x: Id)
    requires d < |p| && q < |p|
  {
    if p[d].op == OP_FUNCTION then
      && (|| FnOf(p, q) == x
          || (p[q].op == OP_FUNCTION_CALL && OperandIs(p[q], 0, x))
          || x == entry)
      && p[q].op != OP_STORE
    else FnOf(p, d) != 0 ==> FnOf(p, q) == FnOf(p, d)
  }

  ghost predicate FnLocal(p: seq<Inst>, entry: Id) {
    forall d, q, x | 0 <= d < |p| && 0 <= q < |p| && Defines(p[d], x) && CoreMentions(p[q], x) ::
      UseOk(p, entry, d, q, x)
  }

  predicate EnteredAt(p: seq<Inst>, q: nat) {
    q < |p| && p[q].op == OP_ENTRY_POINT
  }

  /** All entry points name the function `entry`; it is 0 if there is none. */
  ghost predicate OneEntry(p: seq<Inst>, entry: Id) {
    && (forall q: nat :: EnteredAt(p, q) ==> OperandIs(p[q], 1, entry))
    && (entry != 0 ==> exists q: nat :: EnteredAt(p, q))
  }

  /** OpSource, OpSourceExtension, OpName, OpMemberName and OpLine. */
  predicate IsStripOp(op: nat) {
    op == 3 || op == 4 || op == OP_NAME || op == OP_MEMBER_NAME || op == 8
  }

  /** What single instructions look like. */
  predicate InstOk(inst: Inst, bound: nat) {
    && DebugOk(inst)
    && (inst.op == OP_STORE || IsStripOp(inst.op) ==> inst.resultId == 0)
    && (inst.op == OP_VARIABLE || IsTypeOp(inst.op) || IsConstOp(inst.op) ==> inst.resultId != 0)
    && forall x <- IdsOf(inst) :: x < bound
  }

  ghost predicate InstsOk(p: seq<Inst>, bound: nat) {
    forall q :: 0 <= q < |p| ==> InstOk(p[q], bound)
  }

  /** What the passes need of a module. */
  ghost predicate Ready(p: seq<Inst>, entry: Id, bound: nat) {
    && UniqueResults(p) && ClosedCore(p) && InstsOk(p, bound)
    && FnStructure(p) && FnLocal(p, entry) && OneEntry(p, entry)
    && VarsDefinedFirst(p) && VarsWhereExpected(p)
  }

  /** Pointers are never stored: a variable is not the value of a store. */
  ghost predicate VarsNotStored(p: seq<Inst>) {
    forall d, q, x | 0 <= d < |p| && 0 <= q < |p| && p[d].op == OP_VARIABLE && Defines(p[d], x)
        && p[q].op == OP_STORE ::
      !OperandIs(p[q], 1, x)
  }

  // ---------- compacting ----------

  /** What is kept of a prefix. */
  lemma {:induction false} CompactPrefix(p: seq<Inst>, marks: set<nat>, k: nat)
    requires k <= |p|
    ensures NewIndex(marks, k) <= |Compact(p, marks)|
    ensures Compact(p, marks)[..NewIndex(marks, k)] == Compact(p[..k], marks)
    decreases |p|
  {
    CompactLength(p, marks);
    NewIndexMonotone(marks, k, |p|);
    if k < |p| {
      var n := |p| - 1;
      assert p[..n][..k] == p[..k];
      CompactPrefix(p[..n], marks, k);
    } else {
      assert p[..k] == p;
    }
  }

  /** Removing anything but the ends of functions changes no instruction's function. */
  lemma {:induction false} FnAfterCompact(p: seq<Inst>, marks: set<nat>)
    requires forall i: nat :: i < |p| && i in marks ==> !IsBracket(p[i])
    ensures FnAfter(Compact(p, marks)) == FnAfter(p)
    decreases |p|
  {
    if p != [] {
      var n := |p| - 1;
      FnAfterCompact(p[..n], marks);
      if n !in marks {
        var c := Compact(p, marks);
        assert c[..|c| - 1] == Compact(p[..n], marks) && c[|c| - 1] == p[n];
      }
    }
  }

  lemma FnOfCompact(p: seq<Inst>, marks: set<nat>, i: nat)
    requires forall k: nat :: k < |p| && k in marks ==> !IsBracket(p[k])
    requires i < |p| && i !in marks
    ensures NewIndex(marks, i) < |Compact(p, marks)| && Compact(p, marks)[NewIndex(marks, i)] == p[i]
    ensures FnOf(Compact(p, marks), NewIndex(marks, i)) == FnOf(p, i)
  {
    CompactAt(p, marks, i);
    CompactPrefix(p, marks, i);
    FnAfterCompact(p[..i], marks);
  }

  lemma FnAfterAt(p: seq<Inst>, marks: set<nat>, i: nat)
    requires forall k: nat :: k < |p| && k in marks ==> !IsBracket(p[k])
    requires i < |p| && i !in marks && NewIndex(marks, i) < |Compact(p, marks)|
    ensures FnAfter(Compact(p, marks)[..NewIndex(marks, i)]) == FnAfter(p[..i])
  {
    CompactPrefix(p, marks, i);
    FnAfterCompact(p[..i], marks);
  }

  /** Removing instructions that have no results and neither bracket nor enter functions keeps everything. */
  lemma RemoveKeepsReady(p: seq<Inst>, marks: set<nat>, entry: Id, bound: nat)
    requires Ready(p, entry, bound)
    requires forall i: nat :: i < |p| && i in marks ==>
               p[i].resultId == 0 && !IsBracket(p[i]) && p[i].op != OP_ENTRY_POINT
    ensures Ready(Compact(p, marks), entry, bound)
  {
    assert Unused(p, marks);
    RemoveUnique(p, marks);
    RemoveClosed(p, marks);
    RemoveKeepsInsts(p, marks, entry, bound);
    RemoveKeepsFns(p, marks, entry);
    RemoveKeepsVars(p, marks);
  }

  lemma RemoveKeepsInsts(p: seq<Inst>, marks: set<nat>, entry: Id, bound: nat)
    requires InstsOk(p, bound) && OneEntry(p, entry)
    requires forall i: nat :: i < |p| && i in marks ==> p[i].op != OP_ENTRY_POINT
    ensures InstsOk(Compact(p, marks), bound) && OneEntry(Compact(p, marks), entry)
  {
    var r := Compact(p, marks);
    forall k | 0 <= k < |r| ensures InstOk(r[k], bound) && (EnteredAt(r, k) ==> OperandIs(r[k], 1, entry)) {
      var q := CompactOrigin(p, marks, k);
      assert EnteredAt(r, k) ==> EnteredAt(p, q);
    }
    if entry != 0 {
      var q :| EnteredAt(p, q);
      CompactAt(p, marks, q);
      assert EnteredAt(r, NewIndex(marks, q));
    }
  }

  lemma RemoveKeepsFns(p: seq<Inst>, marks: set<nat>, entry: Id)
    requires FnStructure(p) && FnLocal(p, entry)
    requires forall i: nat :: i < |p| && i in marks ==> !IsBracket(p[i])
    ensures FnStructure(Compact(p, marks)) && FnLocal(Compact(p, marks), entry)
  {
    var r := Compact(p, marks);
    forall k | 0 <= k < |r| ensures FnOk(r, k) {
      var q := CompactOrigin(p, marks, k);
      assert FnOk(p, q);
      FnOfCompact(p, marks, q);
      FnAfterAt(p, marks, q);
    }
    forall d1, q1, x | 0 <= d1 < |r| && 0 <= q1 < |r| && Defines(r[d1], x) && CoreMentions(r[q1], x)
      ensures UseOk(r, entry, d1, q1, x)
    {
      var d := CompactOrigin(p, marks, d1);
      var q := CompactOrigin(p, marks, q1);
      assert UseOk(p, entry, d, q, x);
      FnOfCompact(p, marks, d);
      FnOfCompact(p, marks, q);
    }
  }

  lemma RemoveKeepsVars(p: seq<Inst>, marks: set<nat>)
    requires VarsDefinedFirst(p) && VarsWhereExpected(p)
    ensures VarsDefinedFirst(Compact(p, marks)) && VarsWhereExpected(Compact(p, marks))
  {
    var r := Compact(p, marks);
    forall d1, q1, x | 0 <= d1 < |r| && 0 <= q1 < |r| && r[d1].op == OP_VARIABLE && Defines(r[d1], x) && d1 != q1
        && Mentions(r[q1], x)
      ensures r[q1].op != OP_VARIABLE && (r[q1].op == OP_ENTRY_POINT ==> x in InterfaceWords(r[q1]))
      ensures CoreMentions(r[q1], x) && r[q1].op != OP_ENTRY_POINT ==> d1 < q1
    {
      var d := CompactOrigin(p, marks, d1);
      var q := CompactOrigin(p, marks, q1);
      NewIndexBelow(marks, d, q);
    }
  }

  // ---------- a module that is ready ----------

  /** A fragment shader that writes a constant to its output: entry point 4, execution mode, output variable 8. */
  const FRAGMENT_SHADER: seq<Inst> := [
    Inst(15, 0, 0, [Literal(4), IdRef(4), Literal(0x6E69616D), Literal(0), IdRef(8)]),
    Inst(16, 0, 0, [IdRef(4), Literal(7)]),
    Inst(19, 0, 2, []),
    Inst(33, 0, 3, [IdRef(2)]),
    Inst(22, 0, 6, [Literal(32)]),
    Inst(32, 0, 7, [Literal(3), IdRef(6)]),
    Inst(59, 7, 8, [Literal(3)]),
    Inst(43, 6, 9, [Literal(0)]),
    Inst(54, 2, 4, [Literal(0), IdRef(3)]),
    Inst(248, 0, 5, []),
    Inst(62, 0, 0, [IdRef(8), IdRef(9)]),
    Inst(253, 0, 0, []),
    Inst(56, 0, 0, [])]

  /** The remapper's requirements hold of it. */
  lemma ShaderIsReady()
    ensures Ready(FRAGMENT_SHADER, 4, 10)
  {
    ShaderIds();
    ShaderFunctions();
    ShaderUses();
  }

  lemma ShaderIds()
    ensures UniqueResults(FRAGMENT_SHADER) && ClosedCore(FRAGMENT_SHADER) && InstsOk(FRAGMENT_SHADER, 10)
  {
    var p := FRAGMENT_SHADER;
    ShaderResults();
    forall q, x | 0 <= q < |p| && CoreMentions(p[q], x) ensures Defined(p, x) {
      ShaderMentions(q, x);
      assert Defines(p[ResultAt(x)], x);
    }
    forall q | 0 <= q < |p| ensures InstOk(p[q], 10) {
      ShaderInst(q);
    }
  }

  /** Where the shader defines its ids. */
  function ResultAt(x: Id): nat
    requires 2 <= x < 10
  {
    [2, 3, 8, 9, 4, 5, 6, 7][x - 2]
  }

  lemma ShaderResults()
    ensures UniqueResults(FRAGMENT_SHADER)
    ensures forall x :: 2 <= x < 10 ==> Defines(FRAGMENT_SHADER[ResultAt(x)], x)
  {
    var p := FRAGMENT_SHADER;
    assert forall q :: 0 <= q < |p| && p[q].resultId != 0 ==> 2 <= p[q].resultId < 10 && q == ResultAt(p[q].resultId);
  }

  lemma ShaderMentions(q: nat, x: Id)
    requires q < |FRAGMENT_SHADER| && Mentions(FRAGMENT_SHADER[q], x)
    ensures 2 <= x < 10
  {
  }

  lemma ShaderInst(q: nat)
    requires q < |FRAGMENT_SHADER|
    ensures InstOk(FRAGMENT_SHADER[q], 10)
  {
    forall x <- IdsOf(FRAGMENT_SHADER[q]) ensures x < 10 {
      if x != 0 {
        ShaderMentions(q, x);
      }
    }
  }

  lemma ShaderBrackets()
    ensures var p := FRAGMENT_SHADER;
            && |p| == 13 && OperandIs(p[0], 1, 4) && p[8].resultId == 4 && p[12].resultId == 0
            && forall q :: 0 <= q < |p| ==>
                 && (p[q].op == OP_FUNCTION <==> q == 8) && (p[q].op == OP_FUNCTION_END <==> q == 12)
                 && (p[q].op == OP_ENTRY_POINT <==> q == 0) && p[q].op != OP_FUNCTION_CALL
                 && p[q].operands != [Literal(STORAGE_CLASS_FUNCTION)]
  {
  }

  lemma {:induction false} ShaderFnAfter(k: nat)
    requires k <= 12
    ensures FnAfter(FRAGMENT_SHADER[..k]) == if k <= 8 then 0 else 4
  {
    if k > 0 {
      ShaderBrackets();
      hide FnAfter, FRAGMENT_SHADER;
      ShaderFnAfter(k - 1);
      FnAfterStep(FRAGMENT_SHADER, k - 1);
    }
  }

  lemma ShaderFunctions()
    ensures FnStructure(FRAGMENT_SHADER) && OneEntry(FRAGMENT_SHADER, 4)
  {
    ShaderBrackets();
    hide FnAfter, FRAGMENT_SHADER;
    var p := FRAGMENT_SHADER;
    forall q: nat | q < |p| ensures FnOk(p, q) {
      ShaderFnAfter(q);
    }
    assert EnteredAt(p, 0);
  }

  /** The function is named by its entry point and execution mode, the output by the entry point and the store. */
  lemma ShaderNames(q: nat, x: Id)
    requires q < |FRAGMENT_SHADER| && Mentions(FRAGMENT_SHADER[q], x)
    ensures (x == 4 ==> q == 0 || q == 1 || q == 8) && (x == 5 ==> q == 9) && (x == 8 ==> q == 0 || q == 6 || q == 10)
  {
  }

  lemma ShaderOps()
    ensures var p := FRAGMENT_SHADER;
            && |p| == 13 && p[0].op == OP_ENTRY_POINT && p[10].op == OP_STORE && 8 in InterfaceWords(p[0])
            && forall q :: 0 <= q < |p| ==>
                 && (p[q].op == OP_FUNCTION <==> q == 8) && (p[q].op == OP_VARIABLE <==> q == 6)
                 && (p[q].op == OP_STORE <==> q == 10)
  {
    assert InterfaceWords(FRAGMENT_SHADER[0])[1] == 8;
  }

  lemma ShaderDefines(d: nat, x: Id)
    requires d < |FRAGMENT_SHADER| && Defines(FRAGMENT_SHADER[d], x)
    ensures 2 <= d <= 9 && (d == 8 <==> x == 4) && (d == 9 <==> x == 5) && (d == 6 <==> x == 8)
  {
  }

  /** The definition `d` of an id and the instruction `q` that names it. */
  lemma ShaderUse(d: nat, q: nat, x: Id)
    requires d < |FRAGMENT_SHADER| && q < |FRAGMENT_SHADER|
    requires Defines(FRAGMENT_SHADER[d], x) && Mentions(FRAGMENT_SHADER[q], x)
    ensures UseOk(FRAGMENT_SHADER, 4, d, q, x)
    ensures d == 6 && q != 6 ==> q == 0 || q == 10
  {
    hide FnAfter, FRAGMENT_SHADER, InterfaceWords, Mentions;
    ShaderOps();
    ShaderFnAfter(d);
    ShaderDefines(d, x);
    ShaderNames(q, x);
  }

  lemma ShaderUses()
    ensures FnLocal(FRAGMENT_SHADER, 4) && VarsDefinedFirst(FRAGMENT_SHADER) && VarsWhereExpected(FRAGMENT_SHADER)
  {
    var p := FRAGMENT_SHADER;
    ShaderOps();
    ShaderOutput();
    hide FRAGMENT_SHADER, InterfaceWords, Mentions, UseOk;
    forall d, q, x | 0 <= d < |p| && 0 <= q < |p| && Defines(p[d], x) && Mentions(p[q], x)
      ensures UseOk(p, 4, d, q, x) && (d == 6 && q != 6 ==> q == 0 || q == 10)
    {
      ShaderUse(d, q, x);
    }
  }

  lemma ShaderOutput()
    ensures forall x :: Defines(FRAGMENT_SHADER[6], x) ==> x == 8
  {
  }
}
