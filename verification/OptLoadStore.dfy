/** Which function-local variables the load/store optimization removes, and what replaces their loads. */
module OptLoadStore {
  import opened Spirv

  // ---------- vocabulary ----------

  /** Declares a function-local variable without initializer. */
  predicate IsLocalDecl(inst: Inst, v: Id) {
    inst.op == OP_VARIABLE && inst.operands == [Literal(STORAGE_CLASS_FUNCTION)] && Defines(inst, v)
  }

  predicate LoadsFrom(inst: Inst, v: Id) {
    inst.op == OP_LOAD && OperandIs(inst, 0, v)
  }

  predicate StoresTo(inst: Inst, v: Id) {
    inst.op == OP_STORE && OperandIs(inst, 0, v)
  }

  predicate Accesses(inst: Inst, v: Id) {
    LoadsFrom(inst, v) || StoresTo(inst, v)
  }

  /** The memory-access word of a load has the Volatile bit. */
  predicate IsVolatileLoad(inst: Inst) {
    inst.op == OP_LOAD && |inst.operands| > 1 && inst.operands[1].Word() % 2 == MEMORY_ACCESS_VOLATILE
  }

  predicate IsVolatileStore(inst: Inst) {
    inst.op == OP_STORE && |inst.operands| > 2 && inst.operands[2].Word() % 2 == MEMORY_ACCESS_VOLATILE
  }

  /** How many of the first `i` instructions are flow control. */
  function BlockNo(p: seq<Inst>, i: nat): nat
    requires i <= |p|
  {
    if i == 0 then 0 else BlockNo(p, i - 1) + if IsFlowCtrl(p[i - 1].op) then 1 else 0
  }

  predicate HasStore(p: seq<Inst>, v: Id, d: nat, k: nat)
    requires k <= |p|
  {
    exists q | d < q < k :: StoresTo(p[q], v)
  }

  /** The access at `q` is in another block than some earlier access. */
  predicate CrossesBlock(p: seq<Inst>, v: Id, d: nat, q: nat)
    requires q < |p|
  {
    exists a | d < a < q :: Accesses(p[a], v) && BlockNo(p, a) != BlockNo(p, q)
  }

  /** Instruction `q` is a reason to keep the variable `v` declared at `d`. */
  predicate Disqualifies(p: seq<Inst>, v: Id, d: nat, q: nat)
    requires q < |p|
  {
    || (Mentions(p[q], v) && !Accesses(p[q], v))
    || (LoadsFrom(p[q], v) && (IsVolatileLoad(p[q]) || !HasStore(p, v, d, q)))
    || (StoresTo(p[q], v) && HasStore(p, v, d, q))
    || (Accesses(p[q], v) && CrossesBlock(p, v, d, q))
  }

  /** Nothing before `k` keeps the variable declared at `d` from being removed: it is stored once,
      then only loaded, in one block, and mentioned nowhere else. */
  predicate Removable(p: seq<Inst>, v: Id, d: nat, k: nat)
    requires k <= |p|
  {
    forall q | d < q < k :: !Disqualifies(p, v, d, q)
  }

  /** The operands that the pass looks at are there. */
  predicate HasArity(inst: Inst) {
    && (inst.op == OP_VARIABLE ==> |inst.operands| > 0 && inst.operands[0].Literal? && inst.resultId != 0)
    && (inst.op == OP_LOAD ==> |inst.operands| > 0 && inst.operands[0].IdRef? && inst.resultId != 0)
    && (inst.op == OP_STORE ==> |inst.operands| > 1 && inst.operands[0].IdRef? && inst.operands[1].IdRef?)
    && (inst.op == OP_ACCESS_CHAIN || inst.op == OP_IN_BOUNDS_ACCESS_CHAIN
        ==> |inst.operands| > 0 && inst.operands[0].IdRef?)
  }

  predicate PointerOp(op: nat) {
    op == OP_LOAD || op == OP_STORE || op == OP_ACCESS_CHAIN || op == OP_IN_BOUNDS_ACCESS_CHAIN
  }

  /** Logical addressing: a local variable is not a type, and in loads, stores and access chains it
      is the pointer, never the stored value or an index. */
  ghost predicate PointersAreNotValues(p: seq<Inst>) {
    forall d, v, q | 0 <= d < |p| && 0 <= q < |p| && IsLocalDecl(p[d], v) :: IsPointerUse(p[q], v)
  }

  predicate IsPointerUse(inst: Inst, v: Id) {
    && inst.typeId != v
    && (PointerOp(inst.op) ==> inst.resultId != v && forall k | 1 <= k < |inst.operands| ::
        inst.operands[k] != IdRef(v))
  }

  /** What the pass takes for granted about a module. */
  ghost predicate WellFormed(p: seq<Inst>) {
    && UniqueResults(p)
    && (forall i | 0 <= i < |p| :: HasArity(p[i]))
    && PointersAreNotValues(p)
  }

  /** The memory-access word of a volatile store happens to be the number of the variable `v`. */
  predicate MaskIs(inst: Inst, v: Id) {
    IsVolatileStore(inst) && inst.operands[2].Word() == v
  }

  // ---------- what volatile stores do to the analysis ----------

  /**
   * After `k` instructions `v` is a candidate: it is declared, nothing has disqualified it, and no volatile store has
   * erased it by its memory-access word.
   */
  ghost predicate Candidate(p: seq<Inst>, k: nat, v: Id)
    requires k <= |p|
    decreases k, 1
  {
    exists d | 0 <= d < k :: IsLocalDecl(p[d], v) && Removable(p, v, d, k) && !Erased(p, v, d, k)
  }

  ghost predicate Erased(p: seq<Inst>, v: Id, d: nat, k: nat)
    requires k <= |p|
    decreases k, 0
  {
    exists i | d < i < k :: MaskErases(p, i, v)
  }

  /** A volatile store through a pointer that is a candidate then: it erases the number in its memory-access word. */
  ghost predicate MaskErases(p: seq<Inst>, i: nat, v: Id)
    requires i < |p|
    decreases i, 2
  {
    MaskIs(p[i], v) && p[i].operands[0].IdRef? && Candidate(p, i, p[i].operands[0].id)
  }

  lemma ErasedNext(p: seq<Inst>, v: Id, d: nat, k: nat)
    requires d < k < |p|
    ensures Erased(p, v, d, k + 1) <==> Erased(p, v, d, k) || MaskErases(p, k, v)
  {
    hide MaskErases;
    assert Erased(p, v, d, k) ==> Erased(p, v, d, k + 1);
  }

  lemma RemovableNext(p: seq<Inst>, v: Id, d: nat, k: nat)
    requires d < k < |p|
    ensures Removable(p, v, d, k + 1) <==> Removable(p, v, d, k) && !Disqualifies(p, v, d, k)
  {
    hide Disqualifies;
  }

  lemma OnlyStoresErase(p: seq<Inst>, k: nat)
    requires k < |p| && p[k].op != OP_STORE
    ensures forall v :: !MaskErases(p, k, v)
  {
    hide Candidate;
  }

  /** A store through a candidate erases the number in its word exactly if it is volatile. */
  lemma StoreErases(p: seq<Inst>, k: nat, x: Id)
    requires k < |p| && StoresTo(p[k], x) && Candidate(p, k, x)
    ensures forall v :: MaskErases(p, k, v) <==> MaskIs(p[k], v)
  {
    hide Candidate;
  }

  // ---------- the result of the analysis ----------

  /** After `k` instructions: the candidates, the value stored to each, and the block of its accesses. */
  ghost predicate Tracked(p: seq<Inst>, k: nat, vars: set<Id>, stored: map<Id, Id>, blocks: map<Id, int>)
    requires k <= |p|
  {
    && (forall v <- vars :: exists d | 0 <= d < k :: IsLocalDecl(p[d], v))
    && (forall v <- blocks :: exists d | 0 <= d < k :: IsLocalDecl(p[d], v))
    && stored.Keys <= vars
    && (forall d, v | 0 <= d < k && IsLocalDecl(p[d], v) :: TrackedVar(p, k, d, v, vars, stored, blocks))
  }

  ghost predicate TrackedVar(p: seq<Inst>, k: nat, d: nat, v: Id, vars: set<Id>, stored: map<Id, Id>,
                             blocks: map<Id, int>)
    requires d < k <= |p|
  {
    && (v in vars <==> Removable(p, v, d, k) && !Erased(p, v, d, k))
    && (v in vars ==> (v in stored <==> HasStore(p, v, d, k)))
    && (v in stored ==> forall q | d < q < k && StoresTo(p[q], v) :: OperandIs(p[q], 1, stored[v]))
    && (v in vars && v !in blocks ==> forall q | d < q < k :: !Accesses(p[q], v))
    && (v in vars && v in blocks ==> exists q | d < q < k :: Accesses(p[q], v))
    && (v in vars && v in blocks ==> forall q | d < q < k && Accesses(p[q], v) :: BlockNo(p, q) == blocks[v])
  }

  /** What a pass over instruction `k` has to do to the state, one variable at a time. */
  ghost predicate StepOk(p: seq<Inst>, k: nat, v: Id, d: nat, vars: set<Id>, stored: map<Id, Id>, blocks: map<Id, int>,
                         vars': set<Id>, stored': map<Id, Id>, blocks': map<Id, int>)
    requires d < k < |p|
  {
    && (v in vars' <==> v in vars && !Disqualifies(p, v, d, k) && !MaskErases(p, k, v))
    && (v in vars' && !StoresTo(p[k], v) ==>
          (v in stored' <==> v in stored) && (v in stored ==> stored'[v] == stored[v]))
    && (v in vars' && StoresTo(p[k], v) ==> v in stored' && OperandIs(p[k], 1, stored'[v]))
    && (v in vars' && Accesses(p[k], v) ==> v in blocks' && blocks'[v] == BlockNo(p, k))
    && (v in vars' && !Accesses(p[k], v) ==>
          (v in blocks' <==> v in blocks) && (v in blocks ==> blocks'[v] == blocks[v]))
  }

  lemma TrackedVarStep(p: seq<Inst>, k: nat, v: Id, d: nat, vars: set<Id>, stored: map<Id, Id>, blocks: map<Id, int>,
                       vars': set<Id>, stored': map<Id, Id>, blocks': map<Id, int>)
    requires d < k < |p| && TrackedVar(p, k, d, v, vars, stored, blocks)
    requires StepOk(p, k, v, d, vars, stored, blocks, vars', stored', blocks') && stored'.Keys <= vars'
    ensures TrackedVar(p, k + 1, d, v, vars', stored', blocks')
  {
    ErasedNext(p, v, d, k);
    RemovableNext(p, v, d, k);
    hide Erased, MaskErases, Removable;
    assert !Disqualifies(p, v, d, k) && v in vars && Accesses(p[k], v) ==> !CrossesBlock(p, v, d, k);
    assert HasStore(p, v, d, k + 1) <==> HasStore(p, v, d, k) || StoresTo(p[k], v) by {
      if StoresTo(p[k], v) {
        assert d < k < k + 1 && StoresTo(p[k], v);
      }
    }
    if v in vars' && Accesses(p[k], v) {
      forall q | d < q < k && Accesses(p[q], v) ensures BlockNo(p, q) == BlockNo(p, k) {
        assert !CrossesBlock(p, v, d, k);
      }
    }
    if v in vars' && StoresTo(p[k], v) {
      assert !HasStore(p, v, d, k);
    }
  }

  /** One instruction later, if every variable is treated as `StepOk` asks. */
  lemma TrackedStep(p: seq<Inst>, k: nat, vars: set<Id>, stored: map<Id, Id>, blocks: map<Id, int>,
                    vars': set<Id>, stored': map<Id, Id>, blocks': map<Id, int>)
    requires WellFormed(p) && k < |p| && Tracked(p, k, vars, stored, blocks)
    requires forall d, v | 0 <= d < k && IsLocalDecl(p[d], v) ::
             StepOk(p, k, v, d, vars, stored, blocks, vars', stored', blocks')
    requires forall v | IsLocalDecl(p[k], v) :: v in vars' && v !in stored' && v !in blocks'
    requires stored'.Keys <= vars'
    requires forall v | v in vars' || v in blocks' :: v in vars || v in blocks || IsLocalDecl(p[k], v)
    ensures Tracked(p, k + 1, vars', stored', blocks')
  {
    forall v | v in vars' || v in blocks' ensures exists d | 0 <= d < k + 1 :: IsLocalDecl(p[d], v) {
      if !IsLocalDecl(p[k], v) {
        var d :| 0 <= d < k && IsLocalDecl(p[d], v);
        assert d < k + 1;
      }
    }
    forall d, v | 0 <= d < k + 1 && IsLocalDecl(p[d], v) ensures TrackedVar(p, k + 1, d, v, vars', stored', blocks') {
      if d < k {
        TrackedVarStep(p, k, v, d, vars, stored, blocks, vars', stored', blocks');
      }
    }
  }

  /** The analysis finds the candidates. */
  lemma CandidatesAre(p: seq<Inst>, k: nat, vars: set<Id>, stored: map<Id, Id>, blocks: map<Id, int>, v: Id)
    requires k <= |p| && Tracked(p, k, vars, stored, blocks)
    ensures v in vars <==> Candidate(p, k, v)
  {
    hide Removable, Erased;
    forall d | 0 <= d < k && IsLocalDecl(p[d], v)
      ensures v in vars <==> Removable(p, v, d, k) && !Erased(p, v, d, k)
    {
      assert TrackedVar(p, k, d, v, vars, stored, blocks);
    }
  }

  lemma NothingErased(p: seq<Inst>, k: nat, vars: set<Id>, stored: map<Id, Id>, blocks: map<Id, int>)
    requires k < |p| && Tracked(p, k, vars, stored, blocks) && forall v <- vars :: !Accesses(p[k], v)
    ensures forall v :: !MaskErases(p, k, v)
  {
    hide Tracked, Candidate;
    forall v | MaskErases(p, k, v)
      ensures false
    {
      CandidatesAre(p, k, vars, stored, blocks, p[k].operands[0].id);
    }
  }

  /** An instruction that neither loads from nor stores to a candidate nor declares one. */
  lemma OtherStep(p: seq<Inst>, k: nat, vars: set<Id>, stored: map<Id, Id>, blocks: map<Id, int>, gone: set<Id>)
    requires WellFormed(p) && k < |p| && Tracked(p, k, vars, stored, blocks)
    requires forall v :: !IsLocalDecl(p[k], v)
    requires forall v <- vars :: !Accesses(p[k], v) && (v in gone <==> Mentions(p[k], v))
    ensures Tracked(p, k + 1, vars - gone, stored - gone, blocks)
  {
    NothingErased(p, k, vars, stored, blocks);
    forall d, v | 0 <= d < k && IsLocalDecl(p[d], v)
      ensures StepOk(p, k, v, d, vars, stored, blocks, vars - gone, stored - gone, blocks)
    {
      OtherStepVar(p, k, d, v, vars, stored, blocks, gone);
    }
    hide TrackedVar, StepOk;
    TrackedStep(p, k, vars, stored, blocks, vars - gone, stored - gone, blocks);
  }

  lemma OtherStepVar(p: seq<Inst>, k: nat, d: nat, v: Id, vars: set<Id>, stored: map<Id, Id>, blocks: map<Id, int>,
                     gone: set<Id>)
    requires d < k < |p| && IsLocalDecl(p[d], v) && stored.Keys <= vars && !MaskErases(p, k, v)
    requires v in vars ==> !Accesses(p[k], v) && (v in gone <==> Mentions(p[k], v))
    ensures StepOk(p, k, v, d, vars, stored, blocks, vars - gone, stored - gone, blocks)
  {
    hide MaskErases;
  }

  /** A pointer instruction mentions no local variable but its pointer. */
  lemma OnlyThePointer(p: seq<Inst>, k: nat, v: Id)
    requires WellFormed(p) && k < |p| && PointerOp(p[k].op) && OperandIs(p[k], 0, v)
    ensures forall d, w | 0 <= d < |p| && IsLocalDecl(p[d], w) && w != v :: !Mentions(p[k], w)
  {
    forall d, w | 0 <= d < |p| && IsLocalDecl(p[d], w) && w != v ensures !Mentions(p[k], w) {
      assert IsPointerUse(p[k], w);
      if UsesOperand(p[k], w) {
        var j :| 0 <= j < |p[k].operands| && p[k].operands[j] == IdRef(w);
      }
    }
  }

  /** An instruction that does not mention a variable leaves what is known about it. */
  lemma UntouchedVar(p: seq<Inst>, k: nat, w: Id, d: nat, vars: set<Id>, stored: map<Id, Id>, blocks: map<Id, int>,
                     vars': set<Id>, stored': map<Id, Id>, blocks': map<Id, int>)
    requires d < k < |p| && w != 0 && !Mentions(p[k], w)
    requires w in vars' <==> w in vars && !MaskErases(p, k, w)
    requires w in vars' ==> (w in stored' <==> w in stored) && (w in stored ==> stored'[w] == stored[w])
    requires w in blocks' <==> w in blocks
    requires w in blocks ==> blocks'[w] == blocks[w]
    ensures StepOk(p, k, w, d, vars, stored, blocks, vars', stored', blocks')
  {
    hide MaskErases;
    assert !Accesses(p[k], w);
  }

  lemma VariableIsNoType(p: seq<Inst>, d: nat, v: Id, k: nat)
    requires PointersAreNotValues(p) && d < |p| && k < |p| && IsLocalDecl(p[d], v)
    ensures p[k].typeId != v
  {
    assert IsPointerUse(p[k], v);
  }

  /** A declaration at `k`: no other variable is concerned, and this one is new. */
  lemma DeclStep(p: seq<Inst>, k: nat, v: Id, vars: set<Id>, stored: map<Id, Id>, blocks: map<Id, int>)
    requires WellFormed(p) && k < |p| && Tracked(p, k, vars, stored, blocks) && IsLocalDecl(p[k], v)
    ensures Tracked(p, k + 1, vars + {v}, stored, blocks)
  {
    OnlyStoresErase(p, k);
    hide MaskErases;
    forall w | w in vars || w in blocks ensures w != v {
      var d :| 0 <= d < k && IsLocalDecl(p[d], w);
    }
    forall d, w | 0 <= d < k && IsLocalDecl(p[d], w)
      ensures StepOk(p, k, w, d, vars, stored, blocks, vars + {v}, stored, blocks)
    {
      VariableIsNoType(p, d, w, k);
      UntouchedVar(p, k, w, d, vars, stored, blocks, vars + {v}, stored, blocks);
    }
    hide StepOk, TrackedVar;
    TrackedStep(p, k, vars, stored, blocks, vars + {v}, stored, blocks);
  }

  /** Whether a load of `v` ends its candidacy. */
  predicate LoadDrops(inst: Inst, v: Id, blockNum: int, stored: map<Id, Id>, blocks: map<Id, int>) {
    v !in stored || IsVolatileLoad(inst) || (v in blocks && blocks[v] != blockNum)
  }

  /** The ids erased by a store to `v`. */
  function StoreGone(inst: Inst, v: Id, blockNum: int, stored: map<Id, Id>, blocks: map<Id, int>): set<Id> {
    (if StoreDrops(v, blockNum, stored, blocks) then {v} else {})
    + (if IsVolatileStore(inst) then {inst.operands[2].Word()} else {})
  }

  predicate StoreDrops(v: Id, blockNum: int, stored: map<Id, Id>, blocks: map<Id, int>) {
    v in stored || (v in blocks && blocks[v] != blockNum)
  }

  lemma LoadStep(p: seq<Inst>, k: nat, v: Id, vars: set<Id>, stored: map<Id, Id>, blocks: map<Id, int>)
    requires WellFormed(p) && k < |p| && Tracked(p, k, vars, stored, blocks) && LoadsFrom(p[k], v) && v in vars
    ensures var gone := if LoadDrops(p[k], v, BlockNo(p, k), stored, blocks) then {v} else {};
      Tracked(p, k + 1, vars - gone, stored - gone, if v in blocks then blocks else blocks[v := BlockNo(p, k)])
  {
    var gone := if LoadDrops(p[k], v, BlockNo(p, k), stored, blocks) then {v} else {};
    var blocks' := if v in blocks then blocks else blocks[v := BlockNo(p, k)];
    OnlyThePointer(p, k, v);
    OnlyStoresErase(p, k);
    hide MaskErases;
    forall d, w | 0 <= d < k && IsLocalDecl(p[d], w)
      ensures StepOk(p, k, w, d, vars, stored, blocks, vars - gone, stored - gone, blocks')
    {
      if w == v {
        LoadStepVar(p, k, v, d, vars, stored, blocks);
      } else {
        UntouchedVar(p, k, w, d, vars, stored, blocks, vars - gone, stored - gone, blocks');
      }
    }
    hide StepOk, TrackedVar;
    assert forall w | IsLocalDecl(p[k], w) :: false;
    TrackedStep(p, k, vars, stored, blocks, vars - gone, stored - gone, blocks');
  }

  lemma LoadStepVar(p: seq<Inst>, k: nat, v: Id, d: nat, vars: set<Id>, stored: map<Id, Id>, blocks: map<Id, int>)
    requires d < k < |p| && TrackedVar(p, k, d, v, vars, stored, blocks) && LoadsFrom(p[k], v) && v in vars
    ensures var gone := if LoadDrops(p[k], v, BlockNo(p, k), stored, blocks) then {v} else {};
      StepOk(p, k, v, d, vars, stored, blocks, vars - gone, stored - gone,
             if v in blocks then blocks else blocks[v := BlockNo(p, k)])
  {
    CrossesIff(p, k, v, d, vars, stored, blocks);
    OnlyStoresErase(p, k);
    hide CrossesBlock, MaskErases, Erased, Removable;
    assert Disqualifies(p, v, d, k) <==> LoadDrops(p[k], v, BlockNo(p, k), stored, blocks);
  }

  /** The recorded block number tells whether an access crosses flow control. */
  lemma CrossesIff(p: seq<Inst>, k: nat, v: Id, d: nat, vars: set<Id>, stored: map<Id, Id>, blocks: map<Id, int>)
    requires d < k < |p| && TrackedVar(p, k, d, v, vars, stored, blocks) && v in vars
    ensures CrossesBlock(p, v, d, k) <==> v in blocks && blocks[v] != BlockNo(p, k)
  {
    if v in blocks {
      var q :| d < q < k && Accesses(p[q], v);
      assert BlockNo(p, q) == blocks[v];
    }
  }

  lemma ArityAt(p: seq<Inst>, k: nat)
    requires WellFormed(p) && k < |p|
    ensures HasArity(p[k]) && (p[k].op == OP_STORE ==> |p[k].operands| > 1)
  {
  }

  lemma TrackedAt(p: seq<Inst>, k: nat, d: nat, v: Id, vars: set<Id>, stored: map<Id, Id>, blocks: map<Id, int>)
    requires d < k <= |p| && Tracked(p, k, vars, stored, blocks) && IsLocalDecl(p[d], v)
    ensures TrackedVar(p, k, d, v, vars, stored, blocks)
  {
  }

  lemma StoreStep(p: seq<Inst>, k: nat, v: Id, vars: set<Id>, stored: map<Id, Id>, blocks: map<Id, int>)
    requires WellFormed(p) && k < |p| && Tracked(p, k, vars, stored, blocks) && StoresTo(p[k], v) && v in vars
    ensures var gone := StoreGone(p[k], v, BlockNo(p, k), stored, blocks);
      Tracked(p, k + 1, vars - gone, stored[v := p[k].operands[1].Word()] - gone,
              if v in blocks then blocks else blocks[v := BlockNo(p, k)])
  {
    hide MaskErases, Candidate, StepOk, TrackedVar, Removable, WellFormed, HasArity, BlockNo, Tracked;
    ArityAt(p, k);
    TrackedKeys(p, k, vars, stored, blocks);
    var gone := StoreGone(p[k], v, BlockNo(p, k), stored, blocks);
    var stored' := stored[v := p[k].operands[1].Word()] - gone;
    var blocks' := if v in blocks then blocks else blocks[v := BlockNo(p, k)];
    OnlyThePointer(p, k, v);
    CandidatesAre(p, k, vars, stored, blocks, v);
    StoreErases(p, k, v);
    forall d, w | 0 <= d < k && IsLocalDecl(p[d], w)
      ensures StepOk(p, k, w, d, vars, stored, blocks, vars - gone, stored', blocks')
    {
      if w == v {
        TrackedAt(p, k, d, v, vars, stored, blocks);
        StoreStepVar(p, k, v, d, vars, stored, blocks);
      } else {
        UntouchedVar(p, k, w, d, vars, stored, blocks, vars - gone, stored', blocks');
      }
    }
    assert forall w | IsLocalDecl(p[k], w) :: false;
    TrackedStep(p, k, vars, stored, blocks, vars - gone, stored', blocks');
  }

  lemma StoreStepVar(p: seq<Inst>, k: nat, v: Id, d: nat, vars: set<Id>, stored: map<Id, Id>, blocks: map<Id, int>)
    requires d < k < |p| && TrackedVar(p, k, d, v, vars, stored, blocks) && StoresTo(p[k], v) && v in vars
             && HasArity(p[k])
    requires MaskErases(p, k, v) <==> MaskIs(p[k], v)
    ensures var gone := StoreGone(p[k], v, BlockNo(p, k), stored, blocks);
      StepOk(p, k, v, d, vars, stored, blocks, vars - gone, stored[v := p[k].operands[1].Word()] - gone,
             if v in blocks then blocks else blocks[v := BlockNo(p, k)])
  {
    CrossesIff(p, k, v, d, vars, stored, blocks);
    hide CrossesBlock, MaskErases, Erased, Removable;
    assert Disqualifies(p, v, d, k) <==> StoreDrops(v, BlockNo(p, k), stored, blocks);
  }

  /** The words that decide which case an instruction is. */
  predicate IsCandidateDecl(inst: Inst) {
    inst.op == OP_VARIABLE && |inst.operands| == 1 && inst.operands[0].Word() == STORAGE_CLASS_FUNCTION
  }

  predicate PointsAt(inst: Inst, vars: set<Id>) {
    |inst.operands| > 0 && inst.operands[0].Word() in vars
  }

  predicate IsAccessChain(inst: Inst) {
    inst.op == OP_ACCESS_CHAIN || inst.op == OP_IN_BOUNDS_ACCESS_CHAIN
  }

  function IdSet(inst: Inst): set<Id> {
    set x | x in IdsOf(inst) && x != 0
  }

  lemma ChainStep(p: seq<Inst>, k: nat, vars: set<Id>, stored: map<Id, Id>, blocks: map<Id, int>)
    requires WellFormed(p) && k < |p| && Tracked(p, k, vars, stored, blocks) && IsAccessChain(p[k])
             && PointsAt(p[k], vars)
    ensures var v := p[k].operands[0].Word(); Tracked(p, k + 1, vars - {v}, stored - {v}, blocks)
  {
    var v := p[k].operands[0].Word();
    assert HasArity(p[k]);
    OnlyThePointer(p, k, v);
    OtherStep(p, k, vars, stored, blocks, {v});
  }

  lemma GenericStep(p: seq<Inst>, k: nat, vars: set<Id>, stored: map<Id, Id>, blocks: map<Id, int>)
    requires WellFormed(p) && k < |p| && Tracked(p, k, vars, stored, blocks)
    requires !IsCandidateDecl(p[k]) && !((p[k].op == OP_LOAD || p[k].op == OP_STORE) && PointsAt(p[k], vars))
    ensures Tracked(p, k + 1, vars - IdSet(p[k]), stored - IdSet(p[k]), blocks)
  {
    OtherStep(p, k, vars, stored, blocks, IdSet(p[k]));
  }

  /** Finds the function-local variables that are stored at most once and not used via access chains. */
  method FindCandidates(p: seq<Inst>) returns (fnLocalVars: set<Id>, idMap: map<Id, Id>, ghost blocks: map<Id, int>)
    requires WellFormed(p)
    ensures Tracked(p, |p|, fnLocalVars, idMap, blocks)
  {
    fnLocalVars, idMap := {}, map[];
    var blockMap: map<Id, int> := map[];
    var blockNum := 0;
    for i := 0 to |p|
      invariant Tracked(p, i, fnLocalVars, idMap, blockMap)
      invariant blockNum == BlockNo(p, i)
    {
      if IsFlowCtrl(p[i].op) {
        blockNum := blockNum + 1;
      }
      fnLocalVars, idMap, blockMap := TrackInstruction(p, i, blockNum, fnLocalVars, idMap, blockMap);
    }
    blocks := blockMap;
  }

  method TrackInstruction(p: seq<Inst>, i: nat, blockNum: int, vars0: set<Id>, idMap0: map<Id, Id>,
                          blockMap0: map<Id, int>)
    returns (fnLocalVars: set<Id>, idMap: map<Id, Id>, blockMap: map<Id, int>)
    requires WellFormed(p) && i < |p| && Tracked(p, i, vars0, idMap0, blockMap0)
    requires blockNum == BlockNo(p, i + 1)
    ensures Tracked(p, i + 1, fnLocalVars, idMap, blockMap)
  {
    hide Tracked, PointersAreNotValues, UniqueResults, IsFlowCtrl;
    fnLocalVars, idMap, blockMap := vars0, idMap0, blockMap0;
    var inst := p[i];
    assert HasArity(inst);
    TrackedKeys(p, i, fnLocalVars, idMap, blockMap);
    if IsCandidateDecl(inst) {
      DeclStep(p, i, inst.resultId, fnLocalVars, idMap, blockMap);
      fnLocalVars := fnLocalVars + {inst.resultId};
    } else if IsAccessChain(inst) && PointsAt(inst, fnLocalVars) {
      ChainStep(p, i, fnLocalVars, idMap, blockMap);
      var varId := inst.operands[0].Word();
      fnLocalVars, idMap := fnLocalVars - {varId}, idMap - {varId};
    } else if inst.op == OP_LOAD && PointsAt(inst, fnLocalVars) {
      LoadStep(p, i, inst.operands[0].Word(), fnLocalVars, idMap, blockMap);
      NotFlow(inst.op);
      fnLocalVars, idMap, blockMap := TrackLoad(inst, blockNum, fnLocalVars, idMap, blockMap);
    } else if inst.op == OP_STORE && PointsAt(inst, fnLocalVars) {
      StoreStep(p, i, inst.operands[0].Word(), fnLocalVars, idMap, blockMap);
      NotFlow(inst.op);
      fnLocalVars, idMap, blockMap := TrackStore(inst, blockNum, fnLocalVars, idMap, blockMap);
    } else {
      GenericStep(p, i, fnLocalVars, idMap, blockMap);
      fnLocalVars, idMap := DropMentioned(inst, fnLocalVars, idMap);
    }
  }

  lemma NotFlow(op: nat)
    requires op == OP_LOAD || op == OP_STORE
    ensures !IsFlowCtrl(op)
  {
  }

  lemma TrackedKeys(p: seq<Inst>, k: nat, vars: set<Id>, stored: map<Id, Id>, blocks: map<Id, int>)
    requires k <= |p| && Tracked(p, k, vars, stored, blocks)
    ensures stored.Keys <= vars && 0 !in vars
  {
  }

  /** A local variable used anywhere else is not eliminated. */
  method DropMentioned(inst: Inst, vars0: set<Id>, idMap0: map<Id, Id>)
    returns (fnLocalVars: set<Id>, idMap: map<Id, Id>)
    requires idMap0.Keys <= vars0 && 0 !in vars0
    ensures fnLocalVars == vars0 - IdSet(inst) && idMap == idMap0 - IdSet(inst)
  {
    fnLocalVars, idMap := vars0, idMap0;
    var ids := IdsOf(inst);
    for j := 0 to |ids|
      invariant fnLocalVars == vars0 - (set x | x in ids[..j])
      invariant idMap == idMap0 - (set x | x in ids[..j])
    {
      assert ids[..j + 1] == ids[..j] + [ids[j]];
      if ids[j] in fnLocalVars {
        fnLocalVars, idMap := fnLocalVars - {ids[j]}, idMap - {ids[j]};
      }
    }
    assert ids[..|ids|] == ids;
  }

  /** A load of the candidate `varId`. */
  method TrackLoad(inst: Inst, blockNum: int, vars0: set<Id>, idMap0: map<Id, Id>, blockMap0: map<Id, int>)
    returns (fnLocalVars: set<Id>, idMap: map<Id, Id>, blockMap: map<Id, int>)
    requires inst.op == OP_LOAD && |inst.operands| > 0
    ensures var v := inst.operands[0].Word();
      var gone := if LoadDrops(inst, v, blockNum, idMap0, blockMap0) then {v} else {};
      && fnLocalVars == vars0 - gone && idMap == idMap0 - gone
      && blockMap == if v in blockMap0 then blockMap0 else blockMap0[v := blockNum]
  {
    fnLocalVars, idMap, blockMap := vars0, idMap0, blockMap0;
    var varId := inst.operands[0].Word();
    // avoid loads before stores
    if varId !in idMap {
      fnLocalVars, idMap := fnLocalVars - {varId}, idMap - {varId};
    }
    // not for volatile references
    if |inst.operands| > 1 && inst.operands[1].Word() % 2 == MEMORY_ACCESS_VOLATILE {
      fnLocalVars, idMap := fnLocalVars - {varId}, idMap - {varId};
    }
    // not across flow control
    if varId !in blockMap {
      blockMap := blockMap[varId := blockNum];
    } else if blockMap[varId] != blockNum {
      fnLocalVars, idMap := fnLocalVars - {varId}, idMap - {varId};
    }
  }

  /** A store to the candidate `varId`. */
  method TrackStore(inst: Inst, blockNum: int, vars0: set<Id>, idMap0: map<Id, Id>, blockMap0: map<Id, int>)
    returns (fnLocalVars: set<Id>, idMap: map<Id, Id>, blockMap: map<Id, int>)
    requires inst.op == OP_STORE && |inst.operands| > 1
    ensures var v := inst.operands[0].Word();
      var gone := StoreGone(inst, v, blockNum, idMap0, blockMap0);
      && fnLocalVars == vars0 - gone && idMap == idMap0[v := inst.operands[1].Word()] - gone
      && blockMap == if v in blockMap0 then blockMap0 else blockMap0[v := blockNum]
  {
    fnLocalVars, idMap, blockMap := vars0, idMap0, blockMap0;
    var varId := inst.operands[0].Word();
    if varId !in idMap {
      idMap := idMap[varId := inst.operands[1].Word()];
    } else {
      // more than one store to the same pointer
      fnLocalVars, idMap := fnLocalVars - {varId}, idMap - {varId};
    }
    // meant for volatile references, but it erases the mask word instead of the variable
    if |inst.operands| > 2 && inst.operands[2].Word() % 2 == MEMORY_ACCESS_VOLATILE {
      fnLocalVars, idMap := fnLocalVars - {inst.operands[2].Word()}, idMap - {inst.operands[2].Word()};
    }
    // not across flow control
    if varId !in blockMap {
      blockMap := blockMap[varId := blockNum];
    } else if blockMap[varId] != blockNum {
      fnLocalVars, idMap := fnLocalVars - {varId}, idMap - {varId};
    }
  }

  // ---------- replacing loads ----------

  /** Loads and stores come after the definitions of their operands. */
  ghost predicate OperandsDefinedFirst(p: seq<Inst>) {
    forall d, q, x | 0 <= d < |p| && 0 <= q < |p| && (p[q].op == OP_LOAD || p[q].op == OP_STORE)
        && UsesOperand(p[q], x) && Defines(p[d], x) ::
      d < q
  }

  ghost predicate Analysed(p: seq<Inst>, vars: set<Id>, stored: map<Id, Id>) {
    exists blocks :: Tracked(p, |p|, vars, stored, blocks)
  }

  /** Each candidate stands for the value stored to it, and so does the result of each of its loads. */
  ghost predicate IsLinks(p: seq<Inst>, k: nat, vars: set<Id>, stored: map<Id, Id>, links: map<Id, Id>)
    requires k <= |p|
  {
    && (forall x <- links :: x in stored || exists q | 0 <= q < k :: IsRemovedLoad(p[q], vars) && p[q].resultId == x)
    && (forall v <- stored :: v in links && links[v] == stored[v])
    && (forall q | 0 <= q < k && IsRemovedLoad(p[q], vars) ::
          && p[q].resultId in links && p[q].operands[0].id in stored
          && links[p[q].resultId] == stored[p[q].operands[0].id])
  }

  predicate IsRemovedLoad(inst: Inst, vars: set<Id>) {
    inst.op == OP_LOAD && |inst.operands| > 0 && inst.operands[0].IdRef? && inst.operands[0].id in vars
  }

  predicate IsRemovedStore(inst: Inst, vars: set<Id>) {
    inst.op == OP_STORE && |inst.operands| > 0 && inst.operands[0].IdRef? && inst.operands[0].id in vars
  }

  predicate IsRemoved(inst: Inst, vars: set<Id>) {
    IsRemovedLoad(inst, vars) || IsRemovedStore(inst, vars) || (inst.op == OP_VARIABLE && inst.resultId in vars)
  }

  function Removed(p: seq<Inst>, vars: set<Id>): set<nat> {
    set i: nat | i < |p| && IsRemoved(p[i], vars)
  }

  /** Where a load of a candidate gets its value: a store earlier in the same block. */
  lemma LoadHasStore(p: seq<Inst>, vars: set<Id>, stored: map<Id, Id>, v: Id, q: nat) returns (d: nat, st: nat)
    requires WellFormed(p) && OperandsDefinedFirst(p) && Analysed(p, vars, stored)
    requires v in vars && q < |p| && LoadsFrom(p[q], v)
    ensures d < st < q && IsLocalDecl(p[d], v) && StoresTo(p[st], v) && BlockNo(p, st) == BlockNo(p, q)
    ensures v in stored && OperandIs(p[st], 1, stored[v])
  {
    var blocks :| Tracked(p, |p|, vars, stored, blocks);
    d :| 0 <= d < |p| && IsLocalDecl(p[d], v);
    assert TrackedVar(p, |p|, d, v, vars, stored, blocks);
    assert UsesOperand(p[q], v);
    assert !Disqualifies(p, v, d, q) && HasStore(p, v, d, q);
    st :| d < st < q && StoresTo(p[st], v);
    assert Accesses(p[q], v) && !CrossesBlock(p, v, d, q);
  }

  /** A candidate is stored to at one place only. */
  lemma OneStore(p: seq<Inst>, vars: set<Id>, stored: map<Id, Id>, v: Id, a: nat, b: nat)
    requires WellFormed(p) && OperandsDefinedFirst(p) && Analysed(p, vars, stored)
    requires v in vars && a < |p| && b < |p| && StoresTo(p[a], v) && StoresTo(p[b], v)
    ensures a == b
  {
    var blocks :| Tracked(p, |p|, vars, stored, blocks);
    var d :| 0 <= d < |p| && IsLocalDecl(p[d], v);
    assert TrackedVar(p, |p|, d, v, vars, stored, blocks);
    assert UsesOperand(p[a], v) && UsesOperand(p[b], v);
    assert !Disqualifies(p, v, d, a) && !Disqualifies(p, v, d, b);
  }

  lemma StoredIsStored(p: seq<Inst>, vars: set<Id>, stored: map<Id, Id>, v: Id) returns (st: nat)
    requires WellFormed(p) && Analysed(p, vars, stored) && v in stored
    ensures st < |p| && StoresTo(p[st], v) && OperandIs(p[st], 1, stored[v]) && v in vars
  {
    var blocks :| Tracked(p, |p|, vars, stored, blocks);
    var d :| 0 <= d < |p| && IsLocalDecl(p[d], v);
    assert TrackedVar(p, |p|, d, v, vars, stored, blocks);
    st :| d < st < |p| && StoresTo(p[st], v);
  }

  lemma CandidateDeclared(p: seq<Inst>, vars: set<Id>, stored: map<Id, Id>, v: Id) returns (d: nat)
    requires Analysed(p, vars, stored) && v in vars
    ensures d < |p| && IsLocalDecl(p[d], v)
  {
    var blocks :| Tracked(p, |p|, vars, stored, blocks);
    d :| 0 <= d < |p| && IsLocalDecl(p[d], v);
  }

  /** A stored value is never itself a local variable. */
  lemma StoredIsNoVariable(p: seq<Inst>, vars: set<Id>, stored: map<Id, Id>, v: Id)
    requires WellFormed(p) && Analysed(p, vars, stored) && v in stored
    ensures stored[v] !in vars
  {
    var st := StoredIsStored(p, vars, stored, v);
    forall w <- vars ensures w != stored[v] {
      var d := CandidateDeclared(p, vars, stored, w);
      assert IsPointerUse(p[st], w);
    }
  }

  /**
   * Exactly which variables are removed: the declared locals that nothing disqualifies and that no volatile store
   * through a candidate erases by its memory-access word.
   */
  lemma CandidatesExactly(p: seq<Inst>, vars: set<Id>, stored: map<Id, Id>, v: Id)
    requires WellFormed(p) && Analysed(p, vars, stored)
    ensures v in vars <==> Candidate(p, |p|, v)
    ensures v in vars ==> exists d | 0 <= d < |p| :: IsLocalDecl(p[d], v) && Removable(p, v, d, |p|)
  {
    var blocks :| Tracked(p, |p|, vars, stored, blocks);
    CandidatesAre(p, |p|, vars, stored, blocks, v);
  }

  /** A load through `v` without the lowest bit, the Volatile bit, in its memory-access word. */
  predicate PlainLoad(inst: Inst, v: Id) {
    && inst.op == 61 && OperandIs(inst, 0, v)
    && (|inst.operands| > 1 ==> inst.operands[1].Word() % 2 == 0)
  }

  /** Nothing from `a` on and before `b` is OpLoopMerge to OpSwitch, OpFunction or OpFunctionEnd. */
  predicate Straight(p: seq<Inst>, a: nat, b: nat)
    requires b <= |p|
  {
    forall j | a <= j < b :: !(246 <= p[j].op <= 251) && p[j].op != 54 && p[j].op != 56
  }

  lemma {:induction false} StraightIff(p: seq<Inst>, a: nat, b: nat)
    requires a <= b <= |p|
    ensures BlockNo(p, a) <= BlockNo(p, b)
    ensures BlockNo(p, a) == BlockNo(p, b) <==> Straight(p, a, b)
    decreases b
  {
    if a < b {
      StraightIff(p, a, b - 1);
      assert Straight(p, a, b) <==> Straight(p, a, b - 1) && !IsFlowCtrl(p[b - 1].op);
    }
  }

  /** After its declaration at `d`, the variable is stored to at `st` and only loaded after that, in the same block. */
  ghost predicate StoredOnce(p: seq<Inst>, v: Id, d: nat, st: nat) {
    && d < st < |p| && p[st].op == 62 && OperandIs(p[st], 0, v)
    && forall q | d < q < |p| && q != st && Mentions(p[q], v) :: st < q && PlainLoad(p[q], v) && Straight(p, st, q)
  }

  lemma StoredOnceRemovable(p: seq<Inst>, v: Id, d: nat, st: nat)
    requires v != 0 && StoredOnce(p, v, d, st)
    ensures Removable(p, v, d, |p|)
  {
    forall q | d < q < |p|
      ensures !Disqualifies(p, v, d, q)
    {
      if Accesses(p[q], v) {
        assert Mentions(p[q], v);
        if q != st {
          assert StoresTo(p[st], v);
          OneBlock(p, v, d, st, q);
        } else {
          assert forall a | d < a < q :: !Mentions(p[a], v);
        }
      }
    }
  }

  lemma OneBlock(p: seq<Inst>, v: Id, d: nat, st: nat, q: nat)
    requires v != 0 && StoredOnce(p, v, d, st) && st < q < |p| && Accesses(p[q], v)
    ensures !CrossesBlock(p, v, d, q)
  {
    forall a | d < a < q && Accesses(p[a], v)
      ensures BlockNo(p, a) == BlockNo(p, q)
    {
      assert Mentions(p[a], v) && Mentions(p[q], v);
      StraightIff(p, st, a);
      StraightIff(p, st, q);
    }
  }

  lemma RemovableStoredOnce(p: seq<Inst>, v: Id, d: nat, m: nat) returns (st: nat)
    requires v != 0 && Removable(p, v, d, |p|) && d < m < |p| && Mentions(p[m], v)
    ensures StoredOnce(p, v, d, st)
  {
    hide CrossesBlock;
    assert !Disqualifies(p, v, d, m);
    if StoresTo(p[m], v) {
      st := m;
    } else {
      st :| d < st < m && StoresTo(p[st], v);
    }
    forall q | d < q < |p| && q != st && Mentions(p[q], v)
      ensures st < q && PlainLoad(p[q], v) && Straight(p, st, q)
    {
      assert !Disqualifies(p, v, d, q) && !Disqualifies(p, v, d, st);
      AfterTheStore(p, v, d, st, q);
    }
  }

  lemma AfterTheStore(p: seq<Inst>, v: Id, d: nat, st: nat, q: nat)
    requires v != 0 && d < st < |p| && d < q < |p| && q != st && StoresTo(p[st], v) && Mentions(p[q], v)
    requires !Disqualifies(p, v, d, q) && !Disqualifies(p, v, d, st) && Removable(p, v, d, |p|)
    ensures st < q && PlainLoad(p[q], v) && Straight(p, st, q)
  {
    StraightIff(p, if st < q then st else q, q);
    if LoadsFrom(p[q], v) {
      var a :| d < a < q && StoresTo(p[a], v);
      assert !Disqualifies(p, v, d, a);
    }
    assert Accesses(p[st], v) && Accesses(p[q], v);
  }

  /**
   * Which variables go, in the words of the instructions: those that are never mentioned again, and those that are
   * stored to once and after that only loaded, in the same block and without the Volatile bit. It is asked only that no
   * volatile store has the variable's number as its memory-access word.
   */
  lemma RemovedVariableIff(p: seq<Inst>, vars: set<Id>, stored: map<Id, Id>, v: Id, d: nat)
    requires WellFormed(p) && Analysed(p, vars, stored)
    requires d < |p| && p[d].op == 59 && p[d].resultId == v && p[d].operands == [Literal(7)]
    requires forall i | 0 <= i < |p| && p[i].op == 62 && |p[i].operands| > 2 && p[i].operands[2].Word() % 2 == 1 ::
             p[i].operands[2].Word() != v
    ensures v in vars <==>
            || (forall q | d < q < |p| :: !Mentions(p[q], v))
            || (exists st :: StoredOnce(p, v, d, st))
  {
    assert HasArity(p[d]);
    CandidatesExactly(p, vars, stored, v);
    OnlyDeclaration(p, v, d);
    if v in vars && exists q | d < q < |p| :: Mentions(p[q], v) {
      var m :| d < m < |p| && Mentions(p[m], v);
      var st := RemovableStoredOnce(p, v, d, m);
    }
    if st :| StoredOnce(p, v, d, st) {
      StoredOnceRemovable(p, v, d, st);
    }
    assert !Erased(p, v, d, |p|);
    if forall q | d < q < |p| :: !Mentions(p[q], v) {
      assert Removable(p, v, d, |p|);
    }
  }

  lemma OnlyDeclaration(p: seq<Inst>, v: Id, d: nat)
    requires UniqueResults(p) && d < |p| && IsLocalDecl(p[d], v)
    ensures forall e | 0 <= e < |p| && IsLocalDecl(p[e], v) :: e == d
  {
  }

  /** Exactly which volatile stores are lost: those to candidates, as if they were not volatile. */
  lemma VolatileStoreRemovedIff(p: seq<Inst>, vars: set<Id>, stored: map<Id, Id>, q: nat)
    requires WellFormed(p) && Analysed(p, vars, stored) && q < |p|
    requires p[q].op == 62 && |p[q].operands| > 2 && p[q].operands[2].Word() % 2 == 1
    ensures p[q].operands[0].IdRef?
    ensures IsRemoved(p[q], vars) <==> Candidate(p, |p|, p[q].operands[0].id)
  {
    assert HasArity(p[q]);
    CandidatesExactly(p, vars, stored, p[q].operands[0].id);
  }

  /** No load with the Volatile bit in its memory-access word is ever removed. */
  lemma VolatileLoadsStay(p: seq<Inst>, vars: set<Id>, stored: map<Id, Id>, q: nat)
    requires WellFormed(p) && OperandsDefinedFirst(p) && Analysed(p, vars, stored)
    requires q < |p| && p[q].op == 61 && |p[q].operands| > 1 && p[q].operands[1].Word() % 2 == 1
    ensures !IsRemoved(p[q], vars)
  {
    assert IsVolatileLoad(p[q]);
    forall v <- vars ensures !LoadsFrom(p[q], v) {
      CandidatesExactly(p, vars, stored, v);
      var d :| 0 <= d < |p| && IsLocalDecl(p[d], v) && Removable(p, v, d, |p|);
      if UsesOperand(p[q], v) {
        assert !Disqualifies(p, v, d, q);
      }
    }
  }

  /** A volatile store can be lost: the bit in its memory-access word does not protect its variable. */
  const VOLATILE_STORE: seq<Inst> := [
    Inst(54, 2, 4, [Literal(0), IdRef(3)]),
    Inst(248, 0, 5, []),
    Inst(59, 6, 7, [Literal(7)]),
    Inst(62, 0, 0, [IdRef(7), IdRef(8), Literal(1)]),
    Inst(253, 0, 0, []),
    Inst(56, 0, 0, [])]

  lemma VolatileStoreWellFormed()
    ensures WellFormed(VOLATILE_STORE)
  {
    hide UniqueResults, PointersAreNotValues, HasArity;
    VolatileStoreUnique();
    VolatileStoreArity();
    VolatileStorePointers();
  }

  lemma VolatileStoreArity()
    ensures forall i | 0 <= i < |VOLATILE_STORE| :: HasArity(VOLATILE_STORE[i])
  {
    assert |VOLATILE_STORE| == 6;
  }

  lemma VolatileStorePointers()
    ensures PointersAreNotValues(VOLATILE_STORE)
  {
    var p := VOLATILE_STORE;
    assert |p| == 6;
    forall d, v, q | 0 <= d < |p| && 0 <= q < |p| && IsLocalDecl(p[d], v)
      ensures IsPointerUse(p[q], v)
    {
      assert v == 7;
    }
  }

  lemma VolatileStoreUnique()
    ensures UniqueResults(VOLATILE_STORE)
  {
    assert |VOLATILE_STORE| == 6;
  }

  lemma VolatileStoreRemovable()
    ensures IsLocalDecl(VOLATILE_STORE[2], 7) && Removable(VOLATILE_STORE, 7, 2, 6)
  {
    var p := VOLATILE_STORE;
    assert p[4].operands == [] && p[5].operands == [];
    assert !Mentions(p[4], 7) && !Mentions(p[5], 7);
  }

  lemma VolatileStoreCandidate()
    ensures Candidate(VOLATILE_STORE, 6, 7)
  {
    VolatileStoreRemovable();
    var p := VOLATILE_STORE;
    forall i | 2 < i < 6
      ensures !MaskErases(p, i, 7)
    {
      hide Candidate;
      assert !MaskIs(p[i], 7);
    }
    assert !Erased(p, 7, 2, 6);
  }

  lemma VolatileStoreIsRemoved(vars: set<Id>, stored: map<Id, Id>)
    requires Analysed(VOLATILE_STORE, vars, stored)
    ensures IsVolatileStore(VOLATILE_STORE[3]) && IsRemoved(VOLATILE_STORE[3], vars)
  {
    VolatileStoreWellFormed();
    VolatileStoreCandidate();
    hide WellFormed, Analysed, Candidate;
    assert |VOLATILE_STORE| == 6;
    CandidatesExactly(VOLATILE_STORE, vars, stored, 7);
  }

  // ---------- chasing chains of replacements ----------

  ghost function DefPos(p: seq<Inst>, x: Id): nat {
    if exists d: nat | d < |p| :: Defines(p[d], x) then
      var d: nat :| d < |p| && Defines(p[d], x); d
    else 0
  }

  /** Replacement goes from variables to values, and from later definitions to earlier ones. */
  ghost function Rank(p: seq<Inst>, vars: set<Id>, x: Id): nat {
    if x in vars then |p| else DefPos(p, x)
  }

  ghost predicate Descends(p: seq<Inst>, vars: set<Id>, links: map<Id, Id>) {
    forall x <- links :: Rank(p, vars, links[x]) < Rank(p, vars, x)
  }

  /** The end of the chain of replacements that starts at `x`. */
  ghost function Root(p: seq<Inst>, vars: set<Id>, links: map<Id, Id>, x: Id): (r: Id)
    requires Descends(p, vars, links)
    ensures r !in links
    ensures x in links ==> Rank(p, vars, r) < Rank(p, vars, x)
    decreases Rank(p, vars, x)
  {
    if x in links then Root(p, vars, links, links[x]) else x
  }

  lemma DefPosIs(p: seq<Inst>, x: Id, d: nat)
    requires UniqueResults(p) && d < |p| && Defines(p[d], x)
    ensures DefPos(p, x) == d
  {
  }

  lemma StoredDefinedBefore(p: seq<Inst>, vars: set<Id>, stored: map<Id, Id>, v: Id, st: nat)
    requires WellFormed(p) && OperandsDefinedFirst(p) && Analysed(p, vars, stored)
    requires v in stored && st < |p| && StoresTo(p[st], v) && OperandIs(p[st], 1, stored[v])
    ensures Rank(p, vars, stored[v]) <= st
  {
    StoredIsNoVariable(p, vars, stored, v);
    assert UsesOperand(p[st], stored[v]);
  }

  lemma RemovedLoadRank(p: seq<Inst>, vars: set<Id>, stored: map<Id, Id>, q: nat)
    requires WellFormed(p) && Analysed(p, vars, stored) && q < |p| && IsRemovedLoad(p[q], vars)
    ensures Rank(p, vars, p[q].resultId) == q && Defines(p[q], p[q].resultId)
  {
    var r := p[q].resultId;
    assert HasArity(p[q]);
    if r in vars {
      var d := CandidateDeclared(p, vars, stored, r);
    }
    DefPosIs(p, r, q);
  }

  lemma LinksDescend(p: seq<Inst>, vars: set<Id>, stored: map<Id, Id>, links: map<Id, Id>)
    requires WellFormed(p) && OperandsDefinedFirst(p) && Analysed(p, vars, stored)
             && IsLinks(p, |p|, vars, stored, links)
    ensures Descends(p, vars, links)
  {
    hide WellFormed, OperandsDefinedFirst, Analysed, Rank;
    forall x <- links ensures Rank(p, vars, links[x]) < Rank(p, vars, x) {
      if x in stored {
        var st := StoredIsStored(p, vars, stored, x);
        StoredDefinedBefore(p, vars, stored, x, st);
        VariableRank(p, vars, x);
      } else {
        var q :| 0 <= q < |p| && IsRemovedLoad(p[q], vars) && p[q].resultId == x;
        var v := p[q].operands[0].id;
        var d, st := LoadHasStore(p, vars, stored, v, q);
        StoredDefinedBefore(p, vars, stored, v, st);
        RemovedLoadRank(p, vars, stored, q);
      }
    }
  }

  lemma VariableRank(p: seq<Inst>, vars: set<Id>, v: Id)
    requires v in vars
    ensures Rank(p, vars, v) == |p|
  {
  }

  /** Writing the end of its chain into one entry changes no chain's end. */
  lemma {:induction false} RootAfterUpdate(p: seq<Inst>, vars: set<Id>, links: map<Id, Id>, k: Id, x: Id)
    requires Descends(p, vars, links) && k in links
    ensures var links' := links[k := Root(p, vars, links, k)];
      Descends(p, vars, links') && Root(p, vars, links', x) == Root(p, vars, links, x)
    decreases Rank(p, vars, x)
  {
    var links' := links[k := Root(p, vars, links, k)];
    assert Descends(p, vars, links');
    if x in links && x != k {
      RootAfterUpdate(p, vars, links, k, links[x]);
    }
  }

  /** Follows every chain of replacements to its end, in whatever order the entries are visited. */
  method ChaseChains(ghost p: seq<Inst>, ghost vars: set<Id>, links: map<Id, Id>) returns (idMap: map<Id, Id>)
    requires Descends(p, vars, links)
    ensures idMap.Keys == links.Keys
    ensures forall x <- links :: idMap[x] == Root(p, vars, links, x)
  {
    idMap := links;
    var todo := links.Keys;
    while todo != {}
      invariant todo <= links.Keys == idMap.Keys && Descends(p, vars, idMap)
      invariant forall x :: Root(p, vars, idMap, x) == Root(p, vars, links, x)
      invariant forall x | x in links.Keys - todo :: idMap[x] == Root(p, vars, links, x)
      decreases todo
    {
      var key :| key in todo;
      var id := key;
      while id in idMap
        invariant Root(p, vars, idMap, id) == Root(p, vars, idMap, key)
        decreases Rank(p, vars, id)
      {
        id := idMap[id];
      }
      forall x ensures Root(p, vars, idMap[key := id], x) == Root(p, vars, links, x) {
        RootAfterUpdate(p, vars, idMap, key, x);
      }
      RootAfterUpdate(p, vars, idMap, key, key);
      idMap := idMap[key := id];
      todo := todo - {key};
    }
  }

  // ---------- the pass ----------

  function RenameId(m: map<Id, Id>, x: Id): Id {
    if x in m then m[x] else x
  }

  function RenameOperand(m: map<Id, Id>, o: Operand): Operand {
    match o
    case IdRef(x) => IdRef(RenameId(m, x))
    case Literal(_) => o
  }

  /** The instruction with its ids mapped and everything else unchanged. */
  function Rename(m: map<Id, Id>, inst: Inst): Inst {
    Inst(inst.op, RenameId(m, inst.typeId), RenameId(m, inst.resultId),
         seq(|inst.operands|, i requires 0 <= i < |inst.operands| => RenameOperand(m, inst.operands[i])))
  }

  function Renamed(m: map<Id, Id>, p: seq<Inst>): seq<Inst> {
    seq(|p|, i requires 0 <= i < |p| => Rename(m, p[i]))
  }

  /** `r` is `p` without the candidates, their loads and their stores, and with every id of the chains
      replaced by the end of its chain. */
  ghost predicate IsOptimized(p: seq<Inst>, vars: set<Id>, stored: map<Id, Id>, links: map<Id, Id>, idMap: map<Id, Id>,
                              r: seq<Inst>) {
    && Analysed(p, vars, stored)
    && IsLinks(p, |p|, vars, stored, links)
    && Descends(p, vars, links)
    && idMap.Keys == links.Keys && (forall x <- links :: idMap[x] == Root(p, vars, links, x))
    && r == Compact(Renamed(idMap, p), Removed(p, vars))
  }

  lemma {:induction false} CompactAgree(p: seq<Inst>, q: seq<Inst>, marks: set<nat>)
    requires |p| == |q| && forall i: nat | i < |p| && i !in marks :: p[i] == q[i]
    ensures Compact(p, marks) == Compact(q, marks)
  {
    if p != [] {
      CompactAgree(p[..|p| - 1], q[..|q| - 1], marks);
    }
  }

  method LinkLoads(p: seq<Inst>, vars: set<Id>, stored: map<Id, Id>) returns (idMap: map<Id, Id>)
    requires WellFormed(p) && OperandsDefinedFirst(p) && Analysed(p, vars, stored)
    ensures IsLinks(p, |p|, vars, stored, idMap)
  {
    hide WellFormed, OperandsDefinedFirst, Analysed;
    idMap := stored;
    for i := 0 to |p|
      invariant IsLinks(p, i, vars, stored, idMap)
    {
      if p[i].op == OP_LOAD && |p[i].operands| > 0 && p[i].operands[0].IdRef? && p[i].operands[0].Word() in vars {
        ghost var d, st := LoadHasStore(p, vars, stored, p[i].operands[0].id, i);
        NewLoadResult(p, vars, stored, i);
        idMap := idMap[p[i].resultId := idMap[p[i].operands[0].Word()]];
      }
    }
  }

  /** The result of a removed load is neither a variable nor the result of another load. */
  lemma NewLoadResult(p: seq<Inst>, vars: set<Id>, stored: map<Id, Id>, q: nat)
    requires WellFormed(p) && Analysed(p, vars, stored) && q < |p| && IsRemovedLoad(p[q], vars)
    ensures p[q].resultId !in vars && p[q].resultId !in stored
    ensures forall a | 0 <= a < |p| && a != q :: p[a].resultId != p[q].resultId
  {
    RemovedLoadRank(p, vars, stored, q);
    var blocks :| Tracked(p, |p|, vars, stored, blocks);
  }

  /** Removes the loads, stores and variables of the candidates and replaces what was loaded. */
  method OptLoadStore(p: seq<Inst>)
    returns (r: seq<Inst>, ghost vars: set<Id>, ghost stored: map<Id, Id>, ghost links: map<Id, Id>,
             ghost idMap: map<Id, Id>)
    requires WellFormed(p) && OperandsDefinedFirst(p)
    ensures IsOptimized(p, vars, stored, links, idMap, r)
  {
    var fnLocalVars, found, blocks := FindCandidates(p);
    assert Analysed(p, fnLocalVars, found);
    var linked := LinkLoads(p, fnLocalVars, found);
    LinksDescend(p, fnLocalVars, found, linked);
    var chased := ChaseChains(p, fnLocalVars, linked);
    vars, stored, links, idMap := fnLocalVars, found, linked, chased;
    var words := p;
    var stripped: set<nat> := {};
    for i := 0 to |p|
      invariant |words| == |p|
      invariant forall k: nat | k < i :: k in stripped <==> k in Removed(p, fnLocalVars)
      invariant forall k | k in stripped :: k < i
      invariant forall k: nat | k < i && k !in stripped :: words[k] == Rename(chased, p[k])
      invariant forall k: nat | i <= k < |p| :: words[k] == p[k]
    {
      if IsRemoved(p[i], fnLocalVars) {
        stripped := stripped + {i};
      } else {
        words := words[i := Rename(chased, words[i])];
      }
    }
    assert stripped == Removed(p, fnLocalVars);
    CompactAgree(words, Renamed(chased, p), stripped);
    r := Compact(words, stripped);
  }
}
