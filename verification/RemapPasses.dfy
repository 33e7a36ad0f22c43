/** What the passes of the remapper remove, and that nothing left uses it. */
module RemapPasses {
  import opened StringLiterals
  import opened Spirv
  import opened DebugText
  import opened ModuleShape
  import opened Survival
  import opened DeadFunctions
  import opened DeadTypes
  import opened DeadVars
  import opened FunctionShape
  import opened OptLoadStore

  // ---------- debug information ----------

  predicate IsStripped(p: seq<Inst>, whiteList: seq<seq<Byte>>, i: nat) {
    i < |p| && IsStripOp(p[i].op) && !IsWhiteListed(p, whiteList, i)
  }

  /** Without a white list, OpSource, OpSourceExtension, OpName, OpMemberName and OpLine are stripped. */
  lemma NothingListed(p: seq<Inst>, i: nat)
    ensures IsStripped(p, [], i) <==> i < |p| && p[i].op in {3, 4, 5, 6, 8}
  {
    hide TextOf;
  }

  /** OpName for the id `x`. */
  function Name(x: Id, name: seq<Byte>): Inst {
    var packed := Packed(name);
    Inst(5, 0, 0, [IdRef(x)] + seq(|packed|, k requires 0 <= k < |packed| => Literal(packed[k])))
  }

  /** A name is kept exactly if a string of the white list stands in it. */
  lemma NameKeptIff(p: seq<Inst>, whiteList: seq<seq<Byte>>, i: nat, x: Id, name: seq<Byte>)
    requires i < |p| && 0 !in name && p[i] == Name(x, name)
    ensures !IsStripped(p, whiteList, i) <==> exists k :: 0 <= k < |whiteList| && Within(whiteList[k], name)
  {
    hide IsWhiteListed, Within, Packed;
    NameListedIff(p, whiteList, i, name);
  }

  /** The debug instructions whose text contains no white-listed string. */
  method StripDebug(p: seq<Inst>, whiteList: seq<seq<Byte>>) returns (marks: set<nat>)
    ensures forall i: nat :: i in marks <==> IsStripped(p, whiteList, i)
  {
    hide IsWhiteListed;
    marks := {};
    for k := 0 to |p|
      invariant forall i: nat :: i in marks <==> i < k && IsStripped(p, whiteList, i)
    {
      if IsStripOp(p[k].op) {
        var listed := FindListed(p, whiteList, k);
        if !listed {
          marks := marks + {k};
        }
      }
    }
  }

  /** Without debug instructions the module is as fit for the other passes as before. */
  lemma StripDebugKeeps(p: seq<Inst>, marks: set<nat>, entry: Id, bound: nat)
    requires Ready(p, entry, bound) && forall i: nat :: i in marks ==> i < |p| && IsStripOp(p[i].op)
    ensures Ready(Compact(p, marks), entry, bound)
  {
    forall i: nat | i < |p| && i in marks
      ensures p[i].resultId == 0 && !IsBracket(p[i]) && p[i].op != OP_ENTRY_POINT
    {
      assert InstOk(p[i], bound);
    }
    RemoveKeepsReady(p, marks, entry, bound);
  }

  /** Removing instructions keeps what the load/store optimization needs. */
  lemma RemoveKeepsLoadStore(p: seq<Inst>, marks: set<nat>)
    requires WellFormed(p) && OperandsDefinedFirst(p) && VarsNotStored(p)
    ensures var r := Compact(p, marks); WellFormed(r) && OperandsDefinedFirst(r) && VarsNotStored(r)
  {
    var r := Compact(p, marks);
    RemoveUnique(p, marks);
    forall k | 0 <= k < |r| ensures HasArity(r[k]) {
      var q := CompactOrigin(p, marks, k);
    }
    forall d1, q1, v | 0 <= d1 < |r| && 0 <= q1 < |r| && IsLocalDecl(r[d1], v) ensures IsPointerUse(r[q1], v) {
      var d := CompactOrigin(p, marks, d1);
      var q := CompactOrigin(p, marks, q1);
    }
    forall d1, q1, x | 0 <= d1 < |r| && 0 <= q1 < |r| && (r[q1].op == OP_LOAD || r[q1].op == OP_STORE)
                       && UsesOperand(r[q1], x) && Defines(r[d1], x)
      ensures d1 < q1
    {
      var d := CompactOrigin(p, marks, d1);
      var q := CompactOrigin(p, marks, q1);
      NewIndexBelow(marks, d, q);
    }
    forall d1, q1, x | 0 <= d1 < |r| && 0 <= q1 < |r| && r[d1].op == OP_VARIABLE && Defines(r[d1], x)
        && r[q1].op == OP_STORE
      ensures !OperandIs(r[q1], 1, x)
    {
      var d := CompactOrigin(p, marks, d1);
      var q := CompactOrigin(p, marks, q1);
    }
  }

  // ---------- functions ----------

  /** The functions of a module with the functions they call. */
  function FnsOf(p: seq<Inst>): seq<Fn> {
    if p == [] then []
    else
      var r := FnsOf(p[..|p| - 1]);
      var last := p[|p| - 1];
      if last.op == OP_FUNCTION then r + [Fn(last.resultId, [])]
      else if last.op == OP_FUNCTION_CALL && r != [] && |last.operands| > 0 && last.operands[0].IdRef? then
        r[|r| - 1 := Fn(r[|r| - 1].id, r[|r| - 1].calls + [last.operands[0].id])]
      else r
  }

  lemma {:induction false} LastFn(p: seq<Inst>)
    requires FnAfter(p) != 0
    ensures FnsOf(p) != [] && FnsOf(p)[|FnsOf(p)| - 1].id == FnAfter(p)
  {
    if p[|p| - 1].op != OP_FUNCTION {
      LastFn(p[..|p| - 1]);
    }
  }

  /** Later instructions add functions and calls. */
  lemma {:induction false} FnsGrow(p: seq<Inst>, k: nat)
    requires k <= |p|
    ensures |FnsOf(p[..k])| <= |FnsOf(p)|
    ensures forall i :: 0 <= i < |FnsOf(p[..k])| ==>
              && FnsOf(p)[i].id == FnsOf(p[..k])[i].id
              && forall x :: x in FnsOf(p[..k])[i].calls ==> x in FnsOf(p)[i].calls
    decreases |p|
  {
    if k < |p| {
      var n := |p| - 1;
      assert p[..n][..k] == p[..k];
      FnsGrow(p[..n], k);
    } else {
      assert p[..k] == p;
    }
  }

  lemma CallListed(p: seq<Inst>, q: nat, x: Id) returns (i: nat)
    requires q < |p| && p[q].op == OP_FUNCTION_CALL && OperandIs(p[q], 0, x) && FnOf(p, q) != 0
    ensures i < |FnsOf(p)| && FnsOf(p)[i].id == FnOf(p, q) && x in FnsOf(p)[i].calls
  {
    var r := FnsOf(p[..q]);
    LastFn(p[..q]);
    assert p[..q + 1][..q] == p[..q];
    FnsGrow(p, q + 1);
    i := |r| - 1;
    assert x in FnsOf(p[..q + 1])[i].calls;
  }

  lemma FnListed(p: seq<Inst>, d: nat) returns (i: nat)
    requires d < |p| && p[d].op == OP_FUNCTION
    ensures i < |FnsOf(p)| && FnsOf(p)[i].id == p[d].resultId
  {
    assert p[..d + 1][..d] == p[..d];
    FnsGrow(p, d + 1);
    i := |FnsOf(p[..d])|;
  }

  /** The ids of the functions that are not left. */
  function DeadIds(fns: seq<Fn>, alive: set<nat>): set<Id> {
    set i | 0 <= i < |fns| && i !in alive :: fns[i].id
  }

  /** A dead function has no living namesake. */
  lemma DeadIsDead(p: seq<Inst>, fns: seq<Fn>, entry: Id, alive: set<nat>, i: nat)
    requires Survivors(CallGraph(fns, entry), alive) && i in alive && i < |fns|
    ensures fns[i].id !in DeadIds(fns, alive)
  {
    var g := CallGraph(fns, entry);
    forall j | 0 <= j < |fns| && j !in alive && fns[j].id == fns[i].id
      ensures false
    {
      if i in g.roots {
        ReferredSurvives(g, alive, j);
      } else {
        var c :| c in alive && (c, i) in g.edges;
        assert (c, j) in g.edges;
        ReferredSurvives(g, alive, j);
      }
    }
  }

  predicate InDeadFn(p: seq<Inst>, dead: set<Id>, i: nat) {
    i < |p| && FnOf(p, i) != 0 && FnOf(p, i) in dead
  }

  /** A chain of calls leads from the entry point to a function with this id. */
  ghost predicate CalledFromEntry(p: seq<Inst>, entry: Id, x: Id) {
    exists c :: LeadsTo(CallGraph(FnsOf(p), entry), FnsOf(p), c, x)
  }

  ghost predicate LeadsTo(g: References, fns: seq<Fn>, c: seq<nat>, x: Id) {
    IsChain(g, c) && c[0] in g.roots && c[|c| - 1] < |fns| && fns[c[|c| - 1]].id == x
  }

  /** The function that an instruction is in is in the list. */
  lemma FnExists(p: seq<Inst>, k: nat) returns (i: nat)
    requires k < |p| && FnOf(p, k) != 0
    ensures i < |FnsOf(p)| && FnsOf(p)[i].id == FnOf(p, k)
  {
    if p[k].op == OP_FUNCTION {
      i := FnListed(p, k);
    } else {
      LastFn(p[..k]);
      FnsGrow(p, k);
      i := |FnsOf(p[..k])| - 1;
    }
  }

  /** No instruction of a function that the entry point calls, directly or not, is removed as dead. */
  lemma {:induction false} CalledFnStays(p: seq<Inst>, entry: Id, alive: set<nat>, k: nat)
    requires Survivors(CallGraph(FnsOf(p), entry), alive) && k < |p| && CalledFromEntry(p, entry, FnOf(p, k))
    ensures !InDeadFn(p, DeadIds(FnsOf(p), alive), k)
  {
    var g := CallGraph(FnsOf(p), entry);
    var c :| LeadsTo(g, FnsOf(p), c, FnOf(p, k));
    ChainSurvives(g, alive, c);
    DeadIsDead(p, FnsOf(p), entry, alive, c[|c| - 1]);
  }

  /** Without recursion exactly the instructions of the other functions are removed. */
  lemma {:induction false} DeadFnIff(p: seq<Inst>, entry: Id, alive: set<nat>, rank: nat -> nat, k: nat)
    requires Survivors(CallGraph(FnsOf(p), entry), alive) && Ranked(CallGraph(FnsOf(p), entry), rank)
    requires k < |p| && FnOf(p, k) != 0
    ensures InDeadFn(p, DeadIds(FnsOf(p), alive), k) <==> !CalledFromEntry(p, entry, FnOf(p, k))
  {
    var g := CallGraph(FnsOf(p), entry);
    if CalledFromEntry(p, entry, FnOf(p, k)) {
      CalledFnStays(p, entry, alive, k);
    }
    if !InDeadFn(p, DeadIds(FnsOf(p), alive), k) {
      var i := FnExists(p, k);
      assert i in alive;
      AcyclicSurvivors(g, alive, rank, i);
      var c :| IsChain(g, c) && c[|c| - 1] == i && c[0] in g.roots;
      assert LeadsTo(g, FnsOf(p), c, FnOf(p, k));
    }
  }

  /** A call from a function that is left goes to a function that is left, and the entry point is left. */
  lemma DeadFnUnused(p: seq<Inst>, entry: Id, bound: nat, alive: set<nat>, d: nat, q: nat, x: Id)
    requires Ready(p, entry, bound) && Survivors(CallGraph(FnsOf(p), entry), alive)
    requires var dead := DeadIds(FnsOf(p), alive);
             d < |p| && q < |p| && InDeadFn(p, dead, d) && !InDeadFn(p, dead, q) && Defines(p[d], x)
    ensures !CoreMentions(p[q], x)
  {
    var fns := FnsOf(p);
    var g := CallGraph(fns, entry);
    if CoreMentions(p[q], x) {
      assert UseOk(p, entry, d, q, x);
      assert FnOk(p, q);
      if p[d].op == OP_FUNCTION {
        var i := FnListed(p, d);
        if x == entry {
          assert i in g.roots;
        } else {
          var j := CallListed(p, q, x);
          assert j in alive;
          assert (j, i) in g.edges;
        }
        ReferredSurvives(g, alive, i);
        DeadIsDead(p, fns, entry, alive, i);
      }
    }
  }

  /** The instructions of dead functions. */
  method MarkFunctions(p: seq<Inst>, dead: set<Id>) returns (marks: set<nat>)
    ensures forall i: nat :: i in marks <==> InDeadFn(p, dead, i)
  {
    marks := {};
    var fnRes: Id := 0;
    for k := 0 to |p|
      invariant fnRes == FnAfter(p[..k])
      invariant forall i: nat :: i in marks <==> i < k && InDeadFn(p, dead, i)
    {
      FnAfterStep(p, k);
      if p[k].op == OP_FUNCTION {
        fnRes := p[k].resultId;
      }
      if fnRes != 0 && fnRes in dead {
        marks := marks + {k};
      }
      if p[k].op == OP_FUNCTION_END {
        fnRes := 0;
      }
    }
  }

  /** The functions and their calls, in one pass. */
  method CollectFns(p: seq<Inst>) returns (fns: seq<Fn>)
    ensures fns == FnsOf(p)
  {
    fns := [];
    for k := 0 to |p|
      invariant fns == FnsOf(p[..k])
    {
      assert p[..k + 1][..k] == p[..k];
      if p[k].op == OP_FUNCTION {
        fns := fns + [Fn(p[k].resultId, [])];
      } else if p[k].op == OP_FUNCTION_CALL && fns != [] && |p[k].operands| > 0 && p[k].operands[0].IdRef? {
        var f := fns[|fns| - 1];
        fns := fns[|fns| - 1 := Fn(f.id, f.calls + [p[k].operands[0].id])];
      }
    }
    assert p[..|p|] == p;
  }

  // ---------- references to what is gone ----------

  predicate IsDeadRef(p: seq<Inst>, defined: set<Id>, i: nat) {
    i < |p| && IsDebug(p[i]) && |p[i].operands| > 0 && p[i].operands[0].Word() !in defined
  }

  function Results(p: seq<Inst>): (r: set<Id>)
    ensures forall x :: x in r <==> x != 0 && Defined(p, x)
  {
    set i | 0 <= i < |p| && p[i].resultId != 0 :: p[i].resultId
  }

  /** Names and decorations of ids without a definition. */
  method StripDeadRefs(p: seq<Inst>) returns (marks: set<nat>)
    ensures forall i: nat :: i in marks <==> IsDeadRef(p, Results(p), i)
  {
    var idPosR: set<Id> := {};
    for k := 0 to |p|
      invariant idPosR == Results(p[..k])
    {
      ResultsNext(p, k);
      if p[k].resultId != 0 {
        idPosR := idPosR + {p[k].resultId};
      }
    }
    assert p[..|p|] == p;
    marks := {};
    for k := 0 to |p|
      invariant forall i: nat :: i in marks <==> i < k && IsDeadRef(p, idPosR, i)
    {
      if IsDebug(p[k]) && |p[k].operands| > 0 && p[k].operands[0].Word() !in idPosR {
        marks := marks + {k};
      }
    }
  }

  lemma ResultsNext(p: seq<Inst>, k: nat)
    requires k < |p|
    ensures Results(p[..k + 1]) == Results(p[..k]) + if p[k].resultId != 0 then {p[k].resultId} else {}
  {
    var q := p[..k + 1];
    assert q[k] == p[k] && forall i :: 0 <= i < k ==> q[i] == p[..k][i];
  }

  /** Without the dead references everything used is defined. */
  lemma DeadRefsGone(p: seq<Inst>, marks: set<nat>)
    requires ClosedCore(p) && DebugShape(p)
    requires forall i: nat :: i in marks <==> IsDeadRef(p, Results(p), i)
    ensures Closed(Compact(p, marks))
  {
    var r := Compact(p, marks);
    forall i: nat | i in marks ensures p[i].resultId == 0 {
      assert DebugOk(p[i]);
    }
    assert Unused(p, marks);
    RemoveClosed(p, marks);
    forall k, x | 0 <= k < |r| && Mentions(r[k], x)
      ensures Defined(r, x)
    {
      if IsDebug(r[k]) {
        var q := CompactOrigin(p, marks, k);
        assert DebugOk(p[q]) && !IsDeadRef(p, Results(p), q);
        assert p[q].operands[0] == IdRef(x);
        var d :| 0 <= d < |p| && Defines(p[d], x);
        DefinedAfter(p, marks, d, x);
      }
    }
  }
}
