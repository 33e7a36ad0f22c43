/** The load/store optimization leaves a well-formed module well-formed. */
module OptLoadStoreShape {
  import opened Spirv
  import opened ModuleShape
  import opened DeadVars
  import opened FunctionShape
  import opened OptLoadStore

  /** What the pass finds, in a module that is fit for it. */
  ghost predicate Found(p: seq<Inst>, vars: set<Id>, stored: map<Id, Id>, links: map<Id, Id>, idMap: map<Id, Id>) {
    && WellFormed(p) && OperandsDefinedFirst(p) && VarsNotStored(p)
    && Analysed(p, vars, stored) && IsLinks(p, |p|, vars, stored, links) && Descends(p, vars, links)
    && idMap.Keys == links.Keys && (forall x <- links :: idMap[x] == Root(p, vars, links, x))
  }

  /** A replaced id: a candidate, or the result of a removed load. */
  lemma LinkIs(p: seq<Inst>, vars: set<Id>, stored: map<Id, Id>, links: map<Id, Id>, idMap: map<Id, Id>, x: Id)
    returns (l: nat, v: Id, st: nat)
    requires Found(p, vars, stored, links, idMap) && x in links
    ensures l < |p| && Defines(p[l], x) && IsRemoved(p[l], vars) && p[l].op != OP_FUNCTION
    ensures v in stored && links[x] == stored[v] && st < |p| && StoresTo(p[st], v) && OperandIs(p[st], 1, links[x])
    ensures if x in vars then v == x && IsLocalDecl(p[l], x)
            else p[l].op == OP_LOAD && OperandIs(p[l], 0, v) && st < l && BlockNo(p, st) == BlockNo(p, l)
  {
    if x in stored {
      v := x;
      st := StoredIsStored(p, vars, stored, x);
      l := CandidateDeclared(p, vars, stored, x);
    } else {
      l :| 0 <= l < |p| && IsRemovedLoad(p[l], vars) && p[l].resultId == x;
      assert HasArity(p[l]);
      v := p[l].operands[0].id;
      var d;
      d, st := LoadHasStore(p, vars, stored, v, l);
      NewLoadResult(p, vars, stored, l);
    }
  }

  /** Results of surviving instructions are not replaced. */
  lemma ResultKept(p: seq<Inst>, vars: set<Id>, stored: map<Id, Id>, links: map<Id, Id>, idMap: map<Id, Id>, i: nat)
    requires Found(p, vars, stored, links, idMap) && i < |p| && !IsRemoved(p[i], vars)
    ensures p[i].resultId !in idMap && Rename(idMap, p[i]).resultId == p[i].resultId
  {
    hide Found;
    if p[i].resultId in idMap {
      FoundKeys(p, vars, stored, links, idMap);
      var l, v, st := LinkIs(p, vars, stored, links, idMap, p[i].resultId);
      OneDefinition(p, vars, stored, links, idMap, l, i);
    }
  }

  lemma FoundKeys(p: seq<Inst>, vars: set<Id>, stored: map<Id, Id>, links: map<Id, Id>, idMap: map<Id, Id>)
    requires Found(p, vars, stored, links, idMap)
    ensures idMap.Keys == links.Keys
  {
  }

  lemma OneDefinition(p: seq<Inst>, vars: set<Id>, stored: map<Id, Id>, links: map<Id, Id>, idMap: map<Id, Id>, l: nat,
                      i: nat)
    requires Found(p, vars, stored, links, idMap)
    requires l < |p| && i < |p| && Defines(p[l], p[i].resultId)
    ensures l == i
  {
  }

  lemma CandidateDecl(p: seq<Inst>, vars: set<Id>, stored: map<Id, Id>, links: map<Id, Id>, idMap: map<Id, Id>, v: Id)
    returns (d: nat)
    requires Found(p, vars, stored, links, idMap) && v in vars
    ensures d < |p| && IsLocalDecl(p[d], v) && Removable(p, v, d, |p|)
  {
    hide Removable;
    CandidatesExactly(p, vars, stored, v);
    d :| 0 <= d < |p| && IsLocalDecl(p[d], v) && Removable(p, v, d, |p|);
  }

  lemma UseIsLater(p: seq<Inst>, entry: Id, bound: nat, d: nat, q: nat, v: Id)
    requires Ready(p, entry, bound) && d < |p| && IsLocalDecl(p[d], v) && q < |p| && q != d && CoreMentions(p[q], v)
    ensures d < q
  {
    hide ClosedCore, InstsOk, OneEntry;
    assert UseOk(p, entry, d, q, v);
    assert FnOk(p, d) && FnOk(p, q);
  }

  lemma MentionIsAccess(p: seq<Inst>, d: nat, q: nat, v: Id)
    requires d < q < |p| && Removable(p, v, d, |p|) && CoreMentions(p[q], v)
    ensures Accesses(p[q], v)
  {
    assert !Disqualifies(p, v, d, q);
  }

  /** Outside of debug instructions a candidate is only loaded and stored. */
  lemma CandidateUseRemoved(p: seq<Inst>, vars: set<Id>, stored: map<Id, Id>, links: map<Id, Id>, idMap: map<Id, Id>,
                            entry: Id, bound: nat, q: nat, v: Id)
    requires Found(p, vars, stored, links, idMap) && Ready(p, entry, bound)
    requires v in vars && q < |p| && CoreMentions(p[q], v)
    ensures IsRemoved(p[q], vars)
  {
    var d := CandidateDecl(p, vars, stored, links, idMap, v);
    hide Found, Ready, Removable;
    if q != d {
      UseIsLater(p, entry, bound, d, q, v);
      MentionIsAccess(p, d, q, v);
    }
  }

  /** Without flow control in between, instructions are in the same function. */
  lemma {:induction false} SameBlockSameFn(p: seq<Inst>, a: nat, b: nat)
    requires a <= b <= |p| && BlockNo(p, a) == BlockNo(p, b)
    ensures FnAfter(p[..a]) == FnAfter(p[..b])
    decreases b - a
  {
    if a < b {
      BlockNoGrows(p, a, b - 1);
      assert p[..b][..b - 1] == p[..b - 1];
      SameBlockSameFn(p, a, b - 1);
    }
  }

  lemma {:induction false} BlockNoGrows(p: seq<Inst>, a: nat, b: nat)
    requires a <= b <= |p|
    ensures BlockNo(p, a) <= BlockNo(p, b)
    decreases b - a
  {
    if a < b {
      BlockNoGrows(p, a, b - 1);
    }
  }

  /** The definition of a replaced id and the store that replaces it are in one function. */
  lemma LinkFn(p: seq<Inst>, vars: set<Id>, stored: map<Id, Id>, links: map<Id, Id>, idMap: map<Id, Id>,
               entry: Id, bound: nat, x: Id) returns (l: nat, st: nat)
    requires Found(p, vars, stored, links, idMap) && Ready(p, entry, bound) && x in links
    ensures l < |p| && Defines(p[l], x) && p[l].op != OP_FUNCTION && FnOf(p, l) != 0
    ensures st < |p| && p[st].op == OP_STORE && OperandIs(p[st], 1, links[x]) && FnOf(p, st) == FnOf(p, l)
  {
    var v;
    l, v, st := LinkIs(p, vars, stored, links, idMap, x);
    StoredAreVars(p, vars, stored, links, idMap, v);
    var d := CandidateDeclared(p, vars, stored, v);
    assert FnOk(p, d) && FnOf(p, d) != 0;
    assert UseOk(p, entry, d, st, v);
    if x !in vars {
      assert UseOk(p, entry, d, l, v);
      SameBlockSameFn(p, st, l);
    }
  }

  lemma StoredAreVars(p: seq<Inst>, vars: set<Id>, stored: map<Id, Id>, links: map<Id, Id>, idMap: map<Id, Id>, v: Id)
    requires Found(p, vars, stored, links, idMap) && v in stored
    ensures v in vars
  {
    var st := StoredIsStored(p, vars, stored, v);
  }

  /** The end of a chain is the value of some store, no variable, and stays in the function. */
  lemma {:induction false} RootShape(p: seq<Inst>, vars: set<Id>, stored: map<Id, Id>, links: map<Id, Id>,
                                     idMap: map<Id, Id>, entry: Id, bound: nat, x: Id, l: nat) returns (st: nat)
    requires Found(p, vars, stored, links, idMap) && Ready(p, entry, bound) && x in links && l < |p| && Defines(p[l], x)
    ensures st < |p| && p[st].op == OP_STORE && OperandIs(p[st], 1, Root(p, vars, links, x))
            && FnOf(p, st) == FnOf(p, l)
    decreases Rank(p, vars, x)
  {
    hide Ready, Found;
    var l1, st1 := LinkFn(p, vars, stored, links, idMap, entry, bound, x);
    Uniq(p, entry, bound, l, l1, x);
    FoundDescends(p, vars, stored, links, idMap);
    var w := links[x];
    if w in links {
      var l2, st2 := LinkFn(p, vars, stored, links, idMap, entry, bound, w);
      LinkUse(p, entry, bound, l2, st1, w);
      st := RootShape(p, vars, stored, links, idMap, entry, bound, w, l2);
    } else {
      st := st1;
    }
  }

  lemma FoundDescends(p: seq<Inst>, vars: set<Id>, stored: map<Id, Id>, links: map<Id, Id>, idMap: map<Id, Id>)
    requires Found(p, vars, stored, links, idMap)
    ensures Descends(p, vars, links)
  {
  }

  lemma Uniq(p: seq<Inst>, entry: Id, bound: nat, a: nat, b: nat, x: Id)
    requires Ready(p, entry, bound) && a < |p| && b < |p| && Defines(p[a], x) && Defines(p[b], x)
    ensures a == b
  {
  }

  lemma LinkUse(p: seq<Inst>, entry: Id, bound: nat, d: nat, q: nat, x: Id)
    requires Ready(p, entry, bound) && d < |p| && q < |p| && Defines(p[d], x) && p[d].op != OP_FUNCTION
             && FnOf(p, d) != 0
    requires p[q].op == OP_STORE && OperandIs(p[q], 1, x)
    ensures FnOf(p, q) == FnOf(p, d)
  {
    assert CoreMentions(p[q], x);
    assert UseOk(p, entry, d, q, x);
  }

  // ---------- uses in the result ----------

  /** Where an id of a renamed instruction comes from. */
  lemma MentionOrigin(m: map<Id, Id>, inst: Inst, y: Id) returns (x: Id)
    requires 0 !in m && CoreMentions(Rename(m, inst), y)
    ensures CoreMentions(inst, x) && RenameId(m, x) == y
  {
    var r := Rename(m, inst);
    if r.typeId == y {
      x := inst.typeId;
    } else if r.resultId == y {
      x := inst.resultId;
    } else {
      var k :| 0 <= k < |r.operands| && r.operands[k] == IdRef(y);
      assert r.operands[k] == RenameOperand(m, inst.operands[k]);
      x := inst.operands[k].id;
      assert inst.operands[k] == IdRef(x);
    }
  }

  lemma NoZero(p: seq<Inst>, vars: set<Id>, stored: map<Id, Id>, links: map<Id, Id>, idMap: map<Id, Id>)
    requires Found(p, vars, stored, links, idMap)
    ensures 0 !in idMap
  {
    if 0 in links {
      var l, v, st := LinkIs(p, vars, stored, links, idMap, 0);
    }
  }

  /** The id is used by the instruction itself, or it is the value of a store. */
  ghost predicate FromUseOrStore(p: seq<Inst>, idMap: map<Id, Id>, q: nat, y: Id)
    requires q < |p|
  {
    (CoreMentions(p[q], y) && y !in idMap) || exists st ::
        0 <= st < |p| && p[st].op == OP_STORE && OperandIs(p[st], 1, y)
  }

  /** What a surviving instruction uses after the renaming is defined by a surviving one, and in its function. */
  lemma UseAfter(p: seq<Inst>, vars: set<Id>, stored: map<Id, Id>, links: map<Id, Id>, idMap: map<Id, Id>,
                 entry: Id, bound: nat, q: nat, y: Id) returns (d: nat)
    requires Found(p, vars, stored, links, idMap) && Ready(p, entry, bound)
    requires q < |p| && !IsRemoved(p[q], vars) && CoreMentions(Rename(idMap, p[q]), y)
    ensures d < |p| && Defines(p[d], y) && !IsRemoved(p[d], vars)
    ensures UseOk(p, entry, d, q, y)
    ensures (CoreMentions(p[q], y) && y !in idMap) || (p[d].op != OP_VARIABLE && p[d].op != OP_FUNCTION)
    ensures FromUseOrStore(p, idMap, q, y)
  {
    NoZero(p, vars, stored, links, idMap);
    FoundKeys(p, vars, stored, links, idMap);
    var x := MentionOrigin(idMap, p[q], y);
    if x in idMap {
      d := ReplacedUse(p, vars, stored, links, idMap, entry, bound, q, x);
      RootIs(p, vars, stored, links, idMap, x);
    } else {
      d := KeptUse(p, vars, stored, links, idMap, entry, bound, q, y);
    }
  }

  lemma RootIs(p: seq<Inst>, vars: set<Id>, stored: map<Id, Id>, links: map<Id, Id>, idMap: map<Id, Id>, x: Id)
    requires Found(p, vars, stored, links, idMap) && x in links
    ensures Descends(p, vars, links) && idMap[x] == Root(p, vars, links, x)
  {
  }

  lemma KeptUse(p: seq<Inst>, vars: set<Id>, stored: map<Id, Id>, links: map<Id, Id>, idMap: map<Id, Id>,
                entry: Id, bound: nat, q: nat, x: Id) returns (d: nat)
    requires Found(p, vars, stored, links, idMap) && Ready(p, entry, bound)
    requires q < |p| && !IsRemoved(p[q], vars) && CoreMentions(p[q], x) && x !in idMap
    ensures d < |p| && Defines(p[d], x) && !IsRemoved(p[d], vars) && UseOk(p, entry, d, q, x)
  {
    assert Defined(p, x);
    d :| 0 <= d < |p| && Defines(p[d], x);
    assert UseOk(p, entry, d, q, x);
    if IsRemoved(p[d], vars) {
      if IsRemovedLoad(p[d], vars) {
        LoadIsLinked(p, vars, stored, links, idMap, d);
      } else if p[d].op == OP_VARIABLE {
        CandidateUseRemoved(p, vars, stored, links, idMap, entry, bound, q, x);
      } else {
        StoreDefinesNothing(p, entry, bound, d);
      }
    }
  }

  lemma StoreDefinesNothing(p: seq<Inst>, entry: Id, bound: nat, d: nat)
    requires Ready(p, entry, bound) && d < |p| && p[d].op == OP_STORE
    ensures p[d].resultId == 0
  {
    assert InstOk(p[d], bound);
  }

  lemma LoadIsLinked(p: seq<Inst>, vars: set<Id>, stored: map<Id, Id>, links: map<Id, Id>, idMap: map<Id, Id>, d: nat)
    requires Found(p, vars, stored, links, idMap) && d < |p| && IsRemovedLoad(p[d], vars)
    ensures p[d].resultId in idMap
  {
  }

  lemma ReplacedUse(p: seq<Inst>, vars: set<Id>, stored: map<Id, Id>, links: map<Id, Id>, idMap: map<Id, Id>,
                    entry: Id, bound: nat, q: nat, x: Id) returns (d: nat)
    requires Found(p, vars, stored, links, idMap) && Ready(p, entry, bound)
    requires q < |p| && !IsRemoved(p[q], vars) && CoreMentions(p[q], x) && x in idMap && idMap[x] != 0
    ensures d < |p| && Defines(p[d], idMap[x]) && !IsRemoved(p[d], vars)
    ensures UseOk(p, entry, d, q, idMap[x]) && p[d].op != OP_VARIABLE && p[d].op != OP_FUNCTION
    ensures FromUseOrStore(p, idMap, q, idMap[x])
  {
    hide Found, Ready;
    FoundKeys(p, vars, stored, links, idMap);
    RootIs(p, vars, stored, links, idMap, x);
    var y := idMap[x];
    if x in vars {
      CandidateUseRemoved(p, vars, stored, links, idMap, entry, bound, q, x);
    }
    var l, st0 := LinkFn(p, vars, stored, links, idMap, entry, bound, x);
    var st := RootShape(p, vars, stored, links, idMap, entry, bound, x, l);
    LocalUse(p, entry, bound, l, q, x);
    d := StoredDefined(p, entry, bound, st, y);
    NotStored(p, vars, stored, links, idMap, d, st, y);
    RootSurvives(p, vars, stored, links, idMap, entry, bound, d, y);
  }

  lemma LocalUse(p: seq<Inst>, entry: Id, bound: nat, d: nat, q: nat, x: Id)
    requires Ready(p, entry, bound) && d < |p| && q < |p| && Defines(p[d], x) && p[d].op != OP_FUNCTION
             && FnOf(p, d) != 0
    requires CoreMentions(p[q], x)
    ensures FnOf(p, q) == FnOf(p, d)
  {
    assert UseOk(p, entry, d, q, x);
  }

  lemma StoredDefined(p: seq<Inst>, entry: Id, bound: nat, st: nat, y: Id) returns (d: nat)
    requires Ready(p, entry, bound) && st < |p| && p[st].op == OP_STORE && OperandIs(p[st], 1, y) && y != 0
    ensures d < |p| && Defines(p[d], y) && p[d].op != OP_FUNCTION
    ensures FnOf(p, d) != 0 ==> FnOf(p, st) == FnOf(p, d)
  {
    assert CoreMentions(p[st], y);
    assert Defined(p, y);
    d :| 0 <= d < |p| && Defines(p[d], y);
    assert UseOk(p, entry, d, st, y);
    StoreDefinesNothing(p, entry, bound, st);
  }

  lemma NotStored(p: seq<Inst>, vars: set<Id>, stored: map<Id, Id>, links: map<Id, Id>, idMap: map<Id, Id>, d: nat,
                  st: nat, y: Id)
    requires Found(p, vars, stored, links, idMap) && d < |p| && st < |p| && Defines(p[d], y)
    requires p[st].op == OP_STORE && OperandIs(p[st], 1, y)
    ensures p[d].op != OP_VARIABLE
  {
  }

  lemma RootSurvives(p: seq<Inst>, vars: set<Id>, stored: map<Id, Id>, links: map<Id, Id>, idMap: map<Id, Id>,
                     entry: Id, bound: nat, d: nat, y: Id)
    requires Found(p, vars, stored, links, idMap) && Ready(p, entry, bound)
    requires d < |p| && Defines(p[d], y) && p[d].op != OP_VARIABLE && y !in links
    ensures !IsRemoved(p[d], vars)
  {
    if IsRemovedLoad(p[d], vars) {
      LoadIsLinked(p, vars, stored, links, idMap, d);
      FoundKeys(p, vars, stored, links, idMap);
    }
    if p[d].op == OP_STORE {
      StoreDefinesNothing(p, entry, bound, d);
    }
  }

  // ---------- the result is well-formed ----------

  lemma RenamedAt(idMap: map<Id, Id>, p: seq<Inst>, i: nat)
    requires i < |p|
    ensures |Renamed(idMap, p)| == |p| && Renamed(idMap, p)[i] == Rename(idMap, p[i])
    ensures Renamed(idMap, p)[i].op == p[i].op
  {
  }

  lemma RenamedLength(idMap: map<Id, Id>, p: seq<Inst>)
    ensures |Renamed(idMap, p)| == |p|
  {
  }

  lemma FunctionsStay(inst: Inst, vars: set<Id>)
    requires inst.op == OP_FUNCTION
    ensures !IsRemoved(inst, vars)
  {
  }

  lemma FnStepAlike(p: seq<Inst>, s: seq<Inst>, k: nat)
    requires k < |p| == |s| && FnAfter(s[..k]) == FnAfter(p[..k]) && s[k].op == p[k].op
    requires p[k].op == OP_FUNCTION ==> s[k].resultId == p[k].resultId
    ensures FnAfter(s[..k + 1]) == FnAfter(p[..k + 1])
  {
    FnAfterStep(p, k);
    FnAfterStep(s, k);
  }

  lemma {:induction false} FnAfterRenamed(p: seq<Inst>, vars: set<Id>, stored: map<Id, Id>, links: map<Id, Id>,
                                          idMap: map<Id, Id>, i: nat)
    requires Found(p, vars, stored, links, idMap) && i <= |p|
    ensures FnAfter(Renamed(idMap, p)[..i]) == FnAfter(p[..i])
  {
    hide *;
    var s := Renamed(idMap, p);
    if i == 0 {
      RenamedLength(idMap, p);
      assert p[..0] == s[..0];
    } else {
      RenamedAt(idMap, p, i - 1);
      FnAfterRenamed(p, vars, stored, links, idMap, i - 1);
      if p[i - 1].op == OP_FUNCTION {
        FunctionsStay(p[i - 1], vars);
        ResultKept(p, vars, stored, links, idMap, i - 1);
      }
      FnStepAlike(p, s, i - 1);
    }
  }

  /** Surviving instructions in the result: renamed, and in the same function. */
  lemma InResult(p: seq<Inst>, vars: set<Id>, stored: map<Id, Id>, links: map<Id, Id>, idMap: map<Id, Id>, i: nat)
    requires Found(p, vars, stored, links, idMap) && i < |p| && !IsRemoved(p[i], vars)
    ensures var r := Compact(Renamed(idMap, p), Removed(p, vars)); var k := NewIndex(Removed(p, vars), i);
            && k < |r| && r[k] == Rename(idMap, p[i]) && r[k].resultId == p[i].resultId
            && FnOf(r, k) == FnOf(p, i) && FnAfter(r[..k]) == FnAfter(p[..i])
  {
    hide Found, FnAfter, FnOf, Compact, NewIndex, Renamed, Removed, Rename;
    ResultKept(p, vars, stored, links, idMap, i);
    FnRenamed(p, vars, stored, links, idMap, i);
    NoBrackets(p, vars, idMap, i);
    FnOfCompact(Renamed(idMap, p), Removed(p, vars), i);
    FnAfterAt(Renamed(idMap, p), Removed(p, vars), i);
  }

  lemma FnRenamed(p: seq<Inst>, vars: set<Id>, stored: map<Id, Id>, links: map<Id, Id>, idMap: map<Id, Id>, i: nat)
    requires Found(p, vars, stored, links, idMap) && i < |p| && !IsRemoved(p[i], vars)
    ensures var s := Renamed(idMap, p);
            |s| == |p| && s[i] == Rename(idMap, p[i]) && FnAfter(s[..i]) == FnAfter(p[..i]) && FnOf(s, i) == FnOf(p, i)
  {
    hide Found, FnAfter;
    ResultKept(p, vars, stored, links, idMap, i);
    FnAfterRenamed(p, vars, stored, links, idMap, i);
  }

  lemma NoBrackets(p: seq<Inst>, vars: set<Id>, idMap: map<Id, Id>, i: nat)
    requires i < |p| && !IsRemoved(p[i], vars)
    ensures var s := Renamed(idMap, p);
            |s| == |p| && forall k: nat :: k < |s| && k in Removed(p, vars) ==> !IsBracket(s[k])
    ensures i !in Removed(p, vars)
  {
  }

  lemma FromOrigin(p: seq<Inst>, vars: set<Id>, stored: map<Id, Id>, links: map<Id, Id>, idMap: map<Id, Id>, k: nat)
    returns (i: nat)
    requires Found(p, vars, stored, links, idMap) && k < |Compact(Renamed(idMap, p), Removed(p, vars))|
    ensures i < |p| && !IsRemoved(p[i], vars) && NewIndex(Removed(p, vars), i) == k
    ensures var r := Compact(Renamed(idMap, p), Removed(p, vars));
            && r[k] == Rename(idMap, p[i]) && r[k].resultId == p[i].resultId
            && FnOf(r, k) == FnOf(p, i) && FnAfter(r[..k]) == FnAfter(p[..i])
  {
    i := CompactOrigin(Renamed(idMap, p), Removed(p, vars), k);
    InResult(p, vars, stored, links, idMap, i);
  }

  lemma OptKeepsIds(p: seq<Inst>, vars: set<Id>, stored: map<Id, Id>, links: map<Id, Id>, idMap: map<Id, Id>,
                    entry: Id, bound: nat)
    requires Found(p, vars, stored, links, idMap) && Ready(p, entry, bound)
    ensures var r := Compact(Renamed(idMap, p), Removed(p, vars));
            UniqueResults(r) && ClosedCore(r) && FnLocal(r, entry)
  {
    hide Found, Ready;
    var r := Compact(Renamed(idMap, p), Removed(p, vars));
    forall a, b | 0 <= a < |r| && 0 <= b < |r| && r[a].resultId == r[b].resultId != 0
      ensures a == b
    {
      var i := FromOrigin(p, vars, stored, links, idMap, a);
      var j := FromOrigin(p, vars, stored, links, idMap, b);
      Uniq(p, entry, bound, i, j, p[i].resultId);
    }
    forall k, y | 0 <= k < |r| && CoreMentions(r[k], y)
      ensures Defined(r, y)
    {
      var q := FromOrigin(p, vars, stored, links, idMap, k);
      var d := UseAfter(p, vars, stored, links, idMap, entry, bound, q, y);
      InResult(p, vars, stored, links, idMap, d);
      assert Defines(r[NewIndex(Removed(p, vars), d)], y);
    }
    forall d1, k, y | 0 <= d1 < |r| && 0 <= k < |r| && Defines(r[d1], y) && CoreMentions(r[k], y)
      ensures UseOk(r, entry, d1, k, y)
    {
      var d := FromOrigin(p, vars, stored, links, idMap, d1);
      var q := FromOrigin(p, vars, stored, links, idMap, k);
      var e := UseAfter(p, vars, stored, links, idMap, entry, bound, q, y);
      Uniq(p, entry, bound, d, e, y);
      UseOkRenamed(p, idMap, entry, d, q, y);
    }
  }

  /** A function's id stands where it stood. */
  lemma UseOkRenamed(p: seq<Inst>, idMap: map<Id, Id>, entry: Id, d: nat, q: nat, y: Id)
    requires d < |p| && q < |p| && UseOk(p, entry, d, q, y)
    requires (CoreMentions(p[q], y) && y !in idMap) || p[d].op != OP_FUNCTION
    ensures p[d].op == OP_FUNCTION ==>
              && (|| FnOf(p, q) == y
                  || (p[q].op == OP_FUNCTION_CALL && OperandIs(Rename(idMap, p[q]), 0, y))
                  || y == entry)
              && p[q].op != OP_STORE
  {
  }

  lemma OptKeepsVars(p: seq<Inst>, vars: set<Id>, stored: map<Id, Id>, links: map<Id, Id>, idMap: map<Id, Id>,
                     entry: Id, bound: nat)
    requires Found(p, vars, stored, links, idMap) && Ready(p, entry, bound)
    ensures var r := Compact(Renamed(idMap, p), Removed(p, vars)); VarsDefinedFirst(r) && VarsWhereExpected(r)
  {
    hide Found, Ready;
    var r := Compact(Renamed(idMap, p), Removed(p, vars));
    forall d1, k, y | 0 <= d1 < |r| && 0 <= k < |r| && r[d1].op == OP_VARIABLE && Defines(r[d1], y) && d1 != k
        && CoreMentions(r[k], y)
      ensures r[k].op != OP_VARIABLE && (r[k].op == OP_ENTRY_POINT ==> y in InterfaceWords(r[k]))
      ensures r[k].op != OP_ENTRY_POINT ==> d1 < k
    {
      var d := FromOrigin(p, vars, stored, links, idMap, d1);
      var q := FromOrigin(p, vars, stored, links, idMap, k);
      var e := UseAfter(p, vars, stored, links, idMap, entry, bound, q, y);
      Uniq(p, entry, bound, d, e, y);
      VarUse(p, entry, bound, d, q, y);
      NewIndexBelow(Removed(p, vars), d, q);
      InterfaceRenamed(idMap, p[q], y);
    }
  }

  lemma VarUse(p: seq<Inst>, entry: Id, bound: nat, d: nat, q: nat, y: Id)
    requires Ready(p, entry, bound) && d < |p| && q < |p| && d != q
    requires p[d].op == OP_VARIABLE && Defines(p[d], y) && CoreMentions(p[q], y)
    ensures p[q].op != OP_VARIABLE && (p[q].op == OP_ENTRY_POINT ==> y in InterfaceWords(p[q]))
    ensures p[q].op != OP_ENTRY_POINT ==> d < q
  {
  }

  lemma InterfaceRenamed(m: map<Id, Id>, inst: Inst, y: Id)
    requires y !in m
    ensures y in InterfaceWords(inst) ==> y in InterfaceWords(Rename(m, inst))
  {
    if y in InterfaceWords(inst) {
      var k :| 0 <= k < |inst.operands[3..]| && inst.operands[3..][k].Word() == y;
      assert InterfaceWords(Rename(m, inst))[k] == RenameOperand(m, inst.operands[k + 3]).Word();
    }
  }

  lemma OptKeepsFns(p: seq<Inst>, vars: set<Id>, stored: map<Id, Id>, links: map<Id, Id>, idMap: map<Id, Id>,
                    entry: Id, bound: nat)
    requires Found(p, vars, stored, links, idMap) && Ready(p, entry, bound)
    ensures FnStructure(Compact(Renamed(idMap, p), Removed(p, vars)))
  {
    hide Found, Ready, FnAfter;
    var r := Compact(Renamed(idMap, p), Removed(p, vars));
    forall k | 0 <= k < |r| ensures FnOk(r, k) {
      var q := FromOrigin(p, vars, stored, links, idMap, k);
      OkAt(p, entry, bound, q);
      assert r[k].operands == [Literal(STORAGE_CLASS_FUNCTION)]
             ==> p[q].operands == [Literal(STORAGE_CLASS_FUNCTION)] by {
        if r[k].operands == [Literal(STORAGE_CLASS_FUNCTION)] {
          assert r[k].operands[0] == RenameOperand(idMap, p[q].operands[0]);
        }
      }
    }
  }

  lemma OkAt(p: seq<Inst>, entry: Id, bound: nat, q: nat)
    requires Ready(p, entry, bound) && q < |p|
    ensures FnOk(p, q) && InstOk(p[q], bound)
    ensures p[q].op == OP_ENTRY_POINT ==> OperandIs(p[q], 1, entry)
  {
    assert p[q].op == OP_ENTRY_POINT ==> EnteredAt(p, q);
  }

  /** Replacements are ids of the module. */
  lemma RootBelow(p: seq<Inst>, vars: set<Id>, stored: map<Id, Id>, links: map<Id, Id>, idMap: map<Id, Id>,
                  entry: Id, bound: nat, x: Id)
    requires Found(p, vars, stored, links, idMap) && Ready(p, entry, bound) && x in idMap
    ensures idMap[x] < bound
  {
    hide Found, Ready;
    FoundKeys(p, vars, stored, links, idMap);
    RootIs(p, vars, stored, links, idMap, x);
    var l, st0 := LinkFn(p, vars, stored, links, idMap, entry, bound, x);
    var st := RootShape(p, vars, stored, links, idMap, entry, bound, x, l);
    OkAt(p, entry, bound, st);
    assert UsesOperand(p[st], idMap[x]);
    assert idMap[x] in IdOperands(p[st].operands);
    assert idMap[x] in IdsOf(p[st]);
  }

  lemma OptKeepsInsts(p: seq<Inst>, vars: set<Id>, stored: map<Id, Id>, links: map<Id, Id>, idMap: map<Id, Id>,
                      entry: Id, bound: nat)
    requires Found(p, vars, stored, links, idMap) && Ready(p, entry, bound)
    ensures var r := Compact(Renamed(idMap, p), Removed(p, vars)); InstsOk(r, bound) && OneEntry(r, entry)
  {
    hide Found, Ready, FnAfter, InstOk;
    var r := Compact(Renamed(idMap, p), Removed(p, vars));
    NoZero(p, vars, stored, links, idMap);
    forall x | x in idMap ensures idMap[x] < bound {
      RootBelow(p, vars, stored, links, idMap, entry, bound, x);
    }
    forall k | 0 <= k < |r|
      ensures InstOk(r[k], bound) && (EnteredAt(r, k) ==> OperandIs(r[k], 1, entry))
    {
      var q := FromOrigin(p, vars, stored, links, idMap, k);
      OkAt(p, entry, bound, q);
      ResultKept(p, vars, stored, links, idMap, q);
      RenamedInstOk(idMap, p[q], bound);
      if p[q].op == OP_ENTRY_POINT && entry in idMap {
        EntryKept(p, vars, stored, links, idMap, entry, bound, q);
      }
    }
    if entry != 0 {
      var q := EntryAt(p, entry, bound);
      InResult(p, vars, stored, links, idMap, q);
      assert EnteredAt(r, NewIndex(Removed(p, vars), q));
    }
  }

  lemma EntryAt(p: seq<Inst>, entry: Id, bound: nat) returns (q: nat)
    requires Ready(p, entry, bound) && entry != 0
    ensures EnteredAt(p, q)
  {
    q :| EnteredAt(p, q);
  }

  /** The entry point's function is not a local id. */
  lemma EntryKept(p: seq<Inst>, vars: set<Id>, stored: map<Id, Id>, links: map<Id, Id>, idMap: map<Id, Id>, entry: Id,
                  bound: nat, q: nat)
    requires Found(p, vars, stored, links, idMap) && Ready(p, entry, bound) && q < |p| && p[q].op == OP_ENTRY_POINT
    ensures entry !in idMap
  {
    FoundKeys(p, vars, stored, links, idMap);
    NoZero(p, vars, stored, links, idMap);
    OkAt(p, entry, bound, q);
    if entry in idMap {
      hide Found, Ready;
      var l, st := LinkFn(p, vars, stored, links, idMap, entry, bound, entry);
      assert UsesOperand(p[q], entry) && entry != 0;
      LocalUse(p, entry, bound, l, q, entry);
    }
  }

  lemma RenamedInstOk(m: map<Id, Id>, inst: Inst, bound: nat)
    requires InstOk(inst, bound) && inst.resultId !in m && 0 !in m && forall x | x in m :: m[x] < bound
    ensures InstOk(Rename(m, inst), bound)
  {
    var r := Rename(m, inst);
    assert forall k :: 0 <= k < |r.operands| ==> (r.operands[k].IdRef? <==> inst.operands[k].IdRef?);
    forall y | y in IdsOf(r) ensures y < bound {
      if y in IdOperands(r.operands) {
        var k :| 0 <= k < |r.operands| && r.operands[k] == IdRef(y);
        assert r.operands[k] == RenameOperand(m, inst.operands[k]);
        assert inst.operands[k].id in IdOperands(inst.operands);
        assert inst.operands[k].id in IdsOf(inst);
      } else {
        assert inst.typeId in IdsOf(inst) && inst.resultId in IdsOf(inst);
      }
    }
  }

  /** The module is as fit for the later passes as before. */
  lemma OptKeepsReady(p: seq<Inst>, vars: set<Id>, stored: map<Id, Id>, links: map<Id, Id>, idMap: map<Id, Id>,
                      r: seq<Inst>, entry: Id, bound: nat)
    requires WellFormed(p) && OperandsDefinedFirst(p) && VarsNotStored(p) && Ready(p, entry, bound)
    requires IsOptimized(p, vars, stored, links, idMap, r)
    ensures Ready(r, entry, bound)
  {
    assert Found(p, vars, stored, links, idMap);
    OptKeepsIds(p, vars, stored, links, idMap, entry, bound);
    OptKeepsVars(p, vars, stored, links, idMap, entry, bound);
    OptKeepsFns(p, vars, stored, links, idMap, entry, bound);
    OptKeepsInsts(p, vars, stored, links, idMap, entry, bound);
  }
}
