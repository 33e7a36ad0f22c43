/** Removing functions that are not called, by counting calls. */
module DeadFunctions {
  import opened Spirv
  import opened Survival

  /** A function's result id and the functions its call instructions name, in order. */
  datatype Fn = Fn(id: Id, calls: seq<Id>)

  /** The number of calls of `x` in the functions of `alive` among the first `k`. */
  function Calls(fns: seq<Fn>, alive: set<nat>, x: Id, k: nat): nat
    requires k <= |fns|
  {
    if k == 0 then 0
    else Calls(fns, alive, x, k - 1) + if k - 1 in alive then Occurs(fns[k - 1].calls, x) else 0
  }

  lemma {:induction false} CallsWithout(fns: seq<Fn>, alive: set<nat>, i: nat, x: Id, k: nat)
    requires i in alive && i < |fns| && k <= |fns|
    ensures Calls(fns, alive, x, k) == Calls(fns, alive - {i}, x, k) + if i < k then Occurs(fns[i].calls, x) else 0
  {
    if k > 0 {
      CallsWithout(fns, alive, i, x, k - 1);
    }
  }

  lemma {:induction false} NoCalls(fns: seq<Fn>, alive: set<nat>, x: Id, k: nat)
    requires k <= |fns|
    ensures Calls(fns, alive, x, k) == 0 <==> forall j :: j in alive && j < k ==> x !in fns[j].calls
  {
    if k > 0 {
      NoCalls(fns, alive, x, k - 1);
      OccursIn(fns[k - 1].calls, x);
    }
  }

  /** The counts are the numbers of calls, and there is no entry for zero. */
  ghost predicate Counts(fns: seq<Fn>, alive: set<nat>, fnCalls: map<Id, int>) {
    forall x :: CountIs(fnCalls, x, Calls(fns, alive, x, |fns|))
  }

  predicate CountIs(fnCalls: map<Id, int>, x: Id, n: int) {
    if n == 0 then x !in fnCalls else x in fnCalls && fnCalls[x] == n
  }

  /** Functions refer to what they call; the entry point is the root. */
  function CallGraph(fns: seq<Fn>, entryPoint: Id): References {
    References(|fns|,
               set j, i | 0 <= j < |fns| && 0 <= i < |fns| && fns[i].id in fns[j].calls :: (j, i),
               set i | 0 <= i < |fns| && fns[i].id == entryPoint)
  }

  class CallCounter {
    var fnCalls: map<Id, int>
    /** The functions not removed so far, by number. */
    var fnPos: set<nat>

    constructor ()
      ensures fnCalls == map[] && fnPos == {}
    {
      fnCalls, fnPos := map[], {};
    }

    /** Counts all calls of the module. */
    method BuildCalls(fns: seq<Fn>)
      modifies this
      ensures fnPos == UpTo(|fns|) && Counts(fns, fnPos, fnCalls)
    {
      fnCalls := map[];
      fnPos := UpTo(|fns|);
      for k := 0 to |fns|
        invariant fnPos == UpTo(|fns|)
        invariant forall x :: CountIs(fnCalls, x, Calls(fns, fnPos, x, k))
      {
        var calls := fns[k].calls;
        for c := 0 to |calls|
          invariant fnPos == UpTo(|fns|)
          invariant forall x :: CountIs(fnCalls, x, Calls(fns, fnPos, x, k) + Occurs(calls[..c], x))
        {
          OccursNext(calls, c);
          fnCalls := fnCalls[calls[c] := (if calls[c] in fnCalls then fnCalls[calls[c]] else 0) + 1];
        }
        assert calls[..|calls|] == calls;
      }
    }

    /** Takes the calls of a removed function out of the counts. */
    method Uncount(fns: seq<Fn>, fn: nat)
      requires fn in fnPos && fn < |fns| && Counts(fns, fnPos, fnCalls)
      modifies `fnCalls
      ensures Counts(fns, fnPos - {fn}, fnCalls)
    {
      var calls := fns[fn].calls;
      forall x ensures Calls(fns, fnPos, x, |fns|) == Calls(fns, fnPos - {fn}, x, |fns|) + Occurs(calls, x) {
        CallsWithout(fns, fnPos, fn, x, |fns|);
      }
      hide Calls;
      hide Occurs;
      assert calls[..0] == [];
      NoneOccur();
      for c := 0 to |calls|
        invariant forall x :: CountIs(fnCalls, x, Calls(fns, fnPos - {fn}, x, |fns|)
                                      + Occurs(calls, x) - Occurs(calls[..c], x))
      {
        OccursNext(calls, c);
        if calls[c] in fnCalls {
          fnCalls := fnCalls[calls[c] := fnCalls[calls[c]] - 1];
          if fnCalls[calls[c]] <= 0 {
            fnCalls := fnCalls - {calls[c]};
          }
        }
      }
      assert calls[..|calls|] == calls;
    }

    /**
     * Goes through the functions again and again, in any order, and removes those without calls. What is left is
     * the largest set in which every function is the entry point or is called from the set.
     */
    method DceFuncs(fns: seq<Fn>, entryPoint: Id)
      requires fnPos == UpTo(|fns|) && Counts(fns, fnPos, fnCalls)
      modifies this
      ensures Survivors(CallGraph(fns, entryPoint), fnPos)
      ensures Counts(fns, fnPos, fnCalls)
    {
      ghost var g := CallGraph(fns, entryPoint);
      var changed := true;
      while changed
        invariant fnPos <= UpTo(|fns|)
        invariant Counts(fns, fnPos, fnCalls)
        invariant forall b: set<nat> :: Sustained(g, b) ==> b <= fnPos
        invariant !changed ==> Sustained(g, fnPos)
        decreases |fnPos|, changed
      {
        changed := false;
        var todo := fnPos;
        ghost var was := fnPos;
        while todo != {}
          invariant fnPos <= was && todo <= fnPos && (changed <==> fnPos != was)
          invariant fnPos <= UpTo(|fns|)
          invariant Counts(fns, fnPos, fnCalls)
          invariant forall b: set<nat> :: Sustained(g, b) ==> b <= fnPos
          invariant !changed ==> forall i :: i in fnPos - todo ==> IsCalled(fns, fnPos, entryPoint, i)
          decreases |todo|
        {
          var fn: nat :| fn in todo;
          todo := todo - {fn};
          if fns[fn].id != entryPoint {
            assert CountIs(fnCalls, fns[fn].id, Calls(fns, fnPos, fns[fn].id, |fns|));
            NoCalls(fns, fnPos, fns[fn].id, |fns|);
            if fns[fn].id !in fnCalls || fnCalls[fns[fn].id] == 0 {
              changed := true;
              Uncount(fns, fn);
              RemoveUncalled(fns, fnPos, entryPoint, fn);
              fnPos := fnPos - {fn};
            }
          }
        }
        if changed {
          Smaller(fnPos, was);
        } else {
          AllCalled(fns, fnPos, entryPoint);
        }
      }
    }
  }

  /** The entry point, or called from the set. */
  ghost predicate IsCalled(fns: seq<Fn>, alive: set<nat>, entryPoint: Id, i: nat)
    requires i < |fns|
  {
    fns[i].id == entryPoint || exists j :: j in alive && j < |fns| && fns[i].id in fns[j].calls
  }

  lemma AllCalled(fns: seq<Fn>, alive: set<nat>, entryPoint: Id)
    requires alive <= UpTo(|fns|) && forall i :: i in alive ==> IsCalled(fns, alive, entryPoint, i)
    ensures Sustained(CallGraph(fns, entryPoint), alive)
  {
    forall i | i in alive && i !in CallGraph(fns, entryPoint).roots
      ensures exists j :: j in alive && (j, i) in CallGraph(fns, entryPoint).edges
    {
      assert IsCalled(fns, alive, entryPoint, i);
      var j :| j in alive && j < |fns| && fns[i].id in fns[j].calls;
      assert (j, i) in CallGraph(fns, entryPoint).edges;
    }
  }

  lemma RemoveUncalled(fns: seq<Fn>, alive: set<nat>, entryPoint: Id, fn: nat)
    requires fn < |fns| && fns[fn].id != entryPoint
    requires forall j :: j in alive && j < |fns| ==> fns[fn].id !in fns[j].calls
    requires forall b: set<nat> :: Sustained(CallGraph(fns, entryPoint), b) ==> b <= alive
    ensures forall b: set<nat> :: Sustained(CallGraph(fns, entryPoint), b) ==> b <= alive - {fn}
  {
    forall b: set<nat> | Sustained(CallGraph(fns, entryPoint), b)
      ensures b <= alive - {fn}
    {
      RemoveOne(CallGraph(fns, entryPoint), alive, fn, b);
    }
  }

  lemma Smaller(a: set<nat>, b: set<nat>)
    requires a <= b && a != b
    ensures |a| < |b|
  {
    var x :| x in b && x !in a;
    SubsetSize(a, b - {x});
  }

  /** Functions 2 and 3 call each other, and function 1, the entry point, calls nothing. */
  const CALL_CYCLE: seq<Fn> := [Fn(1, []), Fn(2, [3]), Fn(3, [2])]

  /** They are kept, although no chain of calls leads to them. */
  lemma CycleSurvives(alive: set<nat>)
    requires Survivors(CallGraph(CALL_CYCLE, 1), alive)
    ensures 1 in alive && 2 in alive
    ensures !Reached(CallGraph(CALL_CYCLE, 1), 1) && !Reached(CallGraph(CALL_CYCLE, 1), 2)
  {
    var g := CallGraph(CALL_CYCLE, 1);
    assert g.roots == {0} && (1, 2) in g.edges && (2, 1) in g.edges;
    assert forall i: nat :: (0, i) !in g.edges;
    assert Sustained(g, {0, 1, 2});
    forall p | IsChain(g, p) && p[0] in g.roots
      ensures p[|p| - 1] == 0
    {
      FirstReference(g, p);
    }
  }

  lemma FirstReference(g: References, p: seq<nat>)
    requires IsChain(g, p)
    ensures |p| > 1 ==> (p[0], p[1]) in g.edges
  {
  }
}
