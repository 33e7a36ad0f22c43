/** Removing types and constants that nothing uses, by counting uses until nothing changes. */
module DeadTypes {
  import opened Spirv
  import opened ModuleShape
  import opened Survival

  predicate IsTypeConst(inst: Inst) {
    IsTypeOp(inst.op) || IsConstOp(inst.op)
  }

  /** How often `x` stands in id positions. */
  function Uses(p: seq<Inst>, x: Id): nat {
    if p == [] then 0 else Uses(p[..|p| - 1], x) + Occurs(IdsOf(p[|p| - 1]), x)
  }

  /** The instruction uses `x` otherwise than as its result. */
  predicate RefersTo(inst: Inst, x: Id) {
    x != 0 && (inst.typeId == x || UsesOperand(inst, x) || (inst.resultId == x && !IsTypeConst(inst)))
  }

  /** Instructions refer to the types and constants they use; only types and constants can be removed. */
  function TypeGraph(p: seq<Inst>): References {
    References(|p|,
               set j, i | 0 <= j < |p| && 0 <= i < |p| && IsTypeConst(p[i]) && RefersTo(p[j], p[i].resultId) :: (j, i),
               set i | 0 <= i < |p| && !IsTypeConst(p[i]))
  }

  function Alive(n: nat, dead: set<nat>): set<nat> {
    UpTo(n) - dead
  }

  /** A definition counts once, every other mention at least once. */
  lemma OwnUses(inst: Inst, x: Id)
    requires x != 0
    ensures Occurs(IdsOf(inst), x) > 0 <==> Mentions(inst, x)
    ensures inst.resultId == x && IsTypeConst(inst) ==> (Occurs(IdsOf(inst), x) > 1 <==> RefersTo(inst, x))
  {
    OccursIn(IdsOf(inst), x);
    OccursIn(IdOperands(inst.operands), x);
    OccursAppend([inst.typeId, inst.resultId], IdOperands(inst.operands), x);
    assert [inst.typeId, inst.resultId][..1] == [inst.typeId];
    assert Occurs([inst.typeId, inst.resultId], x) == Occurs([inst.typeId], x) + if inst.resultId == x then 1 else 0;
    assert [inst.typeId][..0] == [];
  }

  lemma {:induction false} UsesIn(p: seq<Inst>, x: Id)
    requires x != 0
    ensures Uses(p, x) > 0 <==> exists q :: 0 <= q < |p| && Mentions(p[q], x)
  {
    if p != [] {
      var n := |p| - 1;
      UsesIn(p[..n], x);
      OwnUses(p[n], x);
      if Uses(p[..n], x) > 0 {
        var q :| 0 <= q < n && Mentions(p[..n][q], x);
        assert Mentions(p[q], x);
      }
    }
  }

  /** A type or constant is counted once exactly if nothing refers to it. */
  lemma {:induction false} CountedOnce(p: seq<Inst>, d: nat)
    requires UniqueResults(p) && d < |p| && IsTypeConst(p[d]) && p[d].resultId != 0
    ensures Uses(p, p[d].resultId) >= 1
    ensures Uses(p, p[d].resultId) == 1 <==> forall q :: 0 <= q < |p| ==> !RefersTo(p[q], p[d].resultId)
    decreases |p|
  {
    var x := p[d].resultId;
    var n := |p| - 1;
    var init := p[..n];
    OwnUses(p[n], x);
    UsesIn(init, x);
    if d < n {
      assert UniqueResults(init);
      CountedOnce(init, d);
      assert RefersTo(p[n], x) <==> Mentions(p[n], x);
      assert forall q :: 0 <= q < n ==> init[q] == p[q];
    } else {
      assert forall q :: 0 <= q < n ==> init[q] == p[q] && (RefersTo(p[q], x) <==> Mentions(p[q], x));
    }
  }

  /** Marks in the compacted list, in numbers of the original one, and what they mean there. */
  lemma RoundKeeps(p: seq<Inst>, dead: set<nat>, marks: set<nat>)
    requires UniqueResults(p) && TypesHaveResults(p)
    requires forall b: set<nat> :: Sustained(TypeGraph(p), b) ==> b <= Alive(|p|, dead)
    requires forall k :: k in marks ==> IsCountedOnce(Compact(p, dead), k)
    ensures forall b: set<nat> :: Sustained(TypeGraph(p), b) ==> b <= Alive(|p|, Lift(|p|, dead, marks))
  {
    var g := TypeGraph(p);
    var r := Compact(p, dead);
    RemoveUnique(p, dead);
    forall b: set<nat>, i | Sustained(g, b) && i in b
      ensures i !in Lift(|p|, dead, marks)
    {
      if i !in dead && NewIndex(dead, i) in marks {
        var k := NewIndex(dead, i);
        CompactAt(p, dead, i);
        assert IsCountedOnce(r, k);
        CountedOnce(r, k);
        forall j | j in b ensures (j, i) !in g.edges {
          CompactAt(p, dead, j);
          assert !RefersTo(r[NewIndex(dead, j)], p[i].resultId);
        }
      }
    }
  }

  ghost predicate TypesHaveResults(p: seq<Inst>) {
    forall i :: 0 <= i < |p| && IsTypeConst(p[i]) ==> p[i].resultId != 0
  }

  predicate IsCountedOnce(r: seq<Inst>, k: nat) {
    k < |r| && IsTypeConst(r[k]) && r[k].resultId != 0 && Uses(r, r[k].resultId) == 1
  }

  /** When nothing is counted once, everything left is used by what is left. */
  lemma FixpointSustained(p: seq<Inst>, dead: set<nat>)
    requires UniqueResults(p) && TypesHaveResults(p)
    requires forall k :: 0 <= k < |Compact(p, dead)| ==> !IsCountedOnce(Compact(p, dead), k)
    ensures Sustained(TypeGraph(p), Alive(|p|, dead))
  {
    var g := TypeGraph(p);
    var a := Alive(|p|, dead);
    var r := Compact(p, dead);
    RemoveUnique(p, dead);
    forall i | i in a && i !in g.roots
      ensures exists j :: j in a && (j, i) in g.edges
    {
      CompactAt(p, dead, i);
      var k := NewIndex(dead, i);
      CountedOnce(r, k);
      assert !IsCountedOnce(r, k);
      var q :| 0 <= q < |r| && RefersTo(r[q], p[i].resultId);
      var j := CompactOrigin(p, dead, q);
      assert (j, i) in g.edges;
    }
  }

  /** Nothing that is left mentions the id of a removed type or constant. */
  lemma RemovedUnmentioned(p: seq<Inst>, dead: set<nat>, d: nat, q: nat)
    requires UniqueResults(p) && Survivors(TypeGraph(p), Alive(|p|, dead)) && d < |p| && d in dead && q < |p|
             && q !in dead
    requires p[d].resultId != 0
    ensures IsTypeConst(p[d]) && !Mentions(p[q], p[d].resultId)
  {
    var g := TypeGraph(p);
    var a := Alive(|p|, dead);
    if !IsTypeConst(p[d]) {
      ReferredSurvives(g, a, d);
    }
    if Mentions(p[q], p[d].resultId) {
      MentionIsReference(p, d, q);
      assert q in a && (q, d) in g.edges;
      ReferredSurvives(g, a, d);
    }
  }

  /** A chain of references from an instruction that is no type or constant to instruction `d`. */
  ghost predicate TransitivelyUsed(p: seq<Inst>, d: nat) {
    exists c :: IsUseChain(p, c) && c[|c| - 1] == d
  }

  ghost predicate IsUseChain(p: seq<Inst>, c: seq<nat>) {
    && c != []
    && (forall k :: 0 <= k < |c| ==> c[k] < |p| && (k == 0 <==> !IsTypeConst(p[c[k]])))
    && forall k :: 0 <= k < |c| - 1 ==> RefersTo(p[c[k]], p[c[k + 1]].resultId)
  }

  /** Types and constants are defined in front of the types and constants that use them. */
  ghost predicate TypesDefinedFirst(p: seq<Inst>) {
    forall j, i | 0 <= j < |p| && 0 <= i < |p| && IsTypeConst(p[j]) && IsTypeConst(p[i]) :: FirstDefined(p, j, i)
  }

  predicate FirstDefined(p: seq<Inst>, j: nat, i: nat)
    requires j < |p| && i < |p|
  {
    RefersTo(p[j], p[i].resultId) ==> i < j
  }

  /** Then exactly the types and constants that no other instruction uses, directly or not, are removed. */
  lemma DeadTypeIff(p: seq<Inst>, dead: set<nat>, d: nat)
    requires Survivors(TypeGraph(p), Alive(|p|, dead)) && TypesDefinedFirst(p) && d < |p|
    ensures d in dead <==> (19 <= p[d].op <= 38 || 41 <= p[d].op <= 46) && !TransitivelyUsed(p, d)
  {
    var g := TypeGraph(p);
    if IsTypeConst(p[d]) {
      var rank := Rank(p);
      TypesRanked(p);
      AcyclicSurvivors(g, Alive(|p|, dead), rank, d);
      if d !in dead {
        var c :| IsChain(g, c) && c[|c| - 1] == d && c[0] in g.roots;
        forall k | 0 < k < |c|
          ensures IsTypeConst(p[c[k]])
        {
          assert (c[k - 1], c[k - 1 + 1]) in g.edges;
        }
        assert IsUseChain(p, c);
      }
      if TransitivelyUsed(p, d) {
        var c :| IsUseChain(p, c) && c[|c| - 1] == d;
        assert IsChain(g, c);
      }
    } else {
      ReferredSurvives(g, Alive(|p|, dead), d);
    }
  }

  function Rank(p: seq<Inst>): nat -> nat {
    (i: nat) => if i < |p| && IsTypeConst(p[i]) then 1 + |p| - i else 0
  }

  lemma TypesRanked(p: seq<Inst>)
    requires TypesDefinedFirst(p)
    ensures Ranked(TypeGraph(p), Rank(p))
  {
    forall j, i | (j, i) in TypeGraph(p).edges
      ensures Rank(p)(j) < Rank(p)(i)
    {
      assert IsTypeConst(p[j]) ==> FirstDefined(p, j, i);
    }
  }

  lemma MentionIsReference(p: seq<Inst>, d: nat, q: nat)
    requires UniqueResults(p) && d < |p| && q < |p| && d != q && p[d].resultId != 0 && Mentions(p[q], p[d].resultId)
    ensures RefersTo(p[q], p[d].resultId)
  {
  }

  /**
   * Strips, counts and marks until nothing is marked. What is left is the largest part of the module in which every
   * type and constant is used by the part.
   */
  method DceTypes(p: seq<Inst>) returns (insts: seq<Inst>, ghost dead: set<nat>)
    requires UniqueResults(p) && TypesHaveResults(p)
    ensures insts == Compact(p, dead) && Survivors(TypeGraph(p), Alive(|p|, dead))
    ensures forall k :: 0 <= k < |insts| ==> !IsCountedOnce(insts, k)
  {
    insts := p;
    dead := {};
    NoneDead(p);
    NothingLost(p);
    var changed := true;
    while changed
      invariant insts == Compact(p, dead)
      invariant forall b: set<nat> :: Sustained(TypeGraph(p), b) ==> b <= Alive(|p|, dead)
      invariant !changed ==> forall k :: 0 <= k < |insts| ==> !IsCountedOnce(insts, k)
      decreases |insts|, changed
    {
      var marks := MarkOnce(insts);
      changed := marks != {};
      RoundKeeps(p, dead, marks);
      CompactTwice(p, dead, marks);
      if changed {
        MarksShrink(insts, marks);
      } else {
        NoneDead(insts);
      }
      ghost var next := Lift(|p|, dead, marks);
      insts := Strip(insts, marks);
      dead := next;
    }
    FixpointSustained(p, dead);
  }

  /** The types and constants that are counted once. */
  method MarkOnce(insts: seq<Inst>) returns (marks: set<nat>)
    ensures forall j: nat :: j in marks <==> IsCountedOnce(insts, j)
  {
    var typeUseCount := CountUses(insts);
    marks := {};
    for k := 0 to |insts|
      invariant forall j: nat :: j in marks <==> j < k && IsCountedOnce(insts, j)
    {
      var id := insts[k].resultId;
      if IsTypeConst(insts[k]) && id != 0 && id in typeUseCount && typeUseCount[id] == 1 {
        marks := marks + {k};
      }
    }
  }

  /** The instructions that are not marked. */
  method Strip(p: seq<Inst>, marks: set<nat>) returns (r: seq<Inst>)
    ensures r == Compact(p, marks)
  {
    r := [];
    for k := 0 to |p|
      invariant r == Compact(p[..k], marks)
    {
      assert p[..k + 1][..k] == p[..k];
      if k !in marks {
        r := r + [p[k]];
      }
    }
    assert p[..|p|] == p;
  }

/** The table holds the number of uses, and nothing for no uses. */
  predicate Counted(count: map<Id, nat>, x: Id, n: nat) {
    if n == 0 then x !in count else x in count && count[x] == n
  }

  predicate CountedPartly(count: map<Id, nat>, p: seq<Inst>, k: nat, ids: seq<Id>, x: Id)
    requires k <= |p|
  {
    Counted(count, x, Uses(p[..k], x) + Occurs(ids, x))
  }

  lemma CountedNext(p: seq<Inst>, k: nat, x: Id)
    requires k < |p|
    ensures Uses(p[..k + 1], x) == Uses(p[..k], x) + Occurs(IdsOf(p[k]), x)
  {
    assert p[..k + 1][..k] == p[..k];
  }

  /** Counts one more occurrence. */
  method CountOne(count: map<Id, nat>, id: Id) returns (r: map<Id, nat>)
    ensures forall x, n: nat :: Counted(count, x, n) ==> Counted(r, x, n + if x == id then 1 else 0)
  {
    r := count[id := (if id in count then count[id] else 0) + 1];
  }

  /** How often each id occurs in id positions, in one pass. */
  method CountUses(p: seq<Inst>) returns (count: map<Id, nat>)
    ensures forall x :: Counted(count, x, Uses(p, x))
  {
    hide Counted, Uses, Occurs;
    count := map[];
    NothingCounted();
    for k := 0 to |p|
      invariant forall x :: Counted(count, x, Uses(p[..k], x))
    {
      var ids := IdsOf(p[k]);
      NoneOccur();
      assert ids[..0] == [];
      for c := 0 to |ids|
        invariant forall x :: CountedPartly(count, p, k, ids[..c], x)
      {
        OccursNext(ids, c);
        ghost var was, now := count, ids[..c + 1];
        count := CountOne(count, ids[c]);
        forall x ensures CountedPartly(count, p, k, now, x) {
          assert CountedPartly(was, p, k, ids[..c], x);
          assert Occurs(now, x) == Occurs(ids[..c], x) + if ids[c] == x then 1 else 0;
        }
      }
      assert ids[..|ids|] == ids;
      ghost var upTo := p[..k + 1];
      forall x ensures Counted(count, x, Uses(upTo, x)) {
        assert CountedPartly(count, p, k, ids, x);
        CountedNext(p, k, x);
      }
    }
    assert p[..|p|] == p;
  }

  lemma NothingCounted()
    ensures forall x :: Counted(map[], x, Uses([], x))
  {
  }

  lemma {:induction false} NoneDead(p: seq<Inst>)
    ensures Compact(p, {}) == p
  {
    if p != [] {
      NoneDead(p[..|p| - 1]);
      assert p == p[..|p| - 1] + [p[|p| - 1]];
    }
  }

  lemma NothingLost(p: seq<Inst>)
    ensures forall b: set<nat> :: Sustained(TypeGraph(p), b) ==> b <= Alive(|p|, {})
  {
  }

  lemma {:induction false} MarksShrink(p: seq<Inst>, marks: set<nat>)
    requires exists k :: k in marks && k < |p|
    ensures |Compact(p, marks)| < |p|
  {
    var n := |p| - 1;
    CompactAtMost(p[..n], marks);
    if n !in marks {
      MarksShrink(p[..n], marks);
    }
  }

  lemma {:induction false} CompactAtMost(p: seq<Inst>, marks: set<nat>)
    ensures |Compact(p, marks)| <= |p|
  {
    if p != [] {
      CompactAtMost(p[..|p| - 1], marks);
    }
  }
}
