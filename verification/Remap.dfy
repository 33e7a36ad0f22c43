/** The whole remapper: whatever passes are chosen, a closed module stays closed. */
module Remap {
  import opened StringLiterals
  import opened Spirv
  import opened DebugText
  import opened ModuleShape
  import opened Survival
  import opened DeadFunctions
  import opened DeadTypes
  import opened DeadVars
  import opened FunctionShape
  import opened OptLoadStore
  import opened OptLoadStoreShape
  import opened RemapPasses
  import opened IdMap

  datatype Options = Options(strip: bool, optLoadStore: bool, dceFuncs: bool, dceVars: bool, dceTypes: bool,
                             mapTypes: bool, mapNames: bool, mapFuncs: bool)

  /** Arbitrary hash values: for types and constants, for results and for other ids, by position. */
  datatype Hashes = Hashes(types: nat -> Word, results: nat -> Word, others: nat -> Word)

  /** The function named by the last entry point. */
  function EntryPointOf(p: seq<Inst>): Id {
    if p == [] then 0
    else
      var last := p[|p| - 1];
      if last.op == OP_ENTRY_POINT && |last.operands| > 1 then last.operands[1].Word() else EntryPointOf(p[..|p| - 1])
  }

  lemma {:induction false} EntryIs(p: seq<Inst>, entry: Id)
    requires OneEntry(p, entry)
    ensures EntryPointOf(p) == entry
  {
    if p != [] {
      var n := |p| - 1;
      if p[n].op == OP_ENTRY_POINT {
        assert EnteredAt(p, n);
      } else {
        forall q: nat | EnteredAt(p[..n], q)
          ensures OperandIs(p[..n][q], 1, entry)
        {
          assert EnteredAt(p, q);
        }
        if entry != 0 {
          var q :| EnteredAt(p, q);
          assert EnteredAt(p[..n], q);
        }
        EntryIs(p[..n], entry);
      }
    }
  }

  // ---------- dead code ----------

  /** Dead functions and unused variables together: nothing that stays uses them. */
  lemma DceUnused(p: seq<Inst>, entry: Id, bound: nat, alive: set<nat>, fns: bool, vars: bool, marks: set<nat>)
    requires Ready(p, entry, bound) && (fns ==> Survivors(CallGraph(FnsOf(p), entry), alive))
    requires forall i: nat ::
               i in marks <==> (fns && InDeadFn(p, DeadIds(FnsOf(p), alive), i)) || (vars && IsVarMark(p, i))
    ensures Unused(p, marks)
  {
    DebugDefinesNothing(p, entry, bound);
    forall d, q, x | 0 <= d < |p| && 0 <= q < |p| && d in marks && q !in marks && Defines(p[d], x)
      ensures !CoreMentions(p[q], x)
    {
      if fns && InDeadFn(p, DeadIds(FnsOf(p), alive), d) {
        DeadFnUnused(p, entry, bound, alive, d, q, x);
      } else if p[d].op == OP_VARIABLE {
        MarkedUnused(p, d, q, x);
      }
    }
  }

  lemma DebugDefinesNothing(p: seq<Inst>, entry: Id, bound: nat)
    requires Ready(p, entry, bound)
    ensures forall d :: 0 <= d < |p| && IsDebug(p[d]) ==> p[d].resultId == 0
  {
    forall d | 0 <= d < |p| && IsDebug(p[d]) ensures p[d].resultId == 0 {
      assert InstOk(p[d], bound);
    }
  }

  lemma TypesUnused(p: seq<Inst>, dead: set<nat>)
    requires UniqueResults(p) && Survivors(TypeGraph(p), Alive(|p|, dead))
    ensures Unused(p, dead)
  {
    forall d, q, x | 0 <= d < |p| && 0 <= q < |p| && d in dead && q !in dead && Defines(p[d], x)
      ensures !CoreMentions(p[q], x)
    {
      RemovedUnmentioned(p, dead, d, q);
    }
  }

  /** What holds between the passes from dead code removal on. */
  ghost predicate Sound(p: seq<Inst>, bound: nat) {
    ClosedCore(p) && UniqueResults(p) && InstsOk(p, bound)
  }

  lemma RemoveSound(p: seq<Inst>, marks: set<nat>, bound: nat)
    requires Sound(p, bound) && Unused(p, marks)
    ensures Sound(Compact(p, marks), bound)
  {
    RemoveClosed(p, marks);
    RemoveUnique(p, marks);
    var r := Compact(p, marks);
    forall k | 0 <= k < |r| ensures InstOk(r[k], bound) {
      var q := CompactOrigin(p, marks, k);
    }
  }

  lemma SoundShape(p: seq<Inst>, bound: nat)
    requires Sound(p, bound)
    ensures DebugShape(p) && TypesHaveResults(p) && UniqueResults(p) && ClosedCore(p)
  {
    forall q | 0 <= q < |p| ensures DebugOk(p[q]) && (IsTypeConst(p[q]) ==> p[q].resultId != 0) {
      assert InstOk(p[q], bound);
    }
  }

  /** All ids used are below the bound. */
  ghost predicate IdsBelow(p: seq<Inst>, bound: nat) {
    forall q, x: Id :: 0 <= q < |p| && Mentions(p[q], x) ==> x < bound
  }

  lemma SoundBelow(p: seq<Inst>, bound: nat)
    requires InstsOk(p, bound)
    ensures IdsBelow(p, bound)
  {
    forall q, x: Id | 0 <= q < |p| && Mentions(p[q], x) ensures x < bound {
      assert InstOk(p[q], bound);
      assert x in IdsOf(p[q]);
    }
  }

  /** The dead references gone, everything is defined, once, and below the bound. */
  lemma DeadRefsFinish(p: seq<Inst>, marks: set<nat>, bound: nat)
    requires Sound(p, bound) && forall i: nat :: i in marks <==> IsDeadRef(p, Results(p), i)
    ensures var r := Compact(p, marks); Closed(r) && UniqueResults(r) && InstsOk(r, bound) && IdsBelow(r, bound)
  {
    SoundShape(p, bound);
    DeadRefsGone(p, marks);
    RemoveUnique(p, marks);
    var r := Compact(p, marks);
    forall k | 0 <= k < |r| ensures InstOk(r[k], bound) {
      var q := CompactOrigin(p, marks, k);
    }
    SoundBelow(r, bound);
  }

  // ---------- new ids ----------

  ghost predicate IsUsed(p: seq<Inst>, x: Id) {
    exists q :: 0 <= q < |p| && Mentions(p[q], x)
  }

  function UsedIds(p: seq<Inst>): seq<Id> {
    if p == [] then [] else UsedIds(p[..|p| - 1]) + NonZero(IdsOf(p[|p| - 1]))
  }

  lemma {:induction false} UsedIdsAre(p: seq<Inst>)
    ensures forall x :: x in UsedIds(p) <==> IsUsed(p, x)
  {
    if p != [] {
      var n := |p| - 1;
      UsedIdsAre(p[..n]);
      forall x ensures x in UsedIds(p) <==> IsUsed(p, x) {
        assert x in NonZero(IdsOf(p[n])) <==> Mentions(p[n], x);
        UsedNext(p, n, x);
      }
    }
  }

  lemma UsedNext(p: seq<Inst>, n: nat, x: Id)
    requires |p| == n + 1
    ensures IsUsed(p, x) <==> IsUsed(p[..n], x) || Mentions(p[n], x)
  {
    hide Mentions;
    if IsUsed(p[..n], x) {
      var q :| 0 <= q < n && Mentions(p[..n][q], x);
      assert Mentions(p[q], x);
    }
    if q :| 0 <= q < n && Mentions(p[q], x) {
      assert Mentions(p[..n][q], x);
    }
  }

  function NonZero(ids: seq<Id>): (r: seq<Id>)
    ensures forall x :: x in r <==> x in ids && x != 0
  {
    if ids == [] then [] else (if ids[0] == 0 then [] else [ids[0]]) + NonZero(ids[1..])
  }

  /** A fresh name for every used id keeps the module closed. */
  lemma RenameClosed(p: seq<Inst>, m: map<Id, Id>, bound: nat)
    requires Closed(p) && UniqueResults(p) && 0 !in m
    requires forall q, x :: 0 <= q < |p| && Mentions(p[q], x) ==> x in m
    requires forall x, y :: x in m && y in m && m[x] == m[y] ==> x == y
    requires forall x :: x in m ==> 1 <= m[x] < bound
    ensures var r := Renamed(m, p); Closed(r) && UniqueResults(r) && IdsBelow(r, bound)
  {
    var r := Renamed(m, p);
    forall q, y: Id | 0 <= q < |r| && Mentions(r[q], y)
      ensures Defined(r, y) && y < bound
    {
      var x := RenamedMention(m, p[q], y);
      assert Defined(p, x);
      var d :| 0 <= d < |p| && Defines(p[d], x);
      assert Defines(r[d], y);
    }
    forall i, j | 0 <= i < |r| && 0 <= j < |r| && r[i].resultId == r[j].resultId != 0
      ensures i == j
    {
      ResultMapped(m, p[i]);
      ResultMapped(m, p[j]);
    }
  }

  lemma ResultMapped(m: map<Id, Id>, inst: Inst)
    requires 0 !in m && (forall x :: Mentions(inst, x) ==> x in m) && Rename(m, inst).resultId != 0
    ensures inst.resultId != 0 && inst.resultId in m && m[inst.resultId] == Rename(m, inst).resultId
  {
    assert inst.resultId != 0 ==> Mentions(inst, inst.resultId);
  }

  lemma RenamedMention(m: map<Id, Id>, inst: Inst, y: Id) returns (x: Id)
    requires 0 !in m && Mentions(Rename(m, inst), y)
    ensures Mentions(inst, x) && RenameId(m, x) == y
  {
    var r := Rename(m, inst);
    if r.typeId == y {
      x := inst.typeId;
    } else if r.resultId == y {
      x := inst.resultId;
    } else {
      var k :| 0 <= k < |r.operands| && r.operands[k] == IdRef(y);
      assert r.operands[k] == RenameOperand(m, inst.operands[k]);
      x := inst.operands[k].id;
      assert inst.operands[k] == IdRef(x);
    }
  }

  lemma {:induction false} UsedAtMost(m: seq<Word>)
    ensures |Used(m)| <= |m|
    decreases |m|
  {
    if m == [] {
      assert Used(m) == {};
    } else {
      var n := |m| - 1;
      UsedAtMost(m[..n]);
      assert Used(m) == if m[n] != UNUSED then Used(m[..n]) + {n} else Used(m[..n]);
    }
  }

  // ---------- what each stage makes of the module ----------

  /** The module without stripped debug instructions, then with its loads and stores optimized. */
  ghost predicate IsPrepared(options: Options, whiteList: seq<seq<Byte>>, p: seq<Inst>, r: seq<Inst>) {
    var q := if options.strip then Compact(p, set i: nat | i < |p| && IsStripped(p, whiteList, i)) else p;
    if options.optLoadStore then exists vars, stored, links, idMap :: IsOptimized(q, vars, stored, links, idMap, r)
    else r == q
  }

  /** What dead function removal and unused variable removal mark. */
  function DeadMarks(options: Options, p: seq<Inst>, alive: set<nat>): set<nat> {
    set i: nat | i < |p| && ((options.dceFuncs && InDeadFn(p, DeadIds(FnsOf(p), alive), i))
                             || (options.dceVars && IsVarMark(p, i)))
  }

  /** The module without dead functions and unused variables, then without unused types and constants. */
  ghost predicate IsPruned(options: Options, p: seq<Inst>, r: seq<Inst>) {
    exists alive ::
      && (options.dceFuncs ==> Survivors(CallGraph(FnsOf(p), EntryPointOf(p)), alive))
      && WithoutUnusedTypes(options, Compact(p, DeadMarks(options, p, alive)), r)
  }

  ghost predicate WithoutUnusedTypes(options: Options, q: seq<Inst>, r: seq<Inst>) {
    if options.dceTypes then exists dead :: Survivors(TypeGraph(q), Alive(|q|, dead)) && r == Compact(q, dead)
    else r == q
  }

  /** The module without names and decorations of ids that have no definition. */
  function CleanedUp(p: seq<Inst>): seq<Inst> {
    Compact(p, set i: nat | i < |p| && IsDeadRef(p, Results(p), i))
  }

  /** The module with exactly its ids renamed, one to one, to ids below a bound that is no larger than needed. */
  ghost predicate IsRenamed(p: seq<Inst>, r: seq<Inst>, bound: nat) {
    exists m :: r == Renamed(m, p) && ChosenIds(p, m, bound)
  }

  ghost predicate ChosenIds(p: seq<Inst>, m: map<Id, Id>, bound: nat) {
    && (forall x :: x in m <==> IsUsed(p, x))
    && (forall x, y :: x in m && y in m && m[x] == m[y] ==> x == y)
    && (forall x :: x in m ==> 1 <= m[x] < bound)
    && (bound > 0 ==> exists x :: x in m && m[x] == bound - 1)
    && bound <= 25273 + |m.Keys|
  }

  predicate MapsAny(options: Options) {
    options.mapTypes || options.mapNames || options.mapFuncs
  }

  /** What the remapper makes of a module. */
  ghost predicate IsRemapped(options: Options, whiteList: seq<seq<Byte>>, p: seq<Inst>, bound: nat, r: seq<Inst>,
                             newBound: nat) {
    exists a, b ::
      && IsPrepared(options, whiteList, p, a)
      && IsPruned(options, a, b)
      && if MapsAny(options) then IsRenamed(CleanedUp(b), r, newBound) else r == CleanedUp(b) && newBound == bound
  }

  /** Without any option the remapper only removes names and decorations of undefined ids. */
  lemma NothingChosen(options: Options, whiteList: seq<seq<Byte>>, p: seq<Inst>, bound: nat, r: seq<Inst>,
                      newBound: nat)
    requires IsRemapped(options, whiteList, p, bound, r, newBound)
    requires options == Options(false, false, false, false, false, false, false, false)
    ensures r == CleanedUp(p) && newBound == bound
  {
    hide CleanedUp, Compact, InDeadFn, IsVarMark;
    var a, b :|
      && IsPrepared(options, whiteList, p, a)
      && IsPruned(options, a, b)
      && r == CleanedUp(b) && newBound == bound;
    var alive :| WithoutUnusedTypes(options, Compact(a, DeadMarks(options, a, alive)), b);
    assert DeadMarks(options, a, alive) == {};
    NoneDead(a);
  }

  // ---------- names and decorations of variables ----------

  lemma {:induction false} InCompact(p: seq<Inst>, marks: set<nat>, inst: Inst)
    ensures inst in Compact(p, marks) <==> exists i: nat :: i < |p| && i !in marks && p[i] == inst
  {
    hide Compact, NewIndex;
    var r := Compact(p, marks);
    if inst in r {
      var k :| 0 <= k < |r| && r[k] == inst;
      var i := CompactOrigin(p, marks, k);
    }
    if i: nat :| i < |p| && i !in marks && p[i] == inst {
      CompactAt(p, marks, i);
    }
  }

  /** Removing unused types and constants removes nothing else. */
  lemma OthersStay(options: Options, q: seq<Inst>, r: seq<Inst>, inst: Inst)
    requires WithoutUnusedTypes(options, q, r) && !IsTypeConst(inst)
    ensures inst in r <==> inst in q
  {
    if options.dceTypes {
      var dead :| Survivors(TypeGraph(q), Alive(|q|, dead)) && r == Compact(q, dead);
      InCompact(q, dead, inst);
      if i: nat :| i < |q| && q[i] == inst {
        ReferredSurvives(TypeGraph(q), Alive(|q|, dead), i);
      }
    }
  }

  /**
   * A name or decoration of a variable, outside of functions, stays exactly if something counts the variable again or
   * unused variables are not to be removed.
   */
  lemma VariableDebugKeptIff(options: Options, p: seq<Inst>, r: seq<Inst>, d: nat, k: nat, x: Id)
    requires IsPruned(options, p, r) && d < |p| && p[d].op == OP_VARIABLE && Defines(p[d], x)
    requires k < |p| && NamesOrDecorates(p[k], x) && forall i :: 0 <= i < |p| && p[i] == p[k] ==> FnOf(p, i) == 0
    ensures p[k] in r <==> !options.dceVars || exists q :: 0 <= q < |p| && Recounts(p, x, d, q)
  {
    hide Survivors, Compact, FnOf, Recounts, WithoutUnusedTypes, IsVarMark;
    var alive :| (options.dceFuncs ==> Survivors(CallGraph(FnsOf(p), EntryPointOf(p)), alive))
                 && WithoutUnusedTypes(options, Compact(p, DeadMarks(options, p, alive)), r);
    var marks := DeadMarks(options, p, alive);
    OthersStay(options, Compact(p, marks), r, p[k]);
    InCompact(p, marks, p[k]);
    forall i: nat | i < |p| && p[i] == p[k]
      ensures i in marks <==> options.dceVars && forall q :: 0 <= q < |p| ==> !Recounts(p, x, d, q)
    {
      DebugMarkedIff(p, d, i, x);
    }
  }

  // ---------- the passes in order ----------

  class Remapper {
    /** The instructions and the id bound of the header. */
    var insts: seq<Inst>
    var bound: nat
    /** What is marked for stripping. */
    var stripRange: set<nat>

    constructor (insts: seq<Inst>, bound: nat)
      ensures this.insts == insts && this.bound == bound && stripRange == {}
    {
      this.insts, this.bound, stripRange := insts, bound, {};
    }

    /** Takes out what is marked. */
    method StripMarked()
      modifies `insts, `stripRange
      ensures insts == Compact(old(insts), old(stripRange)) && stripRange == {}
    {
      insts := Strip(insts, stripRange);
      stripRange := {};
    }

    /** Debug stripping and the load/store optimization. */
    method Prepare(options: Options, whiteList: seq<seq<Byte>>, ghost entry: Id)
      requires Ready(insts, entry, bound) && stripRange == {}
      requires options.optLoadStore ==> WellFormed(insts) && OperandsDefinedFirst(insts) && VarsNotStored(insts)
      modifies `insts, `stripRange
      ensures Ready(insts, entry, bound) && stripRange == {}
      ensures IsPrepared(options, whiteList, old(insts), insts)
    {
      hide Ready, IsOptimized, Compact;
      if options.strip {
        stripRange := StripDebug(insts, whiteList);
        assert stripRange == set i: nat | i < |insts| && IsStripped(insts, whiteList, i);
        StripDebugKeeps(insts, stripRange, entry, bound);
        if options.optLoadStore {
          RemoveKeepsLoadStore(insts, stripRange);
        }
        StripMarked();
      }
      if options.optLoadStore {
        var p := insts;
        var r;
        ghost var vars, stored, links, idMap;
        r, vars, stored, links, idMap := OptLoadStore.OptLoadStore(p);
        OptKeepsReady(p, vars, stored, links, idMap, r, entry, bound);
        insts := r;
      }
    }

    /** Dead functions, variables and types. */
    method RemoveDeadCode(options: Options, ghost entry: Id)
      requires Ready(insts, entry, bound) && stripRange == {}
      modifies `insts, `stripRange
      ensures Sound(insts, bound) && stripRange == {}
      ensures IsPruned(options, old(insts), insts)
    {
      hide Ready, Compact, Survivors, InDeadFn, IsVarMark;
      ghost var p := insts;
      ghost var alive: set<nat> := {};
      ReadyEntry(insts, entry, bound);
      if options.dceFuncs {
        var fns := CollectFns(insts);
        var counter := new CallCounter();
        counter.BuildCalls(fns);
        counter.DceFuncs(fns, EntryPointOf(insts));
        stripRange := MarkFunctions(insts, DeadIds(fns, counter.fnPos));
        alive := counter.fnPos;
      }
      if options.dceVars {
        var vars := DceVars(insts);
        stripRange := stripRange + vars;
      }
      MarksAre(options, insts, alive, stripRange);
      DceUnused(insts, entry, bound, alive, options.dceFuncs, options.dceVars, stripRange);
      assert Sound(insts, bound) by { ReadySound(insts, entry, bound); }
      RemoveSound(insts, stripRange, bound);
      StripMarked();
      ghost var q := insts;
      if options.dceTypes {
        SoundShape(insts, bound);
        var r;
        ghost var dead;
        r, dead := DceTypes(insts);
        TypesUnused(insts, dead);
        RemoveSound(insts, dead, bound);
        insts := r;
      }
      assert WithoutUnusedTypes(options, q, insts);
    }

    /** Names and decorations of removed ids. */
    method CleanUp()
      requires Sound(insts, bound) && stripRange == {}
      modifies `insts, `stripRange
      ensures Closed(insts) && UniqueResults(insts) && InstsOk(insts, bound) && IdsBelow(insts, bound)
              && stripRange == {}
      ensures insts == CleanedUp(old(insts))
    {
      stripRange := StripDeadRefs(insts);
      assert stripRange == set i: nat | i < |insts| && IsDeadRef(insts, Results(insts), i);
      DeadRefsFinish(insts, stripRange, bound);
      StripMarked();
    }

    /** Requests of the mapping passes, by position. */
    method Requests(hashes: Hashes) returns (types: seq<Request>, results: seq<Request>, others: seq<Request>)
      requires InstsOk(insts, bound)
      ensures forall k :: 0 <= k < |types| ==> types[k].id < bound
      ensures forall k :: 0 <= k < |results| ==> results[k].id < bound
      ensures forall k :: 0 <= k < |others| ==> others[k].id < bound
    {
      types, results, others := [], [], [];
      for k := 0 to |insts|
        invariant forall k :: 0 <= k < |types| ==> types[k].id < bound
        invariant forall k :: 0 <= k < |results| ==> results[k].id < bound
        invariant forall k :: 0 <= k < |others| ==> others[k].id < bound
      {
        assert InstOk(insts[k], bound);
        var id := insts[k].resultId;
        var ids := IdsOf(insts[k]);
        assert id == ids[1] && id in ids;
        if IsTypeConst(insts[k]) {
          types := types + [Request(id, hashes.types(k))];
        } else if id != 0 {
          results := results + [Request(id, hashes.results(k))];
        }
        for c := 0 to |ids|
          invariant forall k :: 0 <= k < |others| ==> others[k].id < bound
        {
          assert ids[c] in ids;
          if ids[c] != 0 {
            others := others + [Request(ids[c], hashes.others(|others|))];
          }
        }
      }
    }

    /** The mapping passes: a new id for every id in use. */
    method ChooseIds(options: Options, hashes: Hashes, names: seq<Request>) returns (m: map<Id, Id>, newBound: nat)
      requires InstsOk(insts, bound) && IdsBelow(insts, bound)
      requires (forall k :: 0 <= k < |names| ==> names[k].id < bound) && 25273 + bound + 1 < UNUSED
      ensures ChosenIds(insts, m, newBound)
    {
      hide InstsOk, IdsBelow, IsUsed, Used, Image, Injective, IsBound, UsedIds, InBits, ChosenIds;
      var types, results, others := Requests(hashes);
      var used := UsedIds(insts);
      UsedBelow(insts, bound);
      var mapper := new Mapper(bound);
      mapper.BuildIdMap(used);
      ghost var m0 := mapper.idMapL;
      assert |Used(m0)| <= bound + 1 by { UsedAtMost(m0); }
      mapper.AssignIds(if options.mapTypes then types else [], if options.mapNames then names else [],
                       if options.mapFuncs then results else [], if options.mapFuncs then others else []);
      m := map x | x in used :: mapper.idMapL[x] as nat;
      newBound := mapper.bound;
      NewNames(insts, used, m0, mapper.idMapL, m, newBound);
    }

    /** Chooses new ids and replaces the old ones. */
    method MapIds(options: Options, hashes: Hashes, names: seq<Request>)
      requires Closed(insts) && UniqueResults(insts) && InstsOk(insts, bound) && IdsBelow(insts, bound)
      requires (forall k :: 0 <= k < |names| ==> names[k].id < bound) && 25273 + bound + 1 < UNUSED
      modifies `insts, `bound
      ensures Closed(insts) && UniqueResults(insts) && IdsBelow(insts, bound)
      ensures IsRenamed(old(insts), insts, bound)
    {
      hide Closed, UniqueResults, InstsOk, IdsBelow, IsUsed, Renamed;
      var m, newBound := ChooseIds(options, hashes, names);
      MentionsAreUsed(insts);
      ZeroUnused(insts);
      RenameClosed(insts, m, newBound);
      insts := Renamed(m, insts);
      bound := newBound;
    }

    /**
     * Whatever is chosen: every id used in the result is defined there, once, and below the bound of the result's
     * header; and the result is what the chosen passes make of the module, one after the other.
     */
    method Remap(options: Options, whiteList: seq<seq<Byte>>, hashes: Hashes, names: seq<Request>, ghost entry: Id)
      requires Ready(insts, entry, bound) && stripRange == {} && 25273 + bound + 1 < UNUSED
      requires options.optLoadStore ==> WellFormed(insts) && OperandsDefinedFirst(insts) && VarsNotStored(insts)
      requires forall k :: 0 <= k < |names| ==> names[k].id < bound
      modifies this
      ensures Closed(insts) && UniqueResults(insts) && IdsBelow(insts, bound)
      ensures IsRemapped(options, whiteList, old(insts), old(bound), insts, bound)
    {
      hide Ready, Closed, UniqueResults, InstsOk, IdsBelow, IsPrepared, IsPruned, IsRenamed, CleanedUp, Sound;
      Prepare(options, whiteList, entry);
      RemoveDeadCode(options, entry);
      CleanUp();
      if MapsAny(options) {
        MapIds(options, hashes, names);
      }
    }
  }

  lemma ReadyEntry(p: seq<Inst>, entry: Id, bound: nat)
    requires Ready(p, entry, bound)
    ensures EntryPointOf(p) == entry
  {
    EntryIs(p, entry);
  }

  lemma ReadySound(p: seq<Inst>, entry: Id, bound: nat)
    requires Ready(p, entry, bound)
    ensures Sound(p, bound)
  {
  }

  lemma MarksAre(options: Options, p: seq<Inst>, alive: set<nat>, marks: set<nat>)
    requires forall i: nat :: i in marks <==> (options.dceFuncs && InDeadFn(p, DeadIds(FnsOf(p), alive), i))
                                              || (options.dceVars && IsVarMark(p, i))
    ensures marks == DeadMarks(options, p, alive)
  {
  }

  lemma UsedBelow(p: seq<Inst>, bound: nat)
    requires IdsBelow(p, bound)
    ensures forall k :: 0 <= k < |UsedIds(p)| ==> UsedIds(p)[k] < bound
    ensures forall x :: x in UsedIds(p) <==> IsUsed(p, x)
  {
    UsedIdsAre(p);
    forall k | 0 <= k < |UsedIds(p)|
      ensures UsedIds(p)[k] < bound
    {
      assert UsedIds(p)[k] in UsedIds(p) && IsUsed(p, UsedIds(p)[k]);
    }
  }

  lemma MentionsAreUsed(p: seq<Inst>)
    ensures forall q, x :: 0 <= q < |p| && Mentions(p[q], x) ==> IsUsed(p, x)
  {
  }

  /** The map that the mapping passes have made, restricted to the ids in use. */
  lemma NewNames(p: seq<Inst>, used: seq<Id>, m0: seq<Word>, all: seq<Word>, m: map<Id, Id>, bound: nat)
    requires forall x :: x in used <==> IsUsed(p, x)
    requires |all| == |m0| && forall k :: 0 <= k < |used| ==> used[k] < |m0|
    requires forall i :: 0 <= i < |m0| ==> (m0[i] != UNUSED <==> i in used)
    requires forall i :: 0 <= i < |all| ==> (IsNew(all[i]) <==> m0[i] != UNUSED)
    requires Injective(all) && IsBound(bound, all) && bound <= 25273 + |Used(m0)|
    requires forall i :: 0 <= i < |all| && IsNew(all[i]) ==> 1 <= all[i] < bound
    requires (forall x :: x in m <==> x in used) && forall x :: x in m ==> x < |all| && m[x] == all[x]
    ensures ChosenIds(p, m, bound)
  {
    hide IsUsed;
    assert Used(m0) == m.Keys by {
      forall x: nat
        ensures x in Used(m0) <==> x in m
      {
      }
    }
    if bound > 0 {
      var i :| 0 <= i < |all| && IsNew(all[i]) && bound - 1 == all[i];
      assert i in used;
      assert i in m;
    }
  }

  lemma ZeroUnused(p: seq<Inst>)
    ensures !IsUsed(p, 0)
  {
  }
}
