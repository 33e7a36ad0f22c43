/** The `Aligned` operand of loads and stores through physical storage buffer pointers. */
module Alignment {
  import opened Bits

  type Id = nat

  const PHYSICAL_STORAGE_BUFFER: nat := 5349

  datatype Def =
    | AccessChain(base: Id, indices: seq<Id>)
    | Constant(value: nat)
    | Pointer(storage: nat, pointee: Id)
    | Struct(members: seq<Id>)
    | Array(element: Id)
    | RuntimeArray(element: Id)
    | Matrix(column: Id)
    | OtherDef

  datatype Instruction = Instruction(typeId: Id, def: Def)

  type Module = map<Id, Instruction>

  datatype Kind = Offset | ArrayStride | MatrixStride | OtherKind

  datatype Decoration =
    | MemberDecorate(target: Id, member: nat, kind: Kind, value: nat)
    | Decorate(target: Id, kind: Kind, value: nat)

  // ---------- the walk along an access chain ----------

  /** The ids that a walk along `indices` from type `t` looks up are defined, and struct members exist. */
  predicate Walkable(m: Module, t: Id, indices: seq<Id>)
    decreases |indices|
  {
    && t in m
    && (indices != [] ==>
          indices[0] in m
          && match m[t].def
             case Struct(members) =>
               && m[indices[0]].def.Constant?
               && m[indices[0]].def.value < |members|
               && Walkable(m, members[m[indices[0]].def.value], indices[1..])
             case Array(e) => Walkable(m, e, indices[1..])
             case RuntimeArray(e) => Walkable(m, e, indices[1..])
             case _ => true)
  }

  predicate PlacesMember(d: Decoration, t: Id, c: nat) {
    d.MemberDecorate? && d.target == t && d.member == c && (d.kind == Offset || d.kind == MatrixStride)
  }

  predicate PlacesElement(d: Decoration, t: Id) {
    d.Decorate? && d.target == t && d.kind == ArrayStride
  }

  /** The values of the decorations that place member `c` of `t`, and the elements of `t`. */
  function MemberValues(decorations: seq<Decoration>, t: Id, c: nat): (vs: seq<nat>)
    ensures forall d | d in decorations && PlacesMember(d, t, c) :: d.value in vs
  {
    if decorations == [] then []
    else
      var d := decorations[|decorations| - 1];
      MemberValues(decorations[..|decorations| - 1], t, c) + if PlacesMember(d, t, c) then [d.value] else []
  }

  function ElementValues(decorations: seq<Decoration>, t: Id): (vs: seq<nat>)
    ensures forall d | d in decorations && PlacesElement(d, t) :: d.value in vs
  {
    if decorations == [] then []
    else
      var d := decorations[|decorations| - 1];
      ElementValues(decorations[..|decorations| - 1], t) + if PlacesElement(d, t) then [d.value] else []
  }

  /** All the values met on the walk. */
  function Met(m: Module, decorations: seq<Decoration>, t: Id, indices: seq<Id>): seq<nat>
    requires Walkable(m, t, indices)
    decreases |indices|
  {
    if indices == [] then []
    else
      match m[t].def
      case Struct(members) =>
        var c := m[indices[0]].def.value;
        MemberValues(decorations, t, c) + Met(m, decorations, members[c], indices[1..])
      case Array(e) => ElementValues(decorations, t) + Met(m, decorations, e, indices[1..])
      case RuntimeArray(e) => ElementValues(decorations, t) + Met(m, decorations, e, indices[1..])
      case _ => []
  }

  /** The type that `n` indices lead to, when there are only structs and arrays on the way. */
  ghost predicate LeadsTo(m: Module, t: Id, indices: seq<Id>, n: nat, to: Id)
    decreases n
  {
    if n == 0 then to == t
    else
      && t in m && n <= |indices| && indices[0] in m
      && match m[t].def
         case Struct(members) =>
           && m[indices[0]].def.Constant? && m[indices[0]].def.value < |members|
           && LeadsTo(m, members[m[indices[0]].def.value], indices[1..], n - 1, to)
         case Array(e) => LeadsTo(m, e, indices[1..], n - 1, to)
         case RuntimeArray(e) => LeadsTo(m, e, indices[1..], n - 1, to)
         case _ => false
  }

  /** Index number `n` selects in `to` what `d` places, and `v` says where. */
  ghost predicate PlacesAt(m: Module, indices: seq<Id>, n: nat, to: Id, d: Decoration, v: nat) {
    && n < |indices| && to in m && indices[n] in m
    && match m[to].def
       case Struct(_) =>
         && m[indices[n]].def.Constant?
         && (|| d == MemberDecorate(to, m[indices[n]].def.value, Offset, v)
             || d == MemberDecorate(to, m[indices[n]].def.value, MatrixStride, v))
       case Array(_) => d == Decorate(to, ArrayStride, v)
       case RuntimeArray(_) => d == Decorate(to, ArrayStride, v)
       case _ => false
  }

  ghost predicate IsMet(m: Module, decorations: seq<Decoration>, t: Id, indices: seq<Id>, v: nat) {
    exists n: nat, to: Id, d :: LeadsTo(m, t, indices, n, to) && d in decorations && PlacesAt(m, indices, n, to, d, v)
  }

  lemma {:induction false} MemberValuesAre(decorations: seq<Decoration>, t: Id, c: nat, v: nat)
    ensures v in MemberValues(decorations, t, c)
            <==> MemberDecorate(t, c, Offset, v) in decorations || MemberDecorate(t, c, MatrixStride, v) in decorations
  {
    if decorations != [] {
      var d := decorations[|decorations| - 1];
      assert decorations == decorations[..|decorations| - 1] + [d];
      MemberValuesAre(decorations[..|decorations| - 1], t, c, v);
    }
  }

  lemma {:induction false} ElementValuesAre(decorations: seq<Decoration>, t: Id, v: nat)
    ensures v in ElementValues(decorations, t) <==> Decorate(t, ArrayStride, v) in decorations
  {
    if decorations != [] {
      var d := decorations[|decorations| - 1];
      assert decorations == decorations[..|decorations| - 1] + [d];
      ElementValuesAre(decorations[..|decorations| - 1], t, v);
    }
  }

  /** Nothing is met but the Offset and MatrixStride of members selected and the ArrayStride of arrays passed. */
  lemma {:induction false} MetExactly(m: Module, decorations: seq<Decoration>, t: Id, indices: seq<Id>, v: nat)
    requires Walkable(m, t, indices)
    ensures v in Met(m, decorations, t, indices) <==> IsMet(m, decorations, t, indices, v)
    decreases |indices|
  {
    if indices != [] {
      match m[t].def {
        case Struct(members) =>
          var c := m[indices[0]].def.value;
          MemberValuesAre(decorations, t, c, v);
          MetNext(m, decorations, t, members[c], indices, v);
          MetExactly(m, decorations, members[c], indices[1..], v);
        case Array(e) =>
          ElementValuesAre(decorations, t, v);
          MetNext(m, decorations, t, e, indices, v);
          MetExactly(m, decorations, e, indices[1..], v);
        case RuntimeArray(e) =>
          ElementValuesAre(decorations, t, v);
          MetNext(m, decorations, t, e, indices, v);
          MetExactly(m, decorations, e, indices[1..], v);
        case _ =>
          assert forall n: nat, to: Id :: LeadsTo(m, t, indices, n, to) ==> n == 0 && to == t;
      }
    }
  }

  /** A value is met at the first index or later. */
  lemma MetNext(m: Module, decorations: seq<Decoration>, t: Id, e: Id, indices: seq<Id>, v: nat)
    requires indices != [] && LeadsTo(m, t, indices, 1, e) && t in m
    ensures IsMet(m, decorations, t, indices, v)
            <==> || (exists d :: d in decorations && PlacesAt(m, indices, 0, t, d, v))
                 || IsMet(m, decorations, e, indices[1..], v)
  {
    if d :| d in decorations && PlacesAt(m, indices, 0, t, d, v) {
      assert LeadsTo(m, t, indices, 0, t);
    }
    if n: nat, to: Id, d :| LeadsTo(m, e, indices[1..], n, to) && d in decorations
                            && PlacesAt(m, indices[1..], n, to, d, v) {
      assert LeadsTo(m, t, indices, n + 1, to) && PlacesAt(m, indices, n + 1, to, d, v);
    }
    if n: nat, to: Id, d :| LeadsTo(m, t, indices, n, to) && d in decorations && PlacesAt(m, indices, n, to, d, v) {
      if n > 0 {
        assert LeadsTo(m, e, indices[1..], n - 1, to) && PlacesAt(m, indices[1..], n - 1, to, d, v);
      }
    }
  }

  // ---------- the bytes that an access chain skips ----------

  /** The value of the first decoration of member `c` of `t` of this kind, and 0 when there is none. */
  function MemberPlaced(decorations: seq<Decoration>, t: Id, c: nat, kind: Kind): (v: nat)
    ensures v != 0 ==> MemberDecorate(t, c, kind, v) in decorations
  {
    if decorations == [] then 0
    else
      match decorations[0]
      case MemberDecorate(target, member, k, value) =>
        if target == t && member == c && k == kind then value else MemberPlaced(decorations[1..], t, c, kind)
      case Decorate(_, _, _) => MemberPlaced(decorations[1..], t, c, kind)
  }

  /** The value of the first ArrayStride of `t`, and 0 when there is none. */
  function ElementPlaced(decorations: seq<Decoration>, t: Id): (v: nat)
    ensures v != 0 ==> Decorate(t, ArrayStride, v) in decorations
  {
    if decorations == [] then 0
    else
      match decorations[0]
      case Decorate(target, kind, value) =>
        if target == t && kind == ArrayStride then value else ElementPlaced(decorations[1..], t)
      case MemberDecorate(_, _, _, _) => ElementPlaced(decorations[1..], t)
  }

  /**
   * The distance from the start of a value of type `t` to the part that `indices` select, down to a column of a
   * matrix, when index id `i` has value `at(i)`. `stride` is the MatrixStride of the member that is being selected.
   */
  function Displacement(m: Module, decorations: seq<Decoration>, t: Id, indices: seq<Id>, at: Id -> int, stride: nat)
    : int
    requires Walkable(m, t, indices)
    decreases |indices|
  {
    if indices == [] then 0
    else
      match m[t].def
      case Struct(members) =>
        var c := m[indices[0]].def.value;
        MemberPlaced(decorations, t, c, Offset)
        + Displacement(m, decorations, members[c], indices[1..], at, MemberPlaced(decorations, t, c, MatrixStride))
      case Array(e) =>
        at(indices[0]) * ElementPlaced(decorations, t)
        + Displacement(m, decorations, e, indices[1..], at, stride)
      case RuntimeArray(e) =>
        at(indices[0]) * ElementPlaced(decorations, t)
        + Displacement(m, decorations, e, indices[1..], at, stride)
      case Matrix(_) => at(indices[0]) * stride
      case _ => 0
  }

  // ---------- what the merged operand promises ----------

  ghost predicate DividesAll(k: nat, vs: seq<nat>) {
    forall v: nat :: v in vs ==> Divides(k, v)
  }

  ghost predicate AllZero(vs: seq<nat>) {
    forall v: nat :: v in vs ==> v == 0
  }

  /** `a` has the same powers of two as divisors as all of `vs` together. */
  ghost predicate Summary(a: nat, vs: seq<nat>) {
    && (a == 0 <==> AllZero(vs))
    && forall k: nat :: Divides(k, a) <==> DividesAll(k, vs)
  }

  /** `r` is the largest power of two that divides all of `vs`; it is 0 when all of them are. */
  ghost predicate LargestPower(r: nat, vs: seq<nat>) {
    if AllZero(vs) then r == 0
    else exists k: nat :: Pow2(k) == r && forall j: nat :: DividesAll(j, vs) <==> j <= k
  }

  lemma SummaryGrows(a: nat, vs: seq<nat>, v: nat)
    requires Summary(a, vs)
    ensures Summary(Or(a, v), vs + [v])
  {
    hide Or, Divides;
    OrZero(a, v);
    assert v in vs + [v];
    forall u: nat | u in vs
      ensures u in vs + [v]
    {
    }
    assert AllZero(vs + [v]) <==> AllZero(vs) && v == 0;
    forall k: nat
      ensures Divides(k, Or(a, v)) <==> DividesAll(k, vs + [v])
    {
      OrDivides(k, a, v);
      assert DividesAll(k, vs + [v]) <==> DividesAll(k, vs) && Divides(k, v);
    }
  }

  lemma EmptySummary()
    ensures Summary(0, [])
  {
  }

  lemma LowestIsLargest(a: nat, vs: seq<nat>)
    requires Summary(a, vs)
    ensures LargestPower(if a == 0 then 0 else AndNot(a, And(a, a - 1)), vs)
  {
    hide AndNot, And, Divides;
    if a != 0 {
      var k := LowestBit(a);
      assert Pow2(k) == AndNot(a, And(a, a - 1));
    }
  }

  /** The bytes skipped are a multiple of every power of two that divides all the values met. */
  lemma {:induction false} SkipsMultiples(m: Module, decorations: seq<Decoration>, t: Id, indices: seq<Id>,
                                          at: Id -> int, stride: nat, k: nat)
    requires Walkable(m, t, indices)
    requires DividesAll(k, Met(m, decorations, t, indices)) && Divides(k, stride)
    ensures Divides(k, Displacement(m, decorations, t, indices, at, stride))
    decreases |indices|
  {
    hide Divides;
    ZeroDivides(k);
    if indices != [] {
      match m[t].def {
        case Struct(members) =>
          var c := m[indices[0]].def.value;
          SkipsMember(m, decorations, t, c, members[c], indices, at, k);
        case Array(e) =>
          SkipsElements(m, decorations, t, e, indices, at, stride, k);
        case RuntimeArray(e) =>
          SkipsElements(m, decorations, t, e, indices, at, stride, k);
        case Matrix(_) =>
          ProductDivides(k, stride, at(indices[0]));
        case _ =>
      }
    }
  }

  lemma ZeroDivides(k: nat)
    ensures Divides(k, 0)
  {
  }

  lemma {:induction false} SkipsMember(m: Module, decorations: seq<Decoration>, t: Id, c: nat, e: Id, indices: seq<Id>,
                                       at: Id -> int, k: nat)
    requires indices != [] && Walkable(m, e, indices[1..])
    requires DividesAll(k, MemberValues(decorations, t, c) + Met(m, decorations, e, indices[1..]))
    ensures Divides(k, MemberPlaced(decorations, t, c, Offset)
                       + Displacement(m, decorations, e, indices[1..], at,
                                      MemberPlaced(decorations, t, c, MatrixStride)))
    decreases |indices|, 0
  {
    hide Divides, Walkable, Met, Displacement;
    ZeroDivides(k);
    assert DividesAll(k, MemberValues(decorations, t, c)) && DividesAll(k, Met(m, decorations, e, indices[1..]));
    var off, str := MemberPlaced(decorations, t, c, Offset), MemberPlaced(decorations, t, c, MatrixStride);
    assert PlacesMember(MemberDecorate(t, c, Offset, off), t, c);
    assert PlacesMember(MemberDecorate(t, c, MatrixStride, str), t, c);
    SkipsMultiples(m, decorations, e, indices[1..], at, str, k);
    SumDivides(k, off, Displacement(m, decorations, e, indices[1..], at, str));
  }

  lemma {:induction false} SkipsElements(m: Module, decorations: seq<Decoration>, t: Id, e: Id, indices: seq<Id>,
                                         at: Id -> int, stride: nat, k: nat)
    requires indices != [] && Walkable(m, e, indices[1..])
    requires DividesAll(k, ElementValues(decorations, t) + Met(m, decorations, e, indices[1..]))
    requires Divides(k, stride)
    ensures Divides(k, at(indices[0]) * ElementPlaced(decorations, t)
                       + Displacement(m, decorations, e, indices[1..], at, stride))
    decreases |indices|, 0
  {
    hide Divides;
    ZeroDivides(k);
    assert DividesAll(k, ElementValues(decorations, t)) && DividesAll(k, Met(m, decorations, e, indices[1..]));
    var size := ElementPlaced(decorations, t);
    assert PlacesElement(Decorate(t, ArrayStride, size), t);
    ProductDivides(k, size, at(indices[0]));
    SkipsMultiples(m, decorations, e, indices[1..], at, stride, k);
    SumDivides(k, at(indices[0]) * size, Displacement(m, decorations, e, indices[1..], at, stride));
  }

  /**
   * The new operand holds for every access: the address is a multiple of it when the base is a multiple of the old
   * operand.
   */
  lemma AddressIsAligned(m: Module, decorations: seq<Decoration>, t: Id, indices: seq<Id>, at: Id -> int,
                         base: int, was: nat, now: nat)
    requires Walkable(m, t, indices)
    requires was > 0 && base % was == 0
    requires LargestPower(now, Met(m, decorations, t, indices) + [was])
    ensures now > 0
    ensures (base + Displacement(m, decorations, t, indices, at, 0)) % now == 0
    ensures was % now == 0
  {
    hide *;
    var k := TheLargest(now, Met(m, decorations, t, indices), was);
    ZeroDivides(k);
    SkipsMultiples(m, decorations, t, indices, at, 0, k);
    BaseDivides(k, base, was);
    SumDivides(k, base, Displacement(m, decorations, t, indices, at, 0));
    DividesMeans(k, was);
    DividesMeans(k, base + Displacement(m, decorations, t, indices, at, 0));
  }

  lemma BaseDivides(k: nat, base: int, was: nat)
    requires was > 0 && base % was == 0 && Divides(k, was)
    ensures Divides(k, base)
  {
    hide Divides;
    ProductDivides(k, was, base / was);
    assert base / was * was == base;
  }

  lemma DividesMeans(k: nat, x: int)
    requires Divides(k, x)
    ensures Pow2(k) > 0 && x % Pow2(k) == 0
  {
  }

  lemma TheLargest(now: nat, vs: seq<nat>, was: nat) returns (k: nat)
    requires was > 0 && LargestPower(now, vs + [was])
    ensures now == Pow2(k) && DividesAll(k, vs) && Divides(k, was)
  {
    hide Divides;
    assert was in vs + [was];
    assert !AllZero(vs + [was]);
    k :| Pow2(k) == now && forall j: nat :: DividesAll(j, vs + [was]) <==> j <= k;
    assert DividesAll(k, vs + [was]);
    forall v: nat | v in vs
      ensures Divides(k, v)
    {
      assert v in vs + [was];
    }
  }

  // ---------- the pass ----------

  /** A load or a store: its operands are the pointer, for a store the value, the access mask and the alignment. */
  class MemoryAccess {
    const isStore: bool
    var operands: seq<nat>

    constructor (isStore: bool, operands: seq<nat>)
      ensures this.isStore == isStore && this.operands == operands
    {
      this.isStore := isStore;
      this.operands := operands;
    }

    function AlignmentIdx(): nat {
      if isStore then 3 else 2
    }
  }

  /** The access chain behind the pointer of an access, when its base points into a physical storage buffer. */
  predicate Applies(m: Module, pointer: Id) {
    && pointer in m
    && m[pointer].def.AccessChain?
    && m[pointer].def.base in m
    && var t := m[m[pointer].def.base].typeId;
       t in m && m[t].def.Pointer? && m[t].def.storage == 5349
  }

  function Pointee(m: Module, pointer: Id): Id
    requires Applies(m, pointer)
  {
    m[m[m[pointer].def.base].typeId].def.pointee
  }

  /** What the pass asks of the module: pointers have pointer types and the walk stays inside it. */
  predicate Ready(m: Module, pointer: Id, operands: seq<nat>, alignmentIdx: nat) {
    && pointer in m
    && (m[pointer].def.AccessChain? ==>
          && m[pointer].def.base in m
          && m[m[pointer].def.base].typeId in m
          && m[m[m[pointer].def.base].typeId].def.Pointer?)
    && (Applies(m, pointer) ==>
          alignmentIdx < |operands| && Walkable(m, Pointee(m, pointer), m[pointer].def.indices))
  }

  method MergeMember(decorations: seq<Decoration>, t: Id, c: nat, before: nat, ghost seen: seq<nat>)
    returns (alignment: nat)
    requires Summary(before, seen)
    ensures Summary(alignment, seen + MemberValues(decorations, t, c))
  {
    hide Summary, Or;
    alignment := before;
    assert seen + [] == seen;
    for i := 0 to |decorations|
      invariant Summary(alignment, seen + MemberValues(decorations[..i], t, c))
    {
      assert decorations[..i + 1][..i] == decorations[..i];
      var d := decorations[i];
      ghost var vs := MemberValues(decorations[..i], t, c);
      if PlacesMember(d, t, c) {
        SummaryGrows(alignment, seen + vs, d.value);
        assert seen + vs + [d.value] == seen + (vs + [d.value]);
        alignment := Or(alignment, d.value);
      } else {
        assert vs + [] == vs;
      }
    }
    assert decorations[..|decorations|] == decorations;
  }

  method MergeElement(decorations: seq<Decoration>, t: Id, before: nat, ghost seen: seq<nat>) returns (alignment: nat)
    requires Summary(before, seen)
    ensures Summary(alignment, seen + ElementValues(decorations, t))
  {
    hide Summary, Or;
    alignment := before;
    assert seen + [] == seen;
    for i := 0 to |decorations|
      invariant Summary(alignment, seen + ElementValues(decorations[..i], t))
    {
      assert decorations[..i + 1][..i] == decorations[..i];
      var d := decorations[i];
      ghost var vs := ElementValues(decorations[..i], t);
      if PlacesElement(d, t) {
        SummaryGrows(alignment, seen + vs, d.value);
        assert seen + vs + [d.value] == seen + (vs + [d.value]);
        alignment := Or(alignment, d.value);
      } else {
        assert vs + [] == vs;
      }
    }
    assert decorations[..|decorations|] == decorations;
  }

  /** The loop over the indices of the access chain. */
  method WalkChain(m: Module, decorations: seq<Decoration>, pointee: Id, indices: seq<Id>) returns (alignment: nat)
    requires Walkable(m, pointee, indices)
    ensures Summary(alignment, Met(m, decorations, pointee, indices))
  {
    hide Summary, MemberValues, ElementValues;
    EmptySummary();
    alignment := 0;
    var typeId := pointee;
    ghost var seen: seq<nat> := [];
    var i := 0;
    while i < |indices|
      invariant 0 <= i <= |indices|
      invariant Walkable(m, typeId, indices[i..])
      invariant Met(m, decorations, pointee, indices) == seen + Met(m, decorations, typeId, indices[i..])
      invariant Summary(alignment, seen)
    {
      var idx := m[indices[i]];
      assert indices[i..][1..] == indices[i + 1..];
      match m[typeId].def {
        case Struct(members) =>
          alignment := MergeMember(decorations, typeId, idx.def.value, alignment, seen);
          seen := seen + MemberValues(decorations, typeId, idx.def.value);
          typeId := members[idx.def.value];
        case Array(element) =>
          alignment := MergeElement(decorations, typeId, alignment, seen);
          seen := seen + ElementValues(decorations, typeId);
          typeId := element;
        case RuntimeArray(element) =>
          alignment := MergeElement(decorations, typeId, alignment, seen);
          seen := seen + ElementValues(decorations, typeId);
          typeId := element;
        case _ =>
          break;
      }
      i := i + 1;
    }
    assert Met(m, decorations, typeId, indices[i..]) == [];
    assert seen + [] == seen;
  }

  /** Loads and stores whose pointer is such an access chain get the merged operand; others keep theirs. */
  method PostProcessAccess(m: Module, decorations: seq<Decoration>, inst: MemoryAccess)
    requires |inst.operands| > 0 && Ready(m, inst.operands[0], inst.operands, inst.AlignmentIdx())
    modifies inst
    ensures |inst.operands| == |old(inst.operands)|
    ensures forall i | 0 <= i < |inst.operands| && i != (if inst.isStore then 3 else 2) ::
            inst.operands[i] == old(inst.operands)[i]
    ensures var pointer, idx := old(inst.operands)[0], if inst.isStore then 3 else 2;
            if m[pointer].def.AccessChain? && m[m[m[pointer].def.base].typeId].def.storage == 5349 then
              && idx < |inst.operands|
              && LargestPower(inst.operands[idx],
                              Met(m, decorations, Pointee(m, pointer), m[pointer].def.indices)
                              + [old(inst.operands)[idx]])
            else inst.operands == old(inst.operands)
  {
    hide Walkable, LargestPower, Summary, Met;
    var accessChain := m[inst.operands[0]];
    if accessChain.def.AccessChain? {
      var pointer := m[m[accessChain.def.base].typeId];
      if pointer.def.storage != PHYSICAL_STORAGE_BUFFER {
        return;
      }
      var alignment := WalkChain(m, decorations, pointer.def.pointee, accessChain.def.indices);
      var alignmentIdx := inst.AlignmentIdx();
      ghost var vs := Met(m, decorations, pointer.def.pointee, accessChain.def.indices);
      SummaryGrows(alignment, vs, inst.operands[alignmentIdx]);
      alignment := Or(alignment, inst.operands[alignmentIdx]);
      LowestIsLargest(alignment, vs + [inst.operands[alignmentIdx]]);
      alignment := if alignment == 0 then 0 else AndNot(alignment, And(alignment, alignment - 1));
      inst.operands := inst.operands[alignmentIdx := alignment];
    }
  }
}
