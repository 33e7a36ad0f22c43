/** Offsets of the members of a struct. */
module StructLayout {
  import opened Bits

  datatype Packing = NoPacking | Std140 | Scalar | OtherPacking

  /** What the translation asks about a member's type; `alignment` and `size` are those of the packing. */
  datatype MemberType = MemberType(
    isVector: bool, isMatrix: bool, isArray: bool, isStruct: bool,
    rows: nat, cols: nat, vectorSize: nat,
    alignment: nat, size: nat, componentAlignment: nat, componentSize: nat,
    rowMajor: bool)

  datatype MaybeOffset = NoOffset | At(offset: nat)

  /** A member of a struct: `member` is its index in the translated struct, -1 when it is not there. */
  datatype Member = Member(t: MemberType, member: int, filtered: bool, userOffset: MaybeOffset, xfbOffset: MaybeOffset)

  /** A struct: `hlsl` says that HLSL rules apply to it. */
  datatype StructInfo = StructInfo(packing: Packing, hlsl: bool, isBlock: bool)

  // ---------- the requirements on an offset ----------

  predicate VectorLike(t: MemberType) {
    if t.isMatrix then (if t.rowMajor then t.rows == 1 else t.cols == 1) else t.isVector
  }

  function AlignmentOf(s: StructInfo, t: MemberType): nat {
    if s.hlsl && !t.isStruct && !t.isArray && VectorLike(t) && t.componentAlignment <= 4 then t.componentAlignment
    else t.alignment
  }

  function SizeOf(s: StructInfo, t: MemberType): int {
    if s.hlsl && !t.isStruct && s.packing == Std140 then
      if t.isMatrix then t.size - t.componentSize * (4 - if t.rowMajor then t.cols else t.rows)
      else if t.isArray then t.size - t.componentSize * (4 - t.vectorSize)
      else t.size
    else t.size
  }

  /** Does a member at `offset` cross a 16-byte boundary that it should not cross? */
  predicate ImproperStraddle(t: MemberType, size: int, offset: nat) {
    && VectorLike(t)
    && !t.isArray
    && if size <= 16 then offset / 16 != (offset + size - 1) / 16 else offset % 16 != 0
  }

  predicate Fits(s: StructInfo, t: MemberType, offset: nat)
    requires AlignmentOf(s, t) > 0
  {
    && offset % AlignmentOf(s, t) == 0
    && (s.packing != Scalar ==> !ImproperStraddle(t, SizeOf(s, t), offset))
  }

  /** How many vectors a matrix is stored as, and how many components each of them has. */
  function Vectors(t: MemberType): nat {
    if t.rowMajor then t.rows else t.cols
  }

  function Components(t: MemberType): nat {
    if t.rowMajor then t.cols else t.rows
  }

  /** Under HLSL rules one vector is aligned like its components, if those need no more than four bytes; everything
      else is aligned as the packing says. */
  lemma AlignmentIs(s: StructInfo, t: MemberType)
    requires t.alignment != t.componentAlignment
    ensures AlignmentOf(s, t) == t.componentAlignment
            <==> && s.hlsl && !t.isStruct && !t.isArray && t.componentAlignment <= 4
                 && ((t.isVector && !t.isMatrix) || (t.isMatrix && Vectors(t) == 1))
    ensures AlignmentOf(s, t) == t.componentAlignment || AlignmentOf(s, t) == t.alignment
  {
  }

  /** Under std140 an array or a matrix of `n` vectors has a stride of four components; HLSL lets the next member start
      right behind the last component of the last vector. */
  lemma SizeToLastComponent(s: StructInfo, t: MemberType, n: nat)
    requires (t.isMatrix || t.isArray) && !t.isStruct && n > 0 && t.size == n * (4 * t.componentSize)
    ensures var last := if t.isMatrix then Components(t) else t.vectorSize;
            SizeOf(s, t) == if s.hlsl && s.packing == Std140 then (n - 1) * (4 * t.componentSize)
                + last * t.componentSize
                            else t.size
  {
    var c, last := t.componentSize, if t.isMatrix then Components(t) else t.vectorSize;
    assert n * (4 * c) == (n - 1) * (4 * c) + 4 * c;
    assert c * (4 - last) == 4 * c - last * c;
  }

  lemma SizeStays(s: StructInfo, t: MemberType)
    requires t.isStruct || (!t.isMatrix && !t.isArray)
    ensures SizeOf(s, t) == t.size
  {
  }

  /** A vector of up to 16 bytes must not have a 16-byte boundary inside, and a larger one must start at one. */
  lemma StraddlesIff(t: MemberType, size: int, offset: nat)
    requires size > 0
    ensures ImproperStraddle(t, size, offset)
            <==> && ((t.isVector && !t.isMatrix) || (t.isMatrix && Vectors(t) == 1)) && !t.isArray
                 && if size <= 16 then exists k: nat :: offset < Sixteens(k) < offset + size
                    else !exists k: nat :: offset == Sixteens(k)
  {
    if size <= 16 && offset / 16 != (offset + size - 1) / 16 {
      assert offset < Sixteens(offset / 16 + 1) < offset + size;
    }
    assert offset % 16 == 0 ==> offset == Sixteens(offset / 16);
  }

  function Sixteens(k: nat): nat {
    16 * k
  }

  /** What the type queries promise: alignments are powers of two, and sizes are not negative. */
  ghost predicate Measured(s: StructInfo, t: MemberType) {
    && (exists k: nat :: Pow2(k) == AlignmentOf(s, t))
    && SizeOf(s, t) >= 0
    && (VectorLike(t) ==> SizeOf(s, t) > 0)
  }

  /** `offset` is the least offset from `start` on at which the member fits. */
  ghost predicate FirstFit(s: StructInfo, t: MemberType, start: nat, offset: nat)
    requires AlignmentOf(s, t) > 0
  {
    && start <= offset
    && Fits(s, t, offset)
    && forall x: nat | start <= x && Fits(s, t, x) :: offset <= x
  }

  // ---------- one member ----------

  function Bumped(s: StructInfo, t: MemberType, start: nat): nat
    requires AlignmentOf(s, t) > 0
  {
    var aligned := RoundToPow2(start, AlignmentOf(s, t));
    if s.packing != Scalar && ImproperStraddle(t, SizeOf(s, t), aligned) then RoundToPow2(aligned, 16) else aligned
  }

  /** Rounding and then moving to the next 16 bytes finds the first fit, and keeps the alignment. */
  lemma BumpedIsFirstFit(s: StructInfo, t: MemberType, start: nat)
    requires Measured(s, t)
    ensures AlignmentOf(s, t) > 0
    ensures FirstFit(s, t, start, Bumped(s, t, start))
    ensures Bumped(s, t, start) < start + AlignmentOf(s, t) + 16
  {
    hide RoundToPow2, Pow2, ImproperStraddle, Divides, Fits, SizeOf, AlignmentOf;
    var k: nat :| Pow2(k) == AlignmentOf(s, t);
    RoundsUp(start, k);
    var a := RoundToPow2(start, Pow2(k));
    var size := SizeOf(s, t);
    forall x: nat | start <= x && Fits(s, t, x)
      ensures a <= x
    {
      FitsMeans(s, t, k, x);
    }
    FitsMeans(s, t, k, a);
    if s.packing != Scalar && ImproperStraddle(t, size, a) {
      StraddlesOnlyVectors(t, size, a);
      NextSixteen(s, t, k, a);
    }
  }

  lemma FitsMeans(s: StructInfo, t: MemberType, k: nat, x: nat)
    requires Pow2(k) == AlignmentOf(s, t)
    ensures Fits(s, t, x) <==> Divides(k, x) && (s.packing != Scalar ==> !ImproperStraddle(t, SizeOf(s, t), x))
  {
  }

  lemma StraddlesOnlyVectors(t: MemberType, size: int, a: nat)
    requires ImproperStraddle(t, size, a)
    ensures VectorLike(t)
  {
  }

  /** The next multiple of 16 after an improper aligned offset is aligned, proper and the first such offset. */
  lemma NextSixteen(s: StructInfo, t: MemberType, k: nat, a: nat)
    requires Pow2(k) == AlignmentOf(s, t) && SizeOf(s, t) > 0
    requires s.packing != Scalar && Divides(k, a) && ImproperStraddle(t, SizeOf(s, t), a)
    ensures var b := RoundToPow2(a, 16);
            && a <= b < a + 16
            && Fits(s, t, b)
            && forall x: nat | a <= x && Fits(s, t, x) :: b <= x
  {
    hide RoundToPow2, Pow2, ImproperStraddle, Divides, Fits, SizeOf, AlignmentOf;
    var size := SizeOf(s, t);
    SixteenDivides();
    RoundsUp(a, 4);
    var b := RoundToPow2(a, 16);
    SixteenMeans(b);
    NotAtSixteen(t, size, a, k);
    SmallerDivides(k, 4, b);
    SixteenIsProper(t, size, b);
    FitsMeans(s, t, k, b);
    forall x: nat | a <= x && Fits(s, t, x)
      ensures b <= x
    {
      if x < b {
        FitsMeans(s, t, k, x);
        StaysImproper(t, size, a, b, x);
        assert false;
      }
    }
  }

  lemma SixteenDivides()
    ensures Pow2(4) == 16
  {
  }

  lemma SixteenMeans(b: nat)
    requires Divides(4, b)
    ensures b % 16 == 0
  {
    SixteenDivides();
  }

  lemma NotAtSixteen(t: MemberType, size: int, a: nat, k: nat)
    requires size > 0 && Divides(k, a) && ImproperStraddle(t, size, a)
    ensures a % 16 != 0 && k <= 4
  {
    assert Pow2(4) == 16;
    if a % 16 == 0 {
      SixteenIsProper(t, size, a);
    }
    if k > 4 {
      SmallerDivides(4, k, a);
    }
  }

  lemma SixteenIsProper(t: MemberType, size: int, b: nat)
    requires size > 0 && b % 16 == 0
    ensures !ImproperStraddle(t, size, b)
  {
  }

  /** Between an improper offset and the next multiple of 16 no offset is proper. */
  lemma StaysImproper(t: MemberType, size: int, a: nat, b: nat, x: nat)
    requires size > 0 && ImproperStraddle(t, size, a)
    requires b % 16 == 0 && a <= x < b < a + 16
    ensures ImproperStraddle(t, size, x)
  {
  }

  /** `updateMemberOffset`: the offset of a member, and where the next one may start. */
  method UpdateMemberOffset(s: StructInfo, m: Member, current: int) returns (currentOffset: int, nextOffset: int)
    requires s.packing != NoPacking ==> Measured(s, m.t)
    ensures s.packing == NoPacking ==>
              nextOffset == -1 && currentOffset == if m.userOffset.At? then m.userOffset.offset else -1
    ensures s.packing != NoPacking ==>
              && AlignmentOf(s, m.t) > 0
              && currentOffset >= 0
              && FirstFit(s, m.t, Start(m, current), currentOffset)
              && currentOffset == Bumped(s, m.t, Start(m, current))
              && nextOffset == currentOffset + SizeOf(s, m.t)
  {
    hide FirstFit, RoundToPow2;
    nextOffset := -1;
    currentOffset := current;
    if m.userOffset.At? {
      currentOffset := m.userOffset.offset;
    }
    if s.packing == NoPacking {
      if !m.userOffset.At? {
        currentOffset := -1;
      }
      return;
    }
    if currentOffset < 0 {
      currentOffset := 0;
    }
    BumpedIsFirstFit(s, m.t, currentOffset);

    var memberSize: int := m.t.size;
    var memberAlignment := m.t.alignment;
    var isVectorLike := m.t.isVector;
    if m.t.isMatrix {
      if m.t.rowMajor {
        isVectorLike := m.t.rows == 1;
      } else {
        isVectorLike := m.t.cols == 1;
      }
    }
    if s.hlsl && !m.t.isStruct {
      if !m.t.isArray && isVectorLike && m.t.componentAlignment <= 4 {
        memberAlignment := m.t.componentAlignment;
      }
      if s.packing == Std140 {
        if m.t.isMatrix {
          if m.t.rowMajor {
            memberSize := memberSize - m.t.componentSize * (4 - m.t.cols);
          } else {
            memberSize := memberSize - m.t.componentSize * (4 - m.t.rows);
          }
        } else if m.t.isArray {
          memberSize := memberSize - m.t.componentSize * (4 - m.t.vectorSize);
        }
      }
    }
    currentOffset := RoundToPow2(currentOffset, memberAlignment);
    if s.packing != Scalar && ImproperStraddle(m.t, memberSize, currentOffset) {
      currentOffset := RoundToPow2(currentOffset, 16);
    }
    nextOffset := currentOffset + memberSize;
  }

  function Start(m: Member, current: int): nat {
    if m.userOffset.At? then m.userOffset.offset else if current < 0 then 0 else current
  }

  // ---------- all the members ----------

  predicate Visible(s: StructInfo, m: Member) {
    !(s.isBlock && m.filtered) && m.member >= 0
  }

  /** An offset decoration of the struct, and the member of the source struct that it is for. */
  datatype Placement = Placement(source: nat, member: int, offset: int)

  datatype State = State(offset: int, placements: seq<Placement>)

  ghost predicate AllMeasured(s: StructInfo, members: seq<Member>) {
    s.packing != NoPacking ==> forall m :: m in members ==> Measured(s, m.t)
  }

  /** The running offset and the decorations after the first `n` members. */
  ghost function After(s: StructInfo, members: seq<Member>, n: nat): State
    requires n <= |members| && AllMeasured(s, members)
  {
    if n == 0 then State(-1, [])
    else
      var before := After(s, members, n - 1);
      var m := members[n - 1];
      if !Visible(s, m) then before
      else if m.xfbOffset.At? then
        before.(placements := before.placements + [Placement(n - 1, m.member, m.xfbOffset.offset)])
      else if s.packing == NoPacking then before
      else
        BumpedIsFirstFit(s, m.t, Start(m, before.offset));
        var offset := Bumped(s, m.t, Start(m, before.offset));
        State(offset + SizeOf(s, m.t), before.placements + [Placement(n - 1, m.member, offset)])
  }

  class StructDecorator {
    var decorations: seq<Placement>

    constructor ()
      ensures decorations == []
    {
      decorations := [];
    }

    /** The loop over the members, as far as it places them. */
    method DecorateStructType(s: StructInfo, members: seq<Member>)
      requires AllMeasured(s, members)
      modifies this
      ensures decorations == old(decorations) + After(s, members, |members|).placements
    {
      hide Bumped, FirstFit, Measured;
      var offset := -1;
      assert old(decorations) + [] == old(decorations);
      for i := 0 to |members|
        invariant offset == After(s, members, i).offset
        invariant decorations == old(decorations) + After(s, members, i).placements
      {
        var m := members[i];
        if s.isBlock && m.filtered {
          continue;
        }
        if m.member < 0 {
          continue;
        }
        if m.xfbOffset.At? {
          decorations := decorations + [Placement(i, m.member, m.xfbOffset.offset)];
        } else if s.packing != NoPacking {
          var nextOffset;
          offset, nextOffset := UpdateMemberOffset(s, m, offset);
          if offset >= 0 {
            decorations := decorations + [Placement(i, m.member, offset)];
          }
          offset := nextOffset;
        }
      }
    }
  }

  // ---------- what the layout promises ----------

  /** The translation chooses all the offsets itself. */
  ghost predicate Automatic(s: StructInfo, members: seq<Member>) {
    && s.packing != NoPacking
    && AllMeasured(s, members)
    && forall m :: m in members && Visible(s, m) ==> m.userOffset.NoOffset? && m.xfbOffset.NoOffset?
  }

  function End(s: StructInfo, members: seq<Member>, p: Placement): int
    requires p.source < |members|
  {
    p.offset + SizeOf(s, members[p.source].t)
  }

  /** One placement for each visible member, in order, fitting and without overlap. */
  ghost predicate Legal(s: StructInfo, members: seq<Member>, n: nat, ps: seq<Placement>)
    requires n <= |members| && Automatic(s, members)
  {
    && Covers(s, members, n, ps)
    && Sources(members, ps)
    && AllFit(s, members, ps)
    && Disjoint(s, members, ps)
  }

  ghost predicate Sources(members: seq<Member>, ps: seq<Placement>) {
    forall a | 0 <= a < |ps| :: ps[a].source < |members|
  }

  ghost predicate AllFit(s: StructInfo, members: seq<Member>, ps: seq<Placement>)
    requires Automatic(s, members) && Sources(members, ps)
  {
    forall a | 0 <= a < |ps| :: FitsAt(s, members, ps[a])
  }

  ghost predicate Disjoint(s: StructInfo, members: seq<Member>, ps: seq<Placement>)
    requires Sources(members, ps)
  {
    forall a, b | 0 <= a < b < |ps| :: End(s, members, ps[a]) <= ps[b].offset
  }

  ghost predicate Covers(s: StructInfo, members: seq<Member>, n: nat, ps: seq<Placement>)
    requires n <= |members|
  {
    && (forall a | 0 <= a < |ps| :: ps[a].source < n && Visible(s, members[ps[a].source])
                                    && ps[a].member == members[ps[a].source].member)
    && (forall a, b | 0 <= a < b < |ps| :: ps[a].source < ps[b].source)
    && (forall i | 0 <= i < n && Visible(s, members[i]) :: exists a | 0 <= a < |ps| :: ps[a].source == i)
  }

  ghost predicate FitsAt(s: StructInfo, members: seq<Member>, p: Placement)
    requires p.source < |members| && Automatic(s, members)
  {
    assert members[p.source] in members;
    p.offset >= 0 && AlignmentOf(s, members[p.source].t) > 0 && Fits(s, members[p.source].t, p.offset)
  }

  /** The bytes left free before a member. */
  ghost function Padding(s: StructInfo, members: seq<Member>, ps: seq<Placement>, a: nat): int
    requires a < |ps| && Sources(members, ps)
  {
    ps[a].offset - if a == 0 then 0 else End(s, members, ps[a - 1])
  }

  lemma NotVisible(s: StructInfo, members: seq<Member>, n: nat)
    requires 0 < n <= |members| && Automatic(s, members) && !Visible(s, members[n - 1])
    ensures After(s, members, n) == After(s, members, n - 1)
  {
  }

  lemma PlacesNext(s: StructInfo, members: seq<Member>, n: nat)
    requires 0 < n <= |members| && Automatic(s, members) && Visible(s, members[n - 1])
    ensures AlignmentOf(s, members[n - 1].t) > 0
    ensures var before, m := After(s, members, n - 1), members[n - 1];
            var start := if before.offset < 0 then 0 else before.offset;
            var offset := Bumped(s, m.t, start);
            && After(s, members, n)
               == State(offset + SizeOf(s, m.t), before.placements + [Placement(n - 1, m.member, offset)])
            && FirstFit(s, m.t, start, offset)
            && offset < start + AlignmentOf(s, m.t) + 16
            && SizeOf(s, m.t) >= 0
  {
    var m := members[n - 1];
    assert m in members;
    BumpedIsFirstFit(s, m.t, Start(m, After(s, members, n - 1).offset));
  }

  /** Where the next member may start: the end of the last one. */
  ghost predicate Follows(s: StructInfo, members: seq<Member>, offset: int, ps: seq<Placement>) {
    if ps == [] then offset == -1
    else
      var last := ps[|ps| - 1];
      last.source < |members| && offset == End(s, members, last) && 0 <= last.offset <= offset
  }

  ghost predicate TightlyPadded(s: StructInfo, members: seq<Member>, ps: seq<Placement>) {
    && Sources(members, ps)
    && forall a | 0 <= a < |ps| :: Padding(s, members, ps, a) < AlignmentOf(s, members[ps[a].source].t) + 16
  }

  /** Offsets are aligned, no member straddles improperly, members are disjoint and in order, and padding is small. */
  lemma {:induction false} LayoutIsLegal(s: StructInfo, members: seq<Member>, n: nat)
    requires n <= |members| && Automatic(s, members)
    ensures Legal(s, members, n, After(s, members, n).placements)
    ensures Follows(s, members, After(s, members, n).offset, After(s, members, n).placements)
    ensures TightlyPadded(s, members, After(s, members, n).placements)
  {
    IsMeasured(s, members);
    if n == 0 {
      NothingLegal(s, members);
    } else {
      hide *;
      LayoutIsLegal(s, members, n - 1);
      var before := After(s, members, n - 1);
      if Visible(s, members[n - 1]) {
        PlacesNext(s, members, n);
        var start := if before.offset < 0 then 0 else before.offset;
        var offset := Bumped(s, members[n - 1].t, start);
        AppendLegal(s, members, n, before.offset, before.placements, offset);
      } else {
        NotVisible(s, members, n);
        SkipLegal(s, members, n, before.placements);
      }
    }
  }

  lemma IsMeasured(s: StructInfo, members: seq<Member>)
    requires Automatic(s, members)
    ensures AllMeasured(s, members) && s.packing != NoPacking
  {
  }

  lemma NothingLegal(s: StructInfo, members: seq<Member>)
    requires Automatic(s, members)
    ensures After(s, members, 0) == State(-1, [])
    ensures Legal(s, members, 0, []) && Follows(s, members, -1, []) && TightlyPadded(s, members, [])
  {
  }

  lemma SkipLegal(s: StructInfo, members: seq<Member>, n: nat, ps: seq<Placement>)
    requires 0 < n <= |members| && Automatic(s, members) && !Visible(s, members[n - 1])
    ensures Legal(s, members, n - 1, ps) <==> Legal(s, members, n, ps)
  {
    hide AllFit, Disjoint, Automatic, Covers;
    SkipCovers(s, members, n, ps);
  }

  lemma SkipCovers(s: StructInfo, members: seq<Member>, n: nat, ps: seq<Placement>)
    requires 0 < n <= |members| && !Visible(s, members[n - 1])
    ensures Covers(s, members, n - 1, ps) <==> Covers(s, members, n, ps)
  {
  }

  lemma AppendCovers(s: StructInfo, members: seq<Member>, n: nat, ps: seq<Placement>, p: Placement)
    requires 0 < n <= |members| && Visible(s, members[n - 1]) && Covers(s, members, n - 1, ps)
    requires p.source == n - 1 && p.member == members[n - 1].member
    ensures Covers(s, members, n, ps + [p])
  {
    var qs := ps + [p];
    forall i | 0 <= i < n && Visible(s, members[i])
      ensures exists a | 0 <= a < |qs| :: qs[a].source == i
    {
      if i == n - 1 {
        assert qs[|ps|].source == i;
      } else {
        var a :| 0 <= a < |ps| && ps[a].source == i;
        assert qs[a].source == i;
      }
    }
  }

  lemma AppendLegal(s: StructInfo, members: seq<Member>, n: nat, end: int, ps: seq<Placement>, offset: nat)
    requires 0 < n <= |members| && Automatic(s, members) && Visible(s, members[n - 1])
    requires Legal(s, members, n - 1, ps) && Follows(s, members, end, ps) && TightlyPadded(s, members, ps)
    requires SizeOf(s, members[n - 1].t) >= 0 && AlignmentOf(s, members[n - 1].t) > 0
    requires var start := if end < 0 then 0 else end;
             && FirstFit(s, members[n - 1].t, start, offset)
             && offset < start + AlignmentOf(s, members[n - 1].t) + 16
    ensures var qs := ps + [Placement(n - 1, members[n - 1].member, offset)];
            && Legal(s, members, n, qs)
            && Follows(s, members, offset + SizeOf(s, members[n - 1].t), qs)
            && TightlyPadded(s, members, qs)
  {
    hide *;
    var p := Placement(n - 1, members[n - 1].member, offset);
    var qs := ps + [p];
    LegalParts(s, members, n - 1, ps);
    FirstFitParts(s, members[n - 1].t, if end < 0 then 0 else end, offset);
    AppendCovers(s, members, n, ps, p);
    AppendSources(members, ps, p);
    AppendFits(s, members, ps, p);
    AppendDisjoint(s, members, end, ps, p);
    AppendPadding(s, members, end, ps, p);
    LegalParts(s, members, n, qs);
    LastFollows(s, members, ps, p);
  }

  lemma LastFollows(s: StructInfo, members: seq<Member>, ps: seq<Placement>, p: Placement)
    requires p.source < |members| && p.offset >= 0 && SizeOf(s, members[p.source].t) >= 0
    ensures Follows(s, members, p.offset + SizeOf(s, members[p.source].t), ps + [p])
  {
    hide SizeOf;
  }

  lemma LegalParts(s: StructInfo, members: seq<Member>, n: nat, ps: seq<Placement>)
    requires n <= |members| && Automatic(s, members)
    ensures Legal(s, members, n, ps) <==>
              Covers(s, members, n, ps) && Sources(members, ps) && AllFit(s, members, ps) && Disjoint(s, members, ps)
  {
    hide Covers, Sources, AllFit, Disjoint, Automatic;
  }

  lemma FirstFitParts(s: StructInfo, t: MemberType, start: nat, offset: nat)
    requires AlignmentOf(s, t) > 0 && FirstFit(s, t, start, offset)
    ensures start <= offset && Fits(s, t, offset)
    ensures forall x: nat | start <= x && Fits(s, t, x) :: offset <= x
  {
    hide AlignmentOf, Fits;
  }

  lemma AppendSources(members: seq<Member>, ps: seq<Placement>, p: Placement)
    requires Sources(members, ps) && p.source < |members|
    ensures Sources(members, ps + [p])
  {
  }

  lemma AppendFits(s: StructInfo, members: seq<Member>, ps: seq<Placement>, p: Placement)
    requires Automatic(s, members) && Sources(members, ps) && Sources(members, ps + [p]) && AllFit(s, members, ps)
    requires p.offset >= 0 && p.source < |members| && AlignmentOf(s, members[p.source].t) > 0
    requires Fits(s, members[p.source].t, p.offset)
    ensures AllFit(s, members, ps + [p])
  {
    hide Automatic, Fits, AlignmentOf;
    assert FitsAt(s, members, p);
    forall a | 0 <= a < |ps + [p]|
      ensures FitsAt(s, members, (ps + [p])[a])
    {
    }
  }

  lemma AppendDisjoint(s: StructInfo, members: seq<Member>, end: int, ps: seq<Placement>, p: Placement)
    requires Sources(members, ps) && Sources(members, ps + [p]) && Disjoint(s, members, ps)
    requires Follows(s, members, end, ps) && p.offset >= if end < 0 then 0 else end
    ensures Disjoint(s, members, ps + [p])
  {
    hide SizeOf;
    var qs := ps + [p];
    forall a, b | 0 <= a < b < |qs|
      ensures End(s, members, qs[a]) <= qs[b].offset
    {
      if a < |ps| - 1 {
        assert End(s, members, ps[a]) <= ps[|ps| - 1].offset;
      }
    }
  }

  lemma AppendPadding(s: StructInfo, members: seq<Member>, end: int, ps: seq<Placement>, p: Placement)
    requires TightlyPadded(s, members, ps) && Sources(members, ps + [p]) && p.source < |members|
    requires Follows(s, members, end, ps)
    requires p.offset < (if end < 0 then 0 else end) + AlignmentOf(s, members[p.source].t) + 16
    ensures TightlyPadded(s, members, ps + [p])
  {
    hide SizeOf, AlignmentOf;
    var qs := ps + [p];
    forall a | 0 <= a < |qs|
      ensures Padding(s, members, qs, a) < AlignmentOf(s, members[qs[a].source].t) + 16
    {
      if a < |ps| {
        assert Padding(s, members, qs, a) == Padding(s, members, ps, a);
      }
    }
  }

  /** A placement of one of the first `n` members: one that is in the translated struct and, in a block, not filtered;
      at its transform-feedback offset, if it has one. */
  predicate IsPlacement(s: StructInfo, members: seq<Member>, n: nat, p: Placement)
    requires n <= |members|
  {
    && p.source < n
    && var m := members[p.source];
       && p.member == m.member >= 0 && !(s.isBlock && m.filtered)
       && if m.xfbOffset.At? then p.offset == m.xfbOffset.offset else s.packing != NoPacking
  }

  lemma {:induction false} PlacementsAre(s: StructInfo, members: seq<Member>, n: nat)
    requires n <= |members| && AllMeasured(s, members)
    ensures forall p <- After(s, members, n).placements :: IsPlacement(s, members, n, p)
    decreases n
  {
    if n > 0 {
      PlacementsAre(s, members, n - 1);
      forall p <- After(s, members, n).placements
        ensures IsPlacement(s, members, n, p)
      {
        if p in After(s, members, n - 1).placements {
          assert IsPlacement(s, members, n - 1, p);
        }
      }
    }
  }

  /** Whatever offsets the user gives, a member is placed if and only if it is in the translated struct, is not filtered
      from a block, and has a transform-feedback offset or a layout. */
  lemma {:induction false} PlacedIff(s: StructInfo, members: seq<Member>, n: nat, i: nat)
    requires i < n <= |members| && AllMeasured(s, members)
    ensures (exists p <- After(s, members, n).placements :: p.source == i)
            <==> && members[i].member >= 0 && !(s.isBlock && members[i].filtered)
                 && (members[i].xfbOffset.At? || s.packing != NoPacking)
    decreases n
  {
    var before, after := After(s, members, n - 1).placements, After(s, members, n).placements;
    PlacementsAre(s, members, n);
    if i < n - 1 {
      PlacedIff(s, members, n - 1, i);
      LaterPlacements(before, after, i);
    } else {
      PlacementsAre(s, members, n - 1);
      assert forall p <- before :: IsPlacement(s, members, n - 1, p);
      assert forall p <- after :: IsPlacement(s, members, n, p);
      LastPlacement(before, after, i);
    }
  }

  lemma LaterPlacements(before: seq<Placement>, after: seq<Placement>, i: nat)
    requires before <= after && |after| <= |before| + 1
    requires |after| > |before| ==> after[|before|].source != i
    ensures (exists p <- after :: p.source == i) <==> (exists p <- before :: p.source == i)
  {
    if p :| p in before && p.source == i {
      assert p in after;
    }
    if p :| p in after && p.source == i {
      assert p in before;
    }
  }

  lemma LastPlacement(before: seq<Placement>, after: seq<Placement>, i: nat)
    requires before <= after && |after| <= |before| + 1
    requires forall p <- before :: p.source < i
    requires |after| > |before| ==> after[|before|].source == i
    ensures (exists p <- after :: p.source == i) <==> |after| > |before|
  {
    if |after| > |before| {
      assert after[|before|] in after;
    }
  }

  /** Is every member of `ps` placed no earlier than the member of `qs` in the same place? */
  ghost predicate NoEarlier(qs: seq<Placement>, ps: seq<Placement>) {
    |ps| == |qs| && forall a | 0 <= a < |ps| :: qs[a].offset <= ps[a].offset && qs[a].source == ps[a].source
  }

  /** No legal layout places any member earlier. */
  lemma {:induction false} LayoutIsTightest(s: StructInfo, members: seq<Member>, n: nat, ps: seq<Placement>)
    requires n <= |members| && Automatic(s, members) && Legal(s, members, n, ps)
    ensures NoEarlier(After(s, members, n).placements, ps)
  {
    hide *;
    IsMeasured(s, members);
    LegalParts(s, members, n, ps);
    if n == 0 {
      TightestStart(s, members, ps);
    } else {
      var before := After(s, members, n - 1);
      if !Visible(s, members[n - 1]) {
        NotVisible(s, members, n);
        SkipLegal(s, members, n, ps);
        LayoutIsTightest(s, members, n - 1, ps);
      } else {
        LastCovered(s, members, n, ps);
        var last := |ps| - 1;
        PrefixLegal(s, members, n, ps);
        LayoutIsLegal(s, members, n - 1);
        LayoutIsTightest(s, members, n - 1, ps[..last]);
        PlacesNext(s, members, n);
        var start := if before.offset < 0 then 0 else before.offset;
        var offset := Bumped(s, members[n - 1].t, start);
        StartsNoLater(s, members, before.offset, before.placements, ps);
        FirstFitParts(s, members[n - 1].t, start, offset);
        var p := Placement(n - 1, members[n - 1].member, offset);
        assert After(s, members, n).placements == before.placements + [p];
        AppendNoEarlier(before.placements, p, ps);
      }
    }
  }

  lemma AppendNoEarlier(qs: seq<Placement>, q: Placement, ps: seq<Placement>)
    requires ps != [] && NoEarlier(qs, ps[..|ps| - 1])
    requires q.offset <= ps[|ps| - 1].offset && q.source == ps[|ps| - 1].source
    ensures NoEarlier(qs + [q], ps)
  {
    forall a | 0 <= a < |ps| - 1
      ensures qs[a].offset <= ps[a].offset && qs[a].source == ps[a].source
    {
      assert ps[..|ps| - 1][a] == ps[a];
    }
  }

  lemma PrefixLegal(s: StructInfo, members: seq<Member>, n: nat, ps: seq<Placement>)
    requires 0 < n <= |members| && Automatic(s, members) && Legal(s, members, n, ps)
    requires ps != [] && Covers(s, members, n - 1, ps[..|ps| - 1])
    ensures Legal(s, members, n - 1, ps[..|ps| - 1])
    ensures Sources(members, ps)
    ensures FitsAt(s, members, ps[|ps| - 1])
    ensures Disjoint(s, members, ps)
    ensures ps[|ps| - 1].offset >= 0 && AlignmentOf(s, members[ps[|ps| - 1].source].t) > 0
    ensures Fits(s, members[ps[|ps| - 1].source].t, ps[|ps| - 1].offset)
  {
    hide Automatic, Covers, SizeOf, AlignmentOf, Fits;
  }

  lemma StartsNoLater(s: StructInfo, members: seq<Member>, end: int, qs: seq<Placement>, ps: seq<Placement>)
    requires ps != [] && NoEarlier(qs, ps[..|ps| - 1]) && Follows(s, members, end, qs)
    requires Sources(members, ps) && Disjoint(s, members, ps)
    ensures |qs| == |ps| - 1
    ensures end >= 0 ==> end <= ps[|ps| - 1].offset
  {
    hide SizeOf;
    var last := |ps| - 1;
    if last > 0 {
      assert ps[..last][last - 1] == ps[last - 1];
      assert End(s, members, ps[last - 1]) <= ps[last].offset;
    }
  }

  lemma NothingCovered(s: StructInfo, members: seq<Member>, ps: seq<Placement>)
    requires Covers(s, members, 0, ps)
    ensures ps == []
  {
    assert |ps| == 0 || ps[0].source < 0;
  }

  lemma TightestStart(s: StructInfo, members: seq<Member>, ps: seq<Placement>)
    requires Automatic(s, members) && Covers(s, members, 0, ps)
    ensures NoEarlier(After(s, members, 0).placements, ps)
  {
    NothingCovered(s, members, ps);
  }

  lemma LastCovered(s: StructInfo, members: seq<Member>, n: nat, ps: seq<Placement>)
    requires 0 < n <= |members| && Visible(s, members[n - 1]) && Covers(s, members, n, ps)
    ensures ps != [] && ps[|ps| - 1].source == n - 1
    ensures Covers(s, members, n - 1, ps[..|ps| - 1])
  {
    var a :| 0 <= a < |ps| && ps[a].source == n - 1;
    var qs := ps[..|ps| - 1];
    forall i | 0 <= i < n - 1 && Visible(s, members[i])
      ensures exists b | 0 <= b < |qs| :: qs[b].source == i
    {
      var b :| 0 <= b < |ps| && ps[b].source == i;
      assert qs[b].source == i;
    }
  }
}
