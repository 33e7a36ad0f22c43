/** Bringing OpSampledImage into the blocks that use it. */
module Samplers {
  import opened Spirv

  const OP_SAMPLED_IMAGE := 86

  /** An instruction with the number of its block. */
  datatype Located = Located(block: nat, inst: Inst)

  /** The OpSampledImage instructions by result. */
  type Table = map<Id, Located>

  function SampledImages(p: seq<Located>): Table {
    if p == [] then map[]
    else
      var t := SampledImages(p[..|p| - 1]);
      var last := p[|p| - 1];
      if last.inst.op == OP_SAMPLED_IMAGE then t[last.inst.resultId := last] else t
  }

  lemma {:induction false} TableIs(p: seq<Located>, x: Id)
    ensures x in SampledImages(p) <==>
            exists i :: 0 <= i < |p| && p[i].inst.op == OP_SAMPLED_IMAGE && p[i].inst.resultId == x
    ensures x in SampledImages(p) ==> SampledImages(p)[x] in p && SampledImages(p)[x].inst.op == OP_SAMPLED_IMAGE
                                      && SampledImages(p)[x].inst.resultId == x
  {
    if p != [] {
      var n := |p| - 1;
      TableIs(p[..n], x);
      if x in SampledImages(p[..n]) {
        var i :| 0 <= i < n && p[..n][i].inst.op == OP_SAMPLED_IMAGE && p[..n][i].inst.resultId == x;
        assert p[i].inst.resultId == x;
      }
      if i :| 0 <= i < n && p[i].inst.op == OP_SAMPLED_IMAGE && p[i].inst.resultId == x {
        assert p[..n][i].inst.resultId == x;
      }
    }
  }

  lemma TableStep(p: seq<Located>, l: Located)
    ensures SampledImages(p + [l]) == if l.inst.op == OP_SAMPLED_IMAGE then SampledImages(p)[l.inst.resultId := l]
            else SampledImages(p)
  {
    assert (p + [l])[..|p|] == p;
  }

  /** The result of an OpSampledImage in another block. */
  predicate IsForeign(t: Table, block: nat, o: Operand) {
    o.IdRef? && o.id in t && t[o.id].block != block
  }

  function CopyOf(inst: Inst, id: Id): Inst
    requires |inst.operands| >= 2
  {
    Inst(OP_SAMPLED_IMAGE, inst.typeId, id, inst.operands[..2])
  }

  /** The operands of OpSampledImage are there. */
  predicate HasImages(t: Table) {
    forall x <- t :: |t[x].inst.operands| >= 2
  }

  ghost predicate InTable(t: Table, ids: seq<Id>, from: nat) {
    forall k :: from <= k < |ids| ==> ids[k] in t
  }

  /** The operands with fresh ids for foreign ones; `origins` are the ids replaced so far, in order. */
  function FixOperands(t: Table, block: nat, bound: Id, operands: seq<Operand>,
                       origins: seq<Id>): (r: (seq<Operand>, seq<Id>))
    ensures |r.0| == |operands| && |origins| <= |r.1| && r.1[..|origins|] == origins
    ensures InTable(t, r.1, |origins|)
  {
    if operands == [] then ([], origins)
    else
      var n := |operands| - 1;
      var (os, ids) := FixOperands(t, block, bound, operands[..n], origins);
      if IsForeign(t, block, operands[n]) then (os + [IdRef(bound + |ids|)], ids + [operands[n].id])
      else (os + [operands[n]], ids)
  }

  /** The copies for the ids replaced from number `from` on. */
  function Copies(t: Table, block: nat, bound: Id, origins: seq<Id>, from: nat): (r: seq<Located>)
    requires from <= |origins| && HasImages(t) && InTable(t, origins, from)
    ensures |r| == |origins| - from
    ensures forall i :: 0 <= i < |r| ==> r[i] == Located(block, CopyOf(t[origins[from + i]].inst, bound + from + i))
  {
    seq(|origins| - from, i requires 0 <= i < |origins| - from =>
        Located(block, CopyOf(t[origins[from + i]].inst, bound + from + i)))
  }

  /** An instruction with its copies in front of it. */
  function FixInst(t: Table, bound: Id, l: Located, origins: seq<Id>): (r: (seq<Located>, seq<Id>))
    requires HasImages(t)
    ensures r.0 != [] && |origins| <= |r.1| && r.1[..|origins|] == origins
  {
    var (os, ids) := FixOperands(t, l.block, bound, l.inst.operands, origins);
    (Copies(t, l.block, bound, ids, |origins|) + [Located(l.block, l.inst.(operands := os))], ids)
  }

  function Fix(t: Table, bound: Id, p: seq<Located>): (seq<Located>, seq<Id>)
    requires HasImages(t)
  {
    if p == [] then ([], [])
    else
      var n := |p| - 1;
      var (r, origins) := Fix(t, bound, p[..n]);
      var (piece, ids) := FixInst(t, bound, p[n], origins);
      (r + piece, ids)
  }

  lemma FixStep(t: Table, bound: Id, p: seq<Located>)
    requires HasImages(t) && p != []
    ensures var n := |p| - 1; var (r, origins) := Fix(t, bound, p[..n]);
            var (piece, ids) := FixInst(t, bound, p[n], origins);
            Fix(t, bound, p) == (r + piece, ids)
  {
  }

  // ---------- copies can be taken out again ----------

  function BackId(bound: Id, origins: seq<Id>, x: Id): Id {
    if bound <= x < bound + |origins| then origins[x - bound] else x
  }

  function BackOperand(bound: Id, origins: seq<Id>, o: Operand): Operand {
    if o.IdRef? then IdRef(BackId(bound, origins, o.id)) else o
  }

  function BackOperands(bound: Id, origins: seq<Id>, os: seq<Operand>): (r: seq<Operand>)
    ensures |r| == |os|
  {
    seq(|os|, i requires 0 <= i < |os| => BackOperand(bound, origins, os[i]))
  }

  /** Erases what defines a fresh id and maps fresh ids back. */
  function Restore(bound: Id, origins: seq<Id>, r: seq<Located>): seq<Located> {
    if r == [] then []
    else
      var n := |r| - 1;
      var l := r[n];
      Restore(bound, origins, r[..n])
      + if l.inst.resultId >= bound then []
        else [Located(l.block, l.inst.(operands := BackOperands(bound, origins, l.inst.operands)))]
  }

  /** All ids of the module are below the bound. */
  ghost predicate Below(p: seq<Located>, bound: Id) {
    forall i :: 0 <= i < |p| ==> p[i].inst.resultId < bound && OperandsBelow(p[i].inst.operands, bound)
  }

  predicate OperandsBelow(os: seq<Operand>, bound: Id) {
    forall k :: 0 <= k < |os| && os[k].IdRef? ==> os[k].id < bound
  }

  lemma {:induction false} OperandsRestored(t: Table, block: nat, bound: Id, operands: seq<Operand>, origins: seq<Id>,
                                            all: seq<Id>)
    requires OperandsBelow(operands, bound)
    requires var ids := FixOperands(t, block, bound, operands, origins).1; |ids| <= |all| && all[..|ids|] == ids
    ensures BackOperands(bound, all, FixOperands(t, block, bound, operands, origins).0) == operands
  {
    if operands != [] {
      var n := |operands| - 1;
      var (os, ids) := FixOperands(t, block, bound, operands[..n], origins);
      var (os1, ids1) := FixOperands(t, block, bound, operands, origins);
      assert all[..|ids|] == all[..|ids1|][..|ids|] == ids;
      OperandsRestored(t, block, bound, operands[..n], origins, all);
      assert BackOperands(bound, all, os1)[..n] == BackOperands(bound, all, os);
      if IsForeign(t, block, operands[n]) {
        assert all[|ids|] == all[..|ids1|][|ids|];
      }
      assert operands == operands[..n] + [operands[n]];
    }
  }

  lemma {:induction false} RestoreAppend(bound: Id, origins: seq<Id>, a: seq<Located>, b: seq<Located>)
    ensures Restore(bound, origins, a + b) == Restore(bound, origins, a) + Restore(bound, origins, b)
    decreases |b|
  {
    if b == [] {
      assert a + b == a;
    } else {
      assert (a + b)[..|a + b| - 1] == a + b[..|b| - 1];
      RestoreAppend(bound, origins, a, b[..|b| - 1]);
    }
  }

  lemma {:induction false} CopiesErased(bound: Id, origins: seq<Id>, copies: seq<Located>)
    requires forall i :: 0 <= i < |copies| ==> copies[i].inst.resultId >= bound
    ensures Restore(bound, origins, copies) == []
  {
    if copies != [] {
      CopiesErased(bound, origins, copies[..|copies| - 1]);
    }
  }

  /** Erasing the copies and mapping their ids back gives the original instructions. */
  lemma {:induction false} FixRestored(t: Table, bound: Id, p: seq<Located>, all: seq<Id>)
    requires HasImages(t) && Below(p, bound)
    requires var ids := Fix(t, bound, p).1; |ids| <= |all| && all[..|ids|] == ids
    ensures Restore(bound, all, Fix(t, bound, p).0) == p
  {
    if p != [] {
      hide Fix, FixInst, Restore, Below;
      var n := |p| - 1;
      var (r, origins) := Fix(t, bound, p[..n]);
      var (piece, ids) := FixInst(t, bound, p[n], origins);
      FixStep(t, bound, p);
      assert all[..|origins|] == all[..|ids|][..|origins|] == origins;
      BelowPrefix(p, bound, n);
      FixRestored(t, bound, p[..n], all);
      PieceRestored(t, bound, p[n], origins, all);
      RestoreAppend(bound, all, r, piece);
      assert p == p[..n] + [p[n]];
    }
  }

  lemma BelowPrefix(p: seq<Located>, bound: Id, n: nat)
    requires Below(p, bound) && n < |p|
    ensures Below(p[..n], bound) && p[n].inst.resultId < bound && OperandsBelow(p[n].inst.operands, bound)
  {
  }

  lemma PieceRestored(t: Table, bound: Id, l: Located, origins: seq<Id>, all: seq<Id>)
    requires HasImages(t) && l.inst.resultId < bound && OperandsBelow(l.inst.operands, bound)
    requires var ids := FixInst(t, bound, l, origins).1; |ids| <= |all| && all[..|ids|] == ids
    ensures Restore(bound, all, FixInst(t, bound, l, origins).0) == [l]
  {
    var (os, ids) := FixOperands(t, l.block, bound, l.inst.operands, origins);
    var copies := Copies(t, l.block, bound, ids, |origins|);
    var last := Located(l.block, l.inst.(operands := os));
    OperandsRestored(t, l.block, bound, l.inst.operands, origins, all);
    RestoreAppend(bound, all, copies, [last]);
    CopiesErased(bound, all, copies);
    assert [last][..0] == [];
    assert Restore(bound, all, [last]) == [l];
  }

  // ---------- every use is after a definition in its block ----------

  predicate DefinesImage(l: Located, block: nat, x: Id) {
    l.block == block && l.inst.op == OP_SAMPLED_IMAGE && l.inst.resultId == x
  }

  /** Instruction `i` uses images only after their definitions in its block. */
  ghost predicate LocalUses(r: seq<Located>, t: Table, bound: Id, i: nat)
    requires i < |r|
  {
    forall x: Id :: UsesOperand(r[i].inst, x) && (x in t || x >= bound) ==> Imaged(r, i, r[i].block, x)
  }

  /** Within a block, images are defined before they are used; images are not made of images. */
  ghost predicate ImagesOk(p: seq<Located>, t: Table) {
    && HasImages(t)
    && (forall x <- t :: forall k :: 0 <= k < 2 && t[x].inst.operands[k].IdRef? ==> t[x].inst.operands[k].id !in t)
    && (forall i, x :: 0 <= i < |p| && UsesOperand(p[i].inst, x) && x in t && t[x].block == p[i].block ==>
          Imaged(p, i, p[i].block, x))
  }

  /** A fixed operand: unchanged and not foreign, or the id of a copy. */
  lemma {:induction false} FixedOperand(t: Table, block: nat, bound: Id, operands: seq<Operand>, origins: seq<Id>,
                                        k: nat)
    requires k < |operands| && OperandsBelow(operands, bound)
    ensures var (os, ids) := FixOperands(t, block, bound, operands, origins);
            if IsForeign(t, block, operands[k]) then os[k].IdRef? && bound + |origins| <= os[k].id < bound + |ids|
            else os[k] == operands[k]
  {
    if k < |operands| - 1 {
      FixedOperand(t, block, bound, operands[..|operands| - 1], origins, k);
    }
  }

  /** What the definitions of `p` in front of `n` have become in `r`. */
  ghost predicate DefsKept(p: seq<Located>, n: nat, r: seq<Located>)
    requires n <= |p|
  {
    forall d, b, x :: 0 <= d < n && DefinesImage(p[d], b, x) ==> Imaged(r, |r|, b, x)
  }

  /** The image `x` is defined in block `b` before `i`. */
  ghost predicate Imaged(r: seq<Located>, i: nat, b: nat, x: Id)
    requires i <= |r|
  {
    exists d :: 0 <= d < i && DefinesImage(r[d], b, x)
  }

  /** Copies and the fixed instruction use images only after definitions in the block. */
  lemma FixedUse(t: Table, bound: Id, p: seq<Located>, n: nat, r: seq<Located>, origins: seq<Id>, i: nat)
    requires n < |p| && ImagesOk(p, t) && Below(p, bound) && TableBelow(t, bound) && DefsKept(p, n, r)
    requires var piece := FixInst(t, bound, p[n], origins).0; |r| <= i < |r| + |piece|
    ensures LocalUses(r + FixInst(t, bound, p[n], origins).0, t, bound, i)
  {
    var l := p[n];
    var (os, ids) := FixOperands(t, l.block, bound, l.inst.operands, origins);
    var copies := Copies(t, l.block, bound, ids, |origins|);
    var all := r + FixInst(t, bound, l, origins).0;
    forall x: Id | UsesOperand(all[i].inst, x) && (x in t || x >= bound)
      ensures Imaged(all, i, l.block, x)
    {
      if i < |r| + |copies| {
        CopyUses(t, bound, p, ids[|origins| + i - |r|], x);
      } else {
        var k :| 0 <= k < |os| && os[k] == IdRef(x);
        FixedOperand(t, l.block, bound, l.inst.operands, origins, k);
        if IsForeign(t, l.block, l.inst.operands[k]) {
          assert DefinesImage(all[|r| + (x - bound - |origins|)], l.block, x);
        } else {
          assert UsesOperand(l.inst, x);
          assert Imaged(p, n, l.block, x);
          assert Imaged(r, |r|, l.block, x);
          var e :| 0 <= e < |r| && DefinesImage(r[e], l.block, x);
          assert all[e] == r[e];
        }
      }
    }
  }

  ghost predicate TableBelow(t: Table, bound: Id) {
    forall x <- t :: x < bound && OperandsBelow(t[x].inst.operands, bound)
  }

  /** A copy uses no image. */
  lemma CopyUses(t: Table, bound: Id, p: seq<Located>, y: Id, x: Id)
    requires ImagesOk(p, t) && TableBelow(t, bound) && y in t && IdRef(x) in t[y].inst.operands[..2]
    ensures x !in t && x < bound
  {
    var k :| 0 <= k < 2 && t[y].inst.operands[k] == IdRef(x);
  }

  /** Every use of an image in the result is after a definition in its block. */
  lemma {:induction false} FixLocal(t: Table, bound: Id, p: seq<Located>)
    requires ImagesOk(p, t) && Below(p, bound) && TableBelow(t, bound)
    ensures var r := Fix(t, bound, p).0;
            DefsKept(p, |p|, r) && forall i :: 0 <= i < |r| ==> LocalUses(r, t, bound, i)
    decreases |p|
  {
    if p != [] {
      var n := |p| - 1;
      var q := p[..n];
      var (r, origins) := Fix(t, bound, q);
      var piece := FixInst(t, bound, p[n], origins).0;
      PrefixOk(t, bound, p, n);
      FixLocal(t, bound, q);
      forall d, b, x | 0 <= d < n && DefinesImage(p[d], b, x) ensures Imaged(r, |r|, b, x) {
        assert q[d] == p[d];
      }
      hide ImagesOk, FixInst, LocalUses;
      forall i | 0 <= i < |r + piece| ensures LocalUses(r + piece, t, bound, i) {
        if i < |r| {
          UsesKept(t, bound, r, piece, i);
        } else {
          FixedUse(t, bound, p, n, r, origins, i);
        }
      }
      forall d, b, x | 0 <= d < |p| && DefinesImage(p[d], b, x) ensures Imaged(r + piece, |r + piece|, b, x) {
        if d < n {
          assert q[d] == p[d] && Imaged(r, |r|, b, x);
          var e :| 0 <= e < |r| && DefinesImage(r[e], b, x);
          assert (r + piece)[e] == r[e];
        } else {
          LastOfPiece(t, bound, p[n], origins);
          assert DefinesImage((r + piece)[|r + piece| - 1], b, x);
        }
      }
    }
  }

  lemma LastOfPiece(t: Table, bound: Id, l: Located, origins: seq<Id>)
    requires HasImages(t)
    ensures var piece := FixInst(t, bound, l, origins).0; var last := piece[|piece| - 1];
            last.block == l.block && last.inst.op == l.inst.op && last.inst.resultId == l.inst.resultId
  {
  }

  lemma PrefixOk(t: Table, bound: Id, p: seq<Located>, n: nat)
    requires n <= |p| && ImagesOk(p, t) && Below(p, bound)
    ensures ImagesOk(p[..n], t) && Below(p[..n], bound)
  {
    var q := p[..n];
    forall i, x | 0 <= i < n && UsesOperand(q[i].inst, x) && x in t && t[x].block == q[i].block
      ensures Imaged(q, i, q[i].block, x)
    {
      assert Imaged(p, i, p[i].block, x);
      var d :| 0 <= d < i && DefinesImage(p[d], p[i].block, x);
      assert q[d] == p[d];
    }
  }

  lemma UsesKept(t: Table, bound: Id, r: seq<Located>, piece: seq<Located>, i: nat)
    requires i < |r| && LocalUses(r, t, bound, i)
    ensures LocalUses(r + piece, t, bound, i)
  {
    forall x: Id | UsesOperand(r[i].inst, x) && (x in t || x >= bound)
      ensures Imaged(r + piece, i, r[i].block, x)
    {
      var d :| 0 <= d < i && DefinesImage(r[d], r[i].block, x);
      assert (r + piece)[d] == r[d];
    }
  }

  // ---------- what a copy is ----------

  /** The OpSampledImage with result `y`. */
  predicate IsImage(l: Located, y: Id) {
    l.inst.op == 86 && l.inst.resultId == y && |l.inst.operands| >= 2
  }

  /** A second OpSampledImage of the same type, image and sampler as the one with result `y`, in another block. */
  ghost predicate IsCopy(p: seq<Located>, c: Located, y: Id) {
    exists i | 0 <= i < |p| ::
      && IsImage(p[i], y) && p[i].block != c.block
      && c.inst == Inst(86, p[i].inst.typeId, c.inst.resultId, [p[i].inst.operands[0], p[i].inst.operands[1]])
  }

  /** Only further copies stand between a copy and the instruction that uses it. */
  ghost predicate CopyIsUsed(r: seq<Located>, bound: Id, j: nat)
    requires j < |r|
  {
    exists u | j < u < |r| ::
      && (forall w :: j <= w < u ==> r[w].inst.resultId >= bound)
      && r[u].inst.resultId < bound && r[u].block == r[j].block && UsesOperand(r[u].inst, r[j].inst.resultId)
  }

  ghost predicate CopyOk(r: seq<Located>, p: seq<Located>, bound: Id, origins: seq<Id>, j: nat)
    requires j < |r|
  {
    && bound <= r[j].inst.resultId < bound + |origins|
    && IsCopy(p, r[j], origins[r[j].inst.resultId - bound]) && CopyIsUsed(r, bound, j)
  }

  /** Every new result is that of a copy which the next original instruction uses. */
  ghost predicate CopiesOk(r: seq<Located>, p: seq<Located>, bound: Id, origins: seq<Id>) {
    forall j | 0 <= j < |r| && r[j].inst.resultId >= bound :: CopyOk(r, p, bound, origins, j)
  }

  /** The replaced ids are those of images in other blocks, and each has its operand. */
  lemma {:induction false} ReplacedOperand(t: Table, block: nat, bound: Id, operands: seq<Operand>, origins: seq<Id>,
                                           i: nat) returns (k: nat)
    requires var ids := FixOperands(t, block, bound, operands, origins).1; |origins| <= i < |ids|
    ensures var (os, ids) := FixOperands(t, block, bound, operands, origins);
            k < |os| && os[k] == IdRef(bound + i) && ids[i] in t && t[ids[i]].block != block
  {
    var n := |operands| - 1;
    var ids := FixOperands(t, block, bound, operands[..n], origins).1;
    if i < |ids| {
      k := ReplacedOperand(t, block, bound, operands[..n], origins, i);
    } else {
      k := n;
    }
  }

  lemma PieceCopies(all: seq<Located>, bound: Id, l: Located, origins: seq<Id>, r: seq<Located>, j: nat)
    requires HasImages(SampledImages(all)) && l.inst.resultId < bound
    requires var piece := FixInst(SampledImages(all), bound, l, origins).0;
             |r| <= j < |r| + |piece| && piece[j - |r|].inst.resultId >= bound
    ensures var (piece, ids) := FixInst(SampledImages(all), bound, l, origins); CopyOk(r + piece, all, bound, ids, j)
  {
    var t := SampledImages(all);
    var (piece, ids) := FixInst(t, bound, l, origins);
    var (os, _) := FixOperands(t, l.block, bound, l.inst.operands, origins);
    var c := j - |r|;
    var k := ReplacedOperand(t, l.block, bound, l.inst.operands, origins, |origins| + c);
    TableIs(all, ids[|origins| + c]);
    var made := r + piece;
    var u := |made| - 1;
    assert made[u].inst.operands == os && made[j] == piece[c];
    assert CopyIsUsed(made, bound, j) by {
      assert UsesOperand(made[u].inst, made[j].inst.resultId);
    }
  }

  lemma CopyStays(r: seq<Located>, piece: seq<Located>, p: seq<Located>, bound: Id, origins: seq<Id>, ids: seq<Id>,
                  j: nat)
    requires j < |r| && CopyOk(r, p, bound, origins, j) && origins <= ids
    ensures CopyOk(r + piece, p, bound, ids, j)
  {
    hide IsCopy;
    var u :| j < u < |r| && (forall w :: j <= w < u ==> r[w].inst.resultId >= bound)
             && r[u].inst.resultId < bound && r[u].block == r[j].block && UsesOperand(r[u].inst, r[j].inst.resultId);
    var made := r + piece;
    assert forall w :: j <= w <= u ==> made[w] == r[w];
  }

  /** Each copy is one of an image of the module. */
  lemma {:induction false} FixCopies(all: seq<Located>, bound: Id, p: seq<Located>)
    requires HasImages(SampledImages(all)) && Below(p, bound)
    ensures var (r, origins) := Fix(SampledImages(all), bound, p); CopiesOk(r, all, bound, origins)
    decreases |p|
  {
    if p != [] {
      var n := |p| - 1;
      var t := SampledImages(all);
      FixStep(t, bound, p);
      hide Fix, FixInst, Below, SampledImages, IsCopy, CopyIsUsed;
      var (r, origins) := Fix(t, bound, p[..n]);
      var (piece, ids) := FixInst(t, bound, p[n], origins);
      BelowPrefix(p, bound, n);
      FixCopies(all, bound, p[..n]);
      forall j | 0 <= j < |r + piece| && (r + piece)[j].inst.resultId >= bound
        ensures CopyOk(r + piece, all, bound, ids, j)
      {
        if j < |r| {
          CopyStays(r, piece, all, bound, origins, ids, j);
        } else {
          PieceCopies(all, bound, p[n], origins, r, j);
        }
      }
    }
  }

  // ---------- result ids ----------

  ghost predicate UniqueIds(p: seq<Located>) {
    forall i, j :: 0 <= i < |p| && 0 <= j < |p| && p[i].inst.resultId == p[j].inst.resultId != 0 ==> i == j
  }

  ghost predicate HasResult(p: seq<Located>, x: Id) {
    exists i :: 0 <= i < |p| && p[i].inst.resultId == x
  }

  /** Every result is one of `p` or one of the first `n` fresh ids. */
  ghost predicate ResultsFrom(r: seq<Located>, p: seq<Located>, bound: Id, n: nat) {
    forall x: Id :: HasResult(r, x) ==> HasResult(p, x) || bound <= x < bound + n
  }

  /** Result ids are those of the module and the fresh ones, each once. */
  lemma {:induction false} FixUnique(t: Table, bound: Id, p: seq<Located>)
    requires HasImages(t) && Below(p, bound) && UniqueIds(p)
    ensures var (r, origins) := Fix(t, bound, p); UniqueIds(r) && ResultsFrom(r, p, bound, |origins|)
    decreases |p|
  {
    if p != [] {
      var n := |p| - 1;
      var (r, origins) := Fix(t, bound, p[..n]);
      FixStep(t, bound, p);
      hide Fix, FixInst, Below;
      BelowPrefix(p, bound, n);
      FixUnique(t, bound, p[..n]);
      PieceResults(t, bound, p[n], origins);
      UniquePiece(p, n, r, FixInst(t, bound, p[n], origins).0, bound, |origins|);
    }
  }

  lemma UniquePiece(p: seq<Located>, n: nat, r: seq<Located>, piece: seq<Located>, bound: Id, k: nat)
    requires |p| == n + 1 && Below(p, bound) && UniqueIds(p) && UniqueIds(r) && ResultsFrom(r, p[..n], bound, k)
    requires piece != [] && piece[|piece| - 1].inst.resultId == p[n].inst.resultId
    requires forall i :: 0 <= i < |piece| - 1 ==> piece[i].inst.resultId == bound + k + i
    ensures UniqueIds(r + piece) && ResultsFrom(r + piece, p, bound, k + |piece| - 1)
  {
    forall i | 0 <= i < |r|
      ensures HasResult(p[..n], r[i].inst.resultId) || bound <= r[i].inst.resultId < bound + k
      ensures r[i].inst.resultId < bound + k
      ensures r[i].inst.resultId != 0 ==> r[i].inst.resultId != p[n].inst.resultId
    {
      var x := r[i].inst.resultId;
      assert HasResult(r, x);
      if HasResult(p[..n], x) {
        var d :| 0 <= d < n && p[..n][d].inst.resultId == x;
        assert p[d].inst.resultId == x;
      }
    }
    forall x: Id | HasResult(r + piece, x) ensures HasResult(p, x) || bound <= x < bound + (k + |piece| - 1) {
      var i :| 0 <= i < |r + piece| && (r + piece)[i].inst.resultId == x;
      if i < |r| {
        if HasResult(p[..n], x) {
          var d :| 0 <= d < n && p[..n][d].inst.resultId == x;
          assert p[d].inst.resultId == x;
        }
      } else if i == |r + piece| - 1 {
        assert p[n].inst.resultId == x;
      }
    }
  }

  lemma PieceResults(t: Table, bound: Id, l: Located, origins: seq<Id>)
    requires HasImages(t)
    ensures var (piece, ids) := FixInst(t, bound, l, origins);
            && |piece| == |ids| - |origins| + 1 && piece[|piece| - 1].inst.resultId == l.inst.resultId
            && forall i :: 0 <= i < |piece| - 1 ==> piece[i].inst.resultId == bound + |origins| + i
  {
  }

  // ---------- the pass over blocks ----------

  /** The instructions of all blocks in order. */
  function AllOf(blocks: seq<seq<Located>>): seq<Located> {
    if blocks == [] then [] else AllOf(blocks[..|blocks| - 1]) + blocks[|blocks| - 1]
  }

  lemma {:induction false} FixAppend(t: Table, bound: Id, p: seq<Located>, l: Located)
    requires HasImages(t)
    ensures var (r, origins) := Fix(t, bound, p); var (piece, ids) := FixInst(t, bound, l, origins);
            Fix(t, bound, p + [l]) == (r + piece, ids)
  {
    assert (p + [l])[..|p|] == p;
  }

  /** The first operands are fixed, their copies stand in front of the instruction. */
  ghost predicate Midway(t: Table, bound: Id, was: seq<Located>, idx0: nat, l: Located, origins: seq<Id>, opnum: nat,
                         instrs: seq<Located>, idx: nat, ids: seq<Id>)
    requires HasImages(t)
  {
    && idx0 < |was| && was[idx0] == l && opnum <= |l.inst.operands|
    && var (os, ids1) := FixOperands(t, l.block, bound, l.inst.operands[..opnum], origins);
       && ids == ids1 && idx == idx0 + |ids| - |origins|
       && instrs == was[..idx0] + Copies(t, l.block, bound, ids1, |origins|)
                    + [Located(l.block, l.inst.(operands := os + l.inst.operands[opnum..]))] + was[idx0 + 1..]
  }

  lemma MidwayStart(t: Table, bound: Id, was: seq<Located>, idx0: nat, origins: seq<Id>)
    requires HasImages(t) && idx0 < |was|
    ensures Midway(t, bound, was, idx0, was[idx0], origins, 0, was, idx0, origins)
  {
    var l := was[idx0];
    assert l.inst.operands[..0] == [] && [] + l.inst.operands[0..] == l.inst.operands;
    assert was == was[..idx0] + [] + [l] + was[idx0 + 1..];
  }

  lemma MidwayStep(t: Table, bound: Id, was: seq<Located>, idx0: nat, l: Located, origins: seq<Id>, opnum: nat,
                   instrs: seq<Located>, idx: nat, ids: seq<Id>)
    requires HasImages(t) && Midway(t, bound, was, idx0, l, origins, opnum, instrs, idx, ids)
             && opnum < |l.inst.operands|
    ensures idx < |instrs| && |instrs[idx].inst.operands| == |l.inst.operands| && instrs[idx].block == l.block
    ensures instrs[idx].inst.operands[opnum] == l.inst.operands[opnum]
    ensures var o := l.inst.operands[opnum];
            if IsForeign(t, l.block, o) then
              var operands := instrs[idx].inst.operands[opnum := IdRef(bound + |ids|)];
              var user := Located(l.block, instrs[idx].inst.(operands := operands));
              var copy := Located(l.block, CopyOf(t[o.id].inst, bound + |ids|));
              Midway(t, bound, was, idx0, l, origins, opnum + 1, instrs[..idx] + [copy] + [user] + instrs[idx + 1..],
                     idx + 1, ids + [o.id])
            else Midway(t, bound, was, idx0, l, origins, opnum + 1, instrs, idx, ids)
  {
    var ops := l.inst.operands;
    var (os, ids1) := FixOperands(t, l.block, bound, ops[..opnum], origins);
    var copies := Copies(t, l.block, bound, ids, |origins|);
    var now := Located(l.block, l.inst.(operands := os + ops[opnum..]));
    assert ops[..opnum + 1][..opnum] == ops[..opnum];
    assert instrs[idx] == now && instrs[..idx] == was[..idx0] + copies && instrs[idx + 1..] == was[idx0 + 1..];
    var o := ops[opnum];
    if IsForeign(t, l.block, o) {
      var x := IdRef(bound + |ids|);
      var copy := Located(l.block, CopyOf(t[o.id].inst, bound + |ids|));
      assert Copies(t, l.block, bound, ids + [o.id], |origins|) == copies + [copy];
      assert (os + ops[opnum..])[opnum := x] == (os + [x]) + ops[opnum + 1..];
    } else {
      assert os + ops[opnum..] == (os + [o]) + ops[opnum + 1..];
    }
  }

  lemma MidwayEnd(t: Table, bound: Id, was: seq<Located>, idx0: nat, l: Located, origins: seq<Id>,
                  instrs: seq<Located>, idx: nat, ids: seq<Id>)
    requires HasImages(t) && Midway(t, bound, was, idx0, l, origins, |l.inst.operands|, instrs, idx, ids)
    ensures var (piece, ids1) := FixInst(t, bound, l, origins);
            ids == ids1 && idx + 1 == idx0 + |piece| && instrs == was[..idx0] + piece + was[idx0 + 1..]
  {
    var ops := l.inst.operands;
    var (os, ids1) := FixOperands(t, l.block, bound, ops, origins);
    assert ops[..|ops|] == ops && os + ops[|ops|..] == os;
    var copies := Copies(t, l.block, bound, ids, |origins|);
    var last := Located(l.block, l.inst.(operands := os));
    assert was[..idx0] + copies + [last] + was[idx0 + 1..] == was[..idx0] + (copies + [last]) + was[idx0 + 1..];
  }

  class SamplerPass {
    var blocks: seq<seq<Located>>
    /** The next id that `getUniqueId` hands out. */
    var uniqueId: Id

    constructor (blocks: seq<seq<Located>>, uniqueId: Id)
      ensures this.blocks == blocks && this.uniqueId == uniqueId
    {
      this.blocks, this.uniqueId := blocks, uniqueId;
    }

    method FindSampledImages() returns (t: Table)
      ensures t == SampledImages(AllOf(blocks))
    {
      t := map[];
      for b := 0 to |blocks|
        invariant t == SampledImages(AllOf(blocks[..b]))
      {
        t := AddSampledImages(t, blocks[b], AllOf(blocks[..b]));
        assert blocks[..b + 1][..b] == blocks[..b];
      }
      assert blocks[..|blocks|] == blocks;
    }

    static method AddSampledImages(was: Table, instrs: seq<Located>, ghost before: seq<Located>) returns (t: Table)
      requires was == SampledImages(before)
      ensures t == SampledImages(before + instrs)
    {
      hide SampledImages;
      t := was;
      assert before + instrs[..0] == before;
      for k := 0 to |instrs|
        invariant t == SampledImages(before + instrs[..k])
      {
        var l := instrs[k];
        TableStep(before + instrs[..k], l);
        assert before + instrs[..k + 1] == before + instrs[..k] + [l];
        if l.inst.op == OP_SAMPLED_IMAGE {
          t := t[l.inst.resultId := l];
        }
      }
      assert instrs[..|instrs|] == instrs;
    }

    /** The operands of one instruction, with a copy inserted in front of it for each foreign image. */
    method FixInstruction(t: Table, was: seq<Located>, idx0: nat, ghost bound: Id, ghost origins: seq<Id>)
        returns (instrs: seq<Located>, idx: nat, ghost ids: seq<Id>)
      requires HasImages(t) && idx0 < |was| && uniqueId == bound + |origins|
      modifies `uniqueId
      ensures var (piece, ids1) := FixInst(t, bound, was[idx0], origins);
              ids == ids1 && idx + 1 == idx0 + |piece| && instrs == was[..idx0] + piece + was[idx0 + 1..]
      ensures uniqueId == bound + |ids|
    {
      hide Midway;
      instrs, idx, ids := was, idx0, origins;
      ghost var l := was[idx0];
      MidwayStart(t, bound, was, idx0, origins);
      var count := |was[idx0].inst.operands|;
      for opnum := 0 to count
        invariant Midway(t, bound, was, idx0, l, origins, opnum, instrs, idx, ids) && uniqueId == bound + |ids|
      {
        MidwayStep(t, bound, was, idx0, l, origins, opnum, instrs, idx, ids);
        var i := instrs[idx];
        var o := i.inst.operands[opnum];
        if IsForeign(t, i.block, o) {
          var newInstr := Located(i.block, CopyOf(t[o.id].inst, uniqueId));
          var user := Located(i.block, i.inst.(operands := i.inst.operands[opnum := IdRef(uniqueId)]));
          uniqueId := uniqueId + 1;
          instrs := instrs[..idx] + [newInstr] + [user] + instrs[idx + 1..];
          idx := idx + 1;
          ids := ids + [o.id];
        }
      }
      MidwayEnd(t, bound, was, idx0, l, origins, instrs, idx, ids);
    }

    /** All instructions of a block. */
    method FixBlock(t: Table, was: seq<Located>, ghost bound: Id, ghost before: seq<Located>)
        returns (instrs: seq<Located>)
      requires HasImages(t) && uniqueId == bound + |Fix(t, bound, before).1|
      modifies `uniqueId
      ensures var (r, ids) := Fix(t, bound, before);
              var (r1, ids1) := Fix(t, bound, before + was);
              r1 == r + instrs && uniqueId == bound + |ids1|
    {
      hide FixInst, Fix;
      instrs := was;
      var idx := 0;
      ghost var k := 0;
      ghost var r, ids := Fix(t, bound, before).0, Fix(t, bound, before).1;
      assert before + was[..0] == before && r + instrs[..0] == r;
      while idx < |instrs|
        invariant k <= |was| && idx <= |instrs| && instrs[idx..] == was[k..]
        invariant Fix(t, bound, before + was[..k]) == (r + instrs[..idx], ids) && uniqueId == bound + |ids|
        decreases |was| - k
      {
        assert instrs[idx] == instrs[idx..][0] == was[k];
        FixAppend(t, bound, before + was[..k], was[k]);
        assert before + was[..k + 1] == before + was[..k] + [was[k]];
        ghost var old_ := instrs;
        ghost var idx0 := idx;
        ghost var piece := FixInst(t, bound, was[k], ids).0;
        instrs, idx, ids := FixInstruction(t, instrs, idx, bound, ids);
        idx := idx + 1;
        assert instrs[..idx] == old_[..idx0] + piece;
        assert instrs[idx..] == old_[idx0 + 1..] == old_[idx0..][1..] == was[k + 1..];
        assert r + old_[..idx0] + piece == r + (old_[..idx0] + piece);
        k := k + 1;
      }
      assert |was[k..]| == 0;
      assert was[..k] == was && instrs[..idx] == instrs;
    }

    /**
     * The pass. Every use of an image is now after its definition in the same block, result ids are still unique,
     * and taking the copies out again gives the original instructions.
     */
    method PostProcessSamplers() returns (ghost origins: seq<Id>)
      requires var p := AllOf(blocks); var t := SampledImages(p);
               ImagesOk(p, t) && Below(p, uniqueId) && UniqueIds(p)
      modifies this
      ensures var p := AllOf(old(blocks)); var r := AllOf(blocks);
              && (forall i :: 0 <= i < |r| ==> LocalUses(r, SampledImages(p), old(uniqueId), i))
              && UniqueIds(r) && ResultsFrom(r, p, old(uniqueId), |origins|)
              && Restore(old(uniqueId), origins, r) == p && CopiesOk(r, p, old(uniqueId), origins)
      ensures |blocks| == |old(blocks)| && uniqueId == old(uniqueId) + |origins|
    {
      hide ImagesOk, Below, TableBelow, UniqueIds, LocalUses, Restore, ResultsFrom, SampledImages, FixInst, CopiesOk;
      var t := FindSampledImages();
      ghost var bound, was := uniqueId, blocks;
      HasThem(AllOf(was), t);
      assert was[..0] == [];
      for b := 0 to |blocks|
        invariant |blocks| == |was| && forall c :: b <= c < |was| ==> blocks[c] == was[c]
        invariant AllOf(blocks[..b]) == Fix(t, bound, AllOf(was[..b])).0
                  && uniqueId == bound + |Fix(t, bound, AllOf(was[..b])).1|
      {
        assert was[..b + 1][..b] == was[..b];
        var instrs := FixBlock(t, blocks[b], bound, AllOf(was[..b]));
        ghost var before := blocks[..b];
        blocks := blocks[b := instrs];
        assert blocks[..b + 1][..b] == before;
      }
      assert was[..|was|] == was && blocks[..|blocks|] == blocks;
      ghost var p := AllOf(was);
      origins := Fix(t, bound, p).1;
      TableIsBelow(p, bound);
      FixLocal(t, bound, p);
      FixUnique(t, bound, p);
      assert origins[..|origins|] == origins;
      FixRestored(t, bound, p, origins);
      FixCopies(p, bound, p);
    }
  }

  lemma TableIsBelow(p: seq<Located>, bound: Id)
    requires Below(p, bound)
    ensures TableBelow(SampledImages(p), bound)
  {
    var t := SampledImages(p);
    forall x | x in t ensures x < bound && OperandsBelow(t[x].inst.operands, bound) {
      TableIs(p, x);
      var i :| 0 <= i < |p| && p[i] == t[x];
    }
  }

  lemma HasThem(p: seq<Located>, t: Table)
    requires ImagesOk(p, t)
    ensures HasImages(t)
  {
  }
}
