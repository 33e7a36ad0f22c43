/** Where a switch goes, and what the finished blocks hold of its segments. */
module SwitchCorrect {
  import opened ShaderAst
  import opened SpirvBuilder
  import opened Lowering
  import opened LoweringCorrect
  import opened StatementLowering
  import opened StatementCorrect

  predicate IsSuffix(items: Items, sel: Items) {
    || items == sel
    || match items
       case NoItems => false
       case CaseLabel(_, rest) => IsSuffix(rest, sel)
       case DefaultLabel(rest) => IsSuffix(rest, sel)
       case Code(_, rest) => IsSuffix(rest, sel)
  }

  lemma {:induction false} SuffixCount(items: Items, sel: Items)
    requires IsSuffix(items, sel)
    ensures SegCount(sel) <= SegCount(items)
  {
    if items != sel {
      match items
      case CaseLabel(_, rest) => SuffixCount(rest, sel);
      case DefaultLabel(rest) => SuffixCount(rest, sel);
      case Code(_, rest) => SuffixCount(rest, sel);
    }
  }

  lemma {:induction false} SelectedSuffix(items: Items, v: int)
    ensures IsSuffix(items, CaseItems(items, v)) && IsSuffix(items, DefaultItems(items))
  {
    match items
    case NoItems =>
    case CaseLabel(_, rest) => SelectedSuffix(rest, v);
    case DefaultLabel(rest) => SelectedSuffix(rest, v);
    case Code(_, rest) => SelectedSuffix(rest, v);
  }

  /** The table sends a value to the segment after its label. */
  lemma {:induction false} CaseTarget(items: Items, v: int, k: nat, first: nat, otherwise: nat)
    ensures var sel := CaseItems(items, v);
            && SegCount(sel) <= SegCount(items)
            && SwitchTarget(Targets(CaseTable(items, k), first), v, otherwise)
               == if sel == NoItems then otherwise else first + k + SegCount(items) - SegCount(sel)
  {
    match items
    case NoItems =>
    case CaseLabel(w, rest) =>
      CaseTarget(rest, v, k, first, otherwise);
      assert CaseTable(items, k)[1..] == CaseTable(rest, k);
      assert Targets(CaseTable(items, k), first)[1..] == Targets(CaseTable(rest, k), first);
    case DefaultLabel(rest) => CaseTarget(rest, v, k, first, otherwise);
    case Code(_, rest) => CaseTarget(rest, v, k + 1, first, otherwise);
  }

  lemma {:induction false} DefaultTarget(items: Items, k: nat)
    ensures var sel := DefaultItems(items);
            && SegCount(sel) <= SegCount(items)
            && DefaultSegment(items, k) == if sel == NoItems then -1 else k + SegCount(items) - SegCount(sel)
  {
    match items
    case NoItems =>
    case CaseLabel(_, rest) => DefaultTarget(rest, k);
    case DefaultLabel(rest) => DefaultTarget(rest, k);
    case Code(_, rest) => DefaultTarget(rest, k + 1);
  }

  /** A case label that no code follows is the last one in the table. */
  lemma {:induction false} LastCase(items: Items, v: int, k: nat)
    requires CaseItems(items, v) != NoItems && SegCount(CaseItems(items, v)) == 0
    ensures var t := CaseTable(items, k); t != [] && t[|t| - 1].1 == k + SegCount(items)
  {
    match items
    case CaseLabel(w, rest) =>
      if v == w {
        LabelsOnly(rest, k);
      } else {
        LastCase(rest, v, k);
      }
    case DefaultLabel(rest) => LastCase(rest, v, k);
    case Code(_, rest) => LastCase(rest, v, k + 1);
  }

  lemma {:induction false} LabelsOnly(items: Items, k: nat)
    requires SegCount(items) == 0
    ensures forall i :: 0 <= i < |CaseTable(items, k)| ==> CaseTable(items, k)[i].1 == k
  {
    match items
    case NoItems =>
    case CaseLabel(_, rest) => LabelsOnly(rest, k);
    case DefaultLabel(rest) => LabelsOnly(rest, k);
  }

  /** The switch goes to the segment of the selected label, which exists, or to the merge block. */
  lemma SelectedTarget(items: Items, v: int, first: nat)
    ensures var sel := SelectedItems(items, v); var n := NumSegments(items); var d := DefaultSegment(items, 0);
            && SegCount(sel) <= SegCount(items) && IsSuffix(items, sel)
            && (sel != NoItems ==> SegCount(items) - SegCount(sel) < n)
            && SwitchTarget(Targets(CaseTable(items, 0), first), v, if d >= 0 then first + d else first + n)
               == if sel == NoItems then first + n else first + SegCount(items) - SegCount(sel)
  {
    var d := DefaultSegment(items, 0);
    SelectedSuffix(items, v);
    CaseTarget(items, v, 0, first, if d >= 0 then first + d else first + NumSegments(items));
    DefaultTarget(items, 0);
    if CaseItems(items, v) != NoItems && SegCount(CaseItems(items, v)) == 0 {
      LastCase(items, v, 0);
    }
  }

  // ---------- segments in the finished blocks ----------

  /** A segment that something follows ends with a branch to the next one. */
  lemma {:induction false} NextIn(f: seq<Block>, hlsl: bool, b: Builder, items: Items, first: nat, k: nat, n: nat)
    requires SegmentsReady(b, first, k, n) && k + SegCount(items) <= n <= k + SegCount(items) + 1
    requires b.switchMerges != [] && Ok(b) && k < n
    requires Grows(LowerItems(hlsl, b, items, first, k, n).blocks, f)
    ensures b.cur < |f| && f[b.cur] == b.blocks[b.cur].(term := Branch(first + k))
    decreases items
  {
    var r := LowerItems(hlsl, b, items, first, k, n);
    match items
    case CaseLabel(_, rest) => NextIn(f, hlsl, b, rest, first, k, n);
    case DefaultLabel(rest) => NextIn(f, hlsl, b, rest, first, k, n);
    case NoItems =>
      var x := NextSegment(b, first + k);
      GrowsTrans(x.blocks, r.blocks, f);
    case Code(s, rest) =>
      var x := NextSegment(b, first + k);
      OneSegment(b, first, k, n, LowerStmt(hlsl, x, s));
      var y := LowerStmt(hlsl, x, s);
      GrowsTrans(x.blocks, y.blocks, r.blocks);
      GrowsTrans(x.blocks, r.blocks, f);
  }

  /** After the last segment nothing more is executed. */
  lemma {:induction false} NoMoreCode(mg: Meaning, hlsl: bool, items: Items, st: Store, fuel: nat)
    requires SegCount(items) == 0
    ensures ExecItems(mg, hlsl, items, st, fuel) == Done(Normal, st)
    decreases items
  {
    match items
    case NoItems =>
    case CaseLabel(_, rest) => NoMoreCode(mg, hlsl, rest, st, fuel);
    case DefaultLabel(rest) => NoMoreCode(mg, hlsl, rest, st, fuel);
  }

  /** The builder's top switch is the one whose merge block `e` goes on at. */
  ghost predicate Closing(f: seq<Block>, b: Builder, r: Builder, e: Builder) {
    && b.switchMerges != [] && b.breakForLoop != [] && !b.breakForLoop[|b.breakForLoop| - 1]
    && b.switchMerges[|b.switchMerges| - 1] == e.cur
    && Sized(e) && e.blocks[e.cur] == EMPTY_BLOCK
    && Grows(r.blocks, f)
    && (Ok(r) ==> r.cur < |f| && f[r.cur] == r.blocks[r.cur].(term := Branch(e.cur)))
  }

  /** Inside a switch break goes to its merge block and continue where it went before. */
  lemma SwitchTargets(b: Builder, k: nat, items: Items)
    requires Ok(b)
    ensures var x := SwitchHeader(b, k, items);
            BreakTarget(x) == |b.blocks| + NumSegments(items) && ContinueTarget(x) == ContinueTarget(b)
  {
  }

  lemma HeaderBlock(b: Builder, k: nat, items: Items)
    requires Ok(b)
    ensures var x := SwitchHeader(b, k, items); var n := NumSegments(items);
            var d := DefaultSegment(items, 0); var first := |b.blocks|;
            && b.cur < |x.blocks|
            && x.blocks[b.cur] == Block(b.blocks[b.cur].instrs + [SelectionMerge(first + n)],
                                        SwitchOn(k, if d >= 0 then first + d else first + n,
                                                 Targets(CaseTable(items, 0), first)))
            && x.switchMerges == b.switchMerges + [first + n] && x.breakForLoop == b.breakForLoop + [false]
  {
  }

  /** What the finished blocks hold of a switch. */
  lemma SwitchIn(f: seq<Block>, hlsl: bool, b: Builder, k: nat, items: Items, r: Builder)
    requires Ok(b)
    requires Segmented(SwitchHeader(b, k, items), r, |b.blocks|, 0, NumSegments(items))
    requires r.breakForLoop != [] && r.switchMerges != [] && Grows(EndSwitch(PopBreak(r)).blocks, f)
    ensures var x := SwitchHeader(b, k, items); var e := EndSwitch(PopBreak(r)); var n := NumSegments(items);
            var d := DefaultSegment(items, 0); var first := |b.blocks|;
            && Closing(f, x, r, e) && e.cur == first + n && Grows(b.blocks, f)
            && b.cur < |f|
            && f[b.cur] == Block(b.blocks[b.cur].instrs + [SelectionMerge(first + n)],
                                 SwitchOn(k, if d >= 0 then first + d else first + n,
                                          Targets(CaseTable(items, 0), first)))
  {
    var x := SwitchHeader(b, k, items);
    var e := EndSwitch(PopBreak(r));
    SwitchFramed(b, k, items, r);
    GrowsTrans(r.blocks, e.blocks, f);
    GrowsTrans(b.blocks, e.blocks, f);
    GrowsTrans(x.blocks, r.blocks, f);
    HeaderBlock(b, k, items);
    hide SwitchHeader, EndSwitch, Framed, Segmented;
    assert x.blocks[b.cur].term.SwitchOn?;
  }
}
