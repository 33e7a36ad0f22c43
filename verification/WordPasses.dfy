/** Stripping and renaming on the words of a module, and what they mean for its instructions. */
module WordPasses {
  import opened StringLiterals
  import opened Spirv
  import opened Binary
  import opened RemapBinary
  import opened Strip
  import O = OptLoadStore

  /** The words of an instruction with type, result and operands in their places. */
  predicate Shaped(cx: Context, raw: Raw) {
    && raw != [] && raw[0].Literal?
    && First(cx, OpCode(HeadWord(raw))) <= |raw|
    && forall i :: 1 <= i < First(cx, OpCode(HeadWord(raw))) ==> raw[i].IdRef?
  }

  function HeadWord(raw: Raw): Word
    requires raw != []
  {
    raw[0].Word() % 0x1_0000_0000
  }

  /** The instruction that the words encode. */
  function ToInst(cx: Context, raw: Raw): Inst
    requires Shaped(cx, raw)
  {
    var op := OpCode(HeadWord(raw));
    var typed := cx.tbl(op).hasType;
    Inst(op,
         if typed then raw[1].id else 0,
         if cx.tbl(op).hasResult then raw[if typed then 2 else 1].id else 0,
         raw[First(cx, op)..])
  }

  ghost predicate AllShaped(cx: Context, raws: seq<Raw>) {
    forall k :: 0 <= k < |raws| ==> Shaped(cx, raws[k])
  }

  function ToInsts(cx: Context, raws: seq<Raw>): (p: seq<Inst>)
    requires AllShaped(cx, raws)
    ensures |p| == |raws| && forall k :: 0 <= k < |p| ==> p[k] == ToInst(cx, raws[k])
  {
    seq(|raws|, k requires 0 <= k < |raws| => ToInst(cx, raws[k]))
  }

  lemma ContainedIsShaped(cx: Context, raw: Raw)
    requires SelfContained(cx, raw)
    ensures Shaped(cx, raw)
  {
    hide InstIds, Middle, Range, First, OpCode, WordCount;
    var ws: seq<Word> := WordsOf(raw);
    HeadIds(cx, ws);
    assert ws[0] == HeadWord(raw);
  }

  /** Decoded instructions have that shape. */
  lemma DecodedAreShaped(cx: Context, ws: seq<Word>)
    requires Decode(cx, ws).Insts?
    ensures AllShaped(cx, Decode(cx, ws).insts)
  {
    var raws := Decode(cx, ws).insts;
    forall k | 0 <= k < |raws|
      ensures Shaped(cx, raws[k])
    {
      DecodedAreContained(cx, ws, k);
      ContainedIsShaped(cx, raws[k]);
    }
  }

  /** Replacing the id words of an instruction is renaming the instruction. */
  lemma RenamedInst(cx: Context, f: map<Word, Word>, raw: Raw)
    requires Shaped(cx, raw) && 0 !in f
    ensures Shaped(cx, RenameRaw(f, raw))
    ensures ToInst(cx, RenameRaw(f, raw)) == O.Rename(f, ToInst(cx, raw))
  {
    var r := RenameRaw(f, raw);
    assert r[0] == raw[0] && HeadWord(r) == HeadWord(raw);
    assert ToInst(cx, r).operands == O.Rename(f, ToInst(cx, raw)).operands;
  }

  lemma RenamedInsts(cx: Context, f: map<Word, Word>, raws: seq<Raw>)
    requires AllShaped(cx, raws) && 0 !in f
    ensures AllShaped(cx, RenameAll(f, raws))
    ensures ToInsts(cx, RenameAll(f, raws)) == O.Renamed(f, ToInsts(cx, raws))
  {
    forall k | 0 <= k < |raws|
      ensures Shaped(cx, RenameAll(f, raws)[k])
      ensures ToInst(cx, RenameAll(f, raws)[k]) == O.Rename(f, ToInst(cx, raws[k]))
    {
      RenamedInst(cx, f, raws[k]);
    }
  }

  /** The instructions that the ranges cover. */
  ghost function Marks(raws: seq<Raw>, ranges: seq<WordRange>): set<nat> {
    set k: nat | k < |raws| && Covered(ranges, Offset(raws, k))
  }

  lemma JoinInsts(cx: Context, raws: seq<Raw>, raw: Raw)
    requires AllShaped(cx, raws) && Shaped(cx, raw)
    ensures AllShaped(cx, raws + [raw])
    ensures ToInsts(cx, raws + [raw]) == ToInsts(cx, raws) + [ToInst(cx, raw)]
  {
    hide Shaped, ToInst;
  }

  lemma CompactSnoc(p: seq<Inst>, marks: set<nat>, k: nat)
    requires k < |p|
    ensures Compact(p[..k + 1], marks) == Compact(p[..k], marks) + if k in marks then [] else [p[k]]
  {
    var q := p[..k + 1];
    assert |q| - 1 == k && q[..k] == p[..k] && q[k] == p[k];
  }

  /** Leaving out covered instructions is compacting by their numbers. */
  lemma {:induction false} KeptIsCompact(cx: Context, raws: seq<Raw>, ranges: seq<WordRange>, k: nat)
    requires AllShaped(cx, raws) && k <= |raws|
    ensures AllShaped(cx, KeptInsts(raws, ranges, k))
    ensures ToInsts(cx, KeptInsts(raws, ranges, k)) == Compact(ToInsts(cx, raws)[..k], Marks(raws, ranges))
  {
    hide Shaped, ToInst, Covered, Offset, Compact;
    var p, marks := ToInsts(cx, raws), Marks(raws, ranges);
    if k == 0 {
      NothingLeft(marks);
      assert p[..0] == [];
    } else {
      var before := KeptInsts(raws, ranges, k - 1);
      KeptIsCompact(cx, raws, ranges, k - 1);
      CompactSnoc(p, marks, k - 1);
      if k - 1 in marks {
        assert KeptInsts(raws, ranges, k) == before;
      } else {
        assert KeptInsts(raws, ranges, k) == before + [raws[k - 1]];
        JoinInsts(cx, before, raws[k - 1]);
      }
    }
  }

  lemma NothingLeft(marks: set<nat>)
    ensures Compact([], marks) == []
  {
  }

  /**
   * Stripping the words of whole instructions and then replacing ids in the words left gives a module that decodes to
   * the instructions that were not stripped, in order and renamed; the header stays.
   */
  lemma StripThenMap(cx: Context, cx1: Context, spv: seq<Word>, ranges: seq<WordRange>, f: map<Word, Word>)
    requires |spv| >= 5 && Decode(cx, spv[5..]).Insts? && Aligned(Decode(cx, spv[5..]).insts, ranges)
    requires var raws := Decode(cx, spv[5..]).insts;
             SizesFollow(f, cx.sizes, cx1.sizes, KeptInsts(raws, ranges, |raws|))
    requires cx.tbl == cx1.tbl && 0 !in f
    ensures var raws := Decode(cx, spv[5..]).insts; var r := KeptUpTo(spv, ranges, |spv|);
            && AllShaped(cx, raws) && |r| >= 5 && r[..5] == spv[..5] && Decode(cx, r[5..]).Insts?
            && var d := Decode(cx1, RenamedWords(cx, f, r[5..]));
            && d.Insts? && AllShaped(cx1, d.insts)
            && ToInsts(cx1, d.insts) == O.Renamed(f, Compact(ToInsts(cx, raws), Marks(raws, ranges)))
  {
    var raws := Decode(cx, spv[5..]).insts;
    var r := KeptUpTo(spv, ranges, |spv|);
    var kept := KeptInsts(raws, ranges, |raws|);
    DecodedAreShaped(cx, spv[5..]);
    StrippedDecodes(cx, spv, ranges);
    DecodeRenamed(cx, cx1, f, r[5..]);
    KeptIsCompact(cx, raws, ranges, |raws|);
    assert ToInsts(cx, raws)[..|raws|] == ToInsts(cx, raws);
    RenamedInsts(cx, f, kept);
    SameTable(cx, cx1, RenameAll(f, kept));
  }

  lemma SameTable(cx: Context, cx1: Context, raws: seq<Raw>)
    requires cx.tbl == cx1.tbl && AllShaped(cx, raws)
    ensures AllShaped(cx1, raws) && ToInsts(cx1, raws) == ToInsts(cx, raws)
  {
    forall k | 0 <= k < |raws|
      ensures Shaped(cx1, raws[k]) && ToInst(cx1, raws[k]) == ToInst(cx, raws[k])
    {
      assert Shaped(cx, raws[k]);
    }
  }

  /** Both passes in place, one after the other. */
  method StripAndMap(cx: Context, ghost cx1: Context, words: seq<Word>, ranges: seq<WordRange>, f: map<Word, Word>)
    returns (bin: SpirvBin)
    requires |words| >= 5 && Decode(cx, words[5..]).Insts? && Aligned(Decode(cx, words[5..]).insts, ranges)
    requires var raws := Decode(cx, words[5..]).insts; var kept := KeptInsts(raws, ranges, |raws|);
             && SizesFollow(f, cx.sizes, cx1.sizes, kept)
             && forall x: Word :: UsesId(kept, x) ==> x in f
    requires cx.tbl == cx1.tbl && 0 !in f
    ensures fresh(bin) && |bin.spv| >= 5 && bin.spv[..5] == words[..5]
    ensures var raws := Decode(cx, words[5..]).insts; var d := Decode(cx1, bin.spv[5..]);
            && AllShaped(cx, raws) && d.Insts? && AllShaped(cx1, d.insts)
            && ToInsts(cx1, d.insts) == O.Renamed(f, Compact(ToInsts(cx, raws), Marks(raws, ranges)))
  {
    hide Decode, KeptUpTo, SizesFollow, UsesId, RenamedWords, Aligned;
    StrippedDecodes(cx, words, ranges);
    StripThenMap(cx, cx1, words, ranges, f);
    var stripper := new Stripper(words, ranges);
    stripper.Strip();
    bin := new SpirvBin(stripper.spv, cx);
    bin.ApplyMap(f);
  }
}
