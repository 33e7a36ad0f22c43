/** Decoding a module's words, and the in-place passes over them: renaming of ids and stripping. */
module RemapBinary {
  import opened StringLiterals
  import opened Spirv
  import opened Binary

  /** An instruction as its words, each marked as an id or not. */
  type Raw = seq<Operand>

  datatype Decoded = Malformed | Insts(insts: seq<Raw>)

  function Tagged(ws: seq<Word>, ids: seq<nat>): (r: Raw)
    ensures |r| == |ws|
  {
    seq(|ws|, i requires 0 <= i < |ws| => if i in ids then IdRef(ws[i]) else Literal(ws[i]))
  }

  /** The instructions of a module without its header. */
  function Decode(cx: Context, ws: seq<Word>): Decoded {
    if ws == [] then Insts([])
    else
      var n := WordCount(ws[0]);
      if n == 0 || n > |ws| then Malformed
      else
        match (InstIds(cx, ws[..n]), Decode(cx, ws[n..]))
        case (Ids(ids), Insts(rest)) => Insts([Tagged(ws[..n], ids)] + rest)
        case _ => Malformed
  }

  function WordsOf(raw: Raw): (ws: seq<nat>)
    ensures |ws| == |raw|
  {
    seq(|raw|, i requires 0 <= i < |raw| => raw[i].Word())
  }

  function Encode(insts: seq<Raw>): seq<nat> {
    if insts == [] then [] else WordsOf(insts[0]) + Encode(insts[1..])
  }

  /** Encoding what was decoded gives the words back. */
  lemma {:induction false} EncodeDecode(cx: Context, ws: seq<Word>)
    requires Decode(cx, ws).Insts?
    ensures Encode(Decode(cx, ws).insts) == ws
    decreases |ws|
  {
    if ws != [] {
      var n := WordCount(ws[0]);
      var ids := InstIds(cx, ws[..n]).at;
      assert Decode(cx, ws).insts[1..] == Decode(cx, ws[n..]).insts;
      EncodeDecode(cx, ws[n..]);
      assert WordsOf(Tagged(ws[..n], ids)) == ws[..n];
    }
  }

  // ---------- renaming ----------

  function RenameWord(f: map<Word, Word>, o: Operand): Operand {
    if o.IdRef? && o.id in f then IdRef(f[o.id]) else o
  }

  function RenameRaw(f: map<Word, Word>, raw: Raw): (r: Raw)
    ensures |r| == |raw|
  {
    seq(|raw|, i requires 0 <= i < |raw| => RenameWord(f, raw[i]))
  }

  function RenameAll(f: map<Word, Word>, insts: seq<Raw>): (r: seq<Raw>)
    ensures |r| == |insts| && forall i :: 0 <= i < |r| ==> r[i] == RenameRaw(f, insts[i])
  {
    seq(|insts|, i requires 0 <= i < |insts| => RenameRaw(f, insts[i]))
  }

  predicate UsesId(insts: seq<Raw>, x: nat) {
    exists k :: 0 <= k < |insts| && IdRef(x) in insts[k]
  }

  /** The switch literal sizes after the renaming are those before. */
  ghost predicate SizesFollow(f: map<Word, Word>, sizes: map<Word, nat>, sizes1: map<Word, nat>, insts: seq<Raw>) {
    forall x: Word :: x in sizes && UsesId(insts, x) ==>
      var y := if x in f then f[x] else x; y in sizes1 && sizes1[y] == sizes[x]
  }

  /** The words of a module with the ids of every instruction replaced. */
  function RenamedWords(cx: Context, f: map<Word, Word>, ws: seq<Word>): (r: seq<Word>)
    requires Decode(cx, ws).Insts?
    ensures |r| == |ws|
  {
    if ws == [] then []
    else
      var n := WordCount(ws[0]);
      Rename(f, ws[..n], InstIds(cx, ws[..n]).at) + RenamedWords(cx, f, ws[n..])
  }

  lemma TaggedRename(f: map<Word, Word>, ws: seq<Word>, ids: seq<nat>)
    ensures Tagged(Rename(f, ws, ids), ids) == RenameRaw(f, Tagged(ws, ids))
  {
  }

  /** Replacing the ids in the words and decoding is decoding and renaming. */
  lemma {:induction false} DecodeRenamed(cx: Context, cx1: Context, f: map<Word, Word>, ws: seq<Word>)
    requires cx.tbl == cx1.tbl && Decode(cx, ws).Insts? && SizesFollow(f, cx.sizes, cx1.sizes, Decode(cx, ws).insts)
    ensures Decode(cx1, RenamedWords(cx, f, ws)) == Insts(RenameAll(f, Decode(cx, ws).insts))
    decreases |ws|
  {
    if ws != [] {
      hide InstIds, SizesFollow, Rename, Tagged, RenameRaw, Decode, RenamedWords, RenameAll;
      DecodeParts(cx, ws);
      RenamedParts(cx, f, ws);
      var n := WordCount(ws[0]);
      var ids := InstIds(cx, ws[..n]).at;
      var insts := Decode(cx, ws).insts;
      var vs := RenamedWords(cx, f, ws);
      assert insts[1..] == Decode(cx, ws[n..]).insts;
      assert vs[..n] == Rename(f, ws[..n], ids) && vs[n..] == RenamedWords(cx, f, ws[n..]);
      RestSizesFollow(f, cx.sizes, cx1.sizes, insts);
      DecodeRenamed(cx, cx1, f, ws[n..]);
      HeadDecodes(cx, cx1, f, ws[..n], insts);
      assert vs[0] == vs[..n][0];
      DecodeIs(cx1, vs, n);
      RenameAllParts(f, insts);
    }
  }

  lemma RenameAllParts(f: map<Word, Word>, insts: seq<Raw>)
    requires insts != []
    ensures RenameAll(f, insts) == [RenameRaw(f, insts[0])] + RenameAll(f, insts[1..])
  {
    hide RenameRaw;
  }

  lemma RenamedParts(cx: Context, f: map<Word, Word>, ws: seq<Word>)
    requires ws != [] && Decode(cx, ws).Insts?
    ensures var n := WordCount(ws[0]);
            && 0 < n <= |ws| && InstIds(cx, ws[..n]).Ids? && Decode(cx, ws[n..]).Insts?
            && RenamedWords(cx, f, ws) == Rename(f, ws[..n], InstIds(cx, ws[..n]).at) + RenamedWords(cx, f, ws[n..])
  {
  }

  lemma DecodeParts(cx: Context, ws: seq<Word>)
    requires ws != [] && Decode(cx, ws).Insts?
    ensures var n := WordCount(ws[0]);
            && 0 < n <= |ws| && InstIds(cx, ws[..n]).Ids? && Decode(cx, ws[n..]).Insts?
            && Decode(cx, ws).insts == [Tagged(ws[..n], InstIds(cx, ws[..n]).at)] + Decode(cx, ws[n..]).insts
  {
  }

  lemma DecodeIs(cx: Context, ws: seq<Word>, n: nat)
    requires 0 < n <= |ws| && WordCount(ws[0]) == n && InstIds(cx, ws[..n]).Ids? && Decode(cx, ws[n..]).Insts?
    ensures Decode(cx, ws) == Insts([Tagged(ws[..n], InstIds(cx, ws[..n]).at)] + Decode(cx, ws[n..]).insts)
  {
  }

  /** One instruction of a renamed module. */
  lemma HeadDecodes(cx: Context, cx1: Context, f: map<Word, Word>, ws: seq<Word>, insts: seq<Raw>)
    requires cx.tbl == cx1.tbl && ws != [] && InstIds(cx, ws).Ids? && insts != []
    requires insts[0] == Tagged(ws, InstIds(cx, ws).at) && SizesFollow(f, cx.sizes, cx1.sizes, insts)
    ensures var ids := InstIds(cx, ws).at; var vs := Rename(f, ws, ids);
            && vs[0] == ws[0] && InstIds(cx1, vs) == Ids(ids)
            && Tagged(vs, ids) == RenameRaw(f, Tagged(ws, ids))
  {
    var ids := InstIds(cx, ws).at;
    assert 0 !in ids;
    HeadSizes(cx, cx1, f, ws, ids, insts);
    InstIdsStable(cx, cx1, ws, Rename(f, ws, ids));
    TaggedRename(f, ws, ids);
  }

  lemma RestSizesFollow(f: map<Word, Word>, sizes: map<Word, nat>, sizes1: map<Word, nat>, insts: seq<Raw>)
    requires insts != [] && SizesFollow(f, sizes, sizes1, insts)
    ensures SizesFollow(f, sizes, sizes1, insts[1..])
  {
    forall x: Word | x in sizes && UsesId(insts[1..], x)
      ensures UsesId(insts, x)
    {
      var k :| 0 <= k < |insts[1..]| && IdRef(x) in insts[1..][k];
      assert IdRef(x) in insts[k + 1];
    }
  }

  lemma HeadSizes(cx: Context, cx1: Context, f: map<Word, Word>, ws: seq<Word>, ids: seq<nat>, insts: seq<Raw>)
    requires insts != [] && insts[0] == Tagged(ws, ids) && SizesFollow(f, cx.sizes, cx1.sizes, insts)
    ensures SameSizes(ws, cx.sizes, Rename(f, ws, ids), cx1.sizes, ids)
  {
    forall i | i in ids && i < |ws| && ws[i] in cx.sizes
      ensures UsesId(insts, ws[i])
    {
      assert insts[0][i] == IdRef(ws[i]);
    }
  }

  /** `g` undoes `f` on the ids of the module. */
  ghost predicate Undoes(f: map<Word, Word>, g: map<Word, Word>, insts: seq<Raw>) {
    forall x: Word :: UsesId(insts, x) ==> x in f && f[x] in g && g[f[x]] == x
  }

  /** Applying the inverse map restores the words. */
  lemma RenameBack(cx: Context, cx1: Context, f: map<Word, Word>, g: map<Word, Word>, ws: seq<Word>)
    requires cx.tbl == cx1.tbl && Decode(cx, ws).Insts? && SizesFollow(f, cx.sizes, cx1.sizes, Decode(cx, ws).insts)
    requires Undoes(f, g, Decode(cx, ws).insts)
    ensures var vs := RenamedWords(cx, f, ws);
            Decode(cx1, vs).Insts? && RenamedWords(cx1, g, vs) == ws
  {
    DecodeRenamed(cx, cx1, f, ws);
    RenamedIsEncoded(cx1, g, RenamedWords(cx, f, ws));
    EncodeDecode(cx, ws);
    var insts := Decode(cx, ws).insts;
    forall k | 0 <= k < |insts|
      ensures RenameRaw(g, RenameRaw(f, insts[k])) == insts[k]
    {
      WordsAreWords(cx, ws, k);
      forall i | 0 <= i < |insts[k]|
        ensures RenameWord(g, RenameWord(f, insts[k][i])) == insts[k][i]
      {
        if insts[k][i].IdRef? {
          var x: Word := insts[k][i].id;
          assert IdRef(x) in insts[k];
          assert UsesId(insts, x);
        }
      }
    }
    assert RenameAll(g, RenameAll(f, insts)) == insts;
  }

  /** Decoded words are words. */
  lemma {:induction false} WordsAreWords(cx: Context, ws: seq<Word>, k: nat)
    requires Decode(cx, ws).Insts? && k < |Decode(cx, ws).insts|
    ensures forall i :: 0 <= i < |Decode(cx, ws).insts[k]| ==> Decode(cx, ws).insts[k][i].Word() < 0x1_0000_0000
    decreases |ws|
  {
    if k > 0 {
      WordsAreWords(cx, ws[WordCount(ws[0])..], k - 1);
    }
  }

  lemma {:induction false} RenamedIsEncoded(cx: Context, f: map<Word, Word>, ws: seq<Word>)
    requires Decode(cx, ws).Insts?
    ensures RenamedWords(cx, f, ws) == Encode(RenameAll(f, Decode(cx, ws).insts))
    decreases |ws|
  {
    if ws != [] {
      var n := WordCount(ws[0]);
      var ids := InstIds(cx, ws[..n]).at;
      var insts := Decode(cx, ws).insts;
      assert insts[1..] == Decode(cx, ws[n..]).insts;
      assert RenameAll(f, insts)[1..] == RenameAll(f, insts[1..]);
      RenamedIsEncoded(cx, f, ws[n..]);
      assert WordsOf(RenameRaw(f, Tagged(ws[..n], ids))) == Rename(f, ws[..n], ids);
    }
  }

  // ---------- the in-place passes ----------

  /** The last ids seen, in a buffer of four. */
  ghost predicate Remembers(buffer: seq<Word>, pos: nat, ws: seq<Word>, seen: seq<nat>) {
    && |buffer| == 4 && pos < 4
    && (|seen| >= 1 && seen[|seen| - 1] < |ws| ==> buffer[(pos + 3) % 4] == ws[seen[|seen| - 1]])
    && (|seen| >= 2 && seen[|seen| - 2] < |ws| ==> buffer[(pos + 2) % 4] == ws[seen[|seen| - 2]])
  }

  lemma BufferNext(buffer: seq<Word>, pos: nat, ws: seq<Word>, seen: seq<nat>, p: nat)
    requires Remembers(buffer, pos, ws, seen) && p < |ws|
    ensures pos < 4 == |buffer| && Remembers(buffer[pos := ws[p]], (pos + 1) % 4, ws, seen + [p])
  {
  }

  /** In the middle of the operand loop: `done` are the ids visited, the rest is still to come. */
  ghost predicate Middle(cx: Context, ws: seq<Word>, ids: seq<nat>, done: seq<nat>, at: nat, op: nat, code: nat,
                         seen: seq<nat>) {
    && at <= |ws| && Before(seen, at) && Before(done, at)
    && OperandIds(cx, ws, at, op, code, seen).Ids?
    && ids == done + OperandIds(cx, ws, at, op, code, seen).at
  }

  /** In front of an operand, after the opcode embedded in OpSpecConstantOp has been taken. */
  ghost predicate AtOperand(cx: Context, ws: seq<Word>, ids: seq<nat>, done: seq<nat>, at: nat, op: nat, code: nat,
                            seen: seq<nat>) {
    && at < |ws| && Before(seen, at) && Before(done, at)
    && FromOperand(cx, ws, at, op, code, seen).Ids?
    && ids == done + FromOperand(cx, ws, at, op, code, seen).at
  }

  lemma EnterOperand(cx: Context, ws: seq<Word>, ids: seq<nat>, done: seq<nat>, at: nat, op: nat, code: nat,
                     seen: seq<nat>)
    requires Middle(cx, ws, ids, done, at, op, code, seen) && at < |ws|
    ensures at !in done
    ensures if code == OP_SPEC_CONSTANT_OP && op == 0 then
              AtOperand(cx, ws, ids, done, at + 1, 0, OpCode(ws[at]), seen)
            else AtOperand(cx, ws, ids, done, at, op, code, seen)
  {
  }

  lemma HasClass(cx: Context, ws: seq<Word>, ids: seq<nat>, done: seq<nat>, at: nat, op: nat, code: nat, seen: seq<nat>)
    requires AtOperand(cx, ws, ids, done, at, op, code, seen)
    ensures op < |cx.tbl(code).classes| && at < |ws| && at !in done
  {
  }

  lemma StepId(cx: Context, ws: seq<Word>, ids: seq<nat>, done: seq<nat>, at: nat, op: nat, code: nat, seen: seq<nat>)
    requires AtOperand(cx, ws, ids, done, at, op, code, seen)
    requires op < |cx.tbl(code).classes| && cx.tbl(code).classes[op].IdOperand?
    ensures at in ids && Middle(cx, ws, ids, done + [at], at + 1, op + 1, code, seen + [at])
  {
    var rest := OperandIds(cx, ws, at + 1, op + 1, code, seen + [at]).at;
    assert done + ([at] + rest) == (done + [at]) + rest;
    assert ids[|done|] == at;
  }

  lemma StepSingle(cx: Context, ws: seq<Word>, ids: seq<nat>, done: seq<nat>, at: nat, op: nat, code: nat,
                   seen: seq<nat>)
    requires AtOperand(cx, ws, ids, done, at, op, code, seen)
    requires op < |cx.tbl(code).classes| && cx.tbl(code).classes[op].SingleWord?
    ensures Middle(cx, ws, ids, done, at + 1, op + 1, code, seen)
  {
  }

  lemma StepString(cx: Context, ws: seq<Word>, ids: seq<nat>, done: seq<nat>, at: nat, op: nat, code: nat,
                   seen: seq<nat>)
    requires AtOperand(cx, ws, ids, done, at, op, code, seen)
    requires op < |cx.tbl(code).classes| && cx.tbl(code).classes[op].StringOperand?
    ensures StringAt(ws, at).SomeString? && StringWords(StringAt(ws, at).chars) > 0
    ensures Middle(cx, ws, ids, done, at + StringWords(StringAt(ws, at).chars), op + 1, code, seen)
    ensures forall i :: at <= i < at + StringWords(StringAt(ws, at).chars) ==> i !in done
  {
    StringFits(ws, at);
  }

  lemma StepMask(cx: Context, ws: seq<Word>, ids: seq<nat>, done: seq<nat>, at: nat, op: nat, code: nat,
                 seen: seq<nat>, own: seq<nat>, extra: nat)
    requires AtOperand(cx, ws, ids, done, at, op, code, seen) && op < |cx.tbl(code).classes|
    requires || (cx.tbl(code).classes[op].MemoryAccess? && own == AccessIds(ws[at], at) && extra == AccessExtra(ws[at]))
             || (cx.tbl(code).classes[op].TensorAddressing? && own == TensorIds(ws[at], at)
                 && extra == TensorExtra(ws[at]))
    ensures at + 1 + extra <= |ws| && Middle(cx, ws, ids, done + own, at + 1 + extra, op + 1, code, seen)
    ensures forall i :: 0 <= i < |own| ==> own[i] in ids && own[i] < |ws|
  {
    hide HasBit, AccessIds, TensorIds, AccessExtra, TensorExtra;
    var rest := OperandIds(cx, ws, at + 1 + extra, op + 1, code, seen).at;
    assert done + (own + rest) == (done + own) + rest;
    forall i | 0 <= i < |own| ensures own[i] in ids {
      assert ids[|done| + i] == own[i];
    }
  }

  /** The operand classes that end the loop. */
  lemma LastOperand(cx: Context, ws: seq<Word>, ids: seq<nat>, done: seq<nat>, at: nat, op: nat, code: nat,
                    seen: seq<nat>)
    requires AtOperand(cx, ws, ids, done, at, op, code, seen) && op < |cx.tbl(code).classes|
    ensures cx.tbl(code).classes[op].VariableIds? ==> ids == done + Range(at, |ws|)
    ensures cx.tbl(code).classes[op].VariableLiterals? ==> ids == done
    ensures cx.tbl(code).classes[op].VariableLiteralId? ==>
              && code == OP_SWITCH && |seen| >= 2 && seen[|seen| - 2] < |ws| && ws[seen[|seen| - 2]] in cx.sizes
              && ids == done + Labels(at, |ws|, cx.sizes[ws[seen[|seen| - 2]]])
  {
  }

  /** The instruction at `start` with the ids in `done` replaced, everything else as in `was`. */
  ghost predicate Partly(spv: seq<Word>, was: seq<Word>, start: nat, ws: seq<Word>, f: map<Word, Word>,
                         done: seq<nat>) {
    && start + |ws| <= |was| && was[start..start + |ws|] == ws
    && spv == was[..start] + Rename(f, ws, done) + was[start + |ws|..]
  }

  lemma PartlySize(spv: seq<Word>, was: seq<Word>, start: nat, ws: seq<Word>, f: map<Word, Word>, done: seq<nat>)
    requires Partly(spv, was, start, ws, f, done)
    ensures start + |ws| <= |spv| == |was|
  {
  }

  lemma PartlyRead(spv: seq<Word>, was: seq<Word>, start: nat, ws: seq<Word>, f: map<Word, Word>, done: seq<nat>,
                   at: nat)
    requires Partly(spv, was, start, ws, f, done) && at < |ws| && at !in done
    ensures start + at < |spv| && spv[start + at] == ws[at]
  {
  }

  lemma PartlyMapped(spv: seq<Word>, was: seq<Word>, start: nat, ws: seq<Word>, f: map<Word, Word>, done: seq<nat>,
                     at: nat)
    requires Partly(spv, was, start, ws, f, done) && at < |ws| && at !in done && ws[at] in f
    ensures start + at < |spv| && Partly(spv[start + at := f[ws[at]]], was, start, ws, f, done + [at])
  {
    var r := spv[start + at := f[ws[at]]];
    var t := was[..start] + Rename(f, ws, done + [at]) + was[start + |ws|..];
    forall i | 0 <= i < |r| ensures r[i] == t[i] {
    }
    assert r == t;
  }

  function Pairs(lo: nat, hi: nat, size: nat): nat
    requires lo <= hi
  {
    (hi - lo) / (1 + size)
  }

  /** The labels from word `lo` of an instruction that starts at `base`. */
  lemma LabelsStep(lo: nat, hi: nat, base: nat, size: nat)
    requires base <= lo <= hi && Pairs(lo, hi, size) > 0
    ensures lo + size + 1 <= hi
    ensures Labels(lo - base, hi - base, size) == [(lo - base) as nat + size]
            + Labels(lo - base + size + 1, hi - base, size)
    ensures Pairs(lo, hi, size) == 1 + Pairs(lo + size + 1, hi, size)
  {
    if hi - lo < 1 + size {
      SmallDiv(hi - lo, 1 + size);
    } else {
      DivStep(hi - lo, 1 + size);
    }
  }

  lemma LabelsDone(lo: nat, hi: nat, base: nat, size: nat)
    requires base <= lo <= hi && Pairs(lo, hi, size) == 0
    ensures Labels(lo - base, hi - base, size) == []
  {
  }

  ghost predicate Mapped(f: map<Word, Word>, ws: seq<Word>, ids: seq<nat>) {
    forall i :: 0 <= i < |ids| ==> ids[i] < |ws| && ws[ids[i]] in f
  }

  lemma NothingSeen(buffer: seq<Word>, ws: seq<Word>)
    requires |buffer| == 4
    ensures Remembers(buffer, 0, ws, [])
  {
  }

  /** The selector of a switch is the last id but one. */
  lemma RememberedSelector(buffer: seq<Word>, pos: nat, ws: seq<Word>, seen: seq<nat>)
    requires Remembers(buffer, pos, ws, seen) && |seen| >= 2 && seen[|seen| - 2] < |ws|
    ensures |buffer| == 4 && pos < 4 && buffer[(pos + 4 - 2) % 4] == ws[seen[|seen| - 2]]
  {
  }

  lemma OperandBefore(cx: Context, ws: seq<Word>, ids: seq<nat>, done: seq<nat>, at: nat, op: nat, code: nat,
                      seen: seq<nat>)
    requires AtOperand(cx, ws, ids, done, at, op, code, seen)
    ensures Before(done, at)
  {
  }

  lemma BeforeNotIn(done: seq<nat>, at: nat, p: nat)
    requires Before(done, at) && p >= at
    ensures p !in done
  {
  }

  lemma RestAreIds(ids: seq<nat>, done: seq<nat>, at: nat, hi: nat)
    requires at <= hi && ids == done + Range(at, hi)
    ensures forall i :: at <= i < hi ==> i in ids
  {
    forall i | at <= i < hi ensures i in ids {
      assert ids[|done| + i - at] == i;
    }
  }

  lemma AllDone(cx: Context, ws: seq<Word>, ids: seq<nat>, done: seq<nat>, at: nat, op: nat, code: nat, seen: seq<nat>)
    requires Middle(cx, ws, ids, done, at, op, code, seen) && at == |ws|
    ensures ids == done
  {
  }

  lemma PartlyString(spv: seq<Word>, was: seq<Word>, start: nat, ws: seq<Word>, f: map<Word, Word>, done: seq<nat>,
                     at: nat)
    requires Partly(spv, was, start, ws, f, done) && StringAt(ws, at).SomeString?
    requires forall i :: at <= i < at + StringWords(StringAt(ws, at).chars) ==> i !in done
    ensures StringAt(spv, start + at) == StringAt(ws, at)
  {
    hide Partly, StringWords, StringAt;
    StringFits(ws, at);
    var n := StringWords(StringAt(ws, at).chars);
    PartlySize(spv, was, start, ws, f, done);
    forall i | at <= i < at + n ensures spv[start + i] == ws[i] {
      PartlyRead(spv, was, start, ws, f, done, i);
    }
    StringShifted(ws, spv, at, start + at);
  }

  lemma InTail(done: seq<nat>, all: seq<nat>, now: seq<nat>, rest: seq<nat>)
    requires done + all == now + rest && rest != [] && |done| <= |now|
    ensures rest[0] in all
  {
    assert (now + rest)[|now|] == rest[0];
    assert (done + all)[|now|] == all[|now| - |done|];
  }

  /** The word after the type and result ids. */
  function First(cx: Context, code: nat): nat {
    1 + (if cx.tbl(code).hasType then 1 else 0) + if cx.tbl(code).hasResult then 1 else 0
  }

  /** Replacing `n` elements of the tail. */
  lemma Splice(pre: seq<Word>, mid: seq<Word>, rest: seq<Word>, n: nat, r: seq<Word>)
    requires n <= |rest|
    ensures var a := pre + mid + rest; var k := |pre| + |mid|;
            a[..k] + r + a[k + n..] == pre + (mid + r) + rest[n..]
  {
  }

  lemma NothingMapped(spv: seq<Word>, start: nat, ws: seq<Word>, f: map<Word, Word>)
    requires start + |ws| <= |spv| && spv[start..start + |ws|] == ws
    ensures Partly(spv, spv, start, ws, f, [])
  {
    assert Rename(f, ws, []) == ws;
  }

  lemma AllMapped(spv: seq<Word>, was: seq<Word>, start: nat, ws: seq<Word>, f: map<Word, Word>, ids: seq<nat>)
    requires Partly(spv, was, start, ws, f, ids)
    ensures spv == was[..start] + Rename(f, ws, ids) + was[start + |ws|..]
  {
  }

  lemma MappedIds(f: map<Word, Word>, ws: seq<Word>, ids: seq<nat>)
    requires Mapped(f, ws, ids)
    ensures forall p :: p in ids ==> p < |ws| && ws[p] in f
  {
  }

  /** Type and result id, and what follows them. */
  lemma HeadIds(cx: Context, ws: seq<Word>)
    requires ws != [] && InstIds(cx, ws).Ids?
    ensures var code := OpCode(ws[0]); var ids := InstIds(cx, ws).at;
            var first := First(cx, code);
            && 1 <= first <= |ws| && (forall p :: 1 <= p < first ==> p in ids)
            && (code != OP_EXT_INST ==> Middle(cx, ws, ids, Range(1, first), first, 0, code, []))
            && (code == OP_EXT_INST ==>
                  && first + 2 <= |ws| && ids == Range(1, first + 1) + Range(first + 2, |ws|)
                  && first in ids && forall p :: first + 2 <= p < |ws| ==> p in ids)
  {
    hide *;
    var first := First(cx, OpCode(ws[0]));
    if OpCode(ws[0]) == OP_EXT_INST {
      ExtIds(cx, ws);
      InRange(1, first + 1, first + 2, |ws|);
    } else {
      PlainIds(cx, ws);
      RestIsLayout(Range(1, first), OperandIds(cx, ws, first, 0, OpCode(ws[0]), []));
      InFirst(1, first, OperandIds(cx, ws, first, 0, OpCode(ws[0]), []));
    }
  }

  /** An instruction that is not an extended one. */
  lemma PlainIds(cx: Context, ws: seq<Word>)
    requires ws != [] && InstIds(cx, ws).Ids? && OpCode(ws[0]) != OP_EXT_INST
    ensures var code := OpCode(ws[0]); var first := First(cx, code);
            && 1 <= first <= |ws| && Before([], first)
            && InstIds(cx, ws) == Then(Range(1, first), OperandIds(cx, ws, first, 0, code, []))
            && Middle(cx, ws, InstIds(cx, ws).at, Range(1, first), first, 0, code, [])
  {
    hide OpCode, OperandIds, Range;
  }

  lemma ExtIds(cx: Context, ws: seq<Word>)
    requires ws != [] && InstIds(cx, ws).Ids? && OpCode(ws[0]) == OP_EXT_INST
    ensures var first := First(cx, OpCode(ws[0]));
            && 1 <= first && first + 2 <= |ws|
            && InstIds(cx, ws).at == Range(1, first + 1) + Range(first + 2, |ws|)
  {
    hide OpCode, OperandIds, Range;
  }

  lemma RestIsLayout(a: seq<nat>, rest: Layout)
    requires Then(a, rest).Ids?
    ensures rest.Ids?
  {
  }

  lemma InRange(a: nat, b: nat, c: nat, d: nat)
    requires a <= b && c <= d
    ensures forall p :: a <= p < b || c <= p < d ==> p in Range(a, b) + Range(c, d)
  {
    var r := Range(a, b) + Range(c, d);
    forall p | a <= p < b || c <= p < d
      ensures p in r
    {
      assert a <= p < b ==> r[p - a] == p;
      assert c <= p < d ==> r[b - a + (p - c)] == p;
    }
  }

  lemma InFirst(a: nat, b: nat, rest: Layout)
    requires a <= b && rest.Ids?
    ensures forall p :: a <= p < b ==> p in Then(Range(a, b), rest).at
  {
    forall p | a <= p < b
      ensures p in Then(Range(a, b), rest).at
    {
      assert Then(Range(a, b), rest).at[p - a] == p;
    }
  }

  /** The next instruction of a module and what is left after it. */
  lemma NextInstruction(cx: Context, f: map<Word, Word>, ws: seq<Word>)
    requires ws != [] && Decode(cx, ws).Insts? && forall x: Word :: UsesId(Decode(cx, ws).insts, x) ==> x in f
    ensures var n := WordCount(ws[0]);
            && 0 < n <= |ws| && InstIds(cx, ws[..n]).Ids? && Mapped(f, ws[..n], InstIds(cx, ws[..n]).at)
            && Decode(cx, ws[n..]).Insts?
            && RenamedWords(cx, f, ws) == Rename(f, ws[..n], InstIds(cx, ws[..n]).at) + RenamedWords(cx, f, ws[n..])
    ensures forall x: Word :: UsesId(Decode(cx, ws[WordCount(ws[0])..]).insts, x) ==> x in f
  {
    DecodeParts(cx, ws);
    RenamedParts(cx, f, ws);
    var n := WordCount(ws[0]);
    var ids := InstIds(cx, ws[..n]).at;
    var insts := Decode(cx, ws).insts;
    forall i | 0 <= i < |ids| ensures ws[..n][ids[i]] in f {
      assert insts[0][ids[i]] == IdRef(ws[ids[i]]);
      assert UsesId(insts, ws[ids[i]]);
    }
    forall x: Word | UsesId(Decode(cx, ws[n..]).insts, x) ensures x in f {
      var k :| 0 <= k < |insts| - 1 && IdRef(x) in insts[1..][k];
      assert IdRef(x) in insts[k + 1];
    }
  }

  /** The instructions before `word` have been renamed, to `renamed`. */
  ghost predicate AppliedUpTo(cx: Context, f: map<Word, Word>, was: seq<Word>, spv: seq<Word>, word: nat,
                              renamed: seq<Word>) {
    && 5 <= word <= |was| && Decode(cx, was[5..]).Insts? && Decode(cx, was[word..]).Insts?
    && (forall x: Word :: UsesId(Decode(cx, was[word..]).insts, x) ==> x in f)
    && RenamedWords(cx, f, was[5..]) == renamed + RenamedWords(cx, f, was[word..])
    && spv == was[..5] + renamed + was[word..] && |renamed| == word - 5
  }

  lemma ApplyStart(cx: Context, f: map<Word, Word>, spv: seq<Word>)
    requires |spv| >= 5 && Decode(cx, spv[5..]).Insts?
    requires forall x: Word :: UsesId(Decode(cx, spv[5..]).insts, x) ==> x in f
    ensures AppliedUpTo(cx, f, spv, spv, 5, [])
  {
    hide Decode, RenamedWords, UsesId;
    assert spv == spv[..5] + [] + spv[5..];
    assert RenamedWords(cx, f, spv[5..]) == [] + RenamedWords(cx, f, spv[5..]);
  }

  lemma ApplyStep(cx: Context, f: map<Word, Word>, was: seq<Word>, spv: seq<Word>, word: nat, renamed: seq<Word>)
    requires AppliedUpTo(cx, f, was, spv, word, renamed) && word < |spv|
    ensures var n := WordCount(spv[word]);
            && 0 < n <= |spv| - word
            && var ws := spv[word..word + n]; var ids := InstIds(cx, ws);
            && ids.Ids? && Mapped(f, ws, ids.at)
            && var head := Rename(f, ws, ids.at);
            AppliedUpTo(cx, f, was, spv[..word] + head + spv[word + n..], word + n, renamed + head)
  {
    hide Decode, RenamedWords, UsesId, InstIds, Mapped, Rename;
    var rest := was[word..];
    assert rest == spv[word..] && rest[0] == spv[word];
    NextInstruction(cx, f, rest);
    var n := WordCount(spv[word]);
    var ws := rest[..n];
    assert spv[word..word + n] == ws && was[word + n..] == rest[n..];
    var head := Rename(f, ws, InstIds(cx, ws).at);
    Splice(was[..5], renamed, rest, n, head);
    assert renamed + (head + RenamedWords(cx, f, rest[n..])) == (renamed + head) + RenamedWords(cx, f, rest[n..]);
  }

  lemma ApplyEnd(cx: Context, f: map<Word, Word>, was: seq<Word>, spv: seq<Word>, renamed: seq<Word>)
    requires AppliedUpTo(cx, f, was, spv, |was|, renamed)
    ensures Decode(cx, was[5..]).Insts? && spv == was[..5] + RenamedWords(cx, f, was[5..])
  {
    assert was[|was|..] == [];
  }

  class SpirvBin {
    var spv: seq<Word>
    const cx: Context

    constructor (spv: seq<Word>, cx: Context)
      ensures this.spv == spv && this.cx == cx
    {
      this.spv, this.cx := spv, cx;
    }

    /** Replaces the id at a word. */
    method MapId(word: nat, f: map<Word, Word>, ghost was: seq<Word>, ghost start: nat, ghost ws: seq<Word>,
                 ghost done: seq<nat>)
      requires Partly(spv, was, start, ws, f, done) && start <= word < start + |ws|
      requires word - start !in done && ws[word - start] in f
      modifies this
      ensures Partly(spv, was, start, ws, f, done + [word - start])
    {
      PartlyRead(spv, was, start, ws, f, done, word - start);
      PartlyMapped(spv, was, start, ws, f, done, word - start);
      spv := spv[word := f[spv[word]]];
    }

    /** Replaces the ids at consecutive words. */
    method MapIds(word: nat, n: nat, f: map<Word, Word>, ghost was: seq<Word>, ghost start: nat, ghost ws: seq<Word>,
                  ghost done: seq<nat>)
      requires Partly(spv, was, start, ws, f, done) && start <= word && word + n <= start + |ws|
      requires Before(done, word - start) && forall i :: word - start <= i < word - start + n ==> ws[i] in f
      modifies this
      ensures Partly(spv, was, start, ws, f, done + Range(word - start, word - start + n))
    {
      ghost var now: seq<nat> := done;
      for i := 0 to n
        invariant now == done + Range(word - start, word - start + i)
        invariant Partly(spv, was, start, ws, f, now)
      {
        assert word + i - start !in now;
        MapId(word + i, f, was, start, ws, now);
        now := now + [(word + i - start) as nat];
        assert Range(word - start, word - start + i) + [word + i - start] == Range(word - start, word - start + i + 1);
      }
    }

    /** The labels of a switch, every `1 + literalSize` words. */
    method MapLabels(word: nat, nextInst: nat, literalSize: nat, f: map<Word, Word>, ghost was: seq<Word>,
                     ghost start: nat, ghost ws: seq<Word>, ghost done: seq<nat>)
      requires Partly(spv, was, start, ws, f, done) && start <= word <= nextInst == start + |ws|
               && Before(done, word - start)
      requires forall p :: p in Labels(word - start, |ws|, literalSize) ==> ws[p] in f
      modifies this
      ensures Partly(spv, was, start, ws, f, done + Labels(word - start, |ws|, literalSize))
    {
      hide Labels, Pairs, Partly, Rename;
      ghost var now: seq<nat> := done;
      ghost var all := Labels(word - start, |ws|, literalSize);
      var at := word;
      var numLiteralIdPairs := Pairs(word, nextInst, literalSize);
      for arg := 0 to numLiteralIdPairs
        invariant word <= at <= nextInst && numLiteralIdPairs - arg == Pairs(at, nextInst, literalSize)
        invariant done + all == now + Labels(at - start, |ws|, literalSize) && Before(now, at - start)
        invariant Partly(spv, was, start, ws, f, now) && |done| <= |now|
      {
        ghost var rest := Labels(at - start, |ws|, literalSize);
        LabelsStep(at, nextInst, start, literalSize);
        InTail(done, all, now, rest);
        at := at + literalSize;
        MapId(at, f, was, start, ws, now);
        now := now + [(at - start) as nat];
        at := at + 1;
        assert now + rest[1..] == done + all;
      }
      LabelsDone(at, nextInst, start, literalSize);
      assert now + [] == now;
    }

    /** A memory access mask, with an id if it makes the pointer available or visible. */
    method MapAccess(word: nat, f: map<Word, Word>, ghost was: seq<Word>, ghost start: nat, ghost ws: seq<Word>,
                     ghost done: seq<nat>)
        returns (next: nat)
      requires Partly(spv, was, start, ws, f, done) && start <= word < start + |ws| && Before(done, word - start)
      requires word - start + 1 + AccessExtra(ws[word - start]) <= |ws|
      requires Mapped(f, ws, AccessIds(ws[word - start], word - start))
      modifies this
      ensures Partly(spv, was, start, ws, f, done + AccessIds(ws[word - start], word - start))
      ensures next == word + 1 + AccessExtra(ws[word - start])
    {
      hide Partly, HasBit;
      ghost var own := AccessIds(ws[word - start], word - start);
      BeforeNotIn(done, word - start, word - start);
      PartlyRead(spv, was, start, ws, f, done, word - start);
      var mask := spv[word];
      next := word;
      if HasBit(mask, ALIGNED) {
        next := next + 1;
      }
      if HasBit(mask, MAKE_POINTER_AVAILABLE) || HasBit(mask, MAKE_POINTER_VISIBLE) {
        assert own == [(next + 1 - start) as nat];
        BeforeNotIn(done, word - start, next + 1 - start);
        assert ws[own[0]] in f;
        MapId(next + 1, f, was, start, ws, done);
        next := next + 1;
      } else {
        assert done + own == done;
      }
      next := next + 1;
    }

    /** A tensor addressing mask, with an id for a tensor view and one for a decoding function. */
    method MapTensor(word: nat, f: map<Word, Word>, ghost was: seq<Word>, ghost start: nat, ghost ws: seq<Word>,
                     ghost done: seq<nat>)
        returns (next: nat)
      requires Partly(spv, was, start, ws, f, done) && start <= word < start + |ws| && Before(done, word - start)
      requires word - start + 1 + TensorExtra(ws[word - start]) <= |ws|
      requires Mapped(f, ws, TensorIds(ws[word - start], word - start))
      modifies this
      ensures Partly(spv, was, start, ws, f, done + TensorIds(ws[word - start], word - start))
      ensures next == word + 1 + TensorExtra(ws[word - start])
    {
      hide Partly, HasBit;
      ghost var own := TensorIds(ws[word - start], word - start);
      ghost var now: seq<nat> := done;
      BeforeNotIn(done, word - start, word - start);
      PartlyRead(spv, was, start, ws, f, done, word - start);
      var mask := spv[word];
      next := word;
      if HasBit(mask, TENSOR_VIEW) {
        assert own[0] == next + 1 - start && ws[own[0]] in f;
        BeforeNotIn(done, word - start, next + 1 - start);
        MapId(next + 1, f, was, start, ws, now);
        now := now + [(next + 1 - start) as nat];
        next := next + 1;
      }
      if HasBit(mask, DECODE_FUNC) {
        assert own[|own| - 1] == next + 1 - start && ws[own[|own| - 1]] in f;
        BeforeNotIn(done, word - start, next + 1 - start);
        MapId(next + 1, f, was, start, ws, now);
        now := now + [(next + 1 - start) as nat];
        next := next + 1;
      }
      assert now == done + own;
      next := next + 1;
    }

    /** The operand loop. */
    method MapOperands(start: nat, first: nat, firstCode: nat, f: map<Word, Word>, nextInst: nat,
                       ghost was: seq<Word>, ghost ws: seq<Word>, ghost ids: seq<nat>)
      requires nextInst == start + |ws| && start + 1 <= first <= nextInst
      requires Partly(spv, was, start, ws, f, Range(1, first - start))
      requires Middle(cx, ws, ids, Range(1, first - start), first - start, 0, firstCode, [])
      requires forall p :: p in ids ==> p < |ws| && ws[p] in f
      modifies this
      ensures Partly(spv, was, start, ws, f, ids)
    {
      hide AccessIds, AccessExtra, TensorIds, TensorExtra, HasBit, OpCode, StringAt, StringWords;
      hide Middle, AtOperand, Partly, Rename, FromOperand, OperandIds, Labels, Range, Remembers, Before;
      var word, opCode, op := first, firstCode, 0;
      var idBuffer: seq<Word> := [0, 0, 0, 0];
      var idBufferPos: nat := 0;
      ghost var done, seen: seq<nat> := Range(1, first - start), [];
      NothingSeen(idBuffer, ws);
      while word < nextInst
        invariant start <= word <= nextInst
        invariant Middle(cx, ws, ids, done, word - start, op, opCode, seen)
        invariant Partly(spv, was, start, ws, f, done)
        invariant Remembers(idBuffer, idBufferPos, ws, seen)
        decreases nextInst - word
      {
        EnterOperand(cx, ws, ids, done, word - start, op, opCode, seen);
        if opCode == OP_SPEC_CONSTANT_OP && op == 0 {
          PartlyRead(spv, was, start, ws, f, done, word - start);
          opCode := OpCode(spv[word]);
          word := word + 1;
        }
        ghost var at := word - start;
        HasClass(cx, ws, ids, done, at, op, opCode, seen);
        PartlyRead(spv, was, start, ws, f, done, at);
        match cx.tbl(opCode).classes[op] {
          case IdOperand =>
            StepId(cx, ws, ids, done, at, op, opCode, seen);
            BufferNext(idBuffer, idBufferPos, ws, seen, at);
            idBuffer := idBuffer[idBufferPos := spv[word]];
            idBufferPos := (idBufferPos + 1) % 4;
            MapId(word, f, was, start, ws, done);
            done, seen := done + [at], seen + [at];
            word := word + 1;
          case VariableIds =>
            LastOperand(cx, ws, ids, done, at, op, opCode, seen);
            RestAreIds(ids, done, at, |ws|);
            OperandBefore(cx, ws, ids, done, at, op, opCode, seen);
            MapIds(word, nextInst - word, f, was, start, ws, done);
            return;
          case VariableLiterals =>
            LastOperand(cx, ws, ids, done, at, op, opCode, seen);
            return;
          case VariableLiteralId =>
            LastOperand(cx, ws, ids, done, at, op, opCode, seen);
            OperandBefore(cx, ws, ids, done, at, op, opCode, seen);
            RememberedSelector(idBuffer, idBufferPos, ws, seen);
            var literalSize := cx.sizes[idBuffer[(idBufferPos + 4 - 2) % 4]];
            MapLabels(word, nextInst, literalSize, f, was, start, ws, done);
            return;
          case StringOperand =>
            StepString(cx, ws, ids, done, at, op, opCode, seen);
            PartlyString(spv, was, start, ws, f, done, at);
            var name := LiteralString(spv, word);
            word := word + StringWords(name);
          case MemoryAccess =>
            ghost var own := AccessIds(ws[at], at);
            StepMask(cx, ws, ids, done, at, op, opCode, seen, own, AccessExtra(ws[at]));
            OperandBefore(cx, ws, ids, done, at, op, opCode, seen);
            word := MapAccess(word, f, was, start, ws, done);
            done := done + own;
          case TensorAddressing =>
            ghost var own := TensorIds(ws[at], at);
            StepMask(cx, ws, ids, done, at, op, opCode, seen, own, TensorExtra(ws[at]));
            OperandBefore(cx, ws, ids, done, at, op, opCode, seen);
            word := MapTensor(word, f, was, start, ws, done);
            done := done + own;
          case SingleWord =>
            StepSingle(cx, ws, ids, done, at, op, opCode, seen);
            word := word + 1;
        }
        op := op + 1;
      }
      AllDone(cx, ws, ids, done, word - start, op, opCode, seen);
    }

    /** Type and result ids. */
    method MapHead(start: nat, f: map<Word, Word>, ghost was: seq<Word>, ghost ws: seq<Word>) returns (word: nat)
      requires Partly(spv, was, start, ws, f, []) && start < |spv|
      requires var first := First(cx, OpCode(spv[start])); first <= |ws| && forall p :: 1 <= p < first ==> ws[p] in f
      modifies this
      ensures word == start + First(cx, OpCode(old(spv)[start]))
      ensures Partly(spv, was, start, ws, f, Range(1, word - start))
    {
      hide Partly, OpCode;
      var opCode := OpCode(spv[start]);
      word := start + 1;
      ghost var done: seq<nat> := [];
      if cx.tbl(opCode).hasType {
        MapId(word, f, was, start, ws, done);
        done := done + [1];
        word := word + 1;
      }
      if cx.tbl(opCode).hasResult {
        MapId(word, f, was, start, ws, done);
        done := done + [(word - start) as nat];
        word := word + 1;
      }
      assert done == Range(1, word - start);
    }

    /** An extended instruction: the set it comes from is an id, its number in the set is not, the rest are ids. */
    method MapExtInst(start: nat, word: nat, nextInst: nat, f: map<Word, Word>, ghost was: seq<Word>,
                      ghost ws: seq<Word>)
      requires start < word && word + 2 <= nextInst == start + |ws|
      requires Partly(spv, was, start, ws, f, Range(1, word - start))
      requires forall p :: word - start <= p < |ws| && p != word - start + 1 ==> ws[p] in f
      modifies this
      ensures Partly(spv, was, start, ws, f, Range(1, word - start + 1) + Range(word - start + 2, |ws|))
    {
      hide Partly;
      MapId(word, f, was, start, ws, Range(1, word - start));
      assert Range(1, word - start) + [(word - start) as nat] == Range(1, word - start + 1);
      MapIds(word + 2, nextInst - (word + 2), f, was, start, ws, Range(1, word - start + 1));
    }

    /** One instruction: type and result ids, then the operands. */
    method MapInstruction(start: nat, f: map<Word, Word>) returns (nextInst: nat)
      requires start < |spv| && 0 < WordCount(spv[start]) <= |spv| - start
      requires InstIds(cx, spv[start..start + WordCount(spv[start])]).Ids?
      requires var ws := spv[start..start + WordCount(spv[start])]; Mapped(f, ws, InstIds(cx, ws).at)
      modifies this
      ensures nextInst == start + WordCount(old(spv)[start])
      ensures var ws := old(spv)[start..nextInst];
              spv == old(spv)[..start] + Rename(f, ws, InstIds(cx, ws).at) + old(spv)[nextInst..]
    {
      hide InstIds, OpCode, WordCount, Rename, Partly, Mapped, Middle, First, Range;
      nextInst := start + WordCount(spv[start]);
      ghost var was := spv;
      ghost var ws := spv[start..nextInst];
      ghost var ids := InstIds(cx, ws).at;
      var opCode := OpCode(spv[start]);
      assert ws[0] == spv[start];
      HeadIds(cx, ws);
      MappedIds(f, ws, ids);
      NothingMapped(spv, start, ws, f);
      var word := MapHead(start, f, was, ws);
      if opCode == OP_EXT_INST {
        MapExtInst(start, word, nextInst, f, was, ws);
      } else {
        MapOperands(start, word, opCode, f, nextInst, was, ws, ids);
      }
      AllMapped(spv, was, start, ws, f, ids);
    }

    /** All instructions, in place. */
    method ApplyMap(f: map<Word, Word>)
      requires |spv| >= 5 && Decode(cx, spv[5..]).Insts?
      requires forall x: Word :: UsesId(Decode(cx, spv[5..]).insts, x) ==> x in f
      modifies this
      ensures spv == old(spv)[..5] + RenamedWords(cx, f, old(spv)[5..])
    {
      hide InstIds, Rename, WordCount, UsesId, Decode, RenamedWords, AppliedUpTo, Mapped;
      ghost var was := spv;
      ApplyStart(cx, f, spv);
      var word := 5;
      ghost var renamed: seq<Word> := [];
      while word < |spv|
        invariant word <= |was| == |spv|
        invariant AppliedUpTo(cx, f, was, spv, word, renamed)
        decreases |was| - word
      {
        ApplyStep(cx, f, was, spv, word, renamed);
        ghost var ws := spv[word..word + WordCount(spv[word])];
        word := MapInstruction(word, f);
        renamed := renamed + Rename(f, ws, InstIds(cx, ws).at);
      }
      ApplyEnd(cx, f, was, spv, renamed);
    }
  }
}
