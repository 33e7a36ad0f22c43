/** SPIR-V words and the instructions they encode. */
module Binary {
  import opened StringLiterals
  import opened Spirv

  /** What an operand's words hold, as far as ids are concerned. */
  datatype OperandClass =
    | IdOperand | VariableIds | VariableLiterals | VariableLiteralId | StringOperand
    | MemoryAccess | TensorAddressing | SingleWord

  /** An opcode's entry in the instruction table. */
  datatype Desc = Desc(hasType: bool, hasResult: bool, classes: seq<OperandClass>)

  type Table = nat -> Desc

  const OP_EXT_INST := 12
  const OP_SPEC_CONSTANT_OP := 52

  function OpCode(w: Word): nat {
    w % 0x1_0000
  }

  function WordCount(w: Word): nat {
    w / 0x1_0000
  }

  predicate HasBit(mask: Word, bit: nat)
    requires bit > 0
  {
    mask / bit % 2 == 1
  }

  const ALIGNED := 0x2
  const MAKE_POINTER_AVAILABLE := 0x8
  const MAKE_POINTER_VISIBLE := 0x10
  const TENSOR_VIEW := 0x1
  const DECODE_FUNC := 0x2

  // ---------- where the ids of an instruction are ----------

  /** The positions of ids in an instruction, in order, or that it is malformed. */
  datatype Layout = Bad | Ids(at: seq<nat>)

  function Then(first: seq<nat>, rest: Layout): Layout {
    if rest.Bad? then Bad else Ids(first + rest.at)
  }

  function Range(lo: nat, hi: nat): (r: seq<nat>)
    requires lo <= hi
    ensures |r| == hi - lo && forall i :: 0 <= i < |r| ==> r[i] == lo + i
  {
    seq(hi - lo, i requires 0 <= i < hi - lo => lo + i)
  }

  /** The labels of a switch whose literals have `size` words. */
  function Labels(lo: nat, hi: nat, size: nat): (r: seq<nat>)
    requires lo <= hi
    ensures |r| == (hi - lo) / (1 + size)
    ensures forall i :: 0 <= i < |r| ==> lo <= r[i] < hi
    ensures forall i, j :: 0 <= i < j < |r| ==> r[i] < r[j]
    decreases hi - lo
  {
    if hi - lo < 1 + size then assert (hi - lo) / (1 + size) == 0 by { SmallDiv(hi - lo, 1 + size); } []
    else
      DivStep(hi - lo, 1 + size);
      [lo + size] + Labels(lo + size + 1, hi, size)
  }

  lemma SmallDiv(a: nat, b: nat)
    requires a < b
    ensures a / b == 0
  {
  }

  lemma DivStep(a: nat, b: nat)
    requires a >= b > 0
    ensures a / b == 1 + (a - b) / b
  {
    var q := (a - b) / b;
    assert b * q <= a - b < b * q + b;
    assert b * (a / b) <= a < b * (a / b) + b;
    assert b * (q + 1 - a / b) == b * q + b - b * (a / b);
    SmallMultiple(b, q + 1 - a / b);
  }

  lemma SmallMultiple(b: nat, d: int)
    requires 0 - b < b * d < b
    ensures d == 0
  {
  }

  /** Where the id of the pointer availability operand is, if there is one, and how many words the mask takes along. */
  function AccessIds(mask: Word, at: nat): (r: seq<nat>)
    ensures |r| <= 1 && forall i :: 0 <= i < |r| ==> at < r[i] < at + 1 + AccessExtra(mask)
  {
    if HasBit(mask, MAKE_POINTER_AVAILABLE) || HasBit(mask, MAKE_POINTER_VISIBLE)
    then [at + 1 + if HasBit(mask, ALIGNED) then 1 else 0] else []
  }

  function AccessExtra(mask: Word): nat {
    (if HasBit(mask, ALIGNED) then 1 else 0)
    + if HasBit(mask, MAKE_POINTER_AVAILABLE) || HasBit(mask, MAKE_POINTER_VISIBLE) then 1 else 0
  }

  function TensorIds(mask: Word, at: nat): (r: seq<nat>)
    ensures |r| == TensorExtra(mask) && forall i :: 0 <= i < |r| ==> at < r[i] < at + 1 + TensorExtra(mask)
    ensures |r| == 2 ==> r[0] < r[1]
  {
    (if HasBit(mask, TENSOR_VIEW) then [at + 1] else [])
    + if HasBit(mask, DECODE_FUNC) then [at + 1 + if HasBit(mask, TENSOR_VIEW) then 1 else 0] else []
  }

  function TensorExtra(mask: Word): (n: nat)
    ensures n <= 2
  {
    (if HasBit(mask, TENSOR_VIEW) then 1 else 0) + if HasBit(mask, DECODE_FUNC) then 1 else 0
  }

  /** What the operand loop reads of the instruction `ws`, apart from ids. */
  datatype Context = Context(tbl: Table, sizes: map<Word, nat>)

  predicate Before(ps: seq<nat>, at: nat) {
    forall i :: 0 <= i < |ps| ==> ps[i] < at
  }

  /**
   * The ids from word `at` on, where operand number `op` of opcode `code` starts; `seen` are the positions of the
   * plain id operands before it.
   */
  function OperandIds(cx: Context, ws: seq<Word>, at: nat, op: nat, code: nat, seen: seq<nat>): (r: Layout)
    requires at <= |ws| && Before(seen, at)
    ensures r.Ids? ==> forall i :: 0 <= i < |r.at| ==> at <= r.at[i] < |ws|
    ensures r.Ids? ==> forall i, j :: 0 <= i < j < |r.at| ==> r.at[i] < r.at[j]
    decreases |ws| - at
  {
    if at == |ws| then Ids([])
    else if code == OP_SPEC_CONSTANT_OP && op == 0 then
      // the embedded opcode's operands follow
      if at + 1 == |ws| then Bad else FromOperand(cx, ws, at + 1, 0, OpCode(ws[at]), seen)
    else FromOperand(cx, ws, at, op, code, seen)
  }

  function FromOperand(cx: Context, ws: seq<Word>, at: nat, op: nat, code: nat, seen: seq<nat>): (r: Layout)
    requires at < |ws| && Before(seen, at)
    ensures r.Ids? ==> forall i :: 0 <= i < |r.at| ==> at <= r.at[i] < |ws|
    ensures r.Ids? ==> forall i, j :: 0 <= i < j < |r.at| ==> r.at[i] < r.at[j]
    decreases |ws| - at, 0
  {
    hide HasBit, AccessIds, TensorIds, AccessExtra, TensorExtra, StringAt, StringWords, Labels, Range;
    if op >= |cx.tbl(code).classes| then Bad
    else
      match cx.tbl(code).classes[op]
      case IdOperand => Then([at], OperandIds(cx, ws, at + 1, op + 1, code, seen + [at]))
      case VariableIds => Ids(Range(at, |ws|))
      case VariableLiterals => Ids([])
      case VariableLiteralId =>
        if code != OP_SWITCH || |seen| < 2 || ws[seen[|seen| - 2]] !in cx.sizes then Bad
        else Ids(Labels(at, |ws|, cx.sizes[ws[seen[|seen| - 2]]]))
      case StringOperand =>
        if StringAt(ws, at).NoString? then Bad
        else
          StringFits(ws, at);
          OperandIds(cx, ws, at + StringWords(StringAt(ws, at).chars), op + 1, code, seen)
      case MemoryAccess =>
        var next := at + 1 + AccessExtra(ws[at]);
        if next > |ws| then Bad
        else Then(AccessIds(ws[at], at), OperandIds(cx, ws, next, op + 1, code, seen))
      case TensorAddressing =>
        var next := at + 1 + TensorExtra(ws[at]);
        if next > |ws| then Bad
        else Then(TensorIds(ws[at], at), OperandIds(cx, ws, next, op + 1, code, seen))
      case SingleWord => OperandIds(cx, ws, at + 1, op + 1, code, seen)
  }

  /** The ids of a whole instruction: type, result, operands. */
  function InstIds(cx: Context, ws: seq<Word>): (r: Layout)
    requires ws != []
    ensures r.Ids? ==> forall i :: 0 <= i < |r.at| ==> 1 <= r.at[i] < |ws|
    ensures r.Ids? ==> forall i, j :: 0 <= i < j < |r.at| ==> r.at[i] < r.at[j]
  {
    var code := OpCode(ws[0]);
    var first := 1 + (if cx.tbl(code).hasType then 1 else 0) + if cx.tbl(code).hasResult then 1 else 0;
    if first > |ws| then Bad
    else if code == OP_EXT_INST then
      if first + 2 > |ws| then Bad else Ids(Range(1, first + 1) + Range(first + 2, |ws|))
    else Then(Range(1, first), OperandIds(cx, ws, first, 0, code, []))
  }

  // ---------- renaming ----------

  /** The words with the ids at `ids` replaced. */
  function Rename(f: map<Word, Word>, ws: seq<Word>, ids: seq<nat>): (r: seq<Word>)
    ensures |r| == |ws|
    ensures forall i :: 0 <= i < |ws| ==> r[i] == if i in ids && ws[i] in f then f[ws[i]] else ws[i]
  {
    seq(|ws|, i requires 0 <= i < |ws| => if i in ids && ws[i] in f then f[ws[i]] else ws[i])
  }

  /** Equal outside the positions in `ids` from `at` on. */
  ghost predicate SameLiterals(ws: seq<Word>, vs: seq<Word>, at: nat, ids: seq<nat>) {
    |ws| == |vs| && forall i :: at <= i < |ws| && i !in ids ==> vs[i] == ws[i]
  }

  /** The sizes that switches look up are the same. */
  ghost predicate SameSizes(ws: seq<Word>, sizes: map<Word, nat>, vs: seq<Word>, sizes1: map<Word, nat>,
                            ids: seq<nat>) {
    forall i :: i in ids && i < |ws| && i < |vs| && ws[i] in sizes ==> vs[i] in sizes1 && sizes1[vs[i]] == sizes[ws[i]]
  }

  /** Where the ids are depends only on the literals and on the sizes looked up by id. */
  lemma {:induction false} OperandIdsStable(cx: Context, cx1: Context, ws: seq<Word>, vs: seq<Word>, at: nat, op: nat,
                                            code: nat, seen: seq<nat>)
    requires cx.tbl == cx1.tbl && at <= |ws| && Before(seen, at)
    requires OperandIds(cx, ws, at, op, code, seen).Ids?
    requires SameLiterals(ws, vs, at, OperandIds(cx, ws, at, op, code, seen).at)
    requires SameSizes(ws, cx.sizes, vs, cx1.sizes, seen + OperandIds(cx, ws, at, op, code, seen).at)
    ensures OperandIds(cx1, vs, at, op, code, seen) == OperandIds(cx, ws, at, op, code, seen)
    decreases |ws| - at
  {
    if at < |ws| {
      if code == OP_SPEC_CONSTANT_OP && op == 0 {
        assert vs[at] == ws[at];
        FromOperandStable(cx, cx1, ws, vs, at + 1, 0, OpCode(ws[at]), seen);
      } else {
        FromOperandStable(cx, cx1, ws, vs, at, op, code, seen);
      }
    }
  }

  lemma {:induction false} FromOperandStable(cx: Context, cx1: Context, ws: seq<Word>, vs: seq<Word>, at: nat, op: nat,
                                             code: nat, seen: seq<nat>)
    requires cx.tbl == cx1.tbl && at < |ws| && Before(seen, at)
    requires FromOperand(cx, ws, at, op, code, seen).Ids?
    requires SameLiterals(ws, vs, at, FromOperand(cx, ws, at, op, code, seen).at)
    requires SameSizes(ws, cx.sizes, vs, cx1.sizes, seen + FromOperand(cx, ws, at, op, code, seen).at)
    ensures FromOperand(cx1, vs, at, op, code, seen) == FromOperand(cx, ws, at, op, code, seen)
    decreases |ws| - at, 0
  {
    hide OperandIds, AccessIds, TensorIds, AccessExtra, TensorExtra;
    match cx.tbl(code).classes[op]
    case IdOperand => IdStable(cx, cx1, ws, vs, at, op, code, seen);
    case VariableIds =>
    case VariableLiterals =>
    case VariableLiteralId => SwitchStable(cx, cx1, ws, vs, at, op, code, seen);
    case StringOperand => StringStable(cx, cx1, ws, vs, at, op, code, seen);
    case MemoryAccess => MaskStable(cx, cx1, ws, vs, at, op, code, seen);
    case TensorAddressing => MaskStable(cx, cx1, ws, vs, at, op, code, seen);
    case SingleWord => OperandIdsStable(cx, cx1, ws, vs, at + 1, op + 1, code, seen);
  }

  lemma {:induction false} IdStable(cx: Context, cx1: Context, ws: seq<Word>, vs: seq<Word>, at: nat, op: nat,
                                    code: nat, seen: seq<nat>)
    requires cx.tbl == cx1.tbl && at < |ws| && Before(seen, at)
    requires op < |cx.tbl(code).classes| && cx.tbl(code).classes[op].IdOperand?
    requires FromOperand(cx, ws, at, op, code, seen).Ids?
    requires SameLiterals(ws, vs, at, FromOperand(cx, ws, at, op, code, seen).at)
    requires SameSizes(ws, cx.sizes, vs, cx1.sizes, seen + FromOperand(cx, ws, at, op, code, seen).at)
    ensures FromOperand(cx1, vs, at, op, code, seen) == FromOperand(cx, ws, at, op, code, seen)
    decreases |ws| - at, -1
  {
    var r := FromOperand(cx, ws, at, op, code, seen);
    var rest := OperandIds(cx, ws, at + 1, op + 1, code, seen + [at]);
    assert r.at == [at] + rest.at && seen + r.at == (seen + [at]) + rest.at;
    OperandIdsStable(cx, cx1, ws, vs, at + 1, op + 1, code, seen + [at]);
  }

  lemma SwitchStable(cx: Context, cx1: Context, ws: seq<Word>, vs: seq<Word>, at: nat, op: nat, code: nat,
                     seen: seq<nat>)
    requires cx.tbl == cx1.tbl && at < |ws| == |vs| && Before(seen, at)
    requires op < |cx.tbl(code).classes| && cx.tbl(code).classes[op].VariableLiteralId?
    requires FromOperand(cx, ws, at, op, code, seen).Ids?
    requires SameSizes(ws, cx.sizes, vs, cx1.sizes, seen + FromOperand(cx, ws, at, op, code, seen).at)
    ensures FromOperand(cx1, vs, at, op, code, seen) == FromOperand(cx, ws, at, op, code, seen)
  {
    var p := seen[|seen| - 2];
    assert p in seen + FromOperand(cx, ws, at, op, code, seen).at;
  }

  lemma {:induction false} MaskStable(cx: Context, cx1: Context, ws: seq<Word>, vs: seq<Word>, at: nat, op: nat,
                                      code: nat, seen: seq<nat>)
    requires cx.tbl == cx1.tbl && at < |ws| && Before(seen, at)
    requires op < |cx.tbl(code).classes|
    requires cx.tbl(code).classes[op].MemoryAccess? || cx.tbl(code).classes[op].TensorAddressing?
    requires FromOperand(cx, ws, at, op, code, seen).Ids?
    requires SameLiterals(ws, vs, at, FromOperand(cx, ws, at, op, code, seen).at)
    requires SameSizes(ws, cx.sizes, vs, cx1.sizes, seen + FromOperand(cx, ws, at, op, code, seen).at)
    ensures FromOperand(cx1, vs, at, op, code, seen) == FromOperand(cx, ws, at, op, code, seen)
    decreases |ws| - at, -1
  {
    hide HasBit, AccessIds, TensorIds, AccessExtra, TensorExtra, OperandIds;
    var memory := cx.tbl(code).classes[op].MemoryAccess?;
    var own := if memory then AccessIds(ws[at], at) else TensorIds(ws[at], at);
    var next := at + 1 + if memory then AccessExtra(ws[at]) else TensorExtra(ws[at]);
    assert FromOperand(cx, ws, at, op, code, seen) == Then(own, OperandIds(cx, ws, next, op + 1, code, seen));
    assert at !in own && at !in OperandIds(cx, ws, next, op + 1, code, seen).at;
    assert vs[at] == ws[at];
    RestStable(cx, cx1, ws, vs, at, own, next, op + 1, code, seen);
  }

  /** A string operand has no ids. */
  lemma StringOperandIds(cx: Context, ws: seq<Word>, at: nat, op: nat, code: nat, seen: seq<nat>)
    requires at < |ws| && Before(seen, at)
    requires op < |cx.tbl(code).classes| && cx.tbl(code).classes[op].StringOperand?
    ensures StringAt(ws, at).NoString? ==> FromOperand(cx, ws, at, op, code, seen) == Bad
    ensures StringAt(ws, at).SomeString? ==>
              var next := at + StringWords(StringAt(ws, at).chars);
              at < next <= |ws| && FromOperand(cx, ws, at, op, code, seen)
                  == OperandIds(cx, ws, next, op + 1, code, seen)
  {
    if StringAt(ws, at).SomeString? {
      StringFits(ws, at);
    }
  }

  lemma {:induction false} StringStable(cx: Context, cx1: Context, ws: seq<Word>, vs: seq<Word>, at: nat, op: nat,
                                        code: nat, seen: seq<nat>)
    requires cx.tbl == cx1.tbl && at < |ws| && Before(seen, at)
    requires op < |cx.tbl(code).classes| && cx.tbl(code).classes[op].StringOperand?
    requires FromOperand(cx, ws, at, op, code, seen).Ids?
    requires SameLiterals(ws, vs, at, FromOperand(cx, ws, at, op, code, seen).at)
    requires SameSizes(ws, cx.sizes, vs, cx1.sizes, seen + FromOperand(cx, ws, at, op, code, seen).at)
    ensures FromOperand(cx1, vs, at, op, code, seen) == FromOperand(cx, ws, at, op, code, seen)
    decreases |ws| - at, -1
  {
    hide FromOperand, OperandIds, StringAt, StringWords;
    var r := FromOperand(cx, ws, at, op, code, seen);
    StringOperandIds(cx, ws, at, op, code, seen);
    var next := at + StringWords(StringAt(ws, at).chars);
    forall i | at <= i < next ensures vs[i] == ws[i] {
      assert i !in r.at;
    }
    StringShifted(ws, vs, at, at);
    StringOperandIds(cx1, vs, at, op, code, seen);
    OperandIdsStable(cx, cx1, ws, vs, next, op + 1, code, seen);
  }

  /** After an operand that has ids of its own. */
  lemma {:induction false} RestStable(cx: Context, cx1: Context, ws: seq<Word>, vs: seq<Word>, at: nat, first: seq<nat>,
                                      next: nat, op: nat, code: nat, seen: seq<nat>)
    requires cx.tbl == cx1.tbl && at < next <= |ws| && (Before(seen, at)) && Before(first, next)
    requires OperandIds(cx, ws, next, op, code, seen).Ids?
    requires SameLiterals(ws, vs, at, first + OperandIds(cx, ws, next, op, code, seen).at)
    requires SameSizes(ws, cx.sizes, vs, cx1.sizes, seen + (first + OperandIds(cx, ws, next, op, code, seen).at))
    ensures OperandIds(cx1, vs, next, op, code, seen) == OperandIds(cx, ws, next, op, code, seen)
    decreases |ws| - at, -1, 0
  {
    OperandIdsStable(cx, cx1, ws, vs, next, op, code, seen);
  }

  /** A renamed instruction has its ids at the same places. */
  lemma InstIdsStable(cx: Context, cx1: Context, ws: seq<Word>, vs: seq<Word>)
    requires cx.tbl == cx1.tbl && ws != [] && InstIds(cx, ws).Ids?
    requires SameLiterals(ws, vs, 0, InstIds(cx, ws).at)
    requires SameSizes(ws, cx.sizes, vs, cx1.sizes, InstIds(cx, ws).at)
    ensures InstIds(cx1, vs) == InstIds(cx, ws)
  {
    var r := InstIds(cx, ws);
    assert 0 !in r.at && vs[0] == ws[0];
    var code := OpCode(ws[0]);
    var first := 1 + (if cx.tbl(code).hasType then 1 else 0) + if cx.tbl(code).hasResult then 1 else 0;
    if code != OP_EXT_INST {
      var rest := OperandIds(cx, ws, first, 0, code, []);
      assert r.at == Range(1, first) + rest.at;
      assert [] + rest.at == rest.at;
      OperandIdsStable(cx, cx1, ws, vs, first, 0, code, []);
    }
  }
}
