/** Instructions as they are written, operand by operand, and what the remapper finds of them in the words. */
module OperandGrammar {
  import opened StringLiterals
  import opened Spirv
  import opened Binary
  import opened RemapBinary
  import opened Strip

  // ---------- instructions ----------

  datatype MaybeWord = NoWord | OneWord(word: Word)

  /** A value of a switch, and the label it goes to. */
  datatype Case = Case(literal: seq<Word>, target: Word)

  datatype Written =
    | Reference(id: Word)
    | Number(word: Word)
    | Text(chars: seq<Byte>)
    | Access(mask: Word, alignment: MaybeWord, available: MaybeWord, visible: MaybeWord)
    | Tensor(mask: Word, view: MaybeWord, decode: MaybeWord)
    | References(ids: seq<Word>)
    | Numbers(words: seq<Word>)
    | Cases(cases: seq<Case>)

  datatype Content =
    | Operands(operands: seq<Written>)
    | Embedded(opcode: nat, operands: seq<Written>)
    | Extended(instructions: Word, number: Word, arguments: seq<Word>)

  datatype Instruction = Instruction(op: nat, typeId: MaybeWord, result: MaybeWord, content: Content)

  // ---------- how they are written ----------

  function Refs(ids: seq<Word>): (r: Raw)
    ensures |r| == |ids|
  {
    seq(|ids|, i requires 0 <= i < |ids| => IdRef(ids[i]))
  }

  function Literals(ws: seq<Word>): (r: Raw)
    ensures |r| == |ws|
  {
    seq(|ws|, i requires 0 <= i < |ws| => Literal(ws[i]))
  }

  function MaybeRef(m: MaybeWord): Raw {
    if m.OneWord? then [IdRef(m.word)] else []
  }

  function MaybeLiteral(m: MaybeWord): Raw {
    if m.OneWord? then [Literal(m.word)] else []
  }

  function CaseWords(cases: seq<Case>): Raw {
    if cases == [] then [] else Literals(cases[0].literal) + [IdRef(cases[0].target)] + CaseWords(cases[1..])
  }

  function Spelled(o: Written): Raw {
    match o
    case Reference(x) => [IdRef(x)]
    case Number(w) => [Literal(w)]
    case Text(chars) => Literals(Packed(chars))
    case Access(mask, alignment, available, visible) =>
      [Literal(mask)] + MaybeLiteral(alignment) + MaybeRef(available) + MaybeRef(visible)
    case Tensor(mask, view, decode) => [Literal(mask)] + MaybeRef(view) + MaybeRef(decode)
    case References(ids) => Refs(ids)
    case Numbers(ws) => Literals(ws)
    case Cases(cases) => CaseWords(cases)
  }

  function SpelledAll(os: seq<Written>): Raw {
    if os == [] then [] else Spelled(os[0]) + SpelledAll(os[1..])
  }

  function SpelledContent(c: Content): Raw {
    match c
    case Operands(os) => SpelledAll(os)
    case Embedded(opcode, os) => [Literal(opcode)] + SpelledAll(os)
    case Extended(instructions, number, arguments) => [IdRef(instructions), Literal(number)] + Refs(arguments)
  }

  function Tail(i: Instruction): Raw {
    MaybeRef(i.typeId) + MaybeRef(i.result) + SpelledContent(i.content)
  }

  /** The first word holds the word count and the opcode. */
  function SpelledInst(i: Instruction): Raw {
    [Literal((1 + |Tail(i)|) * 0x1_0000 + i.op)] + Tail(i)
  }

  function SpelledInsts(insts: seq<Instruction>): (r: seq<Raw>)
    ensures |r| == |insts| && forall k :: 0 <= k < |insts| ==> r[k] == SpelledInst(insts[k])
  {
    seq(|insts|, k requires 0 <= k < |insts| => SpelledInst(insts[k]))
  }

  // ---------- which instructions there are ----------

  /** A mask says what follows it: bits 1, 3 and 4 the alignment and the scopes, bits 0 and 1 the view and function. */
  predicate Proper(o: Written) {
    match o
    case Text(chars) => 0 !in chars
    case Access(mask, alignment, available, visible) =>
      && (mask / 2 % 2 == 1 <==> alignment.OneWord?)
      && (mask / 8 % 2 == 1 <==> available.OneWord?)
      && (mask / 16 % 2 == 1 <==> visible.OneWord?)
    case Tensor(mask, view, decode) =>
      && (mask % 2 == 1 <==> view.OneWord?)
      && (mask / 2 % 2 == 1 <==> decode.OneWord?)
    case _ => true
  }

  predicate OfClass(o: Written, c: OperandClass) {
    match c
    case IdOperand => o.Reference?
    case VariableIds => o.References?
    case VariableLiterals => o.Numbers?
    case VariableLiteralId => o.Cases?
    case StringOperand => o.Text?
    case MemoryAccess => o.Access?
    case TensorAddressing => o.Tensor?
    case SingleWord => o.Number?
  }

  /** The literals of a switch have the size of its selector, the last but one of the ids before them. */
  predicate CasesFit(cx: Context, code: nat, cases: seq<Case>, ids: seq<Word>) {
    && code == 251 && |ids| >= 2 && ids[|ids| - 2] in cx.sizes
    && forall c :: 0 <= c < |cases| ==> |cases[c].literal| == cx.sizes[ids[|ids| - 2]]
  }

  /** The operands are what the instruction table says, from its entry number `op` on; `ids` are the ids before. */
  predicate Fits(cx: Context, code: nat, os: seq<Written>, op: nat, ids: seq<Word>) {
    os != [] ==>
    && op < |cx.tbl(code).classes| && OfClass(os[0], cx.tbl(code).classes[op]) && Proper(os[0])
    && (os[0].References? || os[0].Numbers? || os[0].Cases? ==> |os| == 1)
    && (os[0].Cases? ==> CasesFit(cx, code, os[0].cases, ids))
    && Fits(cx, code, os[1..], op + 1, ids + if os[0].Reference? then [os[0].id] else [])
  }

  predicate IsInstruction(cx: Context, i: Instruction) {
    && i.op < 0x1_0000 && |Tail(i)| < 0xFFFF
    && (i.typeId.OneWord? <==> cx.tbl(i.op).hasType) && (i.result.OneWord? <==> cx.tbl(i.op).hasResult)
    && match i.content
       case Operands(os) => i.op != 12 && i.op != 52 && Fits(cx, i.op, os, 0, [])
       case Embedded(opcode, os) =>
         i.op == 52 && opcode < 0x1_0000 && SpelledAll(os) != [] && Fits(cx, opcode, os, 0, [])
       case Extended(_, _, _) => i.op == 12
  }

  /** A memory access that both makes available and makes visible names two scopes. */
  predicate TwoScopes(o: Written) {
    o.Access? && o.available.OneWord? && o.visible.OneWord?
  }

  predicate HasTwoScopes(os: seq<Written>) {
    exists k :: 0 <= k < |os| && TwoScopes(os[k])
  }

  predicate NamesTwoScopes(i: Instruction) {
    !i.content.Extended? && HasTwoScopes(i.content.operands)
  }

  /** In the instruction table a single word or a tensor mask comes after a memory access, or nothing. */
  ghost predicate NoIdAfterAccess(tbl: Table) {
    forall code: nat, op: nat | op + 1 < |tbl(code).classes| && tbl(code).classes[op].MemoryAccess? ::
      tbl(code).classes[op + 1].SingleWord? || tbl(code).classes[op + 1].TensorAddressing?
  }

  // ---------- positions ----------

  /** Where the ids are in words that start at `at`. */
  function IdPositions(raw: Raw, at: nat): seq<nat> {
    if raw == [] then [] else (if raw[0].IdRef? then [at] else []) + IdPositions(raw[1..], at + 1)
  }

  lemma {:induction false} PositionsAppend(a: Raw, b: Raw, at: nat)
    ensures IdPositions(a + b, at) == IdPositions(a, at) + IdPositions(b, at + |a|)
    decreases |a|
  {
    if a == [] {
      assert a + b == b;
    } else {
      assert (a + b)[1..] == a[1..] + b;
      PositionsAppend(a[1..], b, at + 1);
    }
  }

  lemma {:induction false} RefPositions(ids: seq<Word>, at: nat)
    ensures IdPositions(Refs(ids), at) == Range(at, at + |ids|)
    decreases |ids|
  {
    if ids != [] {
      assert Refs(ids)[1..] == Refs(ids[1..]);
      RefPositions(ids[1..], at + 1);
    }
  }

  lemma {:induction false} LiteralPositions(ws: seq<Word>, at: nat)
    ensures IdPositions(Literals(ws), at) == []
    decreases |ws|
  {
    if ws != [] {
      assert Literals(ws)[1..] == Literals(ws[1..]);
      LiteralPositions(ws[1..], at + 1);
    }
  }

  lemma {:induction false} CasePositions(cases: seq<Case>, at: nat, size: nat)
    requires forall c :: 0 <= c < |cases| ==> |cases[c].literal| == size
    ensures |CaseWords(cases)| == (1 + size) * |cases|
    ensures IdPositions(CaseWords(cases), at) == Labels(at, at + |CaseWords(cases)|, size)
    decreases |cases|
  {
    if cases != [] {
      hide IdPositions, Labels;
      CasePositions(cases[1..], at + size + 1, size);
      HeadPosition(cases[0], at);
      PositionsAppend(Literals(cases[0].literal) + [IdRef(cases[0].target)], CaseWords(cases[1..]), at);
      Distribute(1 + size, |cases| - 1);
      MoreLabels(at, |CaseWords(cases[1..])|, size);
    } else {
      NoLabels(at, size);
    }
  }

  lemma HeadPosition(c: Case, at: nat)
    ensures IdPositions(Literals(c.literal) + [IdRef(c.target)], at) == [at + |c.literal|]
  {
    PositionsAppend(Literals(c.literal), [IdRef(c.target)], at);
    LiteralPositions(c.literal, at);
  }

  lemma NoLabels(at: nat, size: nat)
    ensures Labels(at, at, size) == []
  {
  }

  lemma MoreLabels(at: nat, n: nat, size: nat)
    ensures Labels(at, at + (1 + size + n), size) == [at + size] + Labels(at + size + 1, at + size + 1 + n, size)
  {
  }

  lemma Distribute(a: nat, b: nat)
    ensures a * (b + 1) == a + a * b
  {
  }

  /** After a mask, an optional literal and two optional ids. */
  lemma MaskPositions(mask: Word, alignment: MaybeWord, a: MaybeWord, b: MaybeWord, at: nat)
    ensures var first := at + 1 + |MaybeLiteral(alignment)|;
            IdPositions([Literal(mask)] + MaybeLiteral(alignment) + MaybeRef(a) + MaybeRef(b), at)
            == (if a.OneWord? then [first] else []) + if b.OneWord? then [first + |MaybeRef(a)|] else []
  {
    hide IdPositions;
    var head := [Literal(mask)] + MaybeLiteral(alignment);
    PositionsAppend(head + MaybeRef(a), MaybeRef(b), at);
    PositionsAppend(head, MaybeRef(a), at);
    PositionsAppend([Literal(mask)], MaybeLiteral(alignment), at);
    MaybePositions(alignment, at + 1);
    MaybePositions(a, at + |head|);
    MaybePositions(b, at + |head| + |MaybeRef(a)|);
  }

  lemma MaybePositions(m: MaybeWord, at: nat)
    ensures IdPositions(MaybeRef(m), at) == if m.OneWord? then [at] else []
    ensures IdPositions(MaybeLiteral(m), at) == []
    ensures forall w: Word, i: nat :: IdPositions([Literal(w)], i) == []
  {
  }

  lemma AccessPositions(o: Written, at: nat)
    requires o.Access? && Proper(o) && !TwoScopes(o)
    ensures |Spelled(o)| == 1 + AccessExtra(o.mask)
    ensures IdPositions(Spelled(o), at) == AccessIds(o.mask, at)
  {
    hide IdPositions;
    MaskPositions(o.mask, o.alignment, o.available, o.visible, at);
  }

  lemma TensorPositions(o: Written, at: nat)
    requires o.Tensor? && Proper(o)
    ensures |Spelled(o)| == 1 + TensorExtra(o.mask)
    ensures IdPositions(Spelled(o), at) == TensorIds(o.mask, at)
  {
    hide IdPositions;
    MaskPositions(o.mask, NoWord, o.view, o.decode, at);
    assert [Literal(o.mask)] + MaybeLiteral(NoWord) == [Literal(o.mask)];
  }

  // ---------- what the operand loop finds ----------

  /** The words from `at` on are those of `os`. */
  ghost predicate StandsAt(ws: seq<Word>, raw: Raw, at: nat, os: seq<Written>) {
    WordsOf(raw) == ws && at <= |raw| && raw[at..] == SpelledAll(os)
  }

  ghost predicate Remembered(ws: seq<Word>, seen: seq<nat>, ids: seq<Word>) {
    |seen| == |ids| && forall i :: 0 <= i < |seen| ==> seen[i] < |ws| && ws[seen[i]] == ids[i]
  }

  /** The ids found are those written, unless an access names two scopes. */
  ghost predicate Exact(tbl: Table, r: Layout, raw: Raw, at: nat, os: seq<Written>)
    requires at <= |raw|
  {
    && (!HasTwoScopes(os) ==> r == Ids(IdPositions(raw[at..], at)))
    && (HasTwoScopes(os) && NoIdAfterAccess(tbl) ==> r != Ids(IdPositions(raw[at..], at)))
  }

  lemma NextOperand(ws: seq<Word>, raw: Raw, at: nat, os: seq<Written>)
    requires StandsAt(ws, raw, at, os) && os != []
    ensures at + |Spelled(os[0])| <= |raw| == |ws|
    ensures var next := at + |Spelled(os[0])|;
      && StandsAt(ws, raw, next, os[1..])
      && raw[at..next] == Spelled(os[0]) && ws[at..next] == WordsOf(Spelled(os[0]))
      && IdPositions(raw[at..], at) == IdPositions(Spelled(os[0]), at) + IdPositions(raw[next..], next)
  {
    hide IdPositions, Spelled;
    var tail := SpelledAll(os[1..]);
    SplitWords(ws, raw, at, Spelled(os[0]), tail);
    PositionsAppend(Spelled(os[0]), tail, at);
  }

  lemma SplitWords(ws: seq<Word>, raw: Raw, at: nat, a: Raw, b: Raw)
    requires WordsOf(raw) == ws && at <= |raw| && raw[at..] == a + b
    ensures at + |a| <= |raw| == |ws| && raw[at..at + |a|] == a && raw[at + |a|..] == b
    ensures ws[at..at + |a|] == WordsOf(a)
  {
    assert |raw| - at == |a| + |b|;
    assert raw[at..][|a|..] == raw[at + |a|..];
    assert raw[at..][..|a|] == raw[at..at + |a|];
    forall i | 0 <= i < |a| ensures ws[at..at + |a|][i] == WordsOf(a)[i] {
      assert ws[at + i] == WordsOf(raw)[at + i];
      assert raw[at + i] == raw[at..][i];
    }
  }

  lemma TwoScopesNext(os: seq<Written>)
    requires os != []
    ensures HasTwoScopes(os) <==> TwoScopes(os[0]) || HasTwoScopes(os[1..])
  {
    if k :| 0 <= k < |os| && TwoScopes(os[k]) {
      assert k > 0 ==> TwoScopes(os[1..][k - 1]);
    }
    if k :| 0 <= k < |os[1..]| && TwoScopes(os[1..][k]) {
      assert TwoScopes(os[k + 1]);
    }
  }

  /** An operand whose own ids are found right leaves the question to the rest. */
  lemma ExactNext(tbl: Table, ws: seq<Word>, raw: Raw, at: nat, os: seq<Written>, own: seq<nat>, rest: Layout)
    requires StandsAt(ws, raw, at, os) && os != [] && !TwoScopes(os[0]) && own == IdPositions(Spelled(os[0]), at)
    requires at + |Spelled(os[0])| <= |raw| && Exact(tbl, rest, raw, at + |Spelled(os[0])|, os[1..])
    ensures Exact(tbl, Then(own, rest), raw, at, os)
  {
    hide IdPositions, HasTwoScopes, StandsAt, NoIdAfterAccess, SpelledAll, TwoScopes;
    NextOperand(ws, raw, at, os);
    TwoScopesNext(os);
    var tail := IdPositions(raw[at + |Spelled(os[0])|..], at + |Spelled(os[0])|);
    if rest.Ids? && own + rest.at == own + tail {
      assert (own + rest.at)[|own|..] == rest.at && (own + tail)[|own|..] == tail;
    }
  }

  lemma {:induction false} OperandsExact(cx: Context, ws: seq<Word>, raw: Raw, at: nat, os: seq<Written>, op: nat,
                                         code: nat, seen: seq<nat>, ids: seq<Word>)
    requires StandsAt(ws, raw, at, os) && Before(seen, at) && Remembered(ws, seen, ids)
    requires Fits(cx, code, os, op, ids) && (code != 52 || op > 0)
    ensures Exact(cx.tbl, OperandIds(cx, ws, at, op, code, seen), raw, at, os)
    decreases |os|, 1
  {
    if at == |ws| {
      assert raw[at..] == [];
      if os != [] {
        NextOperand(ws, raw, at, os);
        NothingSpelled(os[0]);
        TwoScopesNext(os);
      }
    } else {
      assert os != [];
      OperandExact(cx, ws, raw, at, os, op, code, seen, ids);
    }
  }

  lemma NothingSpelled(o: Written)
    requires Spelled(o) == []
    ensures o.References? || o.Numbers? || o.Cases?
  {
  }

  lemma {:induction false} OperandExact(cx: Context, ws: seq<Word>, raw: Raw, at: nat, os: seq<Written>, op: nat,
                                        code: nat, seen: seq<nat>, ids: seq<Word>)
    requires StandsAt(ws, raw, at, os) && Before(seen, at) && Remembered(ws, seen, ids)
    requires Fits(cx, code, os, op, ids) && os != [] && at < |ws|
    ensures Exact(cx.tbl, FromOperand(cx, ws, at, op, code, seen), raw, at, os)
    decreases |os|, 0
  {
    hide StandsAt, Exact, OperandIds, IdPositions, SpelledAll, Before, Remembered, NoIdAfterAccess, HasTwoScopes;
    var own := IdPositions(Spelled(os[0]), at);
    var next := at + |Spelled(os[0])|;
    NextOperand(ws, raw, at, os);
    if os[0].References? || os[0].Numbers? || os[0].Cases? {
      LastExact(cx, ws, raw, at, os, op, code, seen, ids);
    } else if TwoScopes(os[0]) {
      TwoScopesLost(cx, ws, raw, at, os, op, code, seen, ids);
    } else {
      var seen' := seen + if os[0].Reference? then [at] else [];
      var ids' := ids + if os[0].Reference? then [os[0].id] else [];
      SeenNext(ws, raw, at, os, seen, ids);
      FoundNext(cx, ws, raw, at, os, op, code, seen);
      OperandsExact(cx, ws, raw, next, os[1..], op + 1, code, seen', ids');
      ExactNext(cx.tbl, ws, raw, at, os, own, OperandIds(cx, ws, next, op + 1, code, seen'));
    }
  }

  lemma SeenNext(ws: seq<Word>, raw: Raw, at: nat, os: seq<Written>, seen: seq<nat>, ids: seq<Word>)
    requires StandsAt(ws, raw, at, os) && os != [] && at < |ws| && Before(seen, at) && Remembered(ws, seen, ids)
    requires !os[0].References? && !os[0].Numbers? && !os[0].Cases?
    ensures var seen' := seen + if os[0].Reference? then [at] else [];
      && Before(seen', at + |Spelled(os[0])|)
      && Remembered(ws, seen', ids + if os[0].Reference? then [os[0].id] else [])
    ensures |Spelled(os[0])| > 0
  {
    NextOperand(ws, raw, at, os);
    if os[0].Reference? {
      assert raw[at..at + 1] == [IdRef(os[0].id)];
      assert raw[at..at + 1][0] == raw[at];
    }
  }

  /** What the loop finds in one operand. */
  lemma FoundNext(cx: Context, ws: seq<Word>, raw: Raw, at: nat, os: seq<Written>, op: nat, code: nat, seen: seq<nat>)
    requires StandsAt(ws, raw, at, os) && os != [] && at < |ws| && Before(seen, at)
    requires op < |cx.tbl(code).classes| && OfClass(os[0], cx.tbl(code).classes[op]) && Proper(os[0])
    requires !os[0].References? && !os[0].Numbers? && !os[0].Cases? && !TwoScopes(os[0])
    requires at + |Spelled(os[0])| <= |ws|
    requires Before(seen + if os[0].Reference? then [at] else [], at + |Spelled(os[0])|)
    ensures FromOperand(cx, ws, at, op, code, seen)
         == Then(IdPositions(Spelled(os[0]), at),
                 OperandIds(cx, ws, at + |Spelled(os[0])|, op + 1, code,
                            seen + if os[0].Reference? then [at] else []))
  {
    hide *;
    NextOperand(ws, raw, at, os);
    assert seen + [] == seen;
    var o := os[0];
    if o.Text? {
      TextFound(cx, ws, at, o, op, code, seen);
    } else if o.Access? || o.Tensor? {
      MaskFound(cx, ws, at, o, op, code, seen);
    } else {
      WordFound(cx, ws, at, o, op, code, seen);
    }
  }

  lemma WordFound(cx: Context, ws: seq<Word>, at: nat, o: Written, op: nat, code: nat, seen: seq<nat>)
    requires at < |ws| && Before(seen, at) && op < |cx.tbl(code).classes| && OfClass(o, cx.tbl(code).classes[op])
    requires o.Reference? || o.Number?
    ensures |Spelled(o)| == 1 && Before(seen + if o.Reference? then [at] else [], at + 1)
    ensures FromOperand(cx, ws, at, op, code, seen)
         == Then(IdPositions(Spelled(o), at),
                 OperandIds(cx, ws, at + 1, op + 1, code, seen + if o.Reference? then [at] else []))
  {
    hide OperandIds;
    assert seen + [] == seen;
  }

  lemma MaskFound(cx: Context, ws: seq<Word>, at: nat, o: Written, op: nat, code: nat, seen: seq<nat>)
    requires at + |Spelled(o)| <= |ws| && Before(seen, at) && Before(seen, at + |Spelled(o)|)
    requires op < |cx.tbl(code).classes| && OfClass(o, cx.tbl(code).classes[op]) && Proper(o) && !TwoScopes(o)
    requires (o.Access? || o.Tensor?) && ws[at..at + |Spelled(o)|] == WordsOf(Spelled(o))
    ensures FromOperand(cx, ws, at, op, code, seen)
         == Then(IdPositions(Spelled(o), at), OperandIds(cx, ws, at + |Spelled(o)|, op + 1, code, seen))
  {
    hide OperandIds, AccessIds, TensorIds, AccessExtra, TensorExtra, IdPositions, Proper;
    if o.Access? {
      AccessPositions(o, at);
    } else {
      TensorPositions(o, at);
    }
    assert ws[at] == o.mask by {
      assert ws[at..at + |Spelled(o)|][0] == ws[at];
      assert WordsOf(Spelled(o))[0] == Spelled(o)[0].Word();
    }
  }

  lemma OnePosition(x: Word, at: nat)
    ensures IdPositions([IdRef(x)], at) == [at]
  {
  }

  lemma TextFound(cx: Context, ws: seq<Word>, at: nat, o: Written, op: nat, code: nat, seen: seq<nat>)
    requires at < |ws| && at + |Spelled(o)| <= |ws| && Before(seen, at) && Before(seen, at + |Spelled(o)|)
    requires o.Text? && Proper(o) && ws[at..at + |Spelled(o)|] == WordsOf(Spelled(o))
    requires op < |cx.tbl(code).classes| && OfClass(o, cx.tbl(code).classes[op])
    ensures FromOperand(cx, ws, at, op, code, seen)
         == Then(IdPositions(Spelled(o), at), OperandIds(cx, ws, at + |Spelled(o)|, op + 1, code, seen))
  {
    hide Packed, StringAt, FromOperand, OperandIds, IdPositions;
    var packed := Packed(o.chars);
    assert WordsOf(Literals(packed)) == packed;
    StringRoundTrip(ws[..at], o.chars, ws[at + |packed|..]);
    assert ws == ws[..at] + ws[at..at + |packed|] + ws[at + |packed|..];
    StringOperandIds(cx, ws, at, op, code, seen);
    LiteralPositions(packed, at);
  }

  /** An operand that takes the rest of the instruction. */
  lemma LastExact(cx: Context, ws: seq<Word>, raw: Raw, at: nat, os: seq<Written>, op: nat, code: nat, seen: seq<nat>,
                  ids: seq<Word>)
    requires StandsAt(ws, raw, at, os) && Before(seen, at) && Remembered(ws, seen, ids)
    requires Fits(cx, code, os, op, ids) && os != [] && at < |ws|
    requires os[0].References? || os[0].Numbers? || os[0].Cases?
    ensures Exact(cx.tbl, FromOperand(cx, ws, at, op, code, seen), raw, at, os)
  {
    hide *;
    LastFits(cx, code, os, op, ids);
    SingleOperand(ws, raw, at, os);
    LastFound(cx, ws, at, os[0], op, code, seen, ids);
    FoundIsExact(cx.tbl, FromOperand(cx, ws, at, op, code, seen), raw, at, os);
  }

  lemma LastFits(cx: Context, code: nat, os: seq<Written>, op: nat, ids: seq<Word>)
    requires Fits(cx, code, os, op, ids) && os != []
    requires os[0].References? || os[0].Numbers? || os[0].Cases?
    ensures |os| == 1 && op < |cx.tbl(code).classes| && OfClass(os[0], cx.tbl(code).classes[op])
    ensures os[0].Cases? ==> CasesFit(cx, code, os[0].cases, ids)
  {
  }

  lemma SingleOperand(ws: seq<Word>, raw: Raw, at: nat, os: seq<Written>)
    requires StandsAt(ws, raw, at, os) && |os| == 1
    ensures |raw| == |ws| && at <= |raw| && raw[at..] == Spelled(os[0]) && |Spelled(os[0])| == |ws| - at
  {
    hide Spelled;
    assert SpelledAll(os[1..]) == [];
  }

  lemma FoundIsExact(tbl: Table, r: Layout, raw: Raw, at: nat, os: seq<Written>)
    requires at <= |raw| && |os| == 1 && !os[0].Access? && r == Ids(IdPositions(raw[at..], at))
    ensures Exact(tbl, r, raw, at, os)
  {
    hide IdPositions;
  }

  lemma LastFound(cx: Context, ws: seq<Word>, at: nat, o: Written, op: nat, code: nat, seen: seq<nat>, ids: seq<Word>)
    requires at < |ws| && Before(seen, at) && Remembered(ws, seen, ids) && |Spelled(o)| == |ws| - at
    requires op < |cx.tbl(code).classes| && OfClass(o, cx.tbl(code).classes[op])
    requires o.References? || o.Numbers? || (o.Cases? && CasesFit(cx, code, o.cases, ids))
    ensures FromOperand(cx, ws, at, op, code, seen) == Ids(IdPositions(Spelled(o), at))
  {
    hide IdPositions, Labels, OperandIds, CaseWords, Refs, Literals;
    match o
    case References(xs) => RefPositions(xs, at);
    case Numbers(vs) => LiteralPositions(vs, at);
    case Cases(cases) => CasePositions(cases, at, cx.sizes[ids[|ids| - 2]]);
  }

  /** The second scope is taken for the next operand, and that is no id. */
  lemma TwoScopesLost(cx: Context, ws: seq<Word>, raw: Raw, at: nat, os: seq<Written>, op: nat, code: nat,
                      seen: seq<nat>, ids: seq<Word>)
    requires StandsAt(ws, raw, at, os) && Before(seen, at) && Remembered(ws, seen, ids)
    requires Fits(cx, code, os, op, ids) && os != [] && at < |ws| && TwoScopes(os[0])
    ensures Exact(cx.tbl, FromOperand(cx, ws, at, op, code, seen), raw, at, os)
  {
    hide StandsAt, SpelledAll, Remembered, IdPositions, HasTwoScopes, OperandIds, AccessIds, AccessExtra,
         NoIdAfterAccess;
    NextOperand(ws, raw, at, os);
    TwoScopesNext(os);
    var o := os[0];
    var second := at + 1 + AccessExtra(o.mask);
    assert WordsOf(Spelled(o))[0] == o.mask;
    assert ws[at] == o.mask by { assert ws[at..at + |Spelled(o)|][0] == ws[at]; }
    ScopePositions(o, at);
    if NoIdAfterAccess(cx.tbl) {
      if op + 1 < |cx.tbl(code).classes| {
        AfterAccess(cx.tbl, code, op);
      }
      SecondScope(cx, ws, second, op + 1, code, seen);
      var rest := OperandIds(cx, ws, second, op + 1, code, seen);
      var found := FromOperand(cx, ws, at, op, code, seen);
      assert found == Then(AccessIds(o.mask, at), rest);
      var written := IdPositions(raw[at..], at);
      assert |written| >= 2 && written[1] == second;
      if rest.Ids? && |rest.at| > 0 {
        assert found.at[1] == rest.at[0];
      }
      assert found != Ids(written);
    }
  }

  lemma AfterAccess(tbl: Table, code: nat, op: nat)
    requires NoIdAfterAccess(tbl) && op + 1 < |tbl(code).classes| && tbl(code).classes[op].MemoryAccess?
    ensures tbl(code).classes[op + 1].SingleWord? || tbl(code).classes[op + 1].TensorAddressing?
  {
  }

  /** Of the two scopes that are written the loop takes the first. */
  lemma ScopePositions(o: Written, at: nat)
    requires o.Access? && Proper(o) && TwoScopes(o)
    ensures var second := at + 1 + AccessExtra(o.mask);
      && |Spelled(o)| == 2 + AccessExtra(o.mask)
      && |AccessIds(o.mask, at)| == 1 && IdPositions(Spelled(o), at) == AccessIds(o.mask, at) + [second]
  {
    hide IdPositions;
    MaskPositions(o.mask, o.alignment, o.available, o.visible, at);
  }

  lemma SecondScope(cx: Context, ws: seq<Word>, at: nat, op: nat, code: nat, seen: seq<nat>)
    requires at < |ws| && Before(seen, at) && op > 0
    requires op < |cx.tbl(code).classes| ==>
             cx.tbl(code).classes[op].SingleWord? || cx.tbl(code).classes[op].TensorAddressing?
    ensures var r := OperandIds(cx, ws, at, op, code, seen);
            r.Ids? && |r.at| > 0 ==> r.at[0] > at
  {
  }

  // ---------- whole instructions ----------

  lemma TaggedPositions(raw: Raw, ws: seq<Word>)
    requires WordsOf(raw) == ws
    ensures Tagged(ws, IdPositions(raw, 0)) == raw
  {
    forall i | 0 <= i < |raw|
      ensures Tagged(ws, IdPositions(raw, 0))[i] == raw[i]
    {
      PositionsAre(raw, 0, i);
      assert ws[i] == WordsOf(raw)[i];
    }
  }

  lemma {:induction false} PositionsAre(raw: Raw, at: nat, i: nat)
    ensures i in IdPositions(raw, at) <==> at <= i < at + |raw| && raw[i - at].IdRef?
    decreases |raw|
  {
    if raw != [] {
      var rest := IdPositions(raw[1..], at + 1);
      PositionsAre(raw[1..], at + 1, i);
      assert i in IdPositions(raw, at) <==> (i == at && raw[0].IdRef?) || i in rest by {
        var own := if raw[0].IdRef? then [at] else [];
        assert i in own + rest <==> i in own || i in rest;
      }
      if at < i < at + |raw| {
        assert raw[1..][i - at - 1] == raw[i - at];
      }
    }
  }

  ghost predicate InRange(raw: Raw) {
    forall i :: 0 <= i < |raw| ==> raw[i].Word() < 0x1_0000_0000
  }

  lemma InRangeAppend(a: Raw, b: Raw)
    requires InRange(a) && InRange(b)
    ensures InRange(a + b)
  {
  }

  lemma {:induction false} CasesInRange(cases: seq<Case>)
    ensures InRange(CaseWords(cases))
  {
    if cases != [] {
      hide InRange;
      CasesInRange(cases[1..]);
      WordsInRange(cases[0].literal, cases[0].target);
      InRangeAppend(Literals(cases[0].literal), [IdRef(cases[0].target)]);
      InRangeAppend(Literals(cases[0].literal) + [IdRef(cases[0].target)], CaseWords(cases[1..]));
    }
  }

  lemma WordsInRange(ws: seq<Word>, w: Word)
    ensures InRange(Literals(ws)) && InRange(Refs(ws)) && InRange([IdRef(w)]) && InRange([Literal(w)])
  {
  }

  lemma MaybeInRange(m: MaybeWord)
    ensures InRange(MaybeRef(m)) && InRange(MaybeLiteral(m))
  {
  }

  lemma MaskInRange(mask: Word, alignment: MaybeWord, a: MaybeWord, b: MaybeWord)
    ensures InRange([Literal(mask)] + MaybeLiteral(alignment) + MaybeRef(a) + MaybeRef(b))
    ensures InRange([Literal(mask)] + MaybeRef(a) + MaybeRef(b))
  {
    hide InRange, MaybeRef, MaybeLiteral;
    WordsInRange([], mask);
    MaybeInRange(alignment);
    MaybeInRange(a);
    MaybeInRange(b);
    InRangeAppend([Literal(mask)], MaybeLiteral(alignment));
    InRangeAppend([Literal(mask)] + MaybeLiteral(alignment), MaybeRef(a));
    InRangeAppend([Literal(mask)] + MaybeLiteral(alignment) + MaybeRef(a), MaybeRef(b));
    InRangeAppend([Literal(mask)], MaybeRef(a));
    InRangeAppend([Literal(mask)] + MaybeRef(a), MaybeRef(b));
  }

  lemma OperandInRange(o: Written)
    ensures InRange(Spelled(o))
  {
    hide InRange, Literals, Refs, MaybeRef, MaybeLiteral, CaseWords, Packed;
    match o
    case Reference(x) => WordsInRange([], x);
    case Number(w) => WordsInRange([], w);
    case Text(chars) => WordsInRange(Packed(chars), 0);
    case Access(mask, alignment, available, visible) => MaskInRange(mask, alignment, available, visible);
    case Tensor(mask, view, decode) => MaskInRange(mask, NoWord, view, decode);
    case References(ids) => WordsInRange(ids, 0);
    case Numbers(ws) => WordsInRange(ws, 0);
    case Cases(cases) => CasesInRange(cases);
  }

  lemma {:induction false} OperandsInRange(os: seq<Written>)
    ensures InRange(SpelledAll(os))
  {
    if os != [] {
      hide InRange, Spelled;
      OperandsInRange(os[1..]);
      OperandInRange(os[0]);
      InRangeAppend(Spelled(os[0]), SpelledAll(os[1..]));
    } else {
      assert SpelledAll(os) == [];
    }
  }

  lemma ContentInRange(cx: Context, i: Instruction)
    requires IsInstruction(cx, i)
    ensures InRange(SpelledContent(i.content))
  {
    hide InRange, SpelledAll, Refs;
    match i.content
    case Operands(os) => OperandsInRange(os);
    case Embedded(opcode, os) =>
      OperandsInRange(os);
      WordsInRange([], opcode);
      InRangeAppend([Literal(opcode)], SpelledAll(os));
    case Extended(instructions, number, arguments) =>
      WordsInRange(arguments, instructions);
      WordsInRange([], number);
      InRangeAppend([IdRef(instructions)], [Literal(number)]);
      assert [IdRef(instructions)] + [Literal(number)] == [IdRef(instructions), Literal(number)];
      InRangeAppend([IdRef(instructions), Literal(number)], Refs(arguments));
  }

  lemma InstInRange(cx: Context, i: Instruction)
    requires IsInstruction(cx, i)
    ensures InRange(SpelledInst(i))
  {
    hide InRange, MaybeRef, SpelledContent;
    FirstWord(1 + |Tail(i)|, i.op);
    WordsInRange([], (1 + |Tail(i)|) * 0x1_0000 + i.op);
    MaybeInRange(i.typeId);
    MaybeInRange(i.result);
    ContentInRange(cx, i);
    InRangeAppend(MaybeRef(i.typeId), MaybeRef(i.result));
    InRangeAppend(MaybeRef(i.typeId) + MaybeRef(i.result), SpelledContent(i.content));
    InRangeAppend([Literal((1 + |Tail(i)|) * 0x1_0000 + i.op)], Tail(i));
  }

  function Head(i: Instruction): Raw {
    [Literal((1 + |Tail(i)|) * 0x1_0000 + i.op)] + MaybeRef(i.typeId) + MaybeRef(i.result)
  }

  lemma HeadIds(cx: Context, i: Instruction)
    requires IsInstruction(cx, i)
    ensures SpelledInst(i) == Head(i) + SpelledContent(i.content)
    ensures IdPositions(SpelledInst(i), 0) == Range(1, |Head(i)|) + IdPositions(SpelledContent(i.content), |Head(i)|)
    ensures |Head(i)| == 1 + (if cx.tbl(i.op).hasType then 1 else 0) + if cx.tbl(i.op).hasResult then 1 else 0
  {
    hide *;
    HeadWords(cx, i);
    PositionsAppend(Head(i), SpelledContent(i.content), 0);
  }

  lemma HeadWords(cx: Context, i: Instruction)
    requires IsInstruction(cx, i)
    ensures SpelledInst(i) == Head(i) + SpelledContent(i.content)
    ensures IdPositions(Head(i), 0) == Range(1, |Head(i)|)
    ensures |Head(i)| == 1 + (if cx.tbl(i.op).hasType then 1 else 0) + if cx.tbl(i.op).hasResult then 1 else 0
  {
    hide IdPositions, SpelledContent, MaybeRef, Fits, SpelledAll;
    var first: Word := (1 + |Tail(i)|) * 0x1_0000 + i.op;
    MaskPositions(first, NoWord, i.typeId, i.result, 0);
    assert [Literal(first)] + MaybeLiteral(NoWord) == [Literal(first)];
    MaybeLengths(i.typeId);
    MaybeLengths(i.result);
    RangeSteps(|MaybeRef(i.typeId)|, |MaybeRef(i.result)|);
  }

  lemma MaybeLengths(m: MaybeWord)
    ensures |MaybeRef(m)| == if m.OneWord? then 1 else 0
  {
  }

  lemma RangeSteps(a: nat, b: nat)
    requires a <= 1 && b <= 1
    ensures Range(1, 1 + a + b) == (if a == 1 then [1] else []) + if b == 1 then [1 + a] else []
  {
  }

  lemma FirstWord(n: nat, op: nat)
    requires n < 0x1_0000 && op < 0x1_0000
    ensures var w: nat := n * 0x1_0000 + op; w < 0x1_0000_0000 && OpCode(w) == op && WordCount(w) == n
  {
  }

  lemma ExtendedIds(cx: Context, ws: seq<Word>, i: Instruction)
    requires IsInstruction(cx, i) && i.content.Extended? && WordsOf(SpelledInst(i)) == ws
    ensures InstIds(cx, ws) == Ids(IdPositions(SpelledInst(i), 0))
  {
    hide *;
    var n := |Head(i)|;
    HeadIds(cx, i);
    InstParts(cx, ws, i);
    ExtendedContent(i.content, n);
    ExtendedFound(cx, ws, i, n);
  }

  lemma ExtendedContent(c: Content, n: nat)
    requires c.Extended? && n > 0
    ensures |SpelledContent(c)| == 2 + |c.arguments|
    ensures Range(1, n) + IdPositions(SpelledContent(c), n) == Range(1, n + 1) + Range(n + 2, n + 2 + |c.arguments|)
  {
    hide IdPositions;
    PositionsAppend([IdRef(c.instructions), Literal(c.number)], Refs(c.arguments), n);
    PositionsAppend([IdRef(c.instructions)], [Literal(c.number)], n);
    OnePosition(c.instructions, n);
    MaybePositions(NoWord, n);
    RefPositions(c.arguments, n + 2);
    assert [IdRef(c.instructions)] + [Literal(c.number)] == [IdRef(c.instructions), Literal(c.number)];
    assert Range(1, n) + [n] == Range(1, n + 1);
  }

  lemma ExtendedFound(cx: Context, ws: seq<Word>, i: Instruction, n: nat)
    requires IsInstruction(cx, i) && i.content.Extended? && ws != [] && OpCode(ws[0]) == i.op && n + 2 <= |ws|
    requires n == 1 + (if cx.tbl(i.op).hasType then 1 else 0) + if cx.tbl(i.op).hasResult then 1 else 0
    ensures InstIds(cx, ws) == Ids(Range(1, n + 1) + Range(n + 2, |ws|))
  {
    hide OpCode, Range;
  }

  /** The parts of the words of an instruction. */
  lemma InstParts(cx: Context, ws: seq<Word>, i: Instruction)
    requires IsInstruction(cx, i) && WordsOf(SpelledInst(i)) == ws
    ensures |Head(i)| <= |ws| == |SpelledInst(i)| && OpCode(ws[0]) == i.op && WordCount(ws[0]) == |ws|
    ensures SpelledInst(i)[|Head(i)|..] == SpelledContent(i.content)
  {
    hide SpelledContent, MaybeRef, OpCode, WordCount;
    HeadWords(cx, i);
    FirstWord(1 + |Tail(i)|, i.op);
    assert ws[0] == WordsOf(SpelledInst(i))[0] == SpelledInst(i)[0].Word();
  }

  /** What is found in an instruction whose operands the table describes. */
  lemma ContentExact(cx: Context, ws: seq<Word>, i: Instruction)
    requires IsInstruction(cx, i) && !i.content.Extended? && WordsOf(SpelledInst(i)) == ws
    ensures |Head(i)| <= |ws|
    ensures var r := OperandIds(cx, ws, |Head(i)|, 0, i.op, []);
            var written := Ids(IdPositions(SpelledContent(i.content), |Head(i)|));
            && (!NamesTwoScopes(i) ==> r == written)
            && (NamesTwoScopes(i) && NoIdAfterAccess(cx.tbl) ==> r != written)
  {
    hide IdPositions, SpelledAll, FromOperand, NoIdAfterAccess, HasTwoScopes, Head, SpelledInst, Fits;
    InstParts(cx, ws, i);
    match i.content
    case Operands(os) =>
      OperandsExact(cx, ws, SpelledInst(i), |Head(i)|, os, 0, i.op, [], []);
    case Embedded(opcode, os) =>
      EmbeddedExact(cx, ws, SpelledInst(i), |Head(i)|, opcode, os);
  }

  lemma SomethingSpelled(os: seq<Written>)
    requires SpelledAll(os) != []
    ensures os != []
  {
  }

  lemma EmbeddedExact(cx: Context, ws: seq<Word>, raw: Raw, n: nat, opcode: nat, os: seq<Written>)
    requires WordsOf(raw) == ws && n <= |raw| && raw[n..] == [Literal(opcode)] + SpelledAll(os)
    requires opcode < 0x1_0000 && SpelledAll(os) != [] && Fits(cx, opcode, os, 0, [])
    ensures Exact(cx.tbl, OperandIds(cx, ws, n, 0, 52, []), raw, n, os)
  {
    hide IdPositions, SpelledAll, FromOperand, NoIdAfterAccess, HasTwoScopes, Fits;
    SomethingSpelled(os);
    SplitWords(ws, raw, n, [Literal(opcode)], SpelledAll(os));
    assert raw[n..n + 1][0] == raw[n] && WordsOf(raw)[n] == opcode;
    OperandExact(cx, ws, raw, n + 1, os, 0, opcode, [], []);
    PositionsAppend([Literal(opcode)], SpelledAll(os), n);
    MaybePositions(NoWord, n);
  }

  ghost predicate Increasing(a: seq<nat>) {
    forall i, j :: 0 <= i < j < |a| ==> a[i] < a[j]
  }

  /** Increasing positions with the same members are the same. */
  lemma {:induction false} SamePositions(a: seq<nat>, b: seq<nat>)
    requires Increasing(a) && Increasing(b) && forall x :: x in a <==> x in b
    ensures a == b
    decreases |a|
  {
    assert forall i :: 0 <= i < |a| ==> a[i] in b;
    assert forall i :: 0 <= i < |b| ==> b[i] in a;
    if a != [] && b != [] {
      assert a[0] in b && b[0] in a;
      forall x
        ensures x in a[1..] <==> x in b[1..]
      {
        OthersIn(a, x);
        OthersIn(b, x);
      }
      SamePositions(a[1..], b[1..]);
    }
  }

  lemma OthersIn(a: seq<nat>, x: nat)
    requires a != [] && Increasing(a)
    ensures x in a[1..] <==> x in a && x != a[0]
  {
    assert a == [a[0]] + a[1..];
  }

  lemma {:induction false} PositionsIncrease(raw: Raw, at: nat)
    ensures Increasing(IdPositions(raw, at))
    ensures forall i :: 0 <= i < |IdPositions(raw, at)| ==> at <= IdPositions(raw, at)[i]
    decreases |raw|
  {
    if raw != [] {
      PositionsIncrease(raw[1..], at + 1);
    }
  }

  /** Tagged the same, the positions are the same. */
  lemma SameTags(raw: Raw, ws: seq<Word>, ids: seq<nat>)
    requires WordsOf(raw) == ws && Increasing(ids) && (forall i :: 0 <= i < |ids| ==> ids[i] < |ws|)
    requires Tagged(ws, ids) == raw
    ensures ids == IdPositions(raw, 0)
  {
    PositionsIncrease(raw, 0);
    forall x: nat
      ensures x in ids <==> x in IdPositions(raw, 0)
    {
      PositionsAre(raw, 0, x);
      if x < |raw| {
        assert Tagged(ws, ids)[x] == raw[x];
      }
    }
    SamePositions(ids, IdPositions(raw, 0));
  }

  /** One instruction: the ids found in its words are the ids written, if and only if no access names two scopes. */
  lemma InstExact(cx: Context, ws: seq<Word>, i: Instruction)
    requires IsInstruction(cx, i) && WordsOf(SpelledInst(i)) == ws
    ensures ws != []
    ensures !NamesTwoScopes(i) ==> InstIds(cx, ws) == Ids(IdPositions(SpelledInst(i), 0))
    ensures NamesTwoScopes(i) && NoIdAfterAccess(cx.tbl) ==> InstIds(cx, ws) != Ids(IdPositions(SpelledInst(i), 0))
  {
    hide *;
    InstParts(cx, ws, i);
    HeadIds(cx, i);
    if i.content.Extended? {
      ExtendedIds(cx, ws, i);
      ExtendedNames(i);
    } else {
      ContentExact(cx, ws, i);
      ContentFound(cx, ws, i);
      var found := OperandIds(cx, ws, |Head(i)|, 0, i.op, []);
      ThenSame(Range(1, |Head(i)|), found, IdPositions(SpelledContent(i.content), |Head(i)|));
    }
  }

  lemma ExtendedNames(i: Instruction)
    requires i.content.Extended?
    ensures !NamesTwoScopes(i)
  {
  }

  lemma ThenSame(a: seq<nat>, r: Layout, b: seq<nat>)
    ensures Then(a, r) == Ids(a + b) <==> r == Ids(b)
  {
    if r.Ids? && a + r.at == a + b {
      assert (a + r.at)[|a|..] == r.at && (a + b)[|a|..] == b;
    }
  }

  lemma ContentFound(cx: Context, ws: seq<Word>, i: Instruction)
    requires IsInstruction(cx, i) && !i.content.Extended? && ws != [] && OpCode(ws[0]) == i.op && |Head(i)| <= |ws|
    requires |Head(i)| == 1 + (if cx.tbl(i.op).hasType then 1 else 0) + if cx.tbl(i.op).hasResult then 1 else 0
    ensures |Head(i)| > 0 && Before([], |Head(i)|)
    ensures InstIds(cx, ws) == Then(Range(1, |Head(i)|), OperandIds(cx, ws, |Head(i)|, 0, i.op, []))
  {
    hide OperandIds, Range, Head;
  }

  lemma InstContained(cx: Context, i: Instruction)
    requires IsInstruction(cx, i)
    ensures !NamesTwoScopes(i) ==> SelfContained(cx, SpelledInst(i))
    ensures NamesTwoScopes(i) && NoIdAfterAccess(cx.tbl) ==> !SelfContained(cx, SpelledInst(i))
  {
    hide InstIds, NamesTwoScopes, NoIdAfterAccess, IdPositions, SpelledInst, WordCount, Tagged, IsInstruction;
    var raw := SpelledInst(i);
    InstInRange(cx, i);
    var ws: seq<Word> := WordsOf(raw);
    InstParts(cx, ws, i);
    InstExact(cx, ws, i);
    TaggedPositions(raw, ws);
    if SelfContained(cx, raw) {
      SameTags(raw, ws, InstIds(cx, ws).at);
    }
  }

  /**
   * Decoding finds what was written: the words of instructions decode to those instructions, with exactly the words
   * marked that were written as ids, if and only if no memory access both makes available and makes visible.
   */
  lemma DecodeWrittenIff(cx: Context, insts: seq<Instruction>)
    requires NoIdAfterAccess(cx.tbl) && forall k :: 0 <= k < |insts| ==> IsInstruction(cx, insts[k])
    ensures forall i :: 0 <= i < |Encode(SpelledInsts(insts))| ==> Encode(SpelledInsts(insts))[i] < 0x1_0000_0000
    ensures Decode(cx, Encode(SpelledInsts(insts))) == Insts(SpelledInsts(insts))
            <==> forall k :: 0 <= k < |insts| ==> !NamesTwoScopes(insts[k])
  {
    hide Decode, NamesTwoScopes, NoIdAfterAccess, SelfContained, IsInstruction, SpelledInst;
    var raws := SpelledInsts(insts);
    forall k | 0 <= k < |insts|
      ensures SelfContained(cx, raws[k]) <==> !NamesTwoScopes(insts[k])
      ensures InRange(raws[k])
    {
      InstContained(cx, insts[k]);
      InstInRange(cx, insts[k]);
    }
    EncodedInRange(raws);
    if forall k :: 0 <= k < |insts| ==> !NamesTwoScopes(insts[k]) {
      DecodeEncode(cx, raws);
    }
    if Decode(cx, Encode(raws)) == Insts(raws) {
      forall k | 0 <= k < |insts|
        ensures !NamesTwoScopes(insts[k])
      {
        DecodedAreContained(cx, Encode(raws), k);
      }
    }
  }

  lemma {:induction false} EncodedInRange(raws: seq<Raw>)
    requires forall k :: 0 <= k < |raws| ==> InRange(raws[k])
    ensures forall i :: 0 <= i < |Encode(raws)| ==> Encode(raws)[i] < 0x1_0000_0000
    decreases |raws|
  {
    if raws != [] {
      EncodedInRange(raws[1..]);
      assert InRange(raws[0]);
    }
  }

  /** OpCopyMemory from %12 to %11 that makes available to the scope %13 and visible from the scope %14. */
  const COPY_MEMORY: Instruction :=
    Instruction(63, NoWord, NoWord,
                Operands([Reference(11), Reference(12), Access(0x18, NoWord, OneWord(13), OneWord(14))]))

  lemma CopyMemoryLosesScope(cx: Context)
    requires cx.tbl(63) == Desc(false, false, [IdOperand, IdOperand, MemoryAccess]) && NoIdAfterAccess(cx.tbl)
    ensures IsInstruction(cx, COPY_MEMORY) && SpelledInst(COPY_MEMORY)[5] == IdRef(14)
    ensures !SelfContained(cx, SpelledInst(COPY_MEMORY))
  {
    hide SelfContained, NoIdAfterAccess;
    CopyMemoryFits(cx);
    InstContained(cx, COPY_MEMORY);
    assert TwoScopes(COPY_MEMORY.content.operands[2]);
  }

  lemma CopyMemoryFits(cx: Context)
    requires cx.tbl(63) == Desc(false, false, [IdOperand, IdOperand, MemoryAccess])
    ensures IsInstruction(cx, COPY_MEMORY) && SpelledInst(COPY_MEMORY)[5] == IdRef(14)
  {
    var os := COPY_MEMORY.content.operands;
    assert os[1..] == [os[1], os[2]] && os[2..] == [os[2]] && os[1..][1..] == os[2..] && os[2..][1..] == [];
    assert Spelled(os[2]) == [Literal(0x18), IdRef(13), IdRef(14)];
    assert SpelledAll(os[2..]) == [Literal(0x18), IdRef(13), IdRef(14)];
    assert SpelledAll(os[1..]) == [IdRef(12), Literal(0x18), IdRef(13), IdRef(14)];
    assert SpelledAll(os) == [IdRef(11), IdRef(12), Literal(0x18), IdRef(13), IdRef(14)];
    var tail := Tail(COPY_MEMORY);
    assert tail == [IdRef(11), IdRef(12), Literal(0x18), IdRef(13), IdRef(14)];
    assert Fits(cx, 63, [], 3, [11, 12]);
    assert Fits(cx, 63, os[2..], 2, [11, 12]);
    assert [11] + [12] == [11, 12] && [] + [11] == [11];
    assert Fits(cx, 63, os[1..], 1, [11]);
    assert Fits(cx, 63, os, 0, []);
  }

  // ---------- renaming what was written ----------

  function NewWord(f: map<Word, Word>, x: Word): Word {
    if x in f then f[x] else x
  }

  function NewWords(f: map<Word, Word>, xs: seq<Word>): (r: seq<Word>)
    ensures |r| == |xs|
  {
    seq(|xs|, i requires 0 <= i < |xs| => NewWord(f, xs[i]))
  }

  function NewMaybe(f: map<Word, Word>, m: MaybeWord): MaybeWord {
    if m.OneWord? then OneWord(NewWord(f, m.word)) else NoWord
  }

  function NewCases(f: map<Word, Word>, cases: seq<Case>): seq<Case> {
    if cases == [] then []
    else [Case(cases[0].literal, NewWord(f, cases[0].target))] + NewCases(f, cases[1..])
  }

  /** The operand with its ids replaced; masks, alignments, strings and literals stay. */
  function NewOperand(f: map<Word, Word>, o: Written): Written {
    match o
    case Reference(x) => Reference(NewWord(f, x))
    case Access(mask, alignment, available, visible) =>
      Access(mask, alignment, NewMaybe(f, available), NewMaybe(f, visible))
    case Tensor(mask, view, decode) => Tensor(mask, NewMaybe(f, view), NewMaybe(f, decode))
    case References(ids) => References(NewWords(f, ids))
    case Cases(cases) => Cases(NewCases(f, cases))
    case _ => o
  }

  function NewOperands(f: map<Word, Word>, os: seq<Written>): seq<Written> {
    if os == [] then [] else [NewOperand(f, os[0])] + NewOperands(f, os[1..])
  }

  function NewContent(f: map<Word, Word>, c: Content): Content {
    match c
    case Operands(os) => Operands(NewOperands(f, os))
    case Embedded(opcode, os) => Embedded(opcode, NewOperands(f, os))
    case Extended(instructions, number, arguments) =>
      Extended(NewWord(f, instructions), number, NewWords(f, arguments))
  }

  function NewInst(f: map<Word, Word>, i: Instruction): Instruction {
    Instruction(i.op, NewMaybe(f, i.typeId), NewMaybe(f, i.result), NewContent(f, i.content))
  }

  function NewInsts(f: map<Word, Word>, insts: seq<Instruction>): (r: seq<Instruction>)
    ensures |r| == |insts| && forall k :: 0 <= k < |r| ==> r[k] == NewInst(f, insts[k])
  {
    seq(|insts|, k requires 0 <= k < |insts| => NewInst(f, insts[k]))
  }

  lemma RenameAppend(f: map<Word, Word>, a: Raw, b: Raw)
    ensures RenameRaw(f, a + b) == RenameRaw(f, a) + RenameRaw(f, b)
  {
  }

  lemma RenamePieces(f: map<Word, Word>, x: Word, m: MaybeWord, xs: seq<Word>)
    ensures RenameRaw(f, [IdRef(x)]) == [IdRef(NewWord(f, x))] && RenameRaw(f, [Literal(x)]) == [Literal(x)]
    ensures RenameRaw(f, MaybeRef(m)) == MaybeRef(NewMaybe(f, m)) && RenameRaw(f, MaybeLiteral(m)) == MaybeLiteral(m)
    ensures RenameRaw(f, Refs(xs)) == Refs(NewWords(f, xs)) && RenameRaw(f, Literals(xs)) == Literals(xs)
  {
  }

  lemma {:induction false} RenameCases(f: map<Word, Word>, cases: seq<Case>)
    ensures RenameRaw(f, CaseWords(cases)) == CaseWords(NewCases(f, cases))
  {
    if cases != [] {
      hide RenameRaw, Literals;
      RenameCases(f, cases[1..]);
      var c := cases[0];
      RenamePieces(f, c.target, NoWord, c.literal);
      RenameAppend(f, Literals(c.literal) + [IdRef(c.target)], CaseWords(cases[1..]));
      RenameAppend(f, Literals(c.literal), [IdRef(c.target)]);
      var renamed := NewCases(f, cases);
      assert renamed[0] == Case(c.literal, NewWord(f, c.target)) && renamed[1..] == NewCases(f, cases[1..]);
    }
  }

  lemma RenameMask(f: map<Word, Word>, mask: Word, alignment: MaybeWord, a: MaybeWord, b: MaybeWord)
    ensures RenameRaw(f, [Literal(mask)] + MaybeLiteral(alignment) + MaybeRef(a) + MaybeRef(b))
         == [Literal(mask)] + MaybeLiteral(alignment) + MaybeRef(NewMaybe(f, a)) + MaybeRef(NewMaybe(f, b))
  {
    hide *;
    RenamePieces(f, mask, alignment, []);
    RenamePieces(f, mask, a, []);
    RenamePieces(f, mask, b, []);
    RenameAppend(f, [Literal(mask)] + MaybeLiteral(alignment) + MaybeRef(a), MaybeRef(b));
    RenameAppend(f, [Literal(mask)] + MaybeLiteral(alignment), MaybeRef(a));
    RenameAppend(f, [Literal(mask)], MaybeLiteral(alignment));
  }

  lemma RenameSpelled(f: map<Word, Word>, o: Written)
    ensures RenameRaw(f, Spelled(o)) == Spelled(NewOperand(f, o))
  {
    hide RenameRaw, Literals, Refs, MaybeRef, CaseWords, NewMaybe, NewWords, NewCases, Packed;
    match o
    case Reference(x) => RenamePieces(f, x, NoWord, []);
    case Number(w) => RenamePieces(f, w, NoWord, []);
    case Text(chars) => RenamePieces(f, 0, NoWord, Packed(chars));
    case Access(mask, alignment, available, visible) => RenameMask(f, mask, alignment, available, visible);
    case Tensor(mask, view, decode) =>
      RenameMask(f, mask, NoWord, view, decode);
      assert [Literal(mask)] + MaybeLiteral(NoWord) == [Literal(mask)];
    case References(ids) => RenamePieces(f, 0, NoWord, ids);
    case Numbers(ws) => RenamePieces(f, 0, NoWord, ws);
    case Cases(cases) => RenameCases(f, cases);
  }

  lemma {:induction false} RenameSpelledAll(f: map<Word, Word>, os: seq<Written>)
    ensures RenameRaw(f, SpelledAll(os)) == SpelledAll(NewOperands(f, os))
  {
    if os != [] {
      hide RenameRaw, Spelled;
      RenameSpelledAll(f, os[1..]);
      RenameSpelled(f, os[0]);
      RenameAppend(f, Spelled(os[0]), SpelledAll(os[1..]));
      var renamed := NewOperands(f, os);
      assert renamed[0] == NewOperand(f, os[0]) && renamed[1..] == NewOperands(f, os[1..]);
    }
  }

  lemma RenameContent(f: map<Word, Word>, c: Content)
    ensures RenameRaw(f, SpelledContent(c)) == SpelledContent(NewContent(f, c))
  {
    hide RenameRaw, SpelledAll, Refs, NewOperands, NewWords;
    match c
    case Operands(os) => RenameSpelledAll(f, os);
    case Embedded(opcode, os) =>
      RenameSpelledAll(f, os);
      RenameLiteral(f, opcode);
      RenameAppend(f, [Literal(opcode)], SpelledAll(os));
    case Extended(instructions, number, arguments) =>
      RenamePieces(f, instructions, NoWord, arguments);
      RenamePieces(f, number, NoWord, arguments);
      RenameAppend(f, [IdRef(instructions), Literal(number)], Refs(arguments));
      RenameAppend(f, [IdRef(instructions)], [Literal(number)]);
      assert [IdRef(instructions)] + [Literal(number)] == [IdRef(instructions), Literal(number)];
  }

  lemma RenameLiteral(f: map<Word, Word>, w: nat)
    ensures RenameRaw(f, [Literal(w)]) == [Literal(w)]
  {
  }

  lemma RenameInst(f: map<Word, Word>, i: Instruction)
    ensures RenameRaw(f, SpelledInst(i)) == SpelledInst(NewInst(f, i))
  {
    hide RenameRaw, SpelledContent, MaybeRef, NewMaybe, NewContent;
    RenameContent(f, i.content);
    RenamePieces(f, 0, i.typeId, []);
    RenamePieces(f, 0, i.result, []);
    RenameAppend(f, MaybeRef(i.typeId) + MaybeRef(i.result), SpelledContent(i.content));
    RenameAppend(f, MaybeRef(i.typeId), MaybeRef(i.result));
    var first := (1 + |Tail(i)|) * 0x1_0000 + i.op;
    RenameLiteral(f, first);
    RenameAppend(f, [Literal(first)], Tail(i));
  }

  /** Replacing the ids in the words of a module is replacing them in its instructions, and nothing else. */
  lemma WrittenRenamed(cx: Context, f: map<Word, Word>, insts: seq<Instruction>)
    requires forall k :: 0 <= k < |insts| ==> IsInstruction(cx, insts[k]) && !NamesTwoScopes(insts[k])
    ensures forall i :: 0 <= i < |Encode(SpelledInsts(insts))| ==> Encode(SpelledInsts(insts))[i] < 0x1_0000_0000
    ensures Decode(cx, Encode(SpelledInsts(insts))).Insts?
    ensures RenamedWords(cx, f, Encode(SpelledInsts(insts))) == Encode(SpelledInsts(NewInsts(f, insts)))
  {
    hide Decode, NamesTwoScopes, SelfContained, IsInstruction, SpelledInst, NewInst, RenamedWords, RenameRaw, Encode;
    var raws := SpelledInsts(insts);
    forall k | 0 <= k < |insts|
      ensures SelfContained(cx, raws[k]) && RenameRaw(f, raws[k]) == SpelledInst(NewInst(f, insts[k]))
    {
      InstContained(cx, insts[k]);
      RenameInst(f, insts[k]);
    }
    DecodeEncode(cx, raws);
    RenamedIsEncoded(cx, f, Encode(raws));
    assert RenameAll(f, raws) == SpelledInsts(NewInsts(f, insts));
  }
}
