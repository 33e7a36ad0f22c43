/** The text that debug stripping compares with the white list. */
module DebugText {
  import opened StringLiterals
  import opened Spirv

  function AsWord(n: nat): Word {
    n % 0x1_0000_0000
  }

  /** The words of an instruction: word count and op code, type and result if there are any, operands. */
  function WordsOfInst(inst: Inst): (ws: seq<Word>)
    ensures |ws| == 1 + |IdWords(inst)| + |inst.operands|
    ensures forall k :: 0 <= k < |inst.operands| ==> ws[1 + |IdWords(inst)| + k] == AsWord(inst.operands[k].Word())
  {
    var ids, count := IdWords(inst), |inst.operands|;
    [AsWord(0x1_0000 * (1 + |ids| + count) + inst.op)] + ids
    + seq(count, k requires 0 <= k < count => AsWord(inst.operands[k].Word()))
  }

  function IdWords(inst: Inst): seq<Word> {
    (if inst.typeId == 0 then [] else [AsWord(inst.typeId)])
    + (if inst.resultId == 0 then [] else [AsWord(inst.resultId)])
  }

  /** The words from instruction `i` on. */
  function WordsFrom(p: seq<Inst>, i: nat): seq<Word>
    requires i <= |p|
    decreases |p| - i
  {
    if i == |p| then [] else WordsOfInst(p[i]) + WordsFrom(p, i + 1)
  }

  /** The text looked at for an instruction: the string at its second operand word, whatever that word is. */
  function TextOf(p: seq<Inst>, i: nat): MaybeString
    requires i < |p|
  {
    StringAt(WordsFrom(p, i), 2)
  }

  predicate PartAt(text: seq<Byte>, part: seq<Byte>, k: nat) {
    k + |part| <= |text| && text[k..k + |part|] == part
  }

  predicate Contains(text: seq<Byte>, part: seq<Byte>) {
    exists k | 0 <= k <= |text| :: PartAt(text, part, k)
  }

  /** The part stands somewhere in the text. */
  ghost predicate Within(part: seq<Byte>, text: seq<Byte>) {
    exists before, after :: text == before + part + after
  }

  lemma ContainsIff(text: seq<Byte>, part: seq<Byte>)
    ensures Contains(text, part) <==> Within(part, text)
  {
    if k: nat :| k <= |text| && PartAt(text, part, k) {
      assert text == text[..k] + part + text[k + |part|..];
    }
    if before, after :| text == before + part + after {
      assert PartAt(text, part, |before|);
    }
  }

  /** The text contains a white-listed string. */
  predicate Listed(whiteList: seq<seq<Byte>>, text: seq<Byte>) {
    exists k | 0 <= k < |whiteList| :: Contains(text, whiteList[k])
  }

  predicate IsWhiteListed(p: seq<Inst>, whiteList: seq<seq<Byte>>, i: nat)
    requires i < |p|
  {
    TextOf(p, i).SomeString? && Listed(whiteList, TextOf(p, i).chars)
  }

  /** Looks for a white-listed string in the text of an instruction. */
  method FindListed(p: seq<Inst>, whiteList: seq<seq<Byte>>, i: nat) returns (listed: bool)
    requires i < |p|
    ensures listed == IsWhiteListed(p, whiteList, i)
  {
    var ws := WordsFrom(p, i);
    if StringAt(ws, 2) == NoString {
      return false;
    }
    var name := LiteralString(ws, 2);
    listed := false;
    for it := 0 to |whiteList|
      invariant listed == exists k | 0 <= k < it :: Contains(name, whiteList[k])
    {
      if Contains(name, whiteList[it]) {
        listed := true;
      }
    }
  }

  /** The operands of a name: the id named, then the words of the string. */
  predicate Names(inst: Inst, name: seq<Byte>) {
    && inst.op == OP_NAME && inst.typeId == 0 == inst.resultId
    && |inst.operands| == 1 + StringWords(name)
    && forall k :: 0 <= k < StringWords(name) ==> inst.operands[1 + k] == Literal(Packed(name)[k])
  }

  /** The operands of a member name: the type, the member's number, then the words of the string. */
  predicate NamesMember(inst: Inst, member: Word, name: seq<Byte>) {
    && inst.op == OP_MEMBER_NAME && inst.typeId == 0 == inst.resultId
    && |inst.operands| == 2 + StringWords(name) && inst.operands[1] == Literal(member)
    && forall k :: 0 <= k < StringWords(name) ==> inst.operands[2 + k] == Literal(Packed(name)[k])
  }

  /** The name of an id is white-listed exactly if a string of the white list stands in it. */
  lemma NameListedIff(p: seq<Inst>, whiteList: seq<seq<Byte>>, i: nat, name: seq<Byte>)
    requires i < |p| && 0 !in name && Names(p[i], name)
    ensures IsWhiteListed(p, whiteList, i) <==> exists k :: 0 <= k < |whiteList| && Within(whiteList[k], name)
  {
    hide *;
    TextOfName(p, i, name);
    ListedText(p, whiteList, i);
    ListedIff(whiteList, name);
  }

  lemma ListedIff(whiteList: seq<seq<Byte>>, text: seq<Byte>)
    ensures Listed(whiteList, text) <==> exists k :: 0 <= k < |whiteList| && Within(whiteList[k], text)
  {
    hide Contains, Within;
    forall k | 0 <= k < |whiteList|
      ensures Contains(text, whiteList[k]) <==> Within(whiteList[k], text)
    {
      ContainsIff(text, whiteList[k]);
    }
  }

  lemma TextOfName(p: seq<Inst>, i: nat, name: seq<Byte>)
    requires i < |p| && 0 !in name && Names(p[i], name)
    ensures TextOf(p, i) == SomeString(name)
  {
    hide Packed, WordsOfInst;
    var ws := WordsOfInst(p[i]);
    NameWords(p[i], name);
    StringRoundTrip(ws[..2], name, WordsFrom(p, i + 1));
    assert ws[..2] + Packed(name) + WordsFrom(p, i + 1) == WordsFrom(p, i);
  }

  lemma NameWords(inst: Inst, name: seq<Byte>)
    requires Names(inst, name)
    ensures var ws := WordsOfInst(inst); |ws| >= 2 && ws == ws[..2] + Packed(name)
  {
    hide Packed;
    NoIdWords(inst);
  }

  lemma NoIdWords(inst: Inst)
    requires inst.typeId == 0 == inst.resultId
    ensures IdWords(inst) == []
  {
  }

  /**
   * The name of a member is not what is looked at: the member's number is read as text. Only behind a number of four
   * bytes that are not zero does the name follow.
   */
  lemma MemberNameKeptIff(p: seq<Inst>, whiteList: seq<seq<Byte>>, i: nat, member: Word, name: seq<Byte>)
    requires i < |p| && 0 !in name && NamesMember(p[i], member, name)
    ensures IsWhiteListed(p, whiteList, i) <==> Listed(whiteList, MemberText(member, name))
  {
    hide *;
    TextOfMember(p, i, member, name);
    assert TextOf(p, i) == SomeString(MemberText(member, name));
    ListedText(p, whiteList, i);
  }

  lemma ListedText(p: seq<Inst>, whiteList: seq<seq<Byte>>, i: nat)
    requires i < |p| && TextOf(p, i).SomeString?
    ensures IsWhiteListed(p, whiteList, i) <==> Listed(whiteList, TextOf(p, i).chars)
  {
  }

  lemma TextOfMember(p: seq<Inst>, i: nat, member: Word, name: seq<Byte>)
    requires i < |p| && 0 !in name && NamesMember(p[i], member, name)
    ensures TextOf(p, i) == SomeString(MemberText(member, name))
  {
    hide Packed, BytesOf, WordsOfInst, UpToNul;
    var ws := WordsOfInst(p[i]);
    MemberWords(p[i], member, name);
    StringRoundTrip(ws[..3], name, WordsFrom(p, i + 1));
    var all := ws[..3] + Packed(name) + WordsFrom(p, i + 1);
    assert all == WordsFrom(p, i) && |ws[..3]| == 3 && all[2] == member;
    if 0 !in BytesOf(member) {
      NulIsFirst(BytesOf(member), 0);
      assert BytesOf(member) + Zeros(0) == BytesOf(member);
    } else {
      NulEnds(BytesOf(member));
    }
  }

  lemma MemberWords(inst: Inst, member: Word, name: seq<Byte>)
    requires NamesMember(inst, member, name)
    ensures var ws := WordsOfInst(inst); |ws| >= 3 && ws[2] == member && ws == ws[..3] + Packed(name)
  {
    hide Packed;
    NoIdWords(inst);
  }

  lemma {:induction false} NulEnds(c: seq<Byte>)
    requires 0 in c
    ensures |UpToNul(c)| < |c|
  {
    if c[0] != 0 {
      NulEnds(c[1..]);
    }
  }

  function MemberText(member: Word, name: seq<Byte>): seq<Byte> {
    UpToNul(BytesOf(member)) + if 0 in BytesOf(member) then [] else name
  }

  /** The name of the first member, "a", is lost although the white list has it. */
  lemma ListedMemberNameIsLost()
    ensures var name := [97]; var inst := FirstMember(name);
            NamesMember(inst, 0, name) && Listed([name], name) && !IsWhiteListed([inst], [name], 0)
  {
    var name: seq<Byte> := [97];
    assert PartAt(name, name, 0);
    assert Contains([name][0], name);
    MemberNameKeptIff([FirstMember(name)], [name], 0, 0, name);
    FirstMemberText(name);
  }

  lemma FirstMemberText(name: seq<Byte>)
    ensures MemberText(0, name) == []
  {
    assert BytesOf(0)[0] == 0;
  }

  function FirstMember(name: seq<Byte>): Inst
    requires |name| < 4
  {
    Inst(OP_MEMBER_NAME, 0, 0, [IdRef(1), Literal(0), Literal(Packed(name)[0])])
  }
}
