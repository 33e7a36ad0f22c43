/** Removing marked word ranges in place. */
module Strip {
  import opened StringLiterals
  import opened Spirv
  import opened Binary
  import opened RemapBinary

  /** A range of words, without its end. */
  type WordRange = (nat, nat)

  ghost predicate Covered(ranges: seq<WordRange>, w: nat) {
    exists k :: 0 <= k < |ranges| && ranges[k].0 <= w < ranges[k].1
  }

  /** The words among the first `n` that no range covers. */
  ghost function KeptUpTo(ws: seq<Word>, ranges: seq<WordRange>, n: nat): (r: seq<Word>)
    requires n <= |ws|
    ensures |r| <= n
  {
    if n == 0 then []
    else KeptUpTo(ws, ranges, n - 1) + if Covered(ranges, n - 1) then [] else [ws[n - 1]]
  }

  predicate LexLe(a: WordRange, b: WordRange) {
    a.0 < b.0 || (a.0 == b.0 && a.1 <= b.1)
  }

  ghost predicate Sorted(rs: seq<WordRange>) {
    forall i, j :: 0 <= i < j < |rs| ==> LexLe(rs[i], rs[j])
  }

  method SortRanges(ranges: seq<WordRange>) returns (sorted: seq<WordRange>)
    ensures Sorted(sorted) && multiset(sorted) == multiset(ranges)
  {
    sorted := [];
    for i := 0 to |ranges|
      invariant Sorted(sorted) && multiset(sorted) == multiset(ranges[..i])
    {
      var r := ranges[i];
      var k := 0;
      while k < |sorted| && LexLe(sorted[k], r)
        invariant 0 <= k <= |sorted| && forall j :: 0 <= j < k ==> LexLe(sorted[j], r)
      {
        k := k + 1;
      }
      assert sorted == sorted[..k] + sorted[k..];
      assert ranges[..i + 1] == ranges[..i] + [r];
      sorted := sorted[..k] + [r] + sorted[k..];
    }
    assert ranges[..|ranges|] == ranges;
  }

  /** The order of the ranges does not matter. */
  lemma CoveredSame(a: seq<WordRange>, b: seq<WordRange>, w: nat)
    requires multiset(a) == multiset(b) && Covered(a, w)
    ensures Covered(b, w)
  {
    var k :| 0 <= k < |a| && a[k].0 <= w < a[k].1;
    assert a[k] in multiset(a);
    assert a[k] in b;
  }

  /**
   * In sorted ranges, overlapping or nested, the first one that does not end before a word decides whether any
   * covers it.
   */
  lemma FirstDecides(rs: seq<WordRange>, it: nat, w: nat)
    requires Sorted(rs) && it <= |rs| && forall j :: 0 <= j < it ==> rs[j].1 <= w
    requires it < |rs| ==> w < rs[it].1
    ensures Covered(rs, w) <==> it < |rs| && rs[it].0 <= w
  {
    if Covered(rs, w) {
      var k :| 0 <= k < |rs| && rs[k].0 <= w < rs[k].1;
      assert k >= it;
      assert k == it || LexLe(rs[it], rs[k]);
    }
  }

  class Stripper {
    var spv: seq<Word>
    var stripRange: seq<WordRange>

    constructor (spv: seq<Word>, stripRange: seq<WordRange>)
      ensures this.spv == spv && this.stripRange == stripRange
    {
      this.spv, this.stripRange := spv, stripRange;
    }

    method Strip()
      modifies this
      ensures spv == KeptUpTo(old(spv), old(stripRange), |old(spv)|)
      ensures stripRange == []
    {
      ghost var was, ranges := spv, stripRange;
      stripRange := SortRanges(stripRange);
      ghost var sorted := stripRange;
      var it := 0;
      var strippedPos := 0;
      for word := 0 to |spv|
        invariant |spv| == |was| && strippedPos <= word && it <= |stripRange| && stripRange == sorted
        invariant forall j :: 0 <= j < it ==> stripRange[j].1 <= word
        invariant spv[word..] == was[word..]
        invariant spv[..strippedPos] == KeptUpTo(was, ranges, word)
      {
        while it < |stripRange| && word >= stripRange[it].1
          invariant it <= |stripRange| && forall j :: 0 <= j < it ==> stripRange[j].1 <= word
        {
          it := it + 1;
        }
        FirstDecides(stripRange, it, word);
        assert Covered(ranges, word) <==> Covered(stripRange, word) by {
          if Covered(ranges, word) {
            CoveredSame(ranges, stripRange, word);
          } else if Covered(stripRange, word) {
            CoveredSame(stripRange, ranges, word);
          }
        }
        KeepWord(spv, was, ranges, word, strippedPos);
        if it == |stripRange| || word < stripRange[it].0 || word >= stripRange[it].1 {
          spv := spv[strippedPos := spv[word]];
          strippedPos := strippedPos + 1;
        }
      }
      spv := spv[..strippedPos];
      stripRange := [];
    }
  }

  lemma KeepWord(spv: seq<Word>, was: seq<Word>, ranges: seq<WordRange>, word: nat, pos: nat)
    requires |spv| == |was| && pos <= word < |was| && spv[word..] == was[word..]
             && spv[..pos] == KeptUpTo(was, ranges, word)
    ensures spv[word] == was[word] && spv[word + 1..] == was[word + 1..]
    ensures if Covered(ranges, word) then spv[..pos] == KeptUpTo(was, ranges, word + 1)
            else
              var r := spv[pos := spv[word]];
              r[..pos + 1] == KeptUpTo(was, ranges, word + 1) && r[word + 1..] == was[word + 1..]
  {
    assert spv[word] == spv[word..][0];
    assert spv[word + 1..] == spv[word..][1..];
    var r := spv[pos := spv[word]];
    assert r[..pos + 1] == spv[..pos] + [spv[word]];
    assert r[word + 1..] == spv[word + 1..];
  }

  // ---------- ranges of whole instructions ----------

  /** The word where instruction `k` starts, after the five words of the header. */
  function Offset(insts: seq<Raw>, k: nat): (w: nat)
    requires k <= |insts|
    ensures w >= 5
  {
    if k == 0 then 5 else Offset(insts, k - 1) + |insts[k - 1]|
  }

  /** Every range begins and ends at an instruction. */
  ghost predicate Aligned(insts: seq<Raw>, ranges: seq<WordRange>) {
    forall i :: 0 <= i < |ranges| ==>
      exists a, b :: 0 <= a <= |insts| && 0 <= b <= |insts| && ranges[i] == (Offset(insts, a), Offset(insts, b))
  }

  /** The instructions among the first `k` that no range covers. */
  ghost function KeptInsts(insts: seq<Raw>, ranges: seq<WordRange>, k: nat): seq<Raw>
    requires k <= |insts|
  {
    if k == 0 then []
    else KeptInsts(insts, ranges, k - 1) + if Covered(ranges, Offset(insts, k - 1)) then [] else [insts[k - 1]]
  }

  lemma {:induction false} OffsetMonotone(insts: seq<Raw>, a: nat, b: nat)
    requires a <= b <= |insts|
    ensures Offset(insts, a) <= Offset(insts, b)
    decreases b - a
  {
    if a < b {
      OffsetMonotone(insts, a, b - 1);
    }
  }

  /** Aligned ranges cover all words of an instruction or none. */
  lemma AllOrNone(insts: seq<Raw>, ranges: seq<WordRange>, k: nat, w: nat)
    requires Aligned(insts, ranges) && k < |insts| && Offset(insts, k) <= w < Offset(insts, k + 1)
    ensures Covered(ranges, w) <==> Covered(ranges, Offset(insts, k))
  {
    forall i | 0 <= i < |ranges|
      ensures ranges[i].0 <= w < ranges[i].1 <==> ranges[i].0 <= Offset(insts, k) < ranges[i].1
    {
      var a, b :| 0 <= a <= |insts| && 0 <= b <= |insts| && ranges[i] == (Offset(insts, a), Offset(insts, b));
      if a <= k { OffsetMonotone(insts, a, k); } else { OffsetMonotone(insts, k + 1, a); }
      if b <= k { OffsetMonotone(insts, b, k); } else { OffsetMonotone(insts, k + 1, b); }
    }
  }

  /** A stretch of words that are all covered or all not. */
  lemma {:induction false} KeptStretch(ws: seq<Word>, ranges: seq<WordRange>, lo: nat, hi: nat)
    requires lo <= hi <= |ws| && forall w :: lo <= w < hi ==> (Covered(ranges, w) <==> Covered(ranges, lo))
    ensures KeptUpTo(ws, ranges, hi)
            == KeptUpTo(ws, ranges, lo) + if lo == hi || Covered(ranges, lo) then [] else ws[lo..hi]
    decreases hi - lo
  {
    if lo < hi {
      KeptStretch(ws, ranges, lo, hi - 1);
      assert lo < hi - 1 ==> ws[lo..hi - 1] + [ws[hi - 1]] == ws[lo..hi];
    }
  }

  lemma {:induction false} EncodeSnoc(insts: seq<Raw>, raw: Raw)
    ensures Encode(insts + [raw]) == Encode(insts) + WordsOf(raw)
    decreases insts
  {
    if insts == [] {
      assert (insts + [raw])[1..] == [];
    } else {
      assert (insts + [raw])[1..] == insts[1..] + [raw];
      EncodeSnoc(insts[1..], raw);
    }
  }

  /** The words of an instruction are those at its offset. */
  lemma {:induction false} EncodeAt(insts: seq<Raw>, k: nat)
    requires k < |insts|
    ensures Offset(insts, k + 1) - 5 <= |Encode(insts)|
    ensures Encode(insts)[Offset(insts, k) - 5..Offset(insts, k + 1) - 5] == WordsOf(insts[k])
    decreases |insts|
  {
    var init := insts[..|insts| - 1];
    var last := insts[|insts| - 1];
    assert insts == init + [last];
    EncodeSnoc(init, last);
    EncodeLength(init);
    OffsetPrefix(insts, init, k);
    if k < |init| {
      EncodeAt(init, k);
      OffsetPrefix(insts, init, k + 1);
      var e := Encode(init);
      assert (e + WordsOf(last))[Offset(insts, k) - 5..Offset(insts, k + 1) - 5]
             == e[Offset(insts, k) - 5..Offset(insts, k + 1) - 5];
    }
  }

  lemma {:induction false} OffsetPrefix(insts: seq<Raw>, init: seq<Raw>, k: nat)
    requires init <= insts && k <= |init|
    ensures Offset(insts, k) == Offset(init, k)
  {
    if k > 0 {
      OffsetPrefix(insts, init, k - 1);
    }
  }

  lemma {:induction false} EncodeLength(insts: seq<Raw>)
    ensures |Encode(insts)| == Offset(insts, |insts|) - 5
    decreases insts
  {
    if insts != [] {
      var init := insts[..|insts| - 1];
      assert insts == init + [insts[|insts| - 1]];
      EncodeSnoc(init, insts[|insts| - 1]);
      EncodeLength(init);
      OffsetPrefix(insts, init, |init|);
    }
  }

  /** One more instruction: it stays or goes as a whole. */
  lemma StripNext(spv: seq<Word>, insts: seq<Raw>, ranges: seq<WordRange>, k: nat)
    requires |spv| >= 5 && spv[5..] == Encode(insts) && Aligned(insts, ranges) && k < |insts|
    requires Offset(insts, k) <= |spv|
    requires KeptUpTo(spv, ranges, Offset(insts, k)) == spv[..5] + Encode(KeptInsts(insts, ranges, k))
    ensures Offset(insts, k + 1) <= |spv|
    ensures KeptUpTo(spv, ranges, Offset(insts, k + 1)) == spv[..5] + Encode(KeptInsts(insts, ranges, k + 1))
  {
    hide Encode, Covered, Aligned, KeptUpTo;
    EncodeAt(insts, k);
    var lo, hi := Offset(insts, k), Offset(insts, k + 1);
    forall w | lo <= w < hi ensures Covered(ranges, w) <==> Covered(ranges, lo) {
      AllOrNone(insts, ranges, k, w);
    }
    Tail(spv, lo, hi);
    KeptStretch(spv, ranges, lo, hi);
    var before, raw := KeptInsts(insts, ranges, k), insts[k];
    assert WordsOf(raw) == spv[lo..hi];
    if Covered(ranges, lo) {
      assert before + [] == before;
    } else {
      EncodeSnoc(before, raw);
      assert spv[..5] + (Encode(before) + WordsOf(raw)) == spv[..5] + Encode(before) + WordsOf(raw);
    }
  }

  /** Stripping whole instructions leaves the header and the words of the other instructions. */
  lemma {:induction false} StripInsts(spv: seq<Word>, insts: seq<Raw>, ranges: seq<WordRange>, k: nat)
    requires |spv| >= 5 && spv[5..] == Encode(insts) && Aligned(insts, ranges) && k <= |insts|
    ensures Offset(insts, k) <= |spv|
    ensures KeptUpTo(spv, ranges, Offset(insts, k)) == spv[..5] + Encode(KeptInsts(insts, ranges, k))
  {
    hide Encode, Covered, Aligned;
    if k == 0 {
      forall w | 0 <= w < 5 ensures !Covered(ranges, w) {
        HeaderUncovered(insts, ranges, w);
      }
      KeptStretch(spv, ranges, 0, 5);
      NothingEncoded();
    } else {
      StripInsts(spv, insts, ranges, k - 1);
      StripNext(spv, insts, ranges, k - 1);
    }
  }

  lemma Tail(spv: seq<Word>, lo: nat, hi: nat)
    requires 5 <= lo <= hi <= |spv|
    ensures spv[lo..hi] == spv[5..][lo - 5..hi - 5]
  {
    var a, b, body := spv[lo..hi], spv[5..][lo - 5..hi - 5], spv[5..];
    assert |a| == |b|;
    forall k: nat | k < |a| ensures a[k] == b[k] {
      assert a[k] == spv[lo + k] && b[k] == body[lo - 5 + k] && body[lo - 5 + k] == spv[5 + (lo - 5 + k)];
    }
  }

  lemma NothingEncoded()
    ensures Encode([]) == []
  {
  }

  lemma HeaderUncovered(insts: seq<Raw>, ranges: seq<WordRange>, w: nat)
    requires Aligned(insts, ranges) && w < 5
    ensures !Covered(ranges, w)
  {
    forall i | 0 <= i < |ranges| ensures ranges[i].0 >= 5 {
      var a, b :| 0 <= a <= |insts| && 0 <= b <= |insts| && ranges[i] == (Offset(insts, a), Offset(insts, b));
      OffsetMonotone(insts, 0, a);
    }
  }

  // ---------- decoding what is left ----------

  /** The instruction decodes on its own. */
  ghost predicate SelfContained(cx: Context, raw: Raw) {
    && raw != [] && (forall i :: 0 <= i < |raw| ==> raw[i].Word() < 0x1_0000_0000)
    && WordCount(WordsOf(raw)[0]) == |raw|
    && InstIds(cx, WordsOf(raw)).Ids? && Tagged(WordsOf(raw), InstIds(cx, WordsOf(raw)).at) == raw
  }

  lemma {:induction false} DecodedAreContained(cx: Context, ws: seq<Word>, k: nat)
    requires Decode(cx, ws).Insts? && k < |Decode(cx, ws).insts|
    ensures SelfContained(cx, Decode(cx, ws).insts[k])
    decreases |ws|
  {
    DecodeParts(cx, ws);
    var n := WordCount(ws[0]);
    if k == 0 {
      assert WordsOf(Tagged(ws[..n], InstIds(cx, ws[..n]).at)) == ws[..n];
    } else {
      DecodedAreContained(cx, ws[n..], k - 1);
    }
  }

  lemma {:induction false} DecodeEncode(cx: Context, insts: seq<Raw>)
    requires forall k :: 0 <= k < |insts| ==> SelfContained(cx, insts[k])
    ensures forall i :: 0 <= i < |Encode(insts)| ==> Encode(insts)[i] < 0x1_0000_0000
    ensures Decode(cx, Encode(insts)) == Insts(insts)
    decreases insts
  {
    if insts != [] {
      DecodeEncode(cx, insts[1..]);
      var ws := Encode(insts);
      var head := WordsOf(insts[0]);
      assert SelfContained(cx, insts[0]);
      assert ws[..|head|] == head && ws[|head|..] == Encode(insts[1..]);
      DecodeIs(cx, ws, |head|);
    }
  }

  lemma {:induction false} KeptAreInsts(insts: seq<Raw>, ranges: seq<WordRange>, k: nat)
    requires k <= |insts|
    ensures forall i :: 0 <= i < |KeptInsts(insts, ranges, k)| ==> KeptInsts(insts, ranges, k)[i] in insts
  {
    if k > 0 {
      KeptAreInsts(insts, ranges, k - 1);
    }
  }

  /** For ranges of whole instructions the result decodes to the instructions that were not stripped, in order. */
  lemma StrippedDecodes(cx: Context, spv: seq<Word>, ranges: seq<WordRange>)
    requires |spv| >= 5 && Decode(cx, spv[5..]).Insts? && Aligned(Decode(cx, spv[5..]).insts, ranges)
    ensures var r := KeptUpTo(spv, ranges, |spv|); var insts := Decode(cx, spv[5..]).insts;
            |r| >= 5 && r[..5] == spv[..5] && Decode(cx, r[5..]) == Insts(KeptInsts(insts, ranges, |insts|))
  {
    hide Decode, Encode, KeptInsts, KeptUpTo, Aligned, Offset, SelfContained;
    var insts := Decode(cx, spv[5..]).insts;
    var kept := KeptInsts(insts, ranges, |insts|);
    EncodeDecode(cx, spv[5..]);
    StripInsts(spv, insts, ranges, |insts|);
    EncodeLength(insts);
    KeptContained(cx, spv[5..], ranges);
    DecodeEncode(cx, kept);
    Header(KeptUpTo(spv, ranges, |spv|), spv[..5], Encode(kept));
  }

  lemma Header(r: seq<Word>, header: seq<Word>, rest: seq<nat>)
    requires |header| == 5 && r == header + rest
    ensures r[..5] == header && r[5..] == rest
  {
  }

  lemma KeptContained(cx: Context, ws: seq<Word>, ranges: seq<WordRange>)
    requires Decode(cx, ws).Insts?
    ensures var insts := Decode(cx, ws).insts; var kept := KeptInsts(insts, ranges, |insts|);
            forall k :: 0 <= k < |kept| ==> SelfContained(cx, kept[k])
  {
    hide Decode, SelfContained, KeptInsts;
    var insts := Decode(cx, ws).insts;
    var kept := KeptInsts(insts, ranges, |insts|);
    KeptAreInsts(insts, ranges, |insts|);
    forall k | 0 <= k < |kept| ensures SelfContained(cx, kept[k]) {
      assert kept[k] in insts;
      var j :| 0 <= j < |insts| && insts[j] == kept[k];
      DecodedAreContained(cx, ws, j);
    }
  }
}
