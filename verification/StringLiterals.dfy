/** String literals in words: packing by the front end and reading by the remapper. */
module StringLiterals {

  type Word = w: nat | w < 0x1_0000_0000
  type Byte = b: nat | b < 256

  datatype MaybeString = NoString | SomeString(chars: seq<Byte>)

  /** Four characters in a word, the first in the low bits. */
  function WordOf(c: seq<Byte>): Word
    requires |c| == 4
  {
    var b0: int, b1: int, b2: int, b3: int := c[0], c[1], c[2], c[3];
    b0 + 0x100 * b1 + 0x1_0000 * b2 + 0x100_0000 * b3
  }

  function BytesOf(w: Word): (c: seq<Byte>)
    ensures |c| == 4
  {
    [w % 0x100, w / 0x100 % 0x100, w / 0x1_0000 % 0x100, w / 0x100_0000]
  }

  lemma BytesOfWord(c: seq<Byte>)
    requires |c| == 4
    ensures BytesOf(WordOf(c)) == c
  {
    var w := WordOf(c);
    var b0: int, b1: int, b2: int, b3: int := c[0], c[1], c[2], c[3];
    assert w / 0x100 == b1 + 0x100 * b2 + 0x1_0000 * b3;
    assert w / 0x1_0000 == b2 + 0x100 * b3;
    assert w / 0x100_0000 == b3;
  }

  function UpToNul(c: seq<Byte>): (r: seq<Byte>)
    ensures |r| <= |c| && r == c[..|r|] && 0 !in r && (|r| < |c| ==> c[|r|] == 0)
  {
    if c == [] || c[0] == 0 then [] else [c[0]] + UpToNul(c[1..])
  }

  /** The string that starts at word `at`: the characters before the first zero. */
  function StringAt(ws: seq<Word>, at: nat): MaybeString
    decreases |ws| - at
  {
    if at >= |ws| then NoString
    else
      var s := UpToNul(BytesOf(ws[at]));
      if |s| < 4 then SomeString(s)
      else
        match StringAt(ws, at + 1)
        case NoString => NoString
        case SomeString(rest) => SomeString(s + rest)
  }

  function StringWords(s: seq<Byte>): nat {
    (|s| + 4) / 4
  }

  function Zeros(n: nat): (r: seq<Byte>)
    ensures |r| == n && forall i :: 0 <= i < n ==> r[i] == 0
  {
    seq(n, _ => 0)
  }

  /** The words for a string: its characters, a zero, and zeros up to a whole word. */
  function Packed(s: seq<Byte>): (r: seq<Word>)
    ensures |r| == StringWords(s)
  {
    if |s| < 4 then [WordOf(s + Zeros(4 - |s|))] else [WordOf(s[..4])] + Packed(s[4..])
  }

  /** The string read occupies the words that its length says. */
  lemma {:induction false} StringFits(ws: seq<Word>, at: nat)
    requires StringAt(ws, at).SomeString?
    ensures 0 !in StringAt(ws, at).chars
    ensures at + StringWords(StringAt(ws, at).chars) <= |ws|
    decreases |ws| - at
  {
    if |UpToNul(BytesOf(ws[at]))| == 4 {
      StringFits(ws, at + 1);
    }
  }

  /** Only the words of the string matter, and not where they are. */
  lemma {:induction false} StringShifted(ws: seq<Word>, vs: seq<Word>, at: nat, to: nat)
    requires StringAt(ws, at).SomeString?
    requires var n := StringWords(StringAt(ws, at).chars);
             at + n <= |ws| && to + n <= |vs| && ws[at..at + n] == vs[to..to + n]
    ensures StringAt(vs, to) == StringAt(ws, at)
    decreases |ws| - at
  {
    var n := StringWords(StringAt(ws, at).chars);
    assert ws[at..at + n][0] == vs[to..to + n][0];
    if |UpToNul(BytesOf(ws[at]))| == 4 {
      NextWords(ws, at);
      assert ws[at + 1..at + n] == ws[at..at + n][1..] == vs[to..to + n][1..] == vs[to + 1..to + n];
      StringShifted(ws, vs, at + 1, to + 1);
    }
  }

  /** A full word is one of the words of the string. */
  lemma NextWords(ws: seq<Word>, at: nat)
    requires StringAt(ws, at).SomeString? && at < |ws| && |UpToNul(BytesOf(ws[at]))| == 4
    ensures StringAt(ws, at + 1).SomeString?
    ensures StringWords(StringAt(ws, at).chars) == 1 + StringWords(StringAt(ws, at + 1).chars)
  {
    assert StringAt(ws, at).chars == UpToNul(BytesOf(ws[at])) + StringAt(ws, at + 1).chars;
  }

  /** A packed string reads back as it was, whatever comes before and after it. */
  lemma {:induction false} StringRoundTrip(before: seq<Word>, s: seq<Byte>, after: seq<Word>)
    requires 0 !in s
    ensures StringAt(before + Packed(s) + after, |before|) == SomeString(s)
    decreases |s|
  {
    var ws := before + Packed(s) + after;
    if |s| < 4 {
      BytesOfWord(s + Zeros(4 - |s|));
      NulIsFirst(s, 4 - |s|);
    } else {
      BytesOfWord(s[..4]);
      NulIsFirst(s[..4], 0);
      assert s[..4] + Zeros(0) == s[..4];
      assert before + Packed(s) + after == before + [WordOf(s[..4])] + Packed(s[4..]) + after;
      StringRoundTrip(before + [WordOf(s[..4])], s[4..], after);
      assert s == s[..4] + s[4..];
    }
  }

  lemma {:induction false} NulIsFirst(s: seq<Byte>, n: nat)
    requires 0 !in s
    ensures UpToNul(s + Zeros(n)) == s
  {
    if s != [] {
      assert (s + Zeros(n))[1..] == s[1..] + Zeros(n);
      NulIsFirst(s[1..], n);
    }
  }

  function AllBytes(ws: seq<Word>): seq<Byte> {
    if ws == [] then [] else BytesOf(ws[0]) + AllBytes(ws[1..])
  }

  /** The packed words are the string and zeros, at least one and at most four of them. */
  lemma {:induction false} PaddingIsZero(s: seq<Byte>)
    ensures exists n :: 1 <= n <= 4 && AllBytes(Packed(s)) == s + Zeros(n)
    decreases |s|
  {
    var p := Packed(s);
    if |s| < 4 {
      BytesOfWord(s + Zeros(4 - |s|));
      assert p[1..] == [];
      assert AllBytes(p) == s + Zeros(4 - |s|);
    } else {
      BytesOfWord(s[..4]);
      PaddingIsZero(s[4..]);
      var n :| 1 <= n <= 4 && AllBytes(Packed(s[4..])) == s[4..] + Zeros(n);
      assert p[1..] == Packed(s[4..]);
      assert s == s[..4] + s[4..];
      assert AllBytes(p) == s + Zeros(n);
    }
  }

  /** The packing loop: characters go to a buffer of four, including the final zero. */
  method PackString(s: seq<Byte>) returns (literals: seq<Word>)
    requires 0 !in s
    ensures literals == Packed(s)
  {
    hide Packed, WordOf, Buffered;
    literals := [];
    var literal: seq<Byte> := [0, 0, 0, 0];
    var charCount := 0;
    var i := 0;
    var ch: Byte := 1;
    ghost var t := s;
    NothingBuffered(s);
    while ch != 0
      invariant i <= |s| + 1 && (ch != 0 ==> i <= |s|) && charCount < 4 == |literal|
      invariant Buffered(s, t, literal, charCount, i, ch, literals)
      decreases if ch != 0 then |s| - i + 1 else 0
    {
      NextChar(s, t, literal, charCount, i, ch, literals);
      ch := if i < |s| then s[i] else 0;
      i := i + 1;
      literal, charCount := literal[charCount := ch], charCount + 1;
      if charCount == 4 {
        literals := literals + [WordOf(literal)];
        t := if ch != 0 then t[4..] else [];
        charCount := 0;
      }
    }
    AllBuffered(s, t, literal, charCount, i, literals);
    if charCount > 0 {
      var padded := Pad(literal, charCount, t);
      ShortWord(t);
      literals := literals + [WordOf(padded)];
    }
  }

  /** The words so far are those of `s` without its tail `t`, of which `n` characters are in the buffer. */
  ghost predicate Buffered(s: seq<Byte>, t: seq<Byte>, literal: seq<Byte>, n: nat, i: nat, ch: Byte,
                           literals: seq<Word>) {
    && n < 4 == |literal| && 0 !in t
    && (ch != 0 ==> n <= i <= |s| && n <= |t| && t == s[i - n..])
    && (ch == 0 && n > 0 ==> n == |t| + 1)
    && n <= |t| + 1 && literal[..n] == (t + [0])[..n]
    && Packed(s) == literals + if ch == 0 && n == 0 then [] else Packed(t)
  }

  lemma NothingBuffered(s: seq<Byte>)
    requires 0 !in s
    ensures Buffered(s, s, [0, 0, 0, 0], 0, 0, 1, [])
  {
    assert s[0..] == s;
  }

  lemma AllBuffered(s: seq<Byte>, t: seq<Byte>, literal: seq<Byte>, n: nat, i: nat, literals: seq<Word>)
    requires Buffered(s, t, literal, n, i, 0, literals)
    ensures |literal| == 4 && Packed(s) == literals + if n == 0 then [] else Packed(t)
    ensures n > 0 ==> |t| < n < 4 && literal[..n] == t + Zeros(n - |t|)
  {
    if n > 0 {
      assert literal[..n] == t + [0] == t + Zeros(1);
    }
  }

  lemma NextChar(s: seq<Byte>, t: seq<Byte>, literal: seq<Byte>, n: nat, i: nat, was: Byte, literals: seq<Word>)
    requires was != 0 && Buffered(s, t, literal, n, i, was, literals)
    ensures var ch := if i < |s| then s[i] else 0; var l := literal[n := ch];
            if n < 3 then Buffered(s, t, l, n + 1, i + 1, ch, literals)
            else (ch != 0 ==> |t| >= 4)
                 && Buffered(s, if ch != 0 then t[4..] else [], l, 0, i + 1, ch, literals + [WordOf(l)])
  {
    hide Packed, WordOf;
    var ch := if i < |s| then s[i] else 0;
    TailStep(s, t, n, i);
    PrefixStep(literal, t + [0], n);
    if n == 3 {
      var l := literal[n := ch];
      LastWord(t, l);
      var rest := if ch != 0 then Packed(t[4..]) else [];
      assert Packed(s) == literals + ([WordOf(l)] + rest) == literals + [WordOf(l)] + rest;
      assert l[..0] == [];
    }
  }

  lemma TailStep(s: seq<Byte>, t: seq<Byte>, n: nat, i: nat)
    requires 0 !in t && n <= i <= |s| && n <= |t| && t == s[i - n..]
    ensures n < |t| <==> i < |s|
    ensures (t + [0])[n] == if i < |s| then s[i] else 0
    ensures i < |s| ==> s[i] != 0 && t[n + 1..] == s[i + 1..]
  {
    if i < |s| {
      assert t[n] == s[i] && s[i] in t;
    }
  }

  lemma PrefixStep(a: seq<Byte>, b: seq<Byte>, n: nat)
    requires n < |a| && n < |b| && a[..n] == b[..n]
    ensures a[n := b[n]][..n + 1] == b[..n + 1]
  {
    forall k | 0 <= k < n ensures a[k] == b[k] {
      assert a[k] == a[..n][k];
    }
  }

  /** A partial literal is padded with zeros. */
  method Pad(partial: seq<Byte>, chars: nat, ghost t: seq<Byte>) returns (literal: seq<Byte>)
    requires |partial| == 4 && |t| < chars <= 4 && partial[..chars] == t + Zeros(chars - |t|)
    ensures literal == t + Zeros(4 - |t|)
  {
    literal := partial;
    for charCount := chars to 4
      invariant |literal| == 4 && literal[..charCount] == t + Zeros(charCount - |t|)
    {
      literal := literal[charCount := 0];
      assert literal[..charCount + 1] == literal[..charCount] + [0];
    }
    assert literal == literal[..4];
  }

  /** A full buffer is the next word of what is left of the string. */
  lemma LastWord(t: seq<Byte>, literal: seq<Byte>)
    requires |literal| == 4 && |t| >= 3 && literal[..4] == (t + [0])[..4]
    ensures Packed(t) == [WordOf(literal)] + if |t| == 3 then [] else Packed(t[4..])
  {
    hide WordOf;
    if |t| == 3 {
      assert literal == t + Zeros(1);
    } else {
      assert literal == t[..4];
    }
  }

  lemma ShortWord(t: seq<Byte>)
    requires |t| < 4
    ensures Packed(t) == [WordOf(t + Zeros(4 - |t|))]
  {
  }

  /** The reading loop: characters are shifted out of each word until one is zero. */
  method LiteralString(ws: seq<Word>, word: nat) returns (literal: seq<Byte>)
    requires StringAt(ws, word).SomeString?
    ensures SomeString(literal) == StringAt(ws, word)
  {
    literal := [];
    var pos := word;
    while true
      invariant StringAt(ws, pos).SomeString?
      invariant StringAt(ws, word) == SomeString(literal + StringAt(ws, pos).chars)
      decreases |ws| - pos
    {
      var chars, ended := CharsOf(ws[pos]);
      literal := literal + chars;
      if ended {
        return;
      }
      pos := pos + 1;
    }
  }

  /** Shifts the characters out of a word, up to a zero. */
  method CharsOf(word: Word) returns (chars: seq<Byte>, ended: bool)
    ensures chars == UpToNul(BytesOf(word)) && ended == (|chars| < 4)
  {
    ghost var c := BytesOf(word);
    Shifts(word);
    hide BytesOf;
    chars := [];
    var w := word;
    for i := 0 to 4
      invariant w == Shifted(word, i)
      invariant chars == c[..i] && 0 !in c[..i]
    {
      var ch := w % 0x100;
      assert ch == c[i];
      if ch == 0 {
        FirstNul(c, i);
        return chars, true;
      }
      chars := chars + [ch];
      w := w / 0x100;
    }
    assert c[..4] == c && c + Zeros(0) == c;
    NulIsFirst(c, 0);
    ended := false;
  }

  function Shifted(w: Word, i: nat): Word {
    if i == 0 then w else Shifted(w, i - 1) / 0x100
  }

  lemma Shifts(w: Word)
    ensures forall i :: 0 <= i < 4 ==> Shifted(w, i) % 0x100 == BytesOf(w)[i]
  {
    assert Shifted(w, 1) == w / 0x100;
    assert Shifted(w, 2) == w / 0x100 / 0x100 == w / 0x1_0000;
    assert Shifted(w, 3) == w / 0x100 / 0x100 / 0x100 == w / 0x100_0000;
    assert BytesOf(w)[3] == w / 0x100_0000 < 0x100;
  }

  lemma {:induction false} FirstNul(c: seq<Byte>, i: nat)
    requires i < |c| && c[i] == 0 && 0 !in c[..i]
    ensures UpToNul(c) == c[..i]
  {
    if i > 0 {
      assert c[0] != 0 by { assert c[0] in c[..i]; }
      assert c[1..][..i - 1] == c[..i][1..];
      FirstNul(c[1..], i - 1);
    }
  }
}
