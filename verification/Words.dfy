/** Byte strings, ASCII folding, substring tests, and the theory of the
    longest suffix of a text that belongs to a prefix-closed set of words. */
module Words {
  type Byte = b: int | 0 <= b < 256

  type Word = seq<Byte>

  /** Unsigned 64-bit arithmetic wraps here. */
  const TWO_64: int := 0x1_0000_0000_0000_0000

  ghost predicate Distinct<T>(xs: seq<T>) {
    forall i, j :: 0 <= i < j < |xs| ==> xs[i] != xs[j]
  }

  /** Folding of one byte: only 'A'..'Z' change. */
  function FoldByte(b: Byte): Byte {
    if 65 <= b <= 90 then b + 32 else b
  }

  function Fold(w: Word): (r: Word)
    ensures |r| == |w|
    ensures forall i :: 0 <= i < |w| ==> r[i] == FoldByte(w[i])
  {
    seq(|w|, i requires 0 <= i < |w| => FoldByte(w[i]))
  }

  /** The same byte, or the same ASCII letter in either case: A is 65, a is 97. */
  ghost predicate SameLetter(a: Byte, b: Byte) {
    || a == b
    || (65 <= a < 65 + 26 && b - 97 == a - 65)
    || (65 <= b < 65 + 26 && a - 97 == b - 65)
  }

  ghost predicate SameUpToCase(a: Word, b: Word) {
    |a| == |b| && forall i :: 0 <= i < |a| ==> SameLetter(a[i], b[i])
  }

  lemma FoldByteExact(a: Byte, b: Byte)
    ensures FoldByte(a) == FoldByte(b) <==> SameLetter(a, b)
  {
  }

  /** Folding identifies exactly the words that are the same up to ASCII case. */
  lemma FoldIdentifies(a: Word, b: Word)
    ensures Fold(a) == Fold(b) <==> SameUpToCase(a, b)
  {
    hide SameLetter;
    hide FoldByte;
    forall i | 0 <= i < |a| && i < |b|
      ensures FoldByte(a[i]) == FoldByte(b[i]) <==> SameLetter(a[i], b[i])
    {
      FoldByteExact(a[i], b[i]);
    }
    if SameUpToCase(a, b) {
      assert Fold(a) == Fold(b);
    }
    if Fold(a) == Fold(b) {
      forall i | 0 <= i < |a|
        ensures SameLetter(a[i], b[i])
      {
        assert Fold(a)[i] == Fold(b)[i];
      }
    }
  }

  /** Some slice of the text is the token up to case. */
  ghost predicate FoundIn(text: Word, token: Word) {
    exists i: nat :: SliceIs(text, token, i)
  }

  ghost predicate SliceIs(text: Word, token: Word, i: nat) {
    i + |token| <= |text| && SameUpToCase(text[i..i + |token|], token)
  }

  /** What a substring test on folded words means. */
  lemma ContainsFolded(text: Word, token: Word)
    ensures Contains(Fold(text), Fold(token)) <==> FoundIn(text, token)
  {
    hide SameUpToCase;
    forall i: nat
      ensures OccursAt(Fold(text), Fold(token), i) <==> SliceIs(text, token, i)
    {
      if i + |token| <= |text| {
        FoldIdentifies(text[i..i + |token|], token);
        assert Fold(text)[i..i + |token|] == Fold(text[i..i + |token|]);
      }
    }
  }

  ghost predicate IsSuffix(t: Word, w: Word) {
    |t| <= |w| && w[|w| - |t|..] == t
  }

  ghost predicate OccursAt(w: Word, t: Word, i: nat) {
    i + |t| <= |w| && w[i..i + |t|] == t
  }

  /** t is a contiguous substring of w. */
  ghost predicate Contains(w: Word, t: Word) {
    exists i: nat :: OccursAt(w, t, i)
  }

  function DropLast(w: Word): Word
    requires w != []
  {
    w[..|w| - 1]
  }

  function Last(w: Word): Byte
    requires w != []
  {
    w[|w| - 1]
  }

  /** Folding works byte by byte, so it commutes with concatenation. */
  lemma FoldConcat(a: Word, b: Word)
    ensures Fold(a + b) == Fold(a) + Fold(b)
  {
  }

  /** An occurrence in a text that grew by one byte is old or ends at the new byte. */
  lemma ContainsGrows(w: Word, b: Byte, t: Word)
    requires t != []
    ensures Contains(w + [b], t) <==> Contains(w, t) || IsSuffix(t, w + [b])
  {
    var v := w + [b];
    if Contains(v, t) {
      var i: nat :| OccursAt(v, t, i);
      if i + |t| <= |w| {
        assert w[i..i + |t|] == v[i..i + |t|];
        assert OccursAt(w, t, i);
      } else {
        assert v[|v| - |t|..] == v[i..i + |t|];
      }
    }
    if Contains(w, t) {
      var i: nat :| OccursAt(w, t, i);
      assert w[i..i + |t|] == v[i..i + |t|];
      assert OccursAt(v, t, i);
    }
    if IsSuffix(t, v) {
      assert v[|v| - |t|..] == v[|v| - |t|..|v| - |t| + |t|];
      assert OccursAt(v, t, |v| - |t|);
    }
  }

  lemma SuffixOfTail(t: Word, w: Word)
    requires w != []
    ensures IsSuffix(t, w) <==> t == w || IsSuffix(t, w[1..])
  {
    assert w[0..] == w;
    if IsSuffix(t, w) && t != w {
      assert w[1..][|w| - 1 - |t|..] == w[|w| - |t|..];
    }
    if IsSuffix(t, w[1..]) {
      assert w[1..][|w| - 1 - |t|..] == w[|w| - |t|..];
    }
  }

  // ---------------------------------------------------------------------
  // The longest suffix that belongs to a prefix-closed lexicon
  // ---------------------------------------------------------------------

  ghost predicate PrefixClosed(lex: seq<Word>) {
    && [] in lex
    && (forall w :: w in lex && w != [] ==> DropLast(w) in lex)
  }

  /** The longest suffix of u that is a word of lex. */
  ghost function LongestSuffix(lex: seq<Word>, u: Word): (r: Word)
    requires [] in lex
    ensures r in lex
    ensures |r| <= |u|
  {
    if u in lex then u else LongestSuffix(lex, u[1..])
  }

  /** What the recursion above means: it is a suffix, and no suffix that is a
      word of the lexicon is longer. */
  lemma {:induction false} LongestSuffixIsLongest(lex: seq<Word>, u: Word, v: Word)
    requires [] in lex
    ensures IsSuffix(LongestSuffix(lex, u), u)
    ensures v in lex && IsSuffix(v, u) ==> IsSuffix(v, LongestSuffix(lex, u))
  {
    if u in lex {
      assert u[0..] == u;
    } else {
      LongestSuffixIsLongest(lex, u[1..], v);
      SuffixOfTail(LongestSuffix(lex, u), u);
      SuffixOfTail(v, u);
    }
  }

  /** Reading one more byte may start from the longest known suffix instead of
      the whole text. This is what makes one table lookup per byte enough. */
  lemma {:induction false} LongestSuffixStep(lex: seq<Word>, u: Word, b: Byte)
    requires PrefixClosed(lex)
    ensures LongestSuffix(lex, u + [b]) == LongestSuffix(lex, LongestSuffix(lex, u) + [b])
  {
    if u !in lex {
      LongestSuffixStep(lex, u[1..], b);
      assert DropLast(u + [b]) == u;
      assert (u + [b])[1..] == u[1..] + [b];
    }
  }

  /** The same for a non-empty word of the lexicon whose extension is not in it. */
  lemma ExtendThroughFailure(lex: seq<Word>, w: Word, b: Byte)
    requires PrefixClosed(lex) && w != []
    ensures LongestSuffix(lex, (w + [b])[1..]) == LongestSuffix(lex, LongestSuffix(lex, w[1..]) + [b])
  {
    assert (w + [b])[1..] == w[1..] + [b];
    LongestSuffixStep(lex, w[1..], b);
  }
}
