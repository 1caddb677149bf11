/** Which tokens a signature pattern has, which name an unnamed rule gets and which
    target a rule names, stated on the bytes themselves: | is 124, ( is 40, ) is 41. */
module Patterns {
  import opened Words
  import opened Tokens

  // ---------------------------------------------------------------------
  // Patterns written as words between bars
  // ---------------------------------------------------------------------

  /** w1|w2|...|wn */
  function Bars(ws: seq<Word>): Word {
    if ws == [] then []
    else if |ws| == 1 then ws[0]
    else ws[0] + [124] + Bars(ws[1..])
  }

  /** Nothing to cut or trim, and lower-case already. */
  predicate PlainWord(ops: TextOps, w: Word) {
    w != [] && 124 !in w && 40 !in w && 41 !in w && ops.trim(w) == w && ops.lower(w) == w
  }

  lemma SplitStep(c: Byte, u: Word)
    ensures Split([c] + u, 124) ==
            if c == 124 then [[]] + Split(u, 124) else [[c] + Split(u, 124)[0]] + Split(u, 124)[1..]
  {
    hide Join;
    assert ([c] + u)[1..] == u;
  }

  lemma {:induction false} SplitFirst(w: Word, rest: Word)
    requires 124 !in w
    ensures Split(w, 124) == [w]
    ensures Split(w + [124] + rest, 124) == [w] + Split(rest, 124)
  {
    hide Split;
    if w == [] {
      SplitStep(124, rest);
      SplitNothing();
      assert [] + [124] + rest == [124] + rest;
    } else {
      SplitFirst(w[1..], rest);
      SplitStep(w[0], w[1..]);
      SplitStep(w[0], w[1..] + [124] + rest);
      assert w + [124] + rest == [w[0]] + (w[1..] + [124] + rest) && [w[0]] + w[1..] == w;
    }
  }

  lemma SplitNothing()
    ensures Split([], 124) == [[]]
  {
  }

  lemma {:induction false} SplitBars(ws: seq<Word>)
    requires ws != [] && forall k :: 0 <= k < |ws| ==> 124 !in ws[k]
    ensures Split(Bars(ws), 124) == ws
  {
    if |ws| == 1 {
      SplitFirst(ws[0], []);
    } else {
      SplitBars(ws[1..]);
      SplitFirst(ws[0], Bars(ws[1..]));
    }
  }

  lemma {:induction false} BarsEnds(ops: TextOps, ws: seq<Word>)
    requires ws != [] && forall k :: 0 <= k < |ws| ==> PlainWord(ops, ws[k])
    ensures Bars(ws) != [] && 40 !in Bars(ws) && 41 !in Bars(ws)
  {
    assert PlainWord(ops, ws[0]);
    if |ws| > 1 {
      BarsEnds(ops, ws[1..]);
    }
  }

  lemma WordIsToken(ops: TextOps, w: Word)
    requires PlainWord(ops, w)
    ensures CleanToken(ops, w) == w
  {
    assert w[0] in w && Last(w) in w;
  }

  lemma {:induction false} WordsAreTokens(ops: TextOps, ws: seq<Word>)
    requires forall k :: 0 <= k < |ws| ==> PlainWord(ops, ws[k])
    ensures NonEmptyTokens(ops, ws) == ws
  {
    if ws != [] {
      var n := |ws| - 1;
      WordsAreTokens(ops, ws[..n]);
      assert PlainWord(ops, ws[n]);
      WordIsToken(ops, ws[n]);
      assert ws[..n] + [ws[n]] == ws;
    }
  }

  /** The ways to write a list of alternatives: bare or in parentheses, with or
      without a case flag in front. */
  predicate Writes(pattern: Word, body: Word) {
    var flag, upper := [40, 63, 105, 41], [40, 63, 73, 41];
    || pattern == body || pattern == flag + body || pattern == upper + body
    || pattern == [40] + body + [41] || pattern == flag + ([40] + body + [41])
    || pattern == upper + ([40] + body + [41])
  }

  /** (?i), (?I) and (?i)(?I): here what looks like a word in parentheses is a flag. */
  predicate OnlyFlags(pattern: Word) {
    || pattern == [40, 63, 105, 41] || pattern == [40, 63, 73, 41]
    || pattern == [40, 63, 105, 41, 40, 63, 73, 41]
  }

  function Unwrapped(p: Word): Word {
    TrimSuffix(TrimPrefix(p, [LPAREN]), RPAREN)
  }

  lemma StripsToBody(pattern: Word, body: Word)
    requires Writes(pattern, body) && !OnlyFlags(pattern) && body != [] && 40 !in body && 41 !in body
    ensures pattern != []
    ensures Unwrapped(TrimPrefix(TrimPrefix(pattern, CASE_FLAG), CASE_FLAG_UPPER)) == body
  {
    hide TrimPrefix;
    hide TrimSuffix;
    hide Unwrapped;
    var inner := [40] + body + [41];
    Unwraps(body);
    NoFlag(body);
    FlagsOf(body);
    if body != [63, 105] && body != [63, 73] {
      FlagsOf(inner);
    } else {
      assert body == [63, 105] ==> inner == [40, 63, 105, 41];
      assert body == [63, 73] ==> inner == [40, 63, 73, 41];
      FlaggedFlag(inner);
    }
  }

  /** A flag in parentheses behind a flag that does not end the flags. */
  lemma FlaggedFlag(inner: Word)
    requires inner == [40, 63, 105, 41] || inner == [40, 63, 73, 41]
    ensures OnlyFlags(inner)
    ensures TrimPrefix(TrimPrefix([40, 63, 73, 41] + inner, CASE_FLAG), CASE_FLAG_UPPER) == inner
    ensures OnlyFlags([40, 63, 105, 41] + inner) ||
            TrimPrefix(TrimPrefix([40, 63, 105, 41] + inner, CASE_FLAG), CASE_FLAG_UPPER) == inner
  {
    var low, up := [40, 63, 105, 41] + inner, [40, 63, 73, 41] + inner;
    assert up[2] == 73 && CASE_FLAG[2] == 105 && CASE_FLAG_UPPER[2] == 73;
    assert up[4..] == inner && low[4..] == inner;
    assert CASE_FLAG <= low && CASE_FLAG_UPPER <= up;
    if inner == [40, 63, 73, 41] {
      assert low == [40, 63, 105, 41, 40, 63, 73, 41];
    } else {
      assert inner[2] == 105;
    }
  }

  lemma FlagsVanish(pattern: Word)
    requires OnlyFlags(pattern)
    ensures Unwrapped(TrimPrefix(TrimPrefix(pattern, CASE_FLAG), CASE_FLAG_UPPER)) == []
  {
    assert CASE_FLAG <= [40, 63, 105, 41] && CASE_FLAG_UPPER <= [40, 63, 73, 41];
    assert [40, 63, 73, 41][2] == 73 && CASE_FLAG[2] == 105;
    assert [40, 63, 105, 41, 40, 63, 73, 41][4..] == [40, 63, 73, 41];
    assert CASE_FLAG <= [40, 63, 105, 41, 40, 63, 73, 41];
  }

  lemma EmptyPartHasNoToken(ops: TextOps)
    ensures ops.lower(ops.trim([])) == [] ==> NonEmptyTokens(ops, [[]]) == []
  {
    assert DropLastPart([[]]) == [];
  }

  lemma Unwraps(body: Word)
    requires body != [] && 40 !in body && 41 !in body
    ensures Unwrapped(body) == body && Unwrapped([40] + body + [41]) == body
  {
    assert body[0] in body && Last(body) in body;
    var inner := [40] + body + [41];
    assert [LPAREN] <= inner && inner[1..] == body + [41] && DropLast(body + [41]) == body;
  }

  /** A word that does not begin with a case flag loses exactly the flag put before it. */
  lemma FlagsOf(p: Word)
    requires p != [] && !(CASE_FLAG <= p) && !(CASE_FLAG_UPPER <= p)
    ensures TrimPrefix(TrimPrefix(p, CASE_FLAG), CASE_FLAG_UPPER) == p
    ensures TrimPrefix(TrimPrefix([40, 63, 105, 41] + p, CASE_FLAG), CASE_FLAG_UPPER) == p
    ensures TrimPrefix(TrimPrefix([40, 63, 73, 41] + p, CASE_FLAG), CASE_FLAG_UPPER) == p
  {
    assert ([40, 63, 105, 41] + p)[4..] == p && ([40, 63, 73, 41] + p)[4..] == p;
    assert CASE_FLAG <= [40, 63, 105, 41] + p && CASE_FLAG_UPPER <= [40, 63, 73, 41] + p;
    assert ([40, 63, 73, 41] + p)[2] == 73;
  }

  lemma NoFlag(body: Word)
    requires body != [] && 40 !in body && 41 !in body
    ensures !(CASE_FLAG <= body) && !(CASE_FLAG_UPPER <= body)
    ensures body != [63, 105] && body != [63, 73] ==>
              !(CASE_FLAG <= [40] + body + [41]) && !(CASE_FLAG_UPPER <= [40] + body + [41])
  {
    var inner := [40] + body + [41];
    assert body[0] in body && |inner| == |body| + 2 && inner[1] == body[0];
    if |body| > 2 {
      assert inner[3] == body[2] && body[2] in body;
    } else if |body| == 2 {
      assert body == [inner[1], inner[2]];
    }
  }

  /** The tokens of a pattern that lists plain words are exactly these words, in order,
      in every way of writing it, unless the whole pattern is read as flags. */
  lemma TokensOfWords(ops: TextOps, ws: seq<Word>, pattern: Word)
    requires ws != [] && forall k :: 0 <= k < |ws| ==> PlainWord(ops, ws[k])
    requires Writes(pattern, Bars(ws)) && ops.trim(pattern) == pattern
    ensures !OnlyFlags(pattern) ==> PatternTokens(ops, pattern) == ws
    ensures OnlyFlags(pattern) && ops.lower(ops.trim([])) == [] ==> PatternTokens(ops, pattern) == []
  {
    hide Split;
    hide TrimPrefix;
    hide TrimSuffix;
    hide Writes;
    hide Bars;
    BarsEnds(ops, ws);
    if OnlyFlags(pattern) {
      FlagsVanish(pattern);
      SplitNothing();
      EmptyPartHasNoToken(ops);
    } else {
      StripsToBody(pattern, Bars(ws));
      SplitBars(ws);
      WordsAreTokens(ops, ws);
    }
  }

  // ---------------------------------------------------------------------
  // Arbitrary patterns
  // ---------------------------------------------------------------------

  /** Each part contributes by itself, in order. */
  lemma {:induction false} TokensOfParts(ops: TextOps, a: seq<Word>, b: seq<Word>)
    ensures NonEmptyTokens(ops, a + b) == NonEmptyTokens(ops, a) + NonEmptyTokens(ops, b)
  {
    if b == [] {
      assert a + b == a;
    } else {
      var all, n := a + b, |b| - 1;
      TokensOfParts(ops, a, b[..n]);
      assert DropLastPart(all) == a + b[..n] && all[|all| - 1] == b[n];
    }
  }

  lemma {:induction false} JoinIsBars(parts: seq<Word>)
    ensures Join(parts, 124) == Bars(parts)
  {
    if |parts| > 1 {
      JoinIsBars(parts[1..]);
    }
  }

  lemma TrimmedPrefix(w: Word, p: Word) returns (cut: Word)
    ensures w == cut + TrimPrefix(w, p) && (cut == [] || cut == p)
  {
    cut := if p <= w then p else [];
  }

  lemma TrimmedSuffix(w: Word, b: Byte) returns (cut: Word)
    ensures w == TrimSuffix(w, b) + cut && (cut == [] || cut == [b])
  {
    cut := if w != [] && Last(w) == b then [b] else [];
  }

  /** Any pattern that is not blank: after optional flags and one optional parenthesis
      at either end, the rest is cut at every bar, and the tokens are those of the parts. */
  lemma TokensOfPattern(ops: TextOps, pattern: Word)
    returns (flag: Word, upper: Word, open: Word, parts: seq<Word>, close: Word)
    requires ops.trim(pattern) != []
    ensures ops.trim(pattern) == flag + (upper + (open + (Bars(parts) + close)))
    ensures (flag == [] || flag == [40, 63, 105, 41]) && (upper == [] || upper == [40, 63, 73, 41])
    ensures (open == [] || open == [40]) && (close == [] || close == [41])
    ensures forall k :: 0 <= k < |parts| ==> 124 !in parts[k]
    ensures PatternTokens(ops, pattern) == NonEmptyTokens(ops, parts)
  {
    hide TrimPrefix;
    hide TrimSuffix;
    hide Split;
    hide Bars;
    hide NonEmptyTokens;
    var p1 := TrimPrefix(ops.trim(pattern), CASE_FLAG);
    var p2 := TrimPrefix(p1, CASE_FLAG_UPPER);
    var p3 := TrimPrefix(p2, [LPAREN]);
    flag := TrimmedPrefix(ops.trim(pattern), CASE_FLAG);
    upper := TrimmedPrefix(p1, CASE_FLAG_UPPER);
    open := TrimmedPrefix(p2, [LPAREN]);
    close := TrimmedSuffix(p3, RPAREN);
    parts := Split(TrimSuffix(p3, RPAREN), PIPE);
    JoinIsBars(parts);
  }

  lemma BlankHasNoTokens(ops: TextOps, pattern: Word)
    ensures ops.trim(pattern) == [] ==> PatternTokens(ops, pattern) == []
  {
  }

  /** What one part contributes: the lower-cased, trimmed part without the parentheses
      at its ends, unless nothing else is left. */
  lemma TokenOfPart(ops: TextOps, part: Word) returns (left: Word, right: Word)
    ensures var t := CleanToken(ops, part);
            && ops.lower(ops.trim(part)) == left + t + right
            && (forall b :: b in left || b in right ==> b == 40 || b == 41)
            && (t == [] || (t[0] != 40 && t[0] != 41 && t[|t| - 1] != 40 && t[|t| - 1] != 41))
            && NonEmptyTokens(ops, [part]) == if t == [] then [] else [t]
  {
    hide TrimLeftParens;
    hide TrimRightParens;
    var w := ops.lower(ops.trim(part));
    left := LeftParens(w);
    right := RightParens(TrimLeftParens(w));
    assert NonEmptyTokens(ops, DropLastPart([part])) == [];
  }

  lemma {:induction false} LeftParens(w: Word) returns (left: Word)
    ensures w == left + TrimLeftParens(w) && forall b :: b in left ==> b == 40 || b == 41
  {
    if w != [] && IsParen(w[0]) {
      var rest := LeftParens(w[1..]);
      left := [w[0]] + rest;
    } else {
      left := [];
    }
  }

  lemma {:induction false} RightParens(w: Word) returns (right: Word)
    ensures w == TrimRightParens(w) + right && forall b :: b in right ==> b == 40 || b == 41
  {
    if w != [] && IsParen(Last(w)) {
      var rest := RightParens(DropLast(w));
      right := rest + [Last(w)];
      assert w == DropLast(w) + [Last(w)];
    } else {
      right := [];
    }
  }

  // ---------------------------------------------------------------------
  // Names and targets
  // ---------------------------------------------------------------------

  /** A rule without a name is called rule_ and its position; any other keeps its
      trimmed name. */
  lemma NameOfRule(ops: TextOps, rule: SignatureRule, i: nat)
    ensures var id := RuleId(ops, rule, i);
            if ops.trim(rule.name) == [] then
              |id| > 5 && id[..5] == [114, 117, 108, 101, 95] && IsDecimal(id[5..]) && DecimalValue(id[5..]) == i
            else id == ops.trim(rule.name)
  {
    if ops.trim(rule.name) == [] {
      DecimalRoundTrip(i);
      DecimalIsWritten(i);
      assert RuleId(ops, rule, i)[5..] == Decimal(i);
    }
  }

  lemma {:induction false} DecimalIsWritten(i: nat)
    ensures IsDecimal(Decimal(i))
  {
    if i >= 10 {
      DecimalIsWritten(i / 10);
      assert Decimal(i)[0] == Decimal(i / 10)[0];
      DecimalRoundTrip(i / 10);
    }
  }

  /** query, headers and path, in any case that lower-casing removes; else any. */
  lemma TargetsSpelled(ops: TextOps, rule: SignatureRule)
    ensures var m := ops.lower(rule.target);
            && (TargetOf(ops, rule) == Query <==> m == [113, 117, 101, 114, 121])
            && (TargetOf(ops, rule) == Headers <==> m == [104, 101, 97, 100, 101, 114, 115])
            && (TargetOf(ops, rule) == Path <==> m == [112, 97, 116, 104])
  {
    assert [113, 117, 101, 114, 121][0] == 113 && [104, 101, 97, 100, 101, 114, 115][0] == 104;
    assert [112, 97, 116, 104][0] == 112;
  }
}
