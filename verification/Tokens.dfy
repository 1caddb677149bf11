/** From signature rules to matcher tokens: the pattern tokenizer, the fallback
    rule names and the routing of tokens to targets (ruleset.go). */
module Tokens {
  import opened Words
  import Dfa

  /** Unicode-aware lower-casing and trimming stay parameters. */
  datatype TextOps = TextOps(lower: Word -> Word, trim: Word -> Word) {
    /** What the matcher does to a token before it inserts it. */
    function Normalise(): Dfa.Normaliser {
      w => trim(lower(w))
    }
  }

  datatype SignatureRule = SignatureRule(name: Word, target: Word, pattern: Word, weight: int)

  datatype Target = Any | Query | Headers | Path

  const PIPE: Byte := 124
  const LPAREN: Byte := 40
  const RPAREN: Byte := 41
  const CASE_FLAG: Word := [40, 63, 105, 41]        // (?i)
  const CASE_FLAG_UPPER: Word := [40, 63, 73, 41]   // (?I)
  const QUERY: Word := [113, 117, 101, 114, 121]
  const HEADERS: Word := [104, 101, 97, 100, 101, 114, 115]
  const PATH: Word := [112, 97, 116, 104]
  const RULE_PREFIX: Word := [114, 117, 108, 101, 95]  // rule_

  function TrimPrefix(w: Word, p: Word): (r: Word)
    ensures w == r || w == p + r
  {
    if p <= w then w[|p|..] else w
  }

  function TrimSuffix(w: Word, b: Byte): (r: Word)
    ensures w == r || w == r + [b]
  {
    if w != [] && Last(w) == b then DropLast(w) else w
  }

  predicate IsParen(b: Byte) {
    b == LPAREN || b == RPAREN
  }

  function TrimLeftParens(w: Word): (r: Word)
    ensures r == [] || !IsParen(r[0])
  {
    if w != [] && IsParen(w[0]) then TrimLeftParens(w[1..]) else w
  }

  function TrimRightParens(w: Word): (r: Word)
    ensures r == [] || !IsParen(Last(r))
    ensures r <= w
  {
    if w != [] && IsParen(Last(w)) then TrimRightParens(DropLast(w)) else w
  }

  /** Cutting at every separator. */
  function Split(w: Word, sep: Byte): (parts: seq<Word>)
    ensures |parts| >= 1
    ensures forall k :: 0 <= k < |parts| ==> sep !in parts[k]
    ensures Join(parts, sep) == w
  {
    if w == [] then [[]]
    else
      var rest := Split(w[1..], sep);
      if w[0] == sep then [[]] + rest
      else
        assert Join([[w[0]] + rest[0]] + rest[1..], sep) == [w[0]] + Join(rest, sep);
        [[w[0]] + rest[0]] + rest[1..]
  }

  function Join(parts: seq<Word>, sep: Byte): Word {
    if parts == [] then []
    else if |parts| == 1 then parts[0]
    else parts[0] + [sep] + Join(parts[1..], sep)
  }

  /** The alternatives of a pattern, once flags and outer parentheses are gone. */
  function Alternatives(ops: TextOps, pattern: Word): seq<Word> {
    var p := ops.trim(pattern);
    if p == [] then []
    else
      Split(TrimSuffix(TrimPrefix(TrimPrefix(TrimPrefix(p, CASE_FLAG), CASE_FLAG_UPPER), [LPAREN]), RPAREN), PIPE)
  }

  /** Non-empty, with no parenthesis at either end. */
  predicate IsClean(t: Word) {
    t != [] && !IsParen(t[0]) && !IsParen(Last(t))
  }

  function CleanToken(ops: TextOps, part: Word): (t: Word)
    ensures t == [] || IsClean(t)
  {
    var left := TrimLeftParens(ops.lower(ops.trim(part)));
    var t := TrimRightParens(left);
    assert t != [] ==> t[0] == left[0];
    t
  }

  function NonEmptyTokens(ops: TextOps, parts: seq<Word>): (tokens: seq<Word>)
    ensures forall k :: 0 <= k < |tokens| ==> IsClean(tokens[k])
  {
    if parts == [] then []
    else
      var tokens := NonEmptyTokens(ops, DropLastPart(parts));
      var t := CleanToken(ops, parts[|parts| - 1]);
      if t == [] then tokens else tokens + [t]
  }

  function DropLastPart(parts: seq<Word>): seq<Word>
    requires parts != []
  {
    parts[..|parts| - 1]
  }

  function PatternTokens(ops: TextOps, pattern: Word): (tokens: seq<Word>)
    ensures forall k :: 0 <= k < |tokens| ==> IsClean(tokens[k])
  {
    NonEmptyTokens(ops, Alternatives(ops, pattern))
  }

  method ExtractPatternTokens(ops: TextOps, pattern: Word) returns (out: seq<Word>)
    ensures out == PatternTokens(ops, pattern)
  {
    hide Split;
    hide TrimPrefix;
    hide TrimSuffix;
    hide TrimLeftParens;
    hide TrimRightParens;
    out := [];
    var p := ops.trim(pattern);
    if p == [] {
      return;
    }
    p := TrimPrefix(p, CASE_FLAG);
    p := TrimPrefix(p, CASE_FLAG_UPPER);
    p := TrimPrefix(p, [LPAREN]);
    p := TrimSuffix(p, RPAREN);
    var parts := Split(p, PIPE);
    var i := 0;
    while i < |parts|
      invariant 0 <= i <= |parts|
      invariant out == NonEmptyTokens(ops, parts[..i])
    {
      assert DropLastPart(parts[..i + 1]) == parts[..i];
      var token := TrimRightParens(TrimLeftParens(ops.lower(ops.trim(parts[i]))));
      if token != [] {
        out := out + [token];
      }
      i := i + 1;
    }
    assert parts[..i] == parts;
  }

  // ---------------------------------------------------------------------
  // Fallback rule names
  // ---------------------------------------------------------------------

  function DecimalValue(s: Word): int {
    if s == [] then 0 else 10 * DecimalValue(DropLast(s)) + (Last(s) - 48)
  }

  predicate IsDecimal(s: Word) {
    && s != []
    && (forall k :: 0 <= k < |s| ==> 48 <= s[k] <= 57)
    && (|s| > 1 ==> s[0] != 48)
  }

  ghost function Pow10(n: nat): nat {
    if n == 0 then 1 else 10 * Pow10(n - 1)
  }

  lemma {:induction false} DecimalOfConcat(a: Word, b: Word)
    ensures DecimalValue(a + b) == DecimalValue(a) * Pow10(|b|) + DecimalValue(b)
  {
    if b == [] {
      assert a + b == a;
    } else {
      DecimalOfConcat(a, DropLast(b));
      assert DropLast(a + b) == a + DropLast(b);
      calc {
        10 * (DecimalValue(a) * Pow10(|b| - 1));
        DecimalValue(a) * (10 * Pow10(|b| - 1));
        DecimalValue(a) * Pow10(|b|);
      }
    }
  }

  /** The digits still to be written, and the ones written, make up i. */
  ghost predicate Digits(i: int, rest: int, written: Word) {
    && 0 <= rest
    && rest * Pow10(|written|) + DecimalValue(written) == i
    && (forall k :: 0 <= k < |written| ==> 48 <= written[k] <= 57)
    && (rest == 0 ==> written != [] && written[0] != 48)
  }

  lemma NextDigit(i: int, rest: int, written: Word)
    requires Digits(i, rest, written) && rest > 0
    ensures Digits(i, rest / 10, [48 + rest % 10] + written)
  {
    var d: Word := [48 + rest % 10];
    DecimalOfConcat(d, written);
    assert DecimalValue(d) == 10 * DecimalValue(DropLast(d)) + rest % 10;
    var n := Pow10(|written|);
    calc {
      rest * n;
      (10 * (rest / 10) + rest % 10) * n;
      (rest / 10) * (10 * n) + (rest % 10) * n;
      (rest / 10) * Pow10(|d + written|) + (rest % 10) * n;
    }
  }

  /** The digits are filled from the right end of a 20-byte buffer. */
  method StrconvI(i: int) returns (s: Word)
    requires -0x8000_0000_0000_0000 <= i < 0x8000_0000_0000_0000
    ensures i >= 0 ==> IsDecimal(s) && DecimalValue(s) == i
    ensures i < 0 ==> s == []
  {
    hide Digits;
    hide IsDecimal;
    hide DecimalValue;
    hide Pow10;
    if i == 0 {
      DigitsFacts(i, []);
      return [48];
    }
    var buf := new Byte[20](_ => 0);
    var pos := 20;
    var rest := i;
    Pow10Of20();
    DigitsFacts(i, []);
    assert buf[20..] == [];
    while rest > 0
      invariant 0 <= pos <= 20
      invariant i < 0 ==> pos == 20 && rest == i
      invariant i > 0 ==> Digits(i, rest, buf[pos..])
      invariant i > 0 ==> 0 <= rest < Pow10(pos)
      decreases rest
    {
      NextDigit(i, rest, buf[pos..]);
      Pow10Shrinks(pos, rest);
      ghost var written := buf[pos..];
      pos := pos - 1;
      buf[pos] := 48 + rest % 10;
      assert buf[pos..] == [buf[pos]] + written;
      rest := rest / 10;
    }
    s := buf[pos..];
    DigitsFacts(i, s);
  }

  lemma DigitsFacts(i: int, s: Word)
    ensures IsDecimal([48]) && DecimalValue([48]) == 0
    ensures i > 0 ==> Digits(i, i, [])
    ensures Digits(i, 0, s) ==> IsDecimal(s) && DecimalValue(s) == i
  {
    assert DecimalValue([48]) == 10 * DecimalValue(DropLast([48])) + 0;
  }

  lemma Pow10Shrinks(pos: nat, rest: int)
    requires 0 < rest < Pow10(pos)
    ensures pos > 0 && rest / 10 < Pow10(pos - 1)
  {
  }

  lemma Pow10Of20()
    ensures Pow10(20) == 100_000_000_000_000_000_000
    ensures Pow10(0) == 1
  {
    assert Pow10(4) == 10_000;
    assert Pow10(8) == 100_000_000;
    assert Pow10(12) == 1_000_000_000_000;
    assert Pow10(16) == 10_000_000_000_000_000;
  }

  function Decimal(i: nat): (s: Word)
    ensures s != []
  {
    if i < 10 then [48 + i] else Decimal(i / 10) + [48 + i % 10]
  }

  /** Without leading zeros there is one way to write a number. */
  lemma {:induction false} DecimalIsUnique(s: Word)
    requires IsDecimal(s)
    ensures DecimalValue(s) >= 0 && s == Decimal(DecimalValue(s))
    ensures DecimalValue(s) == 0 ==> s == [48]
    decreases |s|
  {
    var init := DropLast(s);
    if |s| == 1 {
      assert init == [] && s == [s[0]];
    } else {
      assert init[0] == s[0];
      DecimalIsUnique(init);
      assert s == init + [Last(s)];
    }
  }

  /** What a compiled rule is called: its own name, or one made from its position. */
  function RuleId(ops: TextOps, rule: SignatureRule, i: nat): Word {
    if ops.trim(rule.name) == [] then RULE_PREFIX + Decimal(i) else ops.trim(rule.name)
  }

  lemma {:induction false} DecimalRoundTrip(i: nat)
    ensures DecimalValue(Decimal(i)) == i
  {
    if i < 10 {
      assert DecimalValue([48 + i]) == 10 * DecimalValue(DropLast([48 + i])) + i;
    } else {
      DecimalRoundTrip(i / 10);
      assert DropLast(Decimal(i)) == Decimal(i / 10);
    }
  }

  /** Two unnamed rules never get the same name. */
  lemma FallbackNamesDiffer(ops: TextOps, a: SignatureRule, i: nat, b: SignatureRule, j: nat)
    requires ops.trim(a.name) == [] && ops.trim(b.name) == []
    ensures RuleId(ops, a, i) == RuleId(ops, b, j) ==> i == j
  {
    assert RuleId(ops, a, i)[|RULE_PREFIX|..] == Decimal(i);
    assert RuleId(ops, b, j)[|RULE_PREFIX|..] == Decimal(j);
    DecimalRoundTrip(i);
    DecimalRoundTrip(j);
  }

  // ---------------------------------------------------------------------
  // Routing
  // ---------------------------------------------------------------------

  function TargetOf(ops: TextOps, rule: SignatureRule): Target {
    var m := ops.lower(rule.target);
    if m == QUERY then Query else if m == HEADERS then Headers else if m == PATH then Path else Any
  }
}
