/** Compiled rulesets and their scoring (ruleset.go, engine_ruleset.go), proved
    against one naive weighted sum of substring tests. */
module Ruleset {
  import opened Words
  import opened Tokens
  import Dfa

  // ---------------------------------------------------------------------
  // 64-bit sums
  // ---------------------------------------------------------------------

  const TWO_63: int := 0x8000_0000_0000_0000

  /** Signed 64-bit wrap-around of an exact sum. */
  function Wrap64(x: int): (r: int)
    ensures -TWO_63 <= r < TWO_63
    ensures -TWO_63 <= x < TWO_63 ==> r == x
  {
    (x + TWO_63) % TWO_64 - TWO_63
  }

  lemma WrapOnce(a: int, b: int)
    ensures Wrap64(Wrap64(a) + b) == Wrap64(a + b)
  {
    var q := (a + TWO_63) / TWO_64;
    assert Wrap64(a) == a - TWO_64 * q;
  }

  // ---------------------------------------------------------------------
  // The naive score
  // ---------------------------------------------------------------------

  /** The folded text of a target contains the folded, normalised token. */
  ghost predicate TokenHits(norm: Dfa.Normaliser, text: Word, token: Word) {
    norm(token) != [] && Contains(Fold(text), Fold(norm(token)))
  }

  ghost function TokenScore(norm: Dfa.Normaliser, text: Word, token: Word, weight: int): nat {
    if TokenHits(norm, text, token) then Dfa.EffectiveWeight(weight) else 0
  }

  ghost function TokensScore(norm: Dfa.Normaliser, text: Word, tokens: seq<Word>, weight: int): nat {
    if tokens == [] then 0
    else
      TokensScore(norm, text, tokens[..|tokens| - 1], weight) +
      TokenScore(norm, text, tokens[|tokens| - 1], weight)
  }

  /** The texts that the four targets see; an absent text matches nothing. */
  type Texts = Target -> Word

  ghost function RuleScore(ops: TextOps, rule: SignatureRule, texts: Texts): nat {
    TokensScore(ops.Normalise(), texts(TargetOf(ops, rule)), PatternTokens(ops, rule.pattern), rule.weight)
  }

  /** Over all rules and their tokens: weight times "the token occurs". */
  ghost function NaiveScore(ops: TextOps, rules: seq<SignatureRule>, texts: Texts): nat {
    if rules == [] then 0
    else NaiveScore(ops, rules[..|rules| - 1], texts) + RuleScore(ops, rules[|rules| - 1], texts)
  }

  /** Adding rules never lowers the exact score. */
  lemma MoreRulesScoreMore(
    ops: TextOps, rules: seq<SignatureRule>, more: seq<SignatureRule>, texts: Texts)
    ensures NaiveScore(ops, rules, texts) <= NaiveScore(ops, rules + more, texts)
  {
    NaiveScoreConcat(ops, rules, more, texts);
  }

  /** The exact score of two rule lists together is the sum of their scores. */
  lemma {:induction false} NaiveScoreConcat(
    ops: TextOps, rules: seq<SignatureRule>, more: seq<SignatureRule>, texts: Texts)
    ensures NaiveScore(ops, rules + more, texts) == NaiveScore(ops, rules, texts) + NaiveScore(ops, more, texts)
  {
    hide RuleScore;
    if more == [] {
      assert rules + more == rules;
    } else {
      var all, n := rules + more, |more| - 1;
      NaiveScoreConcat(ops, rules, more[..n], texts);
      assert all[..|all| - 1] == rules + more[..n] && all[|all| - 1] == more[n];
    }
  }

  /** How often an exact sum runs over the 64-bit range. */
  function Wraps(x: int): int {
    (x + TWO_63) / TWO_64
  }

  /** The evaluated score is the exact one, wrapped to 64 bits. So adding rules lowers
      it exactly when the range is overrun more often, and by more than the added
      rules score; below 2^63 it never does. */
  lemma MoreRulesEvaluateMoreIff(
    ops: TextOps, rules: seq<SignatureRule>, more: seq<SignatureRule>, texts: Texts)
    ensures var a, b := NaiveScore(ops, rules, texts), NaiveScore(ops, rules + more, texts);
            && (Wrap64(a) <= Wrap64(b) <==> TWO_64 * (Wraps(b) - Wraps(a)) <= NaiveScore(ops, more, texts))
            && (NaiveScore(ops, more, texts) < TWO_64 ==> (Wrap64(a) <= Wrap64(b) <==> Wraps(a) == Wraps(b)))
            && (b < TWO_63 ==> Wrap64(a) <= Wrap64(b))
  {
    NaiveScoreConcat(ops, rules, more, texts);
  }

  /** Text operations that leave every word alone. */
  function PlainOps(): TextOps {
    TextOps(w => w, w => w)
  }

  lemma OneTokenPattern(b: Byte)
    requires 97 <= b <= 122
    ensures PatternTokens(PlainOps(), [b]) == [[b]]
  {
    assert Alternatives(PlainOps(), [b]) == Split([b], PIPE);
    assert Split([b], PIPE) == [[b]];
    assert CleanToken(PlainOps(), [b]) == [b];
    assert NonEmptyTokens(PlainOps(), DropLastPart([[b]])) == [];
  }

  // ---------------------------------------------------------------------
  // Routing to four rule lists loses and duplicates nothing
  // ---------------------------------------------------------------------

  /** The matcher items that one rule contributes. */
  function RuleItems(id: Word, weight: int, tokens: seq<Word>): (items: seq<Dfa.Rule>)
    ensures |items| == |tokens|
  {
    if tokens == [] then []
    else RuleItems(id, weight, tokens[..|tokens| - 1]) + [Dfa.Rule(id, weight, tokens[|tokens| - 1])]
  }

  /** The items of the rules that are routed to `target`, in rule order. */
  function Routed(ops: TextOps, rules: seq<SignatureRule>, target: Target): seq<Dfa.Rule> {
    if rules == [] then []
    else
      var n := |rules| - 1;
      var items := Routed(ops, rules[..n], target);
      if TargetOf(ops, rules[n]) != target then items
      else items + RuleItems(RuleId(ops, rules[n], n), rules[n].weight, PatternTokens(ops, rules[n].pattern))
  }

  ghost function SumWeights(matches: seq<Dfa.Match>): int {
    if matches == [] then 0 else SumWeights(matches[..|matches| - 1]) + matches[|matches| - 1].weight
  }

  lemma {:induction false} SumWeightsRemove(matches: seq<Dfa.Match>, k: nat)
    requires k < |matches|
    ensures SumWeights(matches) == SumWeights(matches[..k] + matches[k + 1..]) + matches[k].weight
  {
    var n := |matches| - 1;
    if k == n {
      assert matches[..k] + matches[k + 1..] == matches[..n];
    } else {
      SumWeightsRemove(matches[..n], k);
      var rest := matches[..k] + matches[k + 1..];
      assert rest[..|rest| - 1] == matches[..n][..k] + matches[..n][k + 1..];
    }
  }

  /** The order in which matches are listed does not change their sum. */
  lemma {:induction false} SumWeightsPermutes(a: seq<Dfa.Match>, b: seq<Dfa.Match>)
    requires multiset(a) == multiset(b)
    ensures SumWeights(a) == SumWeights(b)
  {
    if a == [] {
      assert |b| == |multiset(b)| == 0;
    } else {
      var n := |a| - 1;
      var k := FindMatch(b, a[n], multiset(a));
      var rest := b[..k] + b[k + 1..];
      MultisetCut(a, n);
      MultisetCut(b, k);
      assert a[..n] + a[n + 1..] == a[..n];
      SumWeightsRemove(b, k);
      SumWeightsPermutes(a[..n], rest);
    }
  }

  lemma FindMatch(b: seq<Dfa.Match>, m: Dfa.Match, ms: multiset<Dfa.Match>) returns (k: nat)
    requires multiset(b) == ms && m in ms
    ensures k < |b| && b[k] == m
  {
    assert m in b;
    k :| k < |b| && b[k] == m;
  }

  lemma MultisetCut(b: seq<Dfa.Match>, k: nat)
    requires k < |b|
    ensures multiset(b[..k] + b[k + 1..]) == multiset(b) - multiset{b[k]}
  {
    assert b == b[..k] + [b[k]] + b[k + 1..];
  }

  /** What a matcher built from `items` adds to the score of a text. */
  ghost function ItemsScore(norm: Dfa.Normaliser, text: Word, items: seq<Dfa.Rule>): nat {
    if items == [] then 0
    else
      var n := |items| - 1;
      ItemsScore(norm, text, items[..n]) + TokenScore(norm, text, items[n].token, items[n].weight)
  }

  /** The matches of a scan, as one list, in rule order. */
  ghost function MatchList(rules: seq<Dfa.Rule>, text: Word): (ms: seq<Dfa.Match>)
    ensures multiset(ms) == Dfa.NaiveMatches(rules, text)
  {
    if rules == [] then []
    else
      var r := rules[|rules| - 1];
      var ms := MatchList(rules[..|rules| - 1], text);
      if Contains(Fold(text), Fold(r.token)) then ms + [Dfa.Match(r.id, r.weight)] else ms
  }

  lemma {:induction false} SumWeightsConcat(a: seq<Dfa.Match>, m: Dfa.Match)
    ensures SumWeights(a + [m]) == SumWeights(a) + m.weight
  {
    assert (a + [m])[..|a|] == a;
  }

  lemma {:induction false} MatchListScore(items: seq<Dfa.Rule>, norm: Dfa.Normaliser, text: Word)
    ensures SumWeights(MatchList(Dfa.Kept(items, norm), text)) == ItemsScore(norm, text, items)
  {
    if items != [] {
      var n := |items| - 1;
      MatchListScore(items[..n], norm, text);
      if norm(items[n].token) != [] {
        var r := Dfa.Rule(items[n].id, Dfa.EffectiveWeight(items[n].weight), norm(items[n].token));
      }
    }
  }

  lemma {:induction false} ItemsScoreConcat(norm: Dfa.Normaliser, text: Word, a: seq<Dfa.Rule>, b: seq<Dfa.Rule>)
    ensures ItemsScore(norm, text, a + b) == ItemsScore(norm, text, a) + ItemsScore(norm, text, b)
  {
    if b == [] {
      assert a + b == a;
    } else {
      ItemsScoreConcat(norm, text, a, b[..|b| - 1]);
      assert (a + b)[..|a + b| - 1] == a + b[..|b| - 1];
    }
  }

  lemma {:induction false} OneRuleItemsScore(
    norm: Dfa.Normaliser, text: Word, id: Word, tokens: seq<Word>, weight: int)
    ensures ItemsScore(norm, text, RuleItems(id, weight, tokens)) == TokensScore(norm, text, tokens, weight)
  {
    if tokens != [] {
      var init := tokens[..|tokens| - 1];
      OneRuleItemsScore(norm, text, id, init, weight);
      assert RuleItems(id, weight, tokens)[..|init|] == RuleItems(id, weight, init);
    }
  }

  /** The share of one target in the naive score. */
  ghost function TargetScore(ops: TextOps, rules: seq<SignatureRule>, target: Target, text: Word): nat {
    if rules == [] then 0
    else
      var r := rules[|rules| - 1];
      TargetScore(ops, rules[..|rules| - 1], target, text) +
      (if TargetOf(ops, r) == target
       then TokensScore(ops.Normalise(), text, PatternTokens(ops, r.pattern), r.weight) else 0)
  }

  lemma {:induction false} RoutedScore(
    ops: TextOps, rules: seq<SignatureRule>, target: Target, text: Word)
    ensures ItemsScore(ops.Normalise(), text, Routed(ops, rules, target)) == TargetScore(ops, rules, target, text)
  {
    if rules != [] {
      var n := |rules| - 1;
      var r := rules[n];
      RoutedScore(ops, rules[..n], target, text);
      if TargetOf(ops, r) == target {
        var items := RuleItems(RuleId(ops, r, n), r.weight, PatternTokens(ops, r.pattern));
        ItemsScoreConcat(ops.Normalise(), text, Routed(ops, rules[..n], target), items);
        OneRuleItemsScore(ops.Normalise(), text, RuleId(ops, r, n), PatternTokens(ops, r.pattern), r.weight);
      }
    }
  }

  /** The four shares make up the naive score: every token is scored exactly once. */
  lemma {:induction false} TargetsPartitionScore(ops: TextOps, rules: seq<SignatureRule>, texts: Texts)
    ensures NaiveScore(ops, rules, texts) ==
            TargetScore(ops, rules, Any, texts(Any)) + TargetScore(ops, rules, Query, texts(Query)) +
            TargetScore(ops, rules, Headers, texts(Headers)) + TargetScore(ops, rules, Path, texts(Path))
  {
    if rules != [] {
      TargetsPartitionScore(ops, rules[..|rules| - 1], texts);
    }
  }

  lemma {:induction false} EmptyTextScoresNothing(ops: TextOps, rules: seq<SignatureRule>, target: Target)
    ensures TargetScore(ops, rules, target, []) == 0
  {
    if rules != [] {
      var r := rules[|rules| - 1];
      EmptyTextScoresNothing(ops, rules[..|rules| - 1], target);
      NoTokenInEmptyText(ops.Normalise(), PatternTokens(ops, r.pattern), r.weight);
    }
  }

  lemma {:induction false} NoTokenInEmptyText(norm: Dfa.Normaliser, tokens: seq<Word>, weight: int)
    ensures TokensScore(norm, [], tokens, weight) == 0
  {
    if tokens != [] {
      NoTokenInEmptyText(norm, tokens[..|tokens| - 1], weight);
    }
  }

  // ---------------------------------------------------------------------
  // Compilation
  // ---------------------------------------------------------------------

  class CompiledRuleset {
    const any: Dfa.Matcher?
    const query: Dfa.Matcher?
    const headers: Dfa.Matcher?
    const path: Dfa.Matcher?

    constructor (any: Dfa.Matcher?, query: Dfa.Matcher?, headers: Dfa.Matcher?, path: Dfa.Matcher?)
      ensures this.any == any && this.query == query && this.headers == headers && this.path == path
    {
      this.any, this.query, this.headers, this.path := any, query, headers, path;
    }

    ghost predicate Valid()
      reads any, query, headers, path
    {
      && (any != null ==> any.Valid())
      && (query != null ==> query.Valid())
      && (headers != null ==> headers.Valid())
      && (path != null ==> path.Valid())
    }

    /** The four matchers hold exactly the routed tokens of `rules`. */
    ghost predicate Compiles(ops: TextOps, rules: seq<SignatureRule>)
      reads any, query, headers, path
    {
      && Holds(any, ops, rules, Any)
      && Holds(query, ops, rules, Query)
      && Holds(headers, ops, rules, Headers)
      && Holds(path, ops, rules, Path)
    }
  }

  ghost predicate Holds(m: Dfa.Matcher?, ops: TextOps, rules: seq<SignatureRule>, target: Target)
    reads m
  {
    m != null && m.rules == Dfa.Kept(Routed(ops, rules, target), ops.Normalise())
  }

  ghost function Appended(items: seq<Dfa.Rule>, here: bool, more: seq<Dfa.Rule>): seq<Dfa.Rule> {
    if here then items + more else items
  }

  method CompileRuleset(ops: TextOps, rules: seq<SignatureRule>) returns (c: CompiledRuleset)
    requires |rules| < TWO_63
    ensures fresh(c) && c.Valid() && c.Compiles(ops, rules)
  {
    hide Routed;
    var queryRules, headerRules, pathRules, anyRules := RouteRules(ops, rules);
    var anyM := new Dfa.Matcher(anyRules, ops.Normalise());
    var queryM := new Dfa.Matcher(queryRules, ops.Normalise());
    var headerM := new Dfa.Matcher(headerRules, ops.Normalise());
    var pathM := new Dfa.Matcher(pathRules, ops.Normalise());
    c := new CompiledRuleset(anyM, queryM, headerM, pathM);
  }

  /** The loop over rules and tokens that fills the four item lists. */
  method RouteRules(ops: TextOps, rules: seq<SignatureRule>)
    returns (queryRules: seq<Dfa.Rule>, headerRules: seq<Dfa.Rule>, pathRules: seq<Dfa.Rule>, anyRules: seq<Dfa.Rule>)
    requires |rules| < TWO_63
    ensures queryRules == Routed(ops, rules, Query) && headerRules == Routed(ops, rules, Headers)
    ensures pathRules == Routed(ops, rules, Path) && anyRules == Routed(ops, rules, Any)
  {
    hide Routed;
    hide RuleItems;
    hide PatternTokens;
    hide Decimal;
    hide IsDecimal;
    hide DecimalValue;
    queryRules, headerRules, pathRules, anyRules := [], [], [], [];
    RoutedEmpty(ops, rules[..0]);
    var i := 0;
    while i < |rules|
      invariant 0 <= i <= |rules|
      invariant anyRules == Routed(ops, rules[..i], Any)
      invariant queryRules == Routed(ops, rules[..i], Query)
      invariant headerRules == Routed(ops, rules[..i], Headers)
      invariant pathRules == Routed(ops, rules[..i], Path)
    {
      var rule := rules[i];
      var ruleID := ops.trim(rule.name);
      if ruleID == [] {
        var digits := StrconvI(i);
        DecimalIsUnique(digits);
        ruleID := RULE_PREFIX + digits;
      }
      var tokens := ExtractPatternTokens(ops, rule.pattern);
      ghost var query0, header0, path0, any0 := queryRules, headerRules, pathRules, anyRules;
      ghost var target := TargetOf(ops, rule);
      var t := 0;
      while t < |tokens|
        invariant 0 <= t <= |tokens|
        invariant anyRules == Appended(any0, target == Any, RuleItems(ruleID, rule.weight, tokens[..t]))
        invariant queryRules == Appended(query0, target == Query, RuleItems(ruleID, rule.weight, tokens[..t]))
        invariant headerRules == Appended(header0, target == Headers, RuleItems(ruleID, rule.weight, tokens[..t]))
        invariant pathRules == Appended(path0, target == Path, RuleItems(ruleID, rule.weight, tokens[..t]))
      {
        var item := Dfa.Rule(ruleID, rule.weight, tokens[t]);
        ItemsStep(ruleID, rule.weight, tokens, t);
        ghost var items := RuleItems(ruleID, rule.weight, tokens[..t]);
        assert (any0 + items) + [item] == any0 + (items + [item]);
        assert (query0 + items) + [item] == query0 + (items + [item]);
        assert (header0 + items) + [item] == header0 + (items + [item]);
        assert (path0 + items) + [item] == path0 + (items + [item]);
        var m := ops.lower(rule.target);
        if m == QUERY {
          queryRules := queryRules + [item];
        } else if m == HEADERS {
          headerRules := headerRules + [item];
        } else if m == PATH {
          pathRules := pathRules + [item];
        } else {
          anyRules := anyRules + [item];
        }
        t := t + 1;
      }
      assert tokens[..t] == tokens;
      RoutedStep(ops, rules, i);
      i := i + 1;
    }
    assert rules[..i] == rules;
  }

  lemma RoutedEmpty(ops: TextOps, rules: seq<SignatureRule>)
    requires rules == []
    ensures forall target: Target :: Routed(ops, rules, target) == []
  {
  }

  lemma RoutedStep(ops: TextOps, rules: seq<SignatureRule>, i: nat)
    requires i < |rules|
    ensures forall target: Target :: Routed(ops, rules[..i + 1], target) ==
              Appended(Routed(ops, rules[..i], target), TargetOf(ops, rules[i]) == target,
                       RuleItems(RuleId(ops, rules[i], i), rules[i].weight, PatternTokens(ops, rules[i].pattern)))
  {
    assert rules[..i + 1][..i] == rules[..i];
  }

  lemma ItemsStep(id: Word, weight: int, tokens: seq<Word>, t: nat)
    requires t < |tokens|
    ensures RuleItems(id, weight, tokens[..t + 1]) ==
            RuleItems(id, weight, tokens[..t]) + [Dfa.Rule(id, weight, tokens[t])]
  {
    assert tokens[..t + 1][..t] == tokens[..t];
  }
}
