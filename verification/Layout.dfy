/** What the texts that signature rules see contain of a request, byte by byte, and
    what a single rule scores: a colon is 58, a semicolon 59, a newline 10. */
module Layout {
  import opened Words
  import opened Wrappers
  import opened Tokens
  import opened Ruleset
  import opened Scoring
  import opened Patterns
  import Dfa

  // ---------------------------------------------------------------------
  // Headers
  // ---------------------------------------------------------------------

  /** Bytes of a segment before its j-th value. */
  function ValueStart(key: Word, values: seq<Word>, j: nat): nat
    requires j <= |values|
  {
    if j == 0 then |key| + 1 else ValueStart(key, values, j - 1) + |values[j - 1]| + 1
  }

  ghost predicate ValueAt(key: Word, values: seq<Word>, seg: Word, j: nat)
    requires j < |values|
  {
    var i := ValueStart(key, values, j);
    i + |values[j]| < |seg| && seg[i..i + |values[j]|] == values[j] && seg[i + |values[j]|] == 59
  }

  /** A segment is the key, a colon, each value with a semicolon, and a newline. */
  lemma SegmentBytes(key: Word, values: seq<Word>)
    ensures var seg := Segment(key, values);
            && |seg| == ValueStart(key, values, |values|) + 1
            && seg[..|key|] == key && seg[|key|] == 58 && seg[|seg| - 1] == 10
            && forall j: nat :: j < |values| ==> ValueAt(key, values, seg, j)
  {
    hide ValueAt;
    var front, all := key + [58], Values(values);
    assert Segment(key, values) == front + all + [10];
    ValuesStart(key, values, |values|);
    assert values[..|values|] == values;
    forall j: nat | j < |values|
      ensures ValueAt(key, values, Segment(key, values), j)
    {
      ValuesInOrder(values, j);
      ValuesStart(key, values, j);
      ValueInSegment(key, values, j, front, Values(values[..j]), all);
    }
  }

  lemma {:induction false} ValuesStart(key: Word, values: seq<Word>, j: nat)
    requires j <= |values|
    ensures ValueStart(key, values, j) == |key| + 1 + |Values(values[..j])|
  {
    if j > 0 {
      ValuesStart(key, values, j - 1);
      assert values[..j][..j - 1] == values[..j - 1];
    }
  }

  lemma {:induction false} ValuesInOrder(values: seq<Word>, j: nat)
    requires j < |values|
    ensures Values(values[..j]) + values[j] + [59] <= Values(values)
  {
    var n := |values| - 1;
    if j < n {
      ValuesInOrder(values[..n], j);
      assert values[..n][..j] == values[..j];
    }
  }

  lemma ValueInSegment(key: Word, values: seq<Word>, j: nat, front: Word, before: Word, all: Word)
    requires j < |values| && |front| + |before| == ValueStart(key, values, j)
    requires before + values[j] + [59] <= all && Segment(key, values) == front + all + [10]
    ensures ValueAt(key, values, Segment(key, values), j)
  {
    hide Segment;
    var v, seg, i := values[j], Segment(key, values), |front| + |before|;
    var upTo := before + v + [59];
    assert all[..|upTo|] == upTo;
    assert seg[i..i + |v|] == upTo[|before|..|before| + |v|];
    assert seg[i + |v|] == upTo[|before| + |v|];
  }

  /** The header text is one segment after the other, in walk order. */
  lemma {:induction false} RenderInOrder(h: Header, order: seq<Word>, i: nat)
    requires (forall k :: k in order ==> k in h) && i < |order|
    ensures Render(h, []) == []
    ensures Render(h, order[..i]) + Segment(order[i], h[order[i]]) <= Render(h, order)
  {
    var n := |order| - 1;
    if i < n {
      RenderInOrder(h, order[..n], i);
      assert order[..n][..i] == order[..i];
    }
  }

  // ---------------------------------------------------------------------
  // Where a token can be found
  // ---------------------------------------------------------------------

  lemma FoundInPart(a: Word, b: Word, c: Word, t: Word)
    requires FoundIn(b, t)
    ensures FoundIn(a + b + c, t)
  {
    var i: nat :| SliceIs(b, t, i);
    assert (a + b + c)[|a| + i..|a| + i + |t|] == b[i..i + |t|];
    assert SliceIs(a + b + c, t, |a| + i);
  }

  lemma MethodInAny(r: Request, headers: Word) returns (rest: Word)
    ensures AnyPrefix(r) + headers == [] + r.httpMethod + rest
  {
    rest := (AnyPrefix(r) + headers)[|r.httpMethod|..];
  }

  lemma PathInAny(r: Request, headers: Word)
    requires r.url.Some?
    ensures AnyPrefix(r) + headers ==
            (r.httpMethod + [32]) + r.url.value.path + ([63] + r.url.value.rawQuery + [32] + headers)
  {
  }

  lemma QueryInAny(r: Request, headers: Word)
    requires r.url.Some?
    ensures AnyPrefix(r) + headers ==
            (r.httpMethod + [32] + r.url.value.path + [63]) + r.url.value.rawQuery + ([32] + headers)
  {
  }

  lemma HeaderInAny(r: Request, order: seq<Word>, k: Word) returns (before: Word, rest: Word)
    requires IsOrder(r.header, order) && k in r.header
    ensures AnyPrefix(r) + Render(r.header, order) == (AnyPrefix(r) + before) + Segment(k, r.header[k]) + rest
  {
    hide AnyPrefix;
    hide Segment;
    assert k in order;
    var i: nat :| i < |order| && order[i] == k;
    RenderInOrder(r.header, order, i);
    var headers := Render(r.header, order);
    before := Render(r.header, order[..i]);
    var upTo := before + Segment(k, r.header[k]);
    rest := headers[|upTo|..];
    assert headers == upTo + rest;
  }

  /** What is found in the method, the path, the raw query or one header is found in
      the `any` text of the request. */
  lemma AnySeesEverything(r: Request, order: seq<Word>, t: Word)
    requires IsOrder(r.header, order)
    requires || FoundIn(r.httpMethod, t)
             || (r.url.Some? && (FoundIn(r.url.value.path, t) || FoundIn(r.url.value.rawQuery, t)))
             || (exists k :: k in r.header && FoundIn(Segment(k, r.header[k]), t))
    ensures FoundIn(AnyPrefix(r) + Render(r.header, order), t)
  {
    hide FoundIn;
    hide AnyPrefix;
    hide Render;
    hide Segment;
    var m, headers := r.httpMethod, Render(r.header, order);
    if FoundIn(m, t) {
      var rest := MethodInAny(r, headers);
      FoundInPart([], m, rest, t);
    } else if r.url.Some? && FoundIn(r.url.value.path, t) {
      PathInAny(r, headers);
      FoundInPart(m + [32], r.url.value.path, [63] + r.url.value.rawQuery + [32] + headers, t);
    } else if r.url.Some? && FoundIn(r.url.value.rawQuery, t) {
      QueryInAny(r, headers);
      FoundInPart(m + [32] + r.url.value.path + [63], r.url.value.rawQuery, [32] + headers, t);
    } else {
      var k :| k in r.header && FoundIn(Segment(k, r.header[k]), t);
      var before, rest := HeaderInAny(r, order, k);
      FoundInPart(AnyPrefix(r) + before, Segment(k, r.header[k]), rest, t);
    }
  }

  // ---------------------------------------------------------------------
  // The score of one rule
  // ---------------------------------------------------------------------

  /** The text that a rule with this target name is matched against. */
  ghost function SeenBy(m: Word, r: Request, anyOrder: seq<Word>, headerOrder: seq<Word>): Word
    requires IsOrder(r.header, anyOrder) && IsOrder(r.header, headerOrder)
  {
    if m == [113, 117, 101, 114, 121] then if r.url.Some? then r.url.value.rawQuery else []
    else if m == [112, 97, 116, 104] then if r.url.Some? then r.url.value.path else []
    else if m == [104, 101, 97, 100, 101, 114, 115] then Render(r.header, headerOrder)
    else
      r.httpMethod + [32] + (if r.url.Some? then r.url.value.path + [63] + r.url.value.rawQuery else []) + [32] +
      Render(r.header, anyOrder)
  }

  /** How many of the tokens are found in the text, up to ASCII case. */
  ghost function FoundCount(ops: TextOps, text: Word, tokens: seq<Word>): nat {
    if tokens == [] then 0
    else
      var w := ops.trim(ops.lower(tokens[|tokens| - 1]));
      FoundCount(ops, text, tokens[..|tokens| - 1]) + (if w != [] && FoundIn(text, w) then 1 else 0)
  }

  lemma {:induction false} TokensScoreCounts(ops: TextOps, text: Word, tokens: seq<Word>, weight: int)
    ensures TokensScore(ops.Normalise(), text, tokens, weight) ==
            FoundCount(ops, text, tokens) * (if weight > 0 then weight else 1)
  {
    if tokens != [] {
      var n := |tokens| - 1;
      TokensScoreCounts(ops, text, tokens[..n], weight);
      ContainsFolded(text, ops.Normalise()(tokens[n]));
      TimesOneMore(FoundCount(ops, text, tokens[..n]), if weight > 0 then weight else 1);
    }
  }

  lemma TimesOneMore(n: nat, w: int)
    ensures (n + 1) * w == n * w + w
  {
  }

  /** The naive score is, over all rules, the rule's weight (1 when it is not positive)
      times the number of its tokens found in the text of its target. */
  lemma {:induction false} ScoreCountsTokens(
    ops: TextOps, rules: seq<SignatureRule>, rule: SignatureRule, r: Request, a: seq<Word>, h: seq<Word>)
    requires IsOrder(r.header, a) && IsOrder(r.header, h)
    ensures NaiveScore(ops, [], RequestTexts(r, a, h)) == 0
    ensures NaiveScore(ops, rules + [rule], RequestTexts(r, a, h)) ==
            NaiveScore(ops, rules, RequestTexts(r, a, h)) +
            FoundCount(ops, SeenBy(ops.lower(rule.target), r, a, h), PatternTokens(ops, rule.pattern)) *
            (if rule.weight > 0 then rule.weight else 1)
  {
    hide Render;
    hide IsOrder;
    hide TokensScore;
    hide FoundCount;
    hide PatternTokens;
    var texts := RequestTexts(r, a, h);
    TargetsSpelled(ops, rule);
    TokensScoreCounts(ops, texts(TargetOf(ops, rule)), PatternTokens(ops, rule.pattern), rule.weight);
    SameText(ops, rule, r, a, h);
    assert (rules + [rule])[..|rules|] == rules;
  }

  lemma SameText(ops: TextOps, rule: SignatureRule, r: Request, a: seq<Word>, h: seq<Word>)
    requires IsOrder(r.header, a) && IsOrder(r.header, h)
    ensures RequestTexts(r, a, h)(TargetOf(ops, rule)) == SeenBy(ops.lower(rule.target), r, a, h)
  {
    hide Render;
    TargetsSpelled(ops, rule);
  }

  /** Routing appends, for the last rule, one item per token in order, under the rule's
      own name or its position's, with the rule's weight, to its target's list only. */
  lemma RoutedLast(ops: TextOps, rules: seq<SignatureRule>, target: Target)
    ensures Routed(ops, [], target) == []
    ensures rules != [] ==>
              var n := |rules| - 1;
              var tokens := PatternTokens(ops, rules[n].pattern);
              var before, all := Routed(ops, rules[..n], target), Routed(ops, rules, target);
              if TargetOf(ops, rules[n]) != target then all == before
              else
                && |all| == |before| + |tokens| && before <= all
                && forall k: nat :: k < |tokens| ==>
                     all[|before| + k] == Dfa.Rule(RuleId(ops, rules[n], n), rules[n].weight, tokens[k])
  {
    hide RuleItems;
    hide PatternTokens;
    hide TargetOf;
    hide RuleId;
    if rules != [] {
      var n := |rules| - 1;
      ItemsInOrder(RuleId(ops, rules[n], n), rules[n].weight, PatternTokens(ops, rules[n].pattern));
    }
  }

  lemma {:induction false} ItemsInOrder(id: Word, weight: int, tokens: seq<Word>)
    ensures forall k: nat :: k < |tokens| ==> RuleItems(id, weight, tokens)[k] == Dfa.Rule(id, weight, tokens[k])
  {
    if tokens != [] {
      ItemsInOrder(id, weight, tokens[..|tokens| - 1]);
    }
  }
}
