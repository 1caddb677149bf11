/** Scoring a request against the current ruleset (engine_ruleset.go), and how
    far the score depends on the order in which the header map is walked. */
module Scoring {
  import opened Words
  import opened Tokens
  import opened Ruleset
  import opened Wrappers
  import Dfa
  import opened Automaton

  datatype Url = Url(path: Word, rawQuery: Word)

  type Header = map<Word, seq<Word>>

  datatype Request = Request(httpMethod: Word, url: Option<Url>, header: Header)

  const NEWLINE: Byte := 10
  const SPACE: Byte := 32
  const COLON: Byte := 58
  const SEMICOLON: Byte := 59
  const QUESTION: Byte := 63

  // ---------------------------------------------------------------------
  // The texts
  // ---------------------------------------------------------------------

  function Values(values: seq<Word>): Word {
    if values == [] then [] else Values(values[..|values| - 1]) + values[|values| - 1] + [SEMICOLON]
  }

  function Segment(key: Word, values: seq<Word>): Word {
    key + [COLON] + Values(values) + [NEWLINE]
  }

  /** An order in which every key is visited once. */
  ghost predicate IsOrder(h: Header, order: seq<Word>) {
    && (forall i, j :: 0 <= i < j < |order| ==> order[i] != order[j])
    && (forall k :: k in order <==> k in h)
  }

  ghost function Render(h: Header, order: seq<Word>): Word
    requires forall k :: k in order ==> k in h
  {
    if order == [] then []
    else Render(h, order[..|order| - 1]) + Segment(order[|order| - 1], h[order[|order| - 1]])
  }

  /** The header text depends on the order in which the map is walked. */
  method HeadersText(h: Header) returns (text: Word, ghost order: seq<Word>)
    ensures IsOrder(h, order) && text == Render(h, order)
    ensures exists o :: IsOrder(h, o) && text == Render(h, o)
  {
    order := [];
    text := [];
    if |h| == 0 {
      assert h.Keys == {};
      return;
    }
    var todo := h.Keys;
    while todo != {}
      invariant forall i, j :: 0 <= i < j < |order| ==> order[i] != order[j]
      invariant forall k :: k in order <==> k in h && k !in todo
      invariant todo <= h.Keys
      invariant text == Render(h, order)
      decreases todo
    {
      var key :| key in todo;
      text := AppendHeader(text, key, h[key]);
      RenderOneMore(h, order, key);
      order := order + [key];
      todo := todo - {key};
    }
  }

  /** One turn of the loop over the map. */
  method AppendHeader(before: Word, key: Word, values: seq<Word>) returns (text: Word)
    ensures text == before + Segment(key, values)
  {
    text := before + key + [COLON];
    var v := 0;
    while v < |values|
      invariant 0 <= v <= |values|
      invariant text == before + (key + [COLON] + Values(values[..v]))
    {
      assert values[..v + 1][..v] == values[..v];
      text := text + values[v] + [SEMICOLON];
      v := v + 1;
    }
    assert values[..v] == values;
    text := text + [NEWLINE];
  }

  lemma RenderOneMore(h: Header, order: seq<Word>, key: Word)
    requires forall k :: k in order ==> k in h
    requires key in h
    ensures Render(h, order + [key]) == Render(h, order) + Segment(key, h[key])
  {
    assert (order + [key])[..|order|] == order;
  }

  function AnyPrefix(r: Request): Word {
    match r.url
    case None => r.httpMethod + [SPACE] + [SPACE]
    case Some(u) => r.httpMethod + [SPACE] + u.path + [QUESTION] + u.rawQuery + [SPACE]
  }

  /** Method, a space, path ? query (with a URL), a space and the header text. */
  ghost predicate AnyLaidOut(r: Request, headers: Word, text: Word) {
    var m := |r.httpMethod|;
    && |text| > m && text[..m] == r.httpMethod && text[m] == 32
    && match r.url
       case None => |text| > m + 1 && text[m + 1] == 32 && text[m + 2..] == headers
       case Some(u) =>
         var p := m + 1 + |u.path|;
         var q := p + 1 + |u.rawQuery|;
         && |text| > q && text[m + 1..p] == u.path && text[p] == 63
         && text[p + 1..q] == u.rawQuery && text[q] == 32 && text[q + 1..] == headers
  }

  lemma AnyTextLaidOut(r: Request, headers: Word)
    ensures AnyLaidOut(r, headers, AnyPrefix(r) + headers)
  {
  }

  method RequestAnyText(r: Request) returns (text: Word, ghost order: seq<Word>)
    ensures IsOrder(r.header, order) && text == AnyPrefix(r) + Render(r.header, order)
    ensures exists o :: IsOrder(r.header, o) && text == AnyPrefix(r) + Render(r.header, o)
    ensures AnyLaidOut(r, Render(r.header, order), text)
  {
    text := r.httpMethod + [SPACE];
    if r.url.Some? {
      text := text + r.url.value.path + [QUESTION] + r.url.value.rawQuery;
    }
    text := text + [SPACE];
    var headers;
    headers, order := HeadersText(r.header);
    text := text + headers;
    AnyTextLaidOut(r, headers);
  }

  // ---------------------------------------------------------------------
  // Scoring
  // ---------------------------------------------------------------------

  class RulesetManager {
    var cur: CompiledRuleset?

    constructor (cur: CompiledRuleset?)
      ensures this.cur == cur
    {
      this.cur := cur;
    }

    /** A failed load keeps the ruleset that is in force. */
    method Reload(loaded: Option<CompiledRuleset>)
      modifies this
      ensures cur == if loaded.Some? then loaded.value else old(cur)
    {
      if loaded.None? {
        return;
      }
      cur := loaded.value;
    }
  }

  class Evaluator {
    var compiled: CompiledRuleset?
    const ruleset: RulesetManager?

    constructor (compiled: CompiledRuleset?, ruleset: RulesetManager?)
      ensures this.compiled == compiled && this.ruleset == ruleset
    {
      this.compiled, this.ruleset := compiled, ruleset;
    }

    /** The ruleset that the next evaluation uses. */
    function InForce(): CompiledRuleset?
      reads this, ruleset
    {
      if ruleset != null then ruleset.cur else compiled
    }

    /** The 64-bit sum of the matches of the four matchers, for some header orders. */
    method EvaluateRuleset(r: Request)
      returns (score: int, ghost anyOrder: seq<Word>, ghost headerOrder: seq<Word>)
      requires InForce() != null ==> InForce().Valid()
      modifies this`compiled
      ensures compiled == if ruleset != null then old(ruleset.cur) else old(compiled)
      ensures IsOrder(r.header, anyOrder) && IsOrder(r.header, headerOrder)
      ensures score == if compiled == null then 0 else Wrap64(CompiledScore(compiled, r, anyOrder, headerOrder))
    {
      score := 0;
      anyOrder := SomeOrder(r.header, r.header.Keys);
      headerOrder := anyOrder;
      var c := compiled;
      if ruleset != null {
        c := ruleset.cur;
        compiled := c;
      }
      if c == null {
        return;
      }
      score, anyOrder, headerOrder := SumMatchers(c, r);
    }
  }

  /** The four matcher loops, in the order of the source. */
  method SumMatchers(c: CompiledRuleset, r: Request)
    returns (score: int, ghost anyOrder: seq<Word>, ghost headerOrder: seq<Word>)
    requires c.Valid()
    ensures IsOrder(r.header, anyOrder) && IsOrder(r.header, headerOrder)
    ensures score == Wrap64(CompiledScore(c, r, anyOrder, headerOrder))
    ensures exists a, o :: IsOrder(r.header, a) && IsOrder(r.header, o) && score == Wrap64(CompiledScore(c, r, a, o))
  {
    hide IsOrder;
    hide Render;
    hide Wrap64;
    hide MatcherScore;
    hide AutomatonOf;
    score := 0;
    anyOrder := SomeOrder(r.header, r.header.Keys);
    headerOrder := anyOrder;
    if c.any != null {
      var text;
      text, anyOrder := RequestAnyText(r);
      score := AddMatches(c.any, text, score, 0);
    }
    ghost var s1 := MatcherScore(c.any, AnyPrefix(r) + Render(r.header, anyOrder));
    NoMatcherNoScore(AnyPrefix(r) + Render(r.header, anyOrder));
    score := AddUrlMatches(c, r, score, s1);
    ghost var s2 := UrlScore(c, r);
    if c.headers != null {
      var text;
      text, headerOrder := HeadersText(r.header);
      score := AddMatches(c.headers, text, score, s1 + s2);
    }
    NoMatcherNoScore(Render(r.header, headerOrder));
  }

  /** The part of the score that a request without a URL does not have. */
  ghost function UrlScore(c: CompiledRuleset, r: Request): int
    reads c.query, c.path
  {
    (if r.url.Some? then MatcherScore(c.query, r.url.value.rawQuery) else 0) +
    (if r.url.Some? then MatcherScore(c.path, r.url.value.path) else 0)
  }

  method AddUrlMatches(c: CompiledRuleset, r: Request, start: int, ghost exact: int) returns (score: int)
    requires c.Valid() && start == Wrap64(exact)
    ensures score == Wrap64(exact + UrlScore(c, r))
  {
    hide Wrap64;
    hide MatcherScore;
    hide AutomatonOf;
    score := start;
    if r.url.Some? {
      NoMatcherNoScore(r.url.value.rawQuery);
      NoMatcherNoScore(r.url.value.path);
    }
    if c.query != null && r.url.Some? {
      score := AddMatches(c.query, r.url.value.rawQuery, score, exact);
    }
    ghost var queried := exact + if r.url.Some? then MatcherScore(c.query, r.url.value.rawQuery) else 0;
    if c.path != null && r.url.Some? {
      score := AddMatches(c.path, r.url.value.path, score, queried);
    }
  }

  lemma NoMatcherNoScore(text: Word)
    ensures MatcherScore(null, text) == 0
  {
  }

  /** Every header map can be walked in some order. */
  lemma {:induction false} SomeOrder(h: Header, keys: set<Word>) returns (order: seq<Word>)
    requires keys <= h.Keys
    ensures forall i, j :: 0 <= i < j < |order| ==> order[i] != order[j]
    ensures forall k :: k in order <==> k in keys
    ensures keys == h.Keys ==> IsOrder(h, order)
    decreases keys
  {
    if keys == {} {
      order := [];
    } else {
      var key :| key in keys;
      var rest := SomeOrder(h, keys - {key});
      order := rest + [key];
    }
  }

  /** What one matcher, if there is one, contributes for a text. */
  ghost function MatcherScore(m: Dfa.Matcher?, text: Word): int
    reads m
  {
    if m == null then 0 else SumWeights(MatchList(m.rules, text))
  }

  ghost function CompiledScore(c: CompiledRuleset, r: Request, anyOrder: seq<Word>, headerOrder: seq<Word>): int
    requires IsOrder(r.header, anyOrder) && IsOrder(r.header, headerOrder)
    reads c.any, c.query, c.path, c.headers
  {
    MatcherScore(c.any, AnyPrefix(r) + Render(r.header, anyOrder)) +
    UrlScore(c, r) +
    MatcherScore(c.headers, Render(r.header, headerOrder))
  }

  /** The loop `for match: score += weight` over one matcher; `exact` is the
      sum so far before wrapping. */
  method AddMatches(m: Dfa.Matcher, text: Word, start: int, ghost exact: int) returns (score: int)
    requires m.Valid() && start == Wrap64(exact)
    ensures score == Wrap64(exact + MatcherScore(m, text))
  {
    hide Wrap64;
    hide MatchList;
    var matches := m.FindAll(text);
    score := start;
    var i := 0;
    while i < |matches|
      invariant 0 <= i <= |matches|
      invariant score == Wrap64(exact + SumWeights(matches[..i]))
    {
      assert matches[..i + 1][..i] == matches[..i];
      WrapOnce(exact + SumWeights(matches[..i]), matches[i].weight);
      score := Wrap64(score + matches[i].weight);
      i := i + 1;
    }
    assert matches[..i] == matches;
    SumWeightsPermutes(matches, MatchList(m.rules, text));
  }

  /** What each target sees; without a URL, query and path see nothing. */
  ghost function RequestTexts(r: Request, anyOrder: seq<Word>, headerOrder: seq<Word>): Texts
    requires IsOrder(r.header, anyOrder) && IsOrder(r.header, headerOrder)
  {
    var anyText := AnyPrefix(r) + Render(r.header, anyOrder);
    var headerText := Render(r.header, headerOrder);
    (t: Target) =>
      match t
      case Any => anyText
      case Headers => headerText
      case Query => if r.url.Some? then r.url.value.rawQuery else []
      case Path => if r.url.Some? then r.url.value.path else []
  }

  /** Four automata over routed, merged and de-duplicated tries score exactly
      like one pass of substring tests over all rules and tokens. */
  lemma CompiledScoreIsNaive(
    c: CompiledRuleset, ops: TextOps, rules: seq<SignatureRule>, r: Request,
    anyOrder: seq<Word>, headerOrder: seq<Word>)
    requires IsOrder(r.header, anyOrder) && IsOrder(r.header, headerOrder)
    requires c.Compiles(ops, rules)
    ensures CompiledScore(c, r, anyOrder, headerOrder) ==
            NaiveScore(ops, rules, RequestTexts(r, anyOrder, headerOrder))
  {
    hide MatcherScore;
    hide Render;
    hide IsOrder;
    hide Holds;
    hide NaiveScore;
    hide TargetScore;
    var texts := RequestTexts(r, anyOrder, headerOrder);
    TargetsPartitionScore(ops, rules, texts);
    HeldScore(c.any, ops, rules, Any, texts(Any));
    HeldScore(c.query, ops, rules, Query, texts(Query));
    HeldScore(c.path, ops, rules, Path, texts(Path));
    HeldScore(c.headers, ops, rules, Headers, texts(Headers));
    if r.url.None? {
      EmptyTextScoresNothing(ops, rules, Query);
      EmptyTextScoresNothing(ops, rules, Path);
    }
  }

  lemma HeldScore(m: Dfa.Matcher?, ops: TextOps, rules: seq<SignatureRule>, target: Target, text: Word)
    requires Holds(m, ops, rules, target)
    ensures MatcherScore(m, text) == TargetScore(ops, rules, target, text)
  {
    MatchListScore(Routed(ops, rules, target), ops.Normalise(), text);
    RoutedScore(ops, rules, target, text);
  }

  /** The whole path: compile, evaluate, and the result is the naive score,
      exactly when that fits 64 bits and wrapped when it does not. */
  method CompileAndEvaluate(ops: TextOps, rules: seq<SignatureRule>, r: Request)
    returns (score: int, ghost anyOrder: seq<Word>, ghost headerOrder: seq<Word>)
    requires |rules| < TWO_63
    ensures IsOrder(r.header, anyOrder) && IsOrder(r.header, headerOrder)
    ensures score == Wrap64(NaiveScore(ops, rules, RequestTexts(r, anyOrder, headerOrder)))
    ensures exists a, o :: IsOrder(r.header, a) && IsOrder(r.header, o) &&
              score == Wrap64(NaiveScore(ops, rules, RequestTexts(r, a, o)))
  {
    var c := CompileRuleset(ops, rules);
    var e := new Evaluator(c, null);
    score, anyOrder, headerOrder := e.EvaluateRuleset(r);
    CompiledScoreIsNaive(c, ops, rules, r, anyOrder, headerOrder);
  }

  // ---------------------------------------------------------------------
  // Header order
  // ---------------------------------------------------------------------

  /** t is a non-empty suffix of a followed by a non-empty prefix of b. */
  ghost predicate Spans(a: Word, b: Word, t: Word) {
    exists i: nat :: SpansAt(a, b, t, i)
  }

  ghost predicate SpansAt(a: Word, b: Word, t: Word, i: nat) {
    0 < i < |t| && IsSuffix(t[..i], a) && t[i..] <= b
  }

  /** An occurrence in a concatenation lies on one side or spans the cut. */
  lemma ContainsConcat(a: Word, b: Word, t: Word)
    requires t != []
    ensures Contains(a + b, t) <==> Contains(a, t) || Contains(b, t) || Spans(a, b, t)
  {
    OneSide(a, b, t);
    if Contains(a + b, t) {
      var i: nat :| OccursAt(a + b, t, i);
      if i + |t| <= |a| {
        assert a[i..i + |t|] == (a + b)[i..i + |t|];
        assert OccursAt(a, t, i);
      } else if i >= |a| {
        assert b[i - |a|..i - |a| + |t|] == (a + b)[i..i + |t|];
        assert OccursAt(b, t, i - |a|);
      } else {
        SpanFromOccurrence(a, b, t, i);
      }
    }
    if Spans(a, b, t) {
      var j: nat :| SpansAt(a, b, t, j);
      OccurrenceFromSpan(a, b, t, j);
    }
  }

  lemma SpanFromOccurrence(a: Word, b: Word, t: Word, i: nat)
    requires OccursAt(a + b, t, i) && i < |a| < i + |t|
    ensures SpansAt(a, b, t, |a| - i)
  {
    var j := |a| - i;
    forall k | 0 <= k < |t|
      ensures t[k] == (a + b)[i + k]
    {
      assert (a + b)[i..i + |t|][k] == (a + b)[i + k];
    }
    assert a[|a| - j..] == t[..j];
    assert b[..|t| - j] == t[j..];
  }

  lemma OccurrenceFromSpan(a: Word, b: Word, t: Word, j: nat)
    requires SpansAt(a, b, t, j)
    ensures OccursAt(a + b, t, |a| - j)
  {
    var s := (a + b)[|a| - j..|a| - j + |t|];
    forall k | 0 <= k < |t|
      ensures s[k] == t[k]
    {
      if k < j {
        assert a[|a| - j..][k] == t[..j][k];
      } else {
        assert b[k - j] == t[j..][k - j];
      }
    }
    assert s == t;
  }

  /** A token without the last byte of a cannot start inside a and go on. */
  lemma NoSpan(a: Word, b: Word, t: Word)
    requires a != [] && Last(a) !in t
    ensures !Spans(a, b, t)
  {
    forall i: nat
      ensures !SpansAt(a, b, t, i)
    {
      if 0 < i < |t| {
        assert Last(t[..i]) == t[i - 1];
      }
    }
  }

  lemma OneSide(a: Word, b: Word, t: Word)
    ensures Contains(a, t) ==> Contains(a + b, t)
    ensures Contains(b, t) ==> Contains(a + b, t)
  {
    if Contains(a, t) {
      var i: nat :| OccursAt(a, t, i);
      assert a[i..i + |t|] == (a + b)[i..i + |t|];
      assert OccursAt(a + b, t, i);
    }
    if Contains(b, t) {
      var i: nat :| OccursAt(b, t, i);
      assert b[i..i + |t|] == (a + b)[i + |a|..i + |a| + |t|];
      assert OccursAt(a + b, t, i + |a|);
    }
  }

  ghost predicate SomeSegment(h: Header, order: seq<Word>, t: Word)
    requires forall k :: k in order ==> k in h
  {
    exists k :: k in order && Contains(Fold(Segment(k, h[k])), t)
  }

  /** Such a token occurs in the header text iff it occurs in the segment of some header. */
  lemma {:induction false} HeaderTokenIsLocal(h: Header, order: seq<Word>, t: Word)
    requires forall k :: k in order ==> k in h
    requires NEWLINE !in t && t != []
    ensures Contains(Fold(Render(h, order)), t) <==> SomeSegment(h, order, t)
  {
    if order != [] {
      var n := |order| - 1;
      var init, seg := Render(h, order[..n]), Segment(order[n], h[order[n]]);
      HeaderTokenIsLocal(h, order[..n], t);
      FoldConcat(init, seg);
      ContainsConcat(Fold(init), Fold(seg), t);
      if init != [] {
        assert Last(Fold(init)) == NEWLINE;
        NoSpan(Fold(init), Fold(seg), t);
      }
      assert forall k :: k in order <==> k in order[..n] || k == order[n];
    }
  }

  /** So the order in which the header map is walked does not matter. */
  lemma HeaderOrderIrrelevant(h: Header, o1: seq<Word>, o2: seq<Word>, t: Word)
    requires IsOrder(h, o1) && IsOrder(h, o2)
    requires NEWLINE !in t && t != []
    ensures Contains(Fold(Render(h, o1)), t) <==> Contains(Fold(Render(h, o2)), t)
  {
    HeaderTokenIsLocal(h, o1, t);
    HeaderTokenIsLocal(h, o2, t);
  }

  ghost predicate NewlineFree(norm: Dfa.Normaliser, tokens: seq<Word>) {
    forall k :: 0 <= k < |tokens| ==> NEWLINE !in Fold(norm(tokens[k]))
  }

  /** No token of a header rule contains a newline. */
  ghost predicate HeaderRulesNewlineFree(ops: TextOps, rules: seq<SignatureRule>) {
    forall i :: 0 <= i < |rules| && TargetOf(ops, rules[i]) == Headers ==>
      NewlineFree(ops.Normalise(), PatternTokens(ops, rules[i].pattern))
  }

  lemma {:induction false} TokensScoreOrder(
    norm: Dfa.Normaliser, h: Header, o1: seq<Word>, o2: seq<Word>, tokens: seq<Word>, weight: int)
    requires IsOrder(h, o1) && IsOrder(h, o2) && NewlineFree(norm, tokens)
    ensures TokensScore(norm, Render(h, o1), tokens, weight) == TokensScore(norm, Render(h, o2), tokens, weight)
  {
    if tokens != [] {
      var n := |tokens| - 1;
      TokensScoreOrder(norm, h, o1, o2, tokens[..n], weight);
      if norm(tokens[n]) != [] {
        HeaderOrderIrrelevant(h, o1, o2, Fold(norm(tokens[n])));
      }
    }
  }

  /** The score of the header rules is well defined for newline-free tokens. */
  lemma {:induction false} HeaderScoreWellDefined(
    ops: TextOps, rules: seq<SignatureRule>, h: Header, o1: seq<Word>, o2: seq<Word>)
    requires IsOrder(h, o1) && IsOrder(h, o2) && HeaderRulesNewlineFree(ops, rules)
    ensures TargetScore(ops, rules, Headers, Render(h, o1)) == TargetScore(ops, rules, Headers, Render(h, o2))
  {
    if rules != [] {
      var n := |rules| - 1;
      HeaderScoreWellDefined(ops, rules[..n], h, o1, o2);
      if TargetOf(ops, rules[n]) == Headers {
        TokensScoreOrder(ops.Normalise(), h, o1, o2, PatternTokens(ops, rules[n].pattern), rules[n].weight);
      }
    }
  }

  // ---------------------------------------------------------------------
  // The combined text of the `any` target: exactly when order matters
  // ---------------------------------------------------------------------

  /** For a newline-free token the `any` text of a request differs between two
      orders only through a match that starts in the prefix and ends in the
      header that happens to be rendered first. */
  lemma AnyTokenExact(r: Request, order: seq<Word>, t: Word)
    requires IsOrder(r.header, order)
    requires NEWLINE !in t && t != []
    ensures Contains(Fold(AnyPrefix(r) + Render(r.header, order)), t) <==>
              || Contains(Fold(AnyPrefix(r)), t)
              || SomeSegment(r.header, order, t)
              || (order != [] && Spans(Fold(AnyPrefix(r)), Fold(Segment(order[0], r.header[order[0]])), t))
  {
    var a, b := AnyPrefix(r), Render(r.header, order);
    FoldConcat(a, b);
    ContainsConcat(Fold(a), Fold(b), t);
    HeaderTokenIsLocal(r.header, order, t);
    if order != [] {
      SpansFirstSegment(r.header, order, Fold(a), t);
    }
  }

  lemma {:induction false} FirstSegment(h: Header, order: seq<Word>)
    requires order != [] && forall k :: k in order ==> k in h
    ensures Segment(order[0], h[order[0]]) <= Render(h, order)
  {
    if |order| == 1 {
      assert Render(h, order[..0]) == [];
    } else {
      FirstSegment(h, order[..|order| - 1]);
    }
  }

  lemma SpansFirstSegment(h: Header, order: seq<Word>, a: Word, t: Word)
    requires order != [] && forall k :: k in order ==> k in h
    requires NEWLINE !in t
    ensures Spans(a, Fold(Render(h, order)), t) <==> Spans(a, Fold(Segment(order[0], h[order[0]])), t)
  {
    var seg, all := Fold(Segment(order[0], h[order[0]])), Fold(Render(h, order));
    FirstSegment(h, order);
    assert seg <= all;
    assert Last(seg) == NEWLINE;
    forall i: nat
      ensures SpansAt(a, all, t, i) <==> SpansAt(a, seg, t, i)
    {
    }
  }

  /** In particular order is irrelevant to a token with neither newline nor space. */
  lemma AnyOrderIrrelevant(r: Request, o1: seq<Word>, o2: seq<Word>, t: Word)
    requires IsOrder(r.header, o1) && IsOrder(r.header, o2)
    requires NEWLINE !in t && SPACE !in t && t != []
    ensures Contains(Fold(AnyPrefix(r) + Render(r.header, o1)), t) <==>
            Contains(Fold(AnyPrefix(r) + Render(r.header, o2)), t)
  {
    AnyTokenExact(r, o1, t);
    AnyTokenExact(r, o2, t);
    var a := Fold(AnyPrefix(r));
    assert Last(a) == SPACE;
    if o1 != [] {
      NoSpan(a, Fold(Segment(o1[0], r.header[o1[0]])), t);
    }
    if o2 != [] {
      NoSpan(a, Fold(Segment(o2[0], r.header[o2[0]])), t);
    }
  }

  ghost predicate AnyMatches(r: Request, order: seq<Word>, t: Word)
    requires IsOrder(r.header, order)
  {
    Contains(Fold(AnyPrefix(r) + Render(r.header, order)), t)
  }

  /** The token starts in the request line and ends in this header, if rendered first. */
  ghost predicate SpansInto(r: Request, k: Word, t: Word) {
    k in r.header && Spans(Fold(AnyPrefix(r)), Fold(Segment(k, r.header[k])), t)
  }

  ghost predicate InSegment(h: Header, k: Word, t: Word) {
    k in h && Contains(Fold(Segment(k, h[k])), t)
  }

  /** The walk order is irrelevant to a newline-free token exactly when the request
      line or some header contains it, or all headers agree on whether it would
      run from the request line into them. */
  lemma AnyOrderFreeIff(r: Request, t: Word)
    requires NEWLINE !in t && t != []
    ensures (forall o1, o2 :: IsOrder(r.header, o1) && IsOrder(r.header, o2) ==>
               (AnyMatches(r, o1, t) <==> AnyMatches(r, o2, t)))
            <==>
            || Contains(Fold(AnyPrefix(r)), t)
            || (exists k :: k in r.header && InSegment(r.header, k, t))
            || (forall k, l :: k in r.header && l in r.header ==> (SpansInto(r, k, t) <==> SpansInto(r, l, t)))
  {
    hide AnyMatches;
    hide SpansInto;
    hide InSegment;
    hide IsOrder;
    hide Contains;
    forall o | IsOrder(r.header, o)
      ensures AnyMatches(r, o, t) <==>
                || Contains(Fold(AnyPrefix(r)), t)
                || (exists k :: k in r.header && InSegment(r.header, k, t))
                || (o != [] && o[0] in r.header && SpansInto(r, o[0], t))
      ensures o == [] <==> r.header == map[]
      ensures o != [] ==> o[0] in r.header
    {
      AnyMatchExact(r, o, t);
    }
    forall k | k in r.header
      ensures exists o :: IsOrder(r.header, o) && o != [] && o[0] == k
    {
      var o := OrderFrom(r.header, k);
    }
  }

  lemma AnyMatchExact(r: Request, o: seq<Word>, t: Word)
    requires IsOrder(r.header, o) && NEWLINE !in t && t != []
    ensures AnyMatches(r, o, t) <==>
              || Contains(Fold(AnyPrefix(r)), t)
              || (exists k :: k in r.header && InSegment(r.header, k, t))
              || (o != [] && o[0] in r.header && SpansInto(r, o[0], t))
    ensures o == [] <==> r.header == map[]
    ensures o != [] ==> o[0] in r.header
  {
    hide Contains;
    hide Spans;
    AnyTokenExact(r, o, t);
    if r.header != map[] {
      assert r.header.Keys != {};
      var k :| k in r.header.Keys;
      assert k in o;
    }
    forall k
      ensures k in r.header && InSegment(r.header, k, t) <==> k in o && Contains(Fold(Segment(k, r.header[k])), t)
    {
    }
  }

  /** Every header can be rendered first. */
  lemma OrderFrom(h: Header, k: Word) returns (order: seq<Word>)
    requires k in h
    ensures IsOrder(h, order) && order != [] && order[0] == k
  {
    var rest := SomeOrder(h, h.Keys - {k});
    order := [k] + rest;
    assert k !in rest;
  }

  /** The condition of AnyOrderFreeIff for one token. */
  ghost predicate AnyOrderFree(r: Request, t: Word) {
    || Contains(Fold(AnyPrefix(r)), t)
    || (exists k :: k in r.header && InSegment(r.header, k, t))
    || (forall k, l :: k in r.header && l in r.header ==> (SpansInto(r, k, t) <==> SpansInto(r, l, t)))
  }

  ghost predicate TokensOrderFree(r: Request, norm: Dfa.Normaliser, tokens: seq<Word>) {
    forall k :: 0 <= k < |tokens| && norm(tokens[k]) != [] ==>
      NEWLINE !in Fold(norm(tokens[k])) && AnyOrderFree(r, Fold(norm(tokens[k])))
  }

  /** No token of the `any` rules can tell the walk orders of this request apart. */
  ghost predicate AnyRulesOrderFree(ops: TextOps, rules: seq<SignatureRule>, r: Request) {
    forall i :: 0 <= i < |rules| && TargetOf(ops, rules[i]) == Any ==>
      TokensOrderFree(r, ops.Normalise(), PatternTokens(ops, rules[i].pattern))
  }

  lemma {:induction false} AnyTokensScoreOrder(
    norm: Dfa.Normaliser, r: Request, o1: seq<Word>, o2: seq<Word>, tokens: seq<Word>, weight: int)
    requires IsOrder(r.header, o1) && IsOrder(r.header, o2) && TokensOrderFree(r, norm, tokens)
    ensures TokensScore(norm, AnyPrefix(r) + Render(r.header, o1), tokens, weight) ==
            TokensScore(norm, AnyPrefix(r) + Render(r.header, o2), tokens, weight)
  {
    hide IsOrder;
    hide Render;
    hide AnyOrderFree;
    if tokens != [] {
      var n := |tokens| - 1;
      AnyTokensScoreOrder(norm, r, o1, o2, tokens[..n], weight);
      if norm(tokens[n]) != [] {
        AnyTokenOrderFree(r, o1, o2, Fold(norm(tokens[n])));
      }
    }
  }

  lemma AnyTokenOrderFree(r: Request, o1: seq<Word>, o2: seq<Word>, t: Word)
    requires IsOrder(r.header, o1) && IsOrder(r.header, o2)
    requires NEWLINE !in t && t != [] && AnyOrderFree(r, t)
    ensures Contains(Fold(AnyPrefix(r) + Render(r.header, o1)), t) <==>
            Contains(Fold(AnyPrefix(r) + Render(r.header, o2)), t)
  {
    hide Contains;
    hide IsOrder;
    hide InSegment;
    hide SpansInto;
    AnyOrderFreeIff(r, t);
    assert AnyMatches(r, o1, t) <==> AnyMatches(r, o2, t);
  }

  /** The score of the `any` rules is well defined when none of their tokens can tell
      the walk orders apart. */
  lemma {:induction false} AnyScoreWellDefined(
    ops: TextOps, rules: seq<SignatureRule>, r: Request, o1: seq<Word>, o2: seq<Word>)
    requires IsOrder(r.header, o1) && IsOrder(r.header, o2) && AnyRulesOrderFree(ops, rules, r)
    ensures TargetScore(ops, rules, Any, AnyPrefix(r) + Render(r.header, o1)) ==
            TargetScore(ops, rules, Any, AnyPrefix(r) + Render(r.header, o2))
  {
    hide IsOrder;
    hide Render;
    hide TokensOrderFree;
    if rules != [] {
      var n := |rules| - 1;
      AnyScoreWellDefined(ops, rules[..n], r, o1, o2);
      if TargetOf(ops, rules[n]) == Any {
        AnyTokensScoreOrder(ops.Normalise(), r, o1, o2, PatternTokens(ops, rules[n].pattern), rules[n].weight);
      }
    }
  }

  /** And then, with newline-free header tokens, so is the whole score of the request:
      whatever orders the two texts are rendered in. */
  lemma RequestScoreWellDefined(
    ops: TextOps, rules: seq<SignatureRule>, r: Request,
    a1: seq<Word>, h1: seq<Word>, a2: seq<Word>, h2: seq<Word>)
    requires IsOrder(r.header, a1) && IsOrder(r.header, h1) && IsOrder(r.header, a2) && IsOrder(r.header, h2)
    requires AnyRulesOrderFree(ops, rules, r) && HeaderRulesNewlineFree(ops, rules)
    ensures NaiveScore(ops, rules, RequestTexts(r, a1, h1)) == NaiveScore(ops, rules, RequestTexts(r, a2, h2))
  {
    hide IsOrder;
    hide Render;
    hide NaiveScore;
    hide TargetScore;
    hide AnyRulesOrderFree;
    hide HeaderRulesNewlineFree;
    TargetsPartitionScore(ops, rules, RequestTexts(r, a1, h1));
    TargetsPartitionScore(ops, rules, RequestTexts(r, a2, h2));
    AnyScoreWellDefined(ops, rules, r, a1, a2);
    HeaderScoreWellDefined(ops, rules, r.header, h1, h2);
  }

  /** With a space it can matter: " a" is found or missed depending on the order. */
  lemma AnyOrderCanMatter()
    ensures var r := Request([], None, map[[97] := [], [98] := []]);
            && IsOrder(r.header, [[97], [98]]) && IsOrder(r.header, [[98], [97]])
            && Contains(Fold(AnyPrefix(r) + Render(r.header, [[97], [98]])), [SPACE, 97])
            && !Contains(Fold(AnyPrefix(r) + Render(r.header, [[98], [97]])), [SPACE, 97])
  {
    var h: Header := map[[97] := [], [98] := []];
    assert [97][0] != [98][0];
    TwoHeaders(h, [97], [98]);
    TwoHeaders(h, [98], [97]);
    var p := AnyPrefix(Request([], None, h));
    assert p == [SPACE, SPACE];
    var w := Fold(p + Render(h, [[97], [98]]));
    assert w == [SPACE, SPACE, 97, 58, 10, 98, 58, 10];
    assert w[1..3] == [SPACE, 97];
    assert OccursAt(w, [SPACE, 97], 1);
    NotIn(Fold(p + Render(h, [[98], [97]])));
  }

  lemma TwoHeaders(h: Header, a: Word, b: Word)
    requires a in h && b in h && h[a] == [] && h[b] == [] && |a| == 1 && |b| == 1 && a != b && h.Keys == {a, b}
    ensures IsOrder(h, [a, b])
    ensures Render(h, [a, b]) == [a[0], 58, 10, b[0], 58, 10]
  {
    RenderOneMore(h, [], a);
    RenderOneMore(h, [a], b);
    assert [] + [a] == [a] && [a] + [b] == [a, b];
    assert Segment(a, []) == [a[0], 58, 10] && Segment(b, []) == [b[0], 58, 10];
  }

  lemma NotIn(w: Word)
    requires w == [SPACE, SPACE, 98, 58, 10, 97, 58, 10]
    ensures !Contains(w, [SPACE, 97])
  {
    forall i: nat
      ensures !OccursAt(w, [SPACE, 97], i)
    {
      if i + 2 <= |w| {
        assert w[i..i + 2] == [w[i], w[i + 1]];
      }
    }
  }

  // ---------------------------------------------------------------------
  // Overrunning the 64-bit score
  // ---------------------------------------------------------------------

  /** The request with method "ab", an empty URL and no headers. */
  const AB: Request := Request([97, 98], Some(Url([], [])), map[])

  /** An overrun: for this request a rule of weight 2^63 - 1 that hits, and one of
      weight 1 that hits too, make the evaluated score negative. */
  lemma HeavyRulesOverflow()
    ensures IsOrder(AB.header, [])
    ensures var rules := [SignatureRule([], [], [97], TWO_63 - 1)];
            var more := [SignatureRule([], [], [98], 1)];
            && Wrap64(NaiveScore(PlainOps(), rules, RequestTexts(AB, [], []))) == TWO_63 - 1
            && Wrap64(NaiveScore(PlainOps(), rules + more, RequestTexts(AB, [], []))) == -TWO_63
  {
    hide NaiveScore;
    hide PlainOps;
    var rules := [SignatureRule([], [], [97], TWO_63 - 1)];
    var more := [SignatureRule([], [], [98], 1)];
    var texts := RequestTexts(AB, [], []);
    AnyTextOfAb();
    OneByteRule(97, TWO_63 - 1, texts);
    OneByteRule(98, 1, texts);
    NaiveScoreConcat(PlainOps(), rules, more, texts);
  }

  lemma AnyTextOfAb()
    ensures IsOrder(AB.header, [])
    ensures var text := Fold(RequestTexts(AB, [], [])(Any));
            Contains(text, [97]) && Contains(text, [98])
  {
    var text := Fold(RequestTexts(AB, [], [])(Any));
    assert RequestTexts(AB, [], [])(Any) == [97, 98, SPACE, QUESTION, SPACE];
    assert text[..2] == [97, 98];
    assert OccursAt(text, [97], 0) && OccursAt(text, [98], 1);
  }

  /** A rule without a target whose pattern is one lower-case letter that occurs in
      the `any` text. */
  lemma OneByteRule(b: Byte, weight: int, texts: Texts)
    requires 97 <= b <= 122 && weight > 0 && Contains(Fold(texts(Any)), [b])
    ensures NaiveScore(PlainOps(), [SignatureRule([], [], [b], weight)], texts) == weight
  {
    hide Contains;
    hide Split;
    hide PatternTokens;
    var ops, rule := PlainOps(), SignatureRule([], [], [b], weight);
    OneTokenPattern(b);
    assert [rule][..0] == [] && [[b]][..0] == [];
    assert ops.Normalise()([b]) == [b] && Fold([b]) == [b];
    assert TargetOf(ops, rule) == Any;
    assert TokenHits(ops.Normalise(), texts(Any), [b]);
    assert TokensScore(ops.Normalise(), texts(Any), [[b]], weight) ==
           TokenScore(ops.Normalise(), texts(Any), [b], weight);
    assert RuleScore(ops, rule, texts) == weight;
  }
}
