/** The multi-pattern matcher of pkg/dfa/matcher.go: trie insertion, in-place
    completion and the scan, proved against plain substring search. */
module Dfa {
  import opened Words
  import opened Trie
  import opened Automaton

  datatype Rule = Rule(id: Word, weight: int, token: Word)

  datatype Match = Match(ruleId: Word, weight: int)

  /** Token normalisation (trim and lower-case) is a parameter: nothing below
      depends on how Unicode letters are mapped. */
  type Normaliser = Word -> Word

  /** The rules that are kept: non-empty after normalisation, weight at least 1. */
  function Kept(rules: seq<Rule>, norm: Normaliser): (kept: seq<Rule>)
    ensures |kept| <= |rules|
    ensures forall k :: 0 <= k < |kept| ==> kept[k].token != [] && kept[k].weight > 0
  {
    if rules == [] then []
    else
      var r := rules[|rules| - 1];
      var kept := Kept(rules[..|rules| - 1], norm);
      if norm(r.token) == [] then kept else kept + [Rule(r.id, EffectiveWeight(r.weight), norm(r.token))]
  }

  function EffectiveWeight(w: int): (e: int)
    ensures e > 0
  {
    if w <= 0 then 1 else w
  }

  function Tokens(rules: seq<Rule>): (tokens: seq<Word>)
    ensures |tokens| == |rules|
    ensures forall k :: 0 <= k < |rules| ==> tokens[k] == Fold(rules[k].token)
  {
    seq(|rules|, k requires 0 <= k < |rules| => Fold(rules[k].token))
  }

  // ---------------------------------------------------------------------
  // The naive meaning of a scan
  // ---------------------------------------------------------------------

  /** One match for each rule whose folded token is a substring of the folded text. */
  ghost function NaiveMatches(rules: seq<Rule>, text: Word): multiset<Match> {
    if rules == [] then multiset{}
    else
      var r := rules[|rules| - 1];
      NaiveMatches(rules[..|rules| - 1], text) +
      (if Contains(Fold(text), Fold(r.token)) then multiset{Match(r.id, r.weight)} else multiset{})
  }

  /** One match for each rule whose token is, up to ASCII case, some slice of the text. */
  ghost function SliceMatches(rules: seq<Rule>, text: Word): multiset<Match> {
    if rules == [] then multiset{}
    else
      var r := rules[|rules| - 1];
      SliceMatches(rules[..|rules| - 1], text) +
      (if FoundIn(text, r.token) then multiset{Match(r.id, r.weight)} else multiset{})
  }

  lemma {:induction false} NaiveMatchesAreSlices(rules: seq<Rule>, text: Word)
    ensures NaiveMatches(rules, text) == SliceMatches(rules, text)
  {
    if rules != [] {
      NaiveMatchesAreSlices(rules[..|rules| - 1], text);
      ContainsFolded(text, rules[|rules| - 1].token);
    }
  }

  /** Texts that are the same up to case get the same matches. */
  lemma {:induction false} CaseDoesNotMatter(rules: seq<Rule>, text: Word, other: Word)
    requires SameUpToCase(text, other)
    ensures NaiveMatches(rules, text) == NaiveMatches(rules, other)
  {
    hide SameUpToCase;
    FoldIdentifies(text, other);
    if rules != [] {
      CaseDoesNotMatter(rules[..|rules| - 1], text, other);
    }
  }

  /** Which rules are kept, and as what: a rule without a token is dropped, and a
      weight that is not positive counts as 1. */
  lemma {:induction false} KeptExact(rules: seq<Rule>, more: seq<Rule>, norm: Normaliser)
    ensures Kept(rules + more, norm) == Kept(rules, norm) + Kept(more, norm)
    ensures |more| == 1 ==>
              Kept(more, norm) == if norm(more[0].token) == [] then []
                                  else [Rule(more[0].id, if more[0].weight > 0 then more[0].weight else 1,
                                             norm(more[0].token))]
  {
    if more == [] {
      assert rules + more == rules;
    } else {
      var all, n := rules + more, |more| - 1;
      KeptExact(rules, more[..n], norm);
      assert all[..|all| - 1] == rules + more[..n] && all[|all| - 1] == more[n];
    }
  }

  /** The same for an explicit set of rule indices. */
  ghost function MatchesOf(rules: seq<Rule>, hits: set<nat>): multiset<Match> {
    if rules == [] then multiset{}
    else
      var n := |rules| - 1;
      MatchesOf(rules[..n], hits) +
      (if n in hits then multiset{Match(rules[n].id, rules[n].weight)} else multiset{})
  }

  lemma {:induction false} NaiveMatchesAsSet(rules: seq<Rule>, text: Word, hits: set<nat>)
    requires forall k: nat :: k < |rules| ==> (k in hits <==> Contains(Fold(text), Fold(rules[k].token)))
    ensures MatchesOf(rules, hits) == NaiveMatches(rules, text)
  {
    if rules != [] {
      NaiveMatchesAsSet(rules[..|rules| - 1], text, hits);
    }
  }

  lemma {:induction false} MatchesOfRemove(rules: seq<Rule>, hits: set<nat>, k: nat)
    requires k in hits
    ensures MatchesOf(rules, hits) == MatchesOf(rules, hits - {k}) +
      (if k < |rules| then multiset{Match(rules[k].id, rules[k].weight)} else multiset{})
  {
    if rules != [] {
      MatchesOfRemove(rules[..|rules| - 1], hits, k);
    }
  }

  lemma {:induction false} MatchesOfNone(rules: seq<Rule>)
    ensures MatchesOf(rules, {}) == multiset{}
  {
    if rules != [] {
      MatchesOfNone(rules[..|rules| - 1]);
    }
  }

  // ---------------------------------------------------------------------
  // The matcher
  // ---------------------------------------------------------------------

  class Matcher {
    var nodes: seq<Node>
    var rules: seq<Rule>
    /** The word that leads from the root to each node. */
    ghost var words: seq<Word>

    ghost predicate Valid()
      reads this
    {
      && (forall k :: 0 <= k < |rules| ==> rules[k].token != [] && rules[k].weight > 0)
      && AutomatonOf(nodes, words, Tokens(rules))
    }

    constructor (input: seq<Rule>, norm: Normaliser)
      ensures Valid()
      ensures rules == Kept(input, norm)
    {
      nodes := [NewNode()];
      rules := [];
      words := [[]];
      new;
      hide TrieOf;
      hide AutomatonOf;
      EmptyTrie();
      var i := 0;
      while i < |input|
        invariant 0 <= i <= |input|
        invariant rules == Kept(input[..i], norm)
        invariant TrieOf(nodes, words, Tokens(rules))
      {
        var rule := input[i];
        var token := norm(rule.token);
        assert input[..i + 1][..i] == input[..i];
        if token != [] {
          if rule.weight <= 0 {
            rule := rule.(weight := 1);
          }
          rule := rule.(token := token);
          Insert(token, |rules|, Tokens(rules));
          assert Tokens(rules + [rule]) == Tokens(rules) + [Fold(token)];
          rules := rules + [rule];
        }
        i := i + 1;
      }
      assert input[..i] == input;
      var _ := BuildFailures();
    }

    /** Adds one token: the table stays the trie of the tokens inserted so far. */
    method Insert(token: Word, ruleIndex: nat, ghost tokens: seq<Word>)
      requires TrieOf(nodes, words, tokens)
      requires ruleIndex == |tokens|
      modifies this`nodes, this`words
      ensures TrieOf(nodes, words, tokens + [Fold(token)])
    {
      ghost var folded := Fold(token);
      var state := 0;
      var i := 0;
      GrowStarts(nodes, words, tokens, folded);
      while i < |token|
        invariant 0 <= i <= |token|
        invariant Growing(nodes, words, tokens, folded, i, state)
      {
        var b: Byte := FoldByte(token[i]);
        var next := nodes[state].next[b];
        if next == -1 {
          GrowAbsent(nodes, words, tokens, folded, i, state);
          next := |nodes|;
          nodes := SetNext(nodes + [NewNode()], state, b, next);
          words := words + [folded[..i + 1]];
        } else {
          GrowPresent(nodes, words, tokens, folded, i, state);
        }
        state := next;
        i := i + 1;
      }
      ReportAt(nodes, words, tokens, folded, state);
      nodes := nodes[state := nodes[state].(out := nodes[state].out + [ruleIndex])];
    }

    /** Completes the table in place, breadth first. Every non-root state is
        enqueued once, in order of depth, and the number of states is unchanged. */
    method BuildFailures() returns (ghost order: seq<nat>)
      requires TrieOf(nodes, words, Tokens(rules))
      requires forall k :: 0 <= k < |rules| ==> rules[k].token != [] && rules[k].weight > 0
      modifies this`nodes
      ensures Valid()
      ensures |nodes| == |old(nodes)|
      ensures VisitsAllOnce(words, order)
    {
      hide PassInv;
      hide TrieOf;
      hide VisitsAllOnce;
      hide AutomatonOf;
      hide Between;
      ghost var trie := nodes;
      ghost var tokens := Tokens(rules);
      PassStarts(trie, words, tokens);
      var queue: seq<nat>;
      ghost var p;
      queue, p := CompleteRoot(trie, tokens);
      RowFinished(trie, nodes, words, tokens, p, [], queue);
      while |queue| > 0
        invariant Between(trie, nodes, words, tokens, p, queue)
        decreases |trie| - |p.done|
      {
        var state := queue[0];
        ghost var taken := BetweenFacts(trie, nodes, words, tokens, p, queue);
        NextState(trie, nodes, words, tokens, p, queue);
        BetweenPass(trie, nodes, words, tokens, p, queue);
        queue, p := CompleteState(state, queue[1..], trie, tokens, Progress(p.done + {p.cur}, state, 0, p.order), taken);
        RowFinished(trie, nodes, words, tokens, p, taken, queue);
      }
      PassEnds(trie, nodes, words, tokens, p);
      order := p.order;
    }

    /** The root's row: absent entries lead back to the root, its children are enqueued. */
    method CompleteRoot(ghost trie: seq<Node>, ghost tokens: seq<Word>)
      returns (queue: seq<nat>, ghost p: Progress)
      requires PassInv(trie, nodes, words, tokens, Progress({}, 0, 0, []))
      modifies this`nodes
      ensures PassInv(trie, nodes, words, tokens, p)
      ensures p.b == ALPHABET && p.cur == 0 && p.done == {} && p.order == queue
    {
      hide PassInv;
      p := Progress({}, 0, 0, []);
      queue := [];
      var b := 0;
      while b < ALPHABET
        invariant 0 <= b <= ALPHABET
        invariant PassInv(trie, nodes, words, tokens, p)
        invariant p.b == b && p.cur == 0 && p.done == {} && p.order == queue
      {
        PassFacts(trie, nodes, words, tokens, p);
        var next := nodes[0].next[b];
        if next == -1 {
          StepAbsent(trie, nodes, words, tokens, p, b);
          nodes := SetNext(nodes, 0, b, 0);
        } else {
          StepPresent(trie, nodes, words, tokens, p, b);
          assert nodes[next].out + nodes[0].out == nodes[next].out;
          ghost var linked := LinkChild(nodes, next, 0);
          nodes := nodes[next := nodes[next].(fail := 0)];
          assert nodes == linked;
          queue := queue + [next];
          p := p.(order := p.order + [next]);
        }
        p := p.(b := b + 1);
        b := b + 1;
      }
    }

    /** The row of one dequeued state: absent entries are filled through its failure
        link, its children are linked and enqueued. */
    method CompleteState(
      state: nat, waiting: seq<nat>, ghost trie: seq<Node>, ghost tokens: seq<Word>, ghost start: Progress,
      ghost taken: seq<nat>)
      returns (queue: seq<nat>, ghost p: Progress)
      requires PassInv(trie, nodes, words, tokens, start)
      requires start.b == 0 && start.cur == state && state != 0 && start.order == taken + waiting
      modifies this`nodes
      ensures PassInv(trie, nodes, words, tokens, p)
      ensures p.b == ALPHABET && p.cur == state && p.done == start.done && p.order == taken + queue
    {
      hide PassInv;
      p := start;
      queue := waiting;
      var b := 0;
      while b < ALPHABET
        invariant 0 <= b <= ALPHABET
        invariant PassInv(trie, nodes, words, tokens, p)
        invariant p.b == b && p.cur == state && p.done == start.done && p.order == taken + queue
      {
        PassFacts(trie, nodes, words, tokens, p);
        var next := nodes[state].next[b];
        if next == -1 {
          StepAbsent(trie, nodes, words, tokens, p, b);
          nodes := SetNext(nodes, state, b, nodes[nodes[state].fail].next[b]);
        } else {
          StepPresent(trie, nodes, words, tokens, p, b);
          var fail := nodes[state].fail;
          ghost var linked := LinkChild(nodes, next, nodes[fail].next[b]);
          nodes := nodes[next := nodes[next].(fail := nodes[fail].next[b])];
          nodes := nodes[next := nodes[next].(out := nodes[next].out + nodes[nodes[next].fail].out)];
          assert nodes == linked;
          queue := queue + [next];
          p := p.(order := p.order + [next]);
        }
        p := p.(b := b + 1);
        b := b + 1;
      }
    }

    /** One match for each rule whose token occurs in the text, and nothing else. */
    method FindAll(text: Word) returns (matches: seq<Match>)
      requires Valid()
      ensures multiset(matches) == NaiveMatches(rules, text)
      ensures multiset(matches) == SliceMatches(rules, text)
    {
      hide AutomatonOf;
      hide Seen;
      hide Run;
      NaiveMatchesAreSlices(rules, text);
      matches := [];
      if |rules| == 0 || |text| == 0 {
        NothingInEmpty(rules, text);
        return;
      }
      ghost var tokens, folded := Tokens(rules), Fold(text);
      var seen: set<nat> := {};
      var state := 0;
      var i := 0;
      ScanStarts(nodes, words, tokens);
      while i < |text|
        invariant 0 <= i <= |text|
        invariant state == Run(nodes, words, tokens, folded[..i])
        invariant Seen(tokens, folded[..i], seen)
      {
        var b := FoldByte(text[i]);
        assert folded[..i + 1] == folded[..i] + [b];
        RunStep(nodes, words, tokens, folded[..i], b);
        state := nodes[state].next[b];
        ghost var before := seen;
        var j := 0;
        while j < |nodes[state].out|
          invariant 0 <= j <= |nodes[state].out|
          invariant forall k: nat :: k in seen <==> k in before || k in nodes[state].out[..j]
        {
          seen := seen + {nodes[state].out[j]};
          j := j + 1;
        }
        SeenGrows(nodes, words, tokens, folded[..i], b, before, seen);
        i := i + 1;
      }
      assert folded[..i] == folded;
      matches := Collect(seen, text);
    }

    /** The last loop of the scan: each index seen becomes one match, in any order. */
    method Collect(hits: set<nat>, ghost text: Word) returns (matches: seq<Match>)
      requires Seen(Tokens(rules), Fold(text), hits)
      ensures multiset(matches) == NaiveMatches(rules, text)
    {
      var seen := hits;
      matches := [];
      NaiveMatchesAsSet(rules, text, seen);
      while seen != {}
        invariant forall k :: k in seen ==> k < |rules|
        invariant multiset(matches) + MatchesOf(rules, seen) == NaiveMatches(rules, text)
        decreases seen
      {
        var ruleIndex :| ruleIndex in seen;
        var r := rules[ruleIndex];
        MatchesOfRemove(rules, seen, ruleIndex);
        matches := matches + [Match(r.id, r.weight)];
        seen := seen - {ruleIndex};
      }
      MatchesOfNone(rules);
    }

    /** The number of states is the number of distinct prefixes of the folded tokens. */
    method NodeCount() returns (n: nat)
      requires Valid()
      ensures n == |PrefixSet(Tokens(rules))|
      ensures n <= 1 + TotalLength(Tokens(rules))
    {
      n := |nodes|;
      AutomatonCountsPrefixes(nodes, words, Tokens(rules));
    }
  }

  // ---------------------------------------------------------------------
  // Steps used by the methods
  // ---------------------------------------------------------------------

  lemma EmptyTrie()
    ensures TrieOf([NewNode()], [[]], Tokens([]))
  {
    var nodes, words, tokens := [NewNode()], [[]], Tokens([]);
    assert Shape(nodes, words);
    forall w: Word
      ensures w in words <==> IsPrefixOfSome(tokens, w)
    {
      assert words[0] == [];
    }
    assert Own(tokens, []) == [];
    forall s: nat, b: Byte | s < |nodes|
      ensures TrieEdge(nodes, words, s, b)
    {
      assert nodes[s] == NewNode();
    }
  }

  /** Insertion of t has walked i bytes and stands at `state`. */
  ghost predicate Growing(
    nodes: seq<Node>, words: seq<Word>, tokens: seq<Word>, t: Word, i: nat, state: int)
  {
    && IsTrie(nodes, words) && i <= |t|
    && 0 <= state < |nodes| && words[state] == t[..i]
    && (forall w: Word :: w in words <==> IsPrefixOfSome(tokens + [t[..i]], w))
    && (forall s :: 0 <= s < |nodes| ==> nodes[s].out == Own(tokens, words[s]) && nodes[s].fail == 0)
  }

  lemma PrefixOfExtended(tokens: seq<Word>, t: Word, w: Word)
    ensures IsPrefixOfSome(tokens + [t], w) <==> IsPrefixOfSome(tokens, w) || w <= t
  {
    var tokens' := tokens + [t];
    if IsPrefixOfSome(tokens, w) && w != [] {
      var k :| 0 <= k < |tokens| && w <= tokens[k];
      assert w <= tokens'[k];
    }
    if w <= t {
      assert w <= tokens'[|tokens|];
    }
  }

  lemma GrowStarts(nodes: seq<Node>, words: seq<Word>, tokens: seq<Word>, t: Word)
    requires TrieOf(nodes, words, tokens)
    ensures Growing(nodes, words, tokens, t, 0, 0)
  {
    forall w: Word
      ensures IsPrefixOfSome(tokens + [t[..0]], w) <==> IsPrefixOfSome(tokens, w)
    {
      PrefixOfExtended(tokens, t[..0], w);
    }
  }

  /** One more byte of the token adds one more prefix. */
  lemma PrefixGrows(tokens: seq<Word>, t: Word, i: nat, w: Word)
    requires i < |t|
    ensures IsPrefixOfSome(tokens + [t[..i + 1]], w) <==> IsPrefixOfSome(tokens + [t[..i]], w) || w == t[..i + 1]
  {
    PrefixOfExtended(tokens, t[..i + 1], w);
    PrefixOfExtended(tokens, t[..i], w);
    if w <= t[..i + 1] && |w| <= i {
      assert w == t[..i + 1][..|w|] == t[..i][..|w|];
    }
    if w <= t[..i] {
      assert w == t[..i][..|w|] == t[..i + 1][..|w|];
    }
  }

  lemma GrowAbsent(nodes: seq<Node>, words: seq<Word>, tokens: seq<Word>, t: Word, i: nat, state: nat)
    requires Growing(nodes, words, tokens, t, i, state) && i < |t|
    requires nodes[state].next[t[i]] == -1
    ensures Growing(SetNext(nodes + [NewNode()], state, t[i], |nodes|), words + [t[..i + 1]], tokens, t, i + 1, |nodes|)
  {
    var nodes' := SetNext(nodes + [NewNode()], state, t[i], |nodes|);
    var w1 := t[..i + 1];
    assert w1 == words[state] + [t[i]];
    MissingEdgeMeansNewWord(nodes, words, state, t[i]);
    AddChild(nodes, words, state, t[i]);
    forall w: Word
      ensures w in words + [w1] <==> IsPrefixOfSome(tokens + [w1], w)
    {
      PrefixGrows(tokens, t, i, w);
    }
    PrefixOfExtended(tokens, t[..i], w1);
    NewWordOwnsNothing(tokens, w1);
    forall s | 0 <= s < |nodes'|
      ensures nodes'[s].out == Own(tokens, (words + [w1])[s]) && nodes'[s].fail == 0
    {
      if s < |nodes| {
        assert nodes'[s].out == nodes[s].out && nodes'[s].fail == nodes[s].fail;
      }
    }
  }

  lemma GrowPresent(nodes: seq<Node>, words: seq<Word>, tokens: seq<Word>, t: Word, i: nat, state: nat)
    requires Growing(nodes, words, tokens, t, i, state) && i < |t|
    requires nodes[state].next[t[i]] != -1
    ensures Growing(nodes, words, tokens, t, i + 1, nodes[state].next[t[i]])
  {
    var n := nodes[state].next[t[i]];
    assert TrieEdge(nodes, words, state, t[i]);
    assert words[n] == t[..i + 1] && words[n] in words;
    forall w: Word
      ensures w in words <==> IsPrefixOfSome(tokens + [t[..i + 1]], w)
    {
      PrefixGrows(tokens, t, i, w);
    }
  }

  lemma HeadIsMember(xs: seq<nat>)
    ensures xs == [] || xs[0] in xs
  {
  }

  lemma NewWordOwnsNothing(tokens: seq<Word>, w: Word)
    requires !IsPrefixOfSome(tokens, w)
    ensures Own(tokens, w) == []
  {
    OwnIsExact(tokens, w);
    assert forall k: nat :: k < |tokens| ==> !(w <= tokens[k]);
    assert forall k: nat :: k !in Own(tokens, w);
    HeadIsMember(Own(tokens, w));
  }

  /** Recording the rule at the state of its token completes the insertion. */
  lemma ReportAt(nodes: seq<Node>, words: seq<Word>, tokens: seq<Word>, token: Word, state: nat)
    requires Growing(nodes, words, tokens, token, |token|, state)
    ensures TrieOf(nodes[state := nodes[state].(out := nodes[state].out + [|tokens|])], words, tokens + [token])
  {
    var nodes' := nodes[state := nodes[state].(out := nodes[state].out + [|tokens|])];
    var tokens' := tokens + [token];
    assert tokens'[..|tokens|] == tokens;
    assert token[..|token|] == token;
    SameRows(nodes, nodes', words);
    forall s | 0 <= s < |nodes'|
      ensures nodes'[s].out == Own(tokens', words[s]) && nodes'[s].fail == 0
    {
      assert Own(tokens', words[s]) == Own(tokens, words[s]) + (if words[s] == token then [|tokens|] else []);
      assert words[s] == token <==> s == state;
    }
  }

  lemma SameRows(nodes: seq<Node>, nodes': seq<Node>, words: seq<Word>)
    requires IsTrie(nodes, words) && |nodes'| == |nodes|
    requires forall s :: 0 <= s < |nodes| ==> nodes'[s].next == nodes[s].next
    ensures IsTrie(nodes', words)
  {
    forall s: nat, b: Byte | s < |nodes'|
      ensures TrieEdge(nodes', words, s, b)
    {
      assert nodes'[s].next[b] == nodes[s].next[b];
      assert TrieEdge(nodes, words, s, b);
    }
    forall n: nat | 0 < n < |nodes'|
      ensures HasParent(nodes', words, n)
    {
      assert HasParent(nodes, words, n);
      var s: nat :| s < n && words[s] == DropLast(words[n]) && nodes[s].next[Last(words[n])] == n;
      assert nodes'[s].next[Last(words[n])] == n;
    }
  }

  lemma RootReportsNothing(trie: seq<Node>, nodes: seq<Node>, words: seq<Word>, tokens: seq<Word>, p: Progress)
    requires PassInv(trie, nodes, words, tokens, p)
    ensures nodes[0].out == []
  {
    assert OutOk(nodes, words, tokens, 0) by {
      assert nodes[0] == nodes[0];
    }
    assert forall k: nat :: k !in nodes[0].out;
    HeadIsMember(nodes[0].out);
  }

  lemma PassFacts(trie: seq<Node>, nodes: seq<Node>, words: seq<Word>, tokens: seq<Word>, p: Progress)
    requires PassInv(trie, nodes, words, tokens, p)
    ensures p.cur < |nodes| == |trie|
    ensures |nodes[p.cur].next| == ALPHABET
    ensures 0 <= nodes[p.cur].fail < |nodes| && |nodes[nodes[p.cur].fail].next| == ALPHABET
    ensures p.cur == 0 ==> nodes[0].fail == 0 && nodes[0].out == []
  {
    assert FailOk(nodes, words, p.cur) by {
      assert nodes[p.cur] == nodes[p.cur];
    }
    RootReportsNothing(trie, nodes, words, tokens, p);
  }

  /** What was taken from the queue so far, and that the queue is the rest. */
  lemma BetweenFacts(
    trie: seq<Node>, nodes: seq<Node>, words: seq<Word>, tokens: seq<Word>, p: Progress, queue: seq<nat>)
    returns (taken: seq<nat>)
    requires Between(trie, nodes, words, tokens, p, queue) && queue != []
    ensures p.order == taken + queue[1..]
    ensures forall n :: n in taken <==> n != 0 && n in p.done + {p.cur, queue[0]}
    ensures queue[0] != 0
  {
    NextState(trie, nodes, words, tokens, p, queue);
    HeadIsNew(trie, nodes, words, tokens, p, queue);
    taken := p.order[..|p.order| - |queue| + 1];
    assert p.order[|p.order| - |queue| + 1..] == p.order[|p.order| - |queue|..][1..];
  }

  /** The queue loop may be entered again once a row is finished. */
  lemma RowFinished(
    trie: seq<Node>, nodes: seq<Node>, words: seq<Word>, tokens: seq<Word>, p: Progress,
    taken: seq<nat>, queue: seq<nat>)
    requires PassInv(trie, nodes, words, tokens, p) && p.b == ALPHABET
    requires p.order == taken + queue
    requires forall n :: n in taken <==> n != 0 && n in p.done + {p.cur}
    ensures Between(trie, nodes, words, tokens, p, queue)
  {
    assert p.order[..|p.order| - |queue|] == taken;
  }

  lemma BetweenPass(
    trie: seq<Node>, nodes: seq<Node>, words: seq<Word>, tokens: seq<Word>, p: Progress, queue: seq<nat>)
    requires Between(trie, nodes, words, tokens, p, queue)
    ensures |p.done| < |p.done + {p.cur}| <= |trie|
  {
    DoneIsBounded(trie, nodes, words, tokens, p);
  }

  lemma DoneIsBounded(
    trie: seq<Node>, nodes: seq<Node>, words: seq<Word>, tokens: seq<Word>, p: Progress)
    requires PassInv(trie, nodes, words, tokens, p)
    ensures |p.done| < |p.done + {p.cur}| <= |trie|
  {
    var all := Indices(|trie|);
    SubsetSize(p.done + {p.cur}, all);
  }

  function Indices(n: nat): (r: set<nat>)
    ensures |r| == n
    ensures forall k: nat :: k in r <==> k < n
  {
    if n == 0 then {} else Indices(n - 1) + {n - 1}
  }

  lemma ScanStarts(nodes: seq<Node>, words: seq<Word>, tokens: seq<Word>)
    requires AutomatonOf(nodes, words, tokens)
    ensures Run(nodes, words, tokens, []) == 0
    ensures Seen(tokens, [], {})
  {
  }

  lemma {:induction false} NothingInEmpty(rules: seq<Rule>, text: Word)
    requires forall k :: 0 <= k < |rules| ==> rules[k].token != []
    requires rules == [] || text == []
    ensures NaiveMatches(rules, text) == multiset{}
  {
    if rules != [] {
      NothingInEmpty(rules[..|rules| - 1], text);
    }
  }

  lemma AutomatonCountsPrefixes(nodes: seq<Node>, words: seq<Word>, tokens: seq<Word>)
    requires AutomatonOf(nodes, words, tokens)
    ensures |nodes| == |PrefixSet(tokens)| <= 1 + TotalLength(tokens)
  {
    WordsCountPrefixes(words, tokens);
  }
}
