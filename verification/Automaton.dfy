/** The breadth-first completion of a trie into a total automaton: what the
    finished table means, and the invariant that the in-place pass keeps. */
module Automaton {
  import opened Words
  import opened Trie

  ghost predicate AllNonEmpty(tokens: seq<Word>) {
    forall k :: 0 <= k < |tokens| ==> tokens[k] != []
  }

  /** Same table size, and every row still total over the alphabet. */
  ghost predicate Table(nodes: seq<Node>, words: seq<Word>) {
    && Shape(nodes, words)
    && PrefixClosed(words)
  }

  /** The entry leads to the longest suffix of word(s) + b that is a trie word. */
  ghost predicate EntryDone(nodes: seq<Node>, words: seq<Word>, s: nat, b: Byte)
    requires Table(nodes, words) && s < |nodes|
  {
    var n := nodes[s].next[b];
    0 <= n < |nodes| && words[n] == LongestSuffix(words, words[s] + [b])
  }

  /** The failure link leads to the longest proper suffix that is a trie word. */
  ghost predicate FailOk(nodes: seq<Node>, words: seq<Word>, s: nat)
    requires Table(nodes, words) && s < |nodes|
  {
    var f := nodes[s].fail;
    0 <= f < |nodes| && words[f] == LongestSuffix(words, if s == 0 then [] else words[s][1..])
  }

  /** The node reports, each once, exactly the rules whose token is a suffix of its word. */
  ghost predicate OutOk(nodes: seq<Node>, words: seq<Word>, tokens: seq<Word>, s: nat)
    requires Table(nodes, words) && s < |nodes|
  {
    && Distinct(nodes[s].out)
    && (forall k: nat :: k in nodes[s].out <==> k < |tokens| && IsSuffix(tokens[k], words[s]))
  }

  ghost predicate IsAutomaton(nodes: seq<Node>, words: seq<Word>, tokens: seq<Word>) {
    && Table(nodes, words)
    && (forall s: nat, b: Byte {:trigger nodes[s].next[b]} :: s < |nodes| ==> EntryDone(nodes, words, s, b))
    && (forall s: nat {:trigger nodes[s].fail} :: s < |nodes| ==> FailOk(nodes, words, s))
    && (forall s: nat {:trigger nodes[s].out} :: s < |nodes| ==> OutOk(nodes, words, tokens, s))
  }

  /** The finished automaton of a token list: its states are still the distinct prefixes. */
  ghost predicate AutomatonOf(nodes: seq<Node>, words: seq<Word>, tokens: seq<Word>) {
    && AllNonEmpty(tokens)
    && IsAutomaton(nodes, words, tokens)
    && (forall w: Word :: w in words <==> IsPrefixOfSome(tokens, w))
  }

  // ---------------------------------------------------------------------
  // The invariant of the pass
  // ---------------------------------------------------------------------

  /** Where the pass stands. `done` are the states whose rows are finished, the
      row of `cur` is finished below byte `b`, `order` lists every state
      enqueued so far. */
  datatype Progress = Progress(done: set<nat>, cur: nat, b: nat, order: seq<nat>)

  ghost predicate Passed(p: Progress, s: nat, c: Byte) {
    s in p.done || (s == p.cur && c < p.b)
  }

  ghost predicate Frame(trie: seq<Node>, nodes: seq<Node>, words: seq<Word>, tokens: seq<Word>, p: Progress) {
    && TrieOf(trie, words, tokens) && AllNonEmpty(tokens)
    && Table(nodes, words)
    && p.cur < |nodes| && p.b <= ALPHABET && p.cur !in p.done
    && (p.cur != 0 ==> 0 in p.done && p.cur in p.order)
    && (forall s :: s in p.done ==> s == 0 || s in p.order)
  }

  /** Finished entries are final, the others are still the trie's. */
  ghost predicate RowsInv(trie: seq<Node>, nodes: seq<Node>, words: seq<Word>, tokens: seq<Word>, p: Progress)
    requires Frame(trie, nodes, words, tokens, p)
  {
    forall s: nat, c: Byte {:trigger nodes[s].next[c]} {:trigger trie[s].next[c]} :: s < |nodes| ==>
      if Passed(p, s, c) then EntryDone(nodes, words, s, c) else nodes[s].next[c] == trie[s].next[c]
  }

  /** A state is enqueued exactly when its trie edge has been passed. */
  ghost predicate OrderInv(trie: seq<Node>, nodes: seq<Node>, words: seq<Word>, tokens: seq<Word>, p: Progress)
    requires Frame(trie, nodes, words, tokens, p)
  {
    && Distinct(p.order)
    && (forall n :: n in p.order ==> 0 < n < |nodes|)
    && (forall s: nat, c: Byte {:trigger trie[s].next[c]} :: s < |trie| && trie[s].next[c] != -1 ==>
          (trie[s].next[c] in p.order <==> Passed(p, s, c)))
  }

  /** Enqueued states already have their final failure link and output list. */
  ghost predicate LinksInv(trie: seq<Node>, nodes: seq<Node>, words: seq<Word>, tokens: seq<Word>, p: Progress)
    requires Frame(trie, nodes, words, tokens, p)
  {
    && (forall n: nat {:trigger nodes[n]} :: n < |nodes| && (n == 0 || n in p.order) ==>
          FailOk(nodes, words, n) && OutOk(nodes, words, tokens, n))
    && (forall n: nat {:trigger nodes[n]} :: 0 < n < |nodes| && n !in p.order ==> nodes[n].out == trie[n].out)
  }

  /** The queue is ordered by depth, and everything shallower than `cur` is finished. */
  ghost predicate DepthInv(trie: seq<Node>, nodes: seq<Node>, words: seq<Word>, tokens: seq<Word>, p: Progress)
    requires Frame(trie, nodes, words, tokens, p)
    requires OrderInv(trie, nodes, words, tokens, p)
  {
    && SortedByDepth(words, p.order)
    && (forall n :: n in p.order ==> |words[n]| <= |words[p.cur]| + 1)
    && (forall n :: n in p.order && |words[n]| < |words[p.cur]| ==> n in p.done)
  }

  ghost predicate SortedByDepth(words: seq<Word>, order: seq<nat>) {
    && (forall i :: 0 <= i < |order| ==> order[i] < |words|)
    && (forall i, j :: 0 <= i < j < |order| ==> |words[order[i]]| <= |words[order[j]]|)
  }

  ghost predicate PassInv(trie: seq<Node>, nodes: seq<Node>, words: seq<Word>, tokens: seq<Word>, p: Progress) {
    && Frame(trie, nodes, words, tokens, p)
    && RowsInv(trie, nodes, words, tokens, p)
    && OrderInv(trie, nodes, words, tokens, p)
    && LinksInv(trie, nodes, words, tokens, p)
    && DepthInv(trie, nodes, words, tokens, p)
  }

  lemma PassStarts(trie: seq<Node>, words: seq<Word>, tokens: seq<Word>)
    requires TrieOf(trie, words, tokens) && AllNonEmpty(tokens)
    ensures PassInv(trie, trie, words, tokens, Progress({}, 0, 0, []))
  {
    TrieIsPrefixClosed(trie, words);
    OwnIsExact(tokens, []);
    var p := Progress({}, 0, 0, []);
    forall s: nat, c: Byte | s < |trie|
      ensures !Passed(p, s, c)
    {
    }
    assert RowsInv(trie, trie, words, tokens, p);
    forall k: nat | k < |tokens|
      ensures !IsSuffix(tokens[k], words[0])
    {
    }
  }

  // ---------------------------------------------------------------------
  // Queue order: every state at most as deep as `cur` has been enqueued
  // ---------------------------------------------------------------------

  lemma {:induction false} ShallowStatesEnqueued(
    trie: seq<Node>, nodes: seq<Node>, words: seq<Word>, tokens: seq<Word>, p: Progress, n: nat)
    requires PassInv(trie, nodes, words, tokens, p)
    requires n < |nodes| && |words[n]| <= |words[p.cur]|
    ensures n == 0 || n in p.order
    ensures |words[n]| < |words[p.cur]| ==> n in p.done
    decreases n
  {
    if n != 0 {
      assert HasParent(trie, words, n);
      var s: nat :| s < n && words[s] == DropLast(words[n]) && trie[s].next[Last(words[n])] == n;
      ShallowStatesEnqueued(trie, nodes, words, tokens, p, s);
      assert Passed(p, s, Last(words[n]));
    }
  }

  // ---------------------------------------------------------------------
  // One step of the pass
  // ---------------------------------------------------------------------

  /** The value that the pass reads through the failure link of `cur`. */
  function Through(nodes: seq<Node>, cur: nat, b: Byte): int
    requires cur < |nodes| && 0 <= nodes[cur].fail < |nodes| && |nodes[nodes[cur].fail].next| == ALPHABET
  {
    if cur == 0 then 0 else nodes[nodes[cur].fail].next[b]
  }

  /** The lookup through the failure link is already final when it is used. */
  lemma ThroughIsLongestSuffix(
    trie: seq<Node>, nodes: seq<Node>, words: seq<Word>, tokens: seq<Word>, p: Progress, b: Byte)
    requires PassInv(trie, nodes, words, tokens, p) && p.b == b
    ensures 0 <= nodes[p.cur].fail < |nodes|
    ensures var g := Through(nodes, p.cur, b);
            && 0 <= g < |nodes|
            && words[g] == LongestSuffix(words, (words[p.cur] + [b])[1..])
            && (g == 0 || g in p.order)
  {
    assert nodes[p.cur].fail == nodes[p.cur].fail;
    if p.cur == 0 {
      assert (words[0] + [b])[1..] == [];
      assert words[0] in words;
    } else {
      var f := nodes[p.cur].fail;
      assert p.cur in p.order;
      assert FailOk(nodes, words, p.cur);
      assert HasParent(trie, words, p.cur);
      ShallowStatesEnqueued(trie, nodes, words, tokens, p, f);
      assert Passed(p, f, b);
      var g := nodes[f].next[b];
      assert EntryDone(nodes, words, f, b);
      ExtendThroughFailure(words, words[p.cur], b);
      ShallowStatesEnqueued(trie, nodes, words, tokens, p, g);
    }
  }

  /** An absent edge is filled with the entry seen through the failure link. */
  lemma StepAbsent(
    trie: seq<Node>, nodes: seq<Node>, words: seq<Word>, tokens: seq<Word>, p: Progress, b: Byte)
    requires PassInv(trie, nodes, words, tokens, p) && p.b == b
    requires nodes[p.cur].next[b] == -1
    ensures 0 <= nodes[p.cur].fail < |nodes|
    ensures PassInv(trie, SetNext(nodes, p.cur, b, Through(nodes, p.cur, b)), words, tokens, p.(b := b + 1))
  {
    ThroughIsLongestSuffix(trie, nodes, words, tokens, p, b);
    var nodes' := SetNext(nodes, p.cur, b, Through(nodes, p.cur, b));
    var p' := p.(b := b + 1);
    assert trie[p.cur].next[b] == -1;
    MissingEdgeMeansNewWord(trie, words, p.cur, b);
    assert EntryDone(nodes', words, p.cur, b);
    assert Frame(trie, nodes', words, tokens, p');
    forall s: nat, c: Byte | s < |nodes'|
      ensures if Passed(p', s, c) then EntryDone(nodes', words, s, c) else nodes'[s].next[c] == trie[s].next[c]
    {
      if s != p.cur || c != b {
        assert nodes'[s].next[c] == nodes[s].next[c];
      }
    }
    assert RowsInv(trie, nodes', words, tokens, p');
    SameLinks(trie, nodes, nodes', words, tokens, p, p');
  }

  /** Failure links and outputs survive a change of rows only. */
  lemma SameLinks(
    trie: seq<Node>, nodes: seq<Node>, nodes': seq<Node>, words: seq<Word>, tokens: seq<Word>,
    p: Progress, p': Progress)
    requires Frame(trie, nodes, words, tokens, p) && Frame(trie, nodes', words, tokens, p')
    requires LinksInv(trie, nodes, words, tokens, p)
    requires p.order == p'.order
    requires forall n: nat {:trigger nodes'[n]} :: n < |nodes'| ==>
               nodes'[n].fail == nodes[n].fail && nodes'[n].out == nodes[n].out
    ensures LinksInv(trie, nodes', words, tokens, p')
  {
    forall n: nat | n < |nodes'| && (n == 0 || n in p'.order)
      ensures FailOk(nodes', words, n) && OutOk(nodes', words, tokens, n)
    {
      assert FailOk(nodes, words, n) && OutOk(nodes, words, tokens, n) by {
        assert nodes[n] == nodes[n];
      }
    }
  }

  /** Own rules followed by those of the failure state: each once, exactly the suffixes. */
  lemma OutputsMerge(nodes: seq<Node>, words: seq<Word>, tokens: seq<Word>, n: nat, g: nat, out: seq<nat>)
    requires Table(nodes, words) && AllNonEmpty(tokens) && n < |nodes| && g < |nodes|
    requires words[n] != [] && words[g] == LongestSuffix(words, words[n][1..])
    requires forall k: nat :: k < |tokens| ==> tokens[k] in words
    requires OutOk(nodes, words, tokens, g)
    requires out == Own(tokens, words[n]) + nodes[g].out
    ensures Distinct(out)
    ensures forall k: nat :: k in out <==> k < |tokens| && IsSuffix(tokens[k], words[n])
  {
    OwnIsExact(tokens, words[n]);
    var own := Own(tokens, words[n]);
    forall k: nat
      ensures k in out <==> k < |tokens| && IsSuffix(tokens[k], words[n])
    {
      if k < |tokens| {
        SuffixOfTail(tokens[k], words[n]);
        LongestSuffixIsLongest(words, words[n][1..], tokens[k]);
      }
    }
    forall i, j | 0 <= i < j < |out|
      ensures out[i] != out[j]
    {
      if i < |own| && |own| <= j {
        assert out[i] in own && out[j] in nodes[g].out;
        assert |words[g]| < |words[n]|;
      }
    }
  }

  /** The state that a present edge leads to is linked, given its outputs, and enqueued. */
  function LinkChild(nodes: seq<Node>, n: nat, g: nat): seq<Node>
    requires n < |nodes| && g < |nodes|
  {
    nodes[n := nodes[n].(fail := g, out := nodes[n].out + nodes[g].out)]
  }

  lemma StepPresent(
    trie: seq<Node>, nodes: seq<Node>, words: seq<Word>, tokens: seq<Word>, p: Progress, b: Byte)
    requires PassInv(trie, nodes, words, tokens, p) && p.b == b
    requires nodes[p.cur].next[b] != -1
    ensures 0 <= nodes[p.cur].fail < |nodes|
    ensures 0 <= Through(nodes, p.cur, b) < |nodes| && 0 < nodes[p.cur].next[b] < |nodes|
    ensures var n := nodes[p.cur].next[b];
            PassInv(trie, LinkChild(nodes, n, Through(nodes, p.cur, b)), words, tokens,
                    p.(b := b + 1, order := p.order + [n]))
  {
    ThroughIsLongestSuffix(trie, nodes, words, tokens, p, b);
    var g := Through(nodes, p.cur, b);
    var n := nodes[p.cur].next[b];
    PresentEdge(trie, nodes, words, tokens, p, b);
    StepPresentRows(trie, nodes, words, tokens, p, b, n, g);
    StepPresentOrder(trie, nodes, words, tokens, p, b, n, g);
    StepPresentLinks(trie, nodes, words, tokens, p, b, n, g);
    StepPresentDepth(trie, nodes, words, tokens, p, b, n, g);
  }

  /** A present edge that has not been passed is a trie edge to a state not yet enqueued. */
  lemma PresentEdge(
    trie: seq<Node>, nodes: seq<Node>, words: seq<Word>, tokens: seq<Word>, p: Progress, b: Byte)
    requires PassInv(trie, nodes, words, tokens, p) && p.b == b
    requires nodes[p.cur].next[b] != -1
    ensures var n := nodes[p.cur].next[b];
            && p.cur < n < |nodes| && n == trie[p.cur].next[b]
            && words[n] == words[p.cur] + [b] && n !in p.order
  {
    assert !Passed(p, p.cur, b);
    assert nodes[p.cur].next[b] == trie[p.cur].next[b];
    assert TrieEdge(trie, words, p.cur, b);
  }

  ghost predicate PresentStep(
    trie: seq<Node>, nodes: seq<Node>, words: seq<Word>, tokens: seq<Word>, p: Progress, b: Byte, n: nat, g: nat)
  {
    && Frame(trie, nodes, words, tokens, p) && p.b == b
    && g < |nodes| && words[g] == LongestSuffix(words, (words[p.cur] + [b])[1..]) && (g == 0 || g in p.order)
    && p.cur < n < |nodes| && nodes[p.cur].next[b] == n == trie[p.cur].next[b]
    && words[n] == words[p.cur] + [b] && n !in p.order
  }

  lemma StepPresentRows(
    trie: seq<Node>, nodes: seq<Node>, words: seq<Word>, tokens: seq<Word>, p: Progress, b: Byte, n: nat, g: nat)
    requires PresentStep(trie, nodes, words, tokens, p, b, n, g)
    requires RowsInv(trie, nodes, words, tokens, p)
    ensures Frame(trie, LinkChild(nodes, n, g), words, tokens, p.(b := b + 1, order := p.order + [n]))
    ensures RowsInv(trie, LinkChild(nodes, n, g), words, tokens, p.(b := b + 1, order := p.order + [n]))
  {
    var nodes' := LinkChild(nodes, n, g);
    var p' := p.(b := b + 1, order := p.order + [n]);
    assert words[n] in words;
    assert EntryDone(nodes', words, p.cur, b);
    forall s: nat, c: Byte | s < |nodes'|
      ensures if Passed(p', s, c) then EntryDone(nodes', words, s, c) else nodes'[s].next[c] == trie[s].next[c]
    {
      assert nodes'[s].next[c] == nodes[s].next[c];
    }
  }

  lemma StepPresentOrder(
    trie: seq<Node>, nodes: seq<Node>, words: seq<Word>, tokens: seq<Word>, p: Progress, b: Byte, n: nat, g: nat)
    requires PresentStep(trie, nodes, words, tokens, p, b, n, g)
    requires OrderInv(trie, nodes, words, tokens, p)
    requires Frame(trie, LinkChild(nodes, n, g), words, tokens, p.(b := b + 1, order := p.order + [n]))
    ensures OrderInv(trie, LinkChild(nodes, n, g), words, tokens, p.(b := b + 1, order := p.order + [n]))
  {
    var p' := p.(b := b + 1, order := p.order + [n]);
    forall s: nat, c: Byte | s < |trie| && trie[s].next[c] != -1
      ensures trie[s].next[c] in p'.order <==> Passed(p', s, c)
    {
      assert TrieEdge(trie, words, s, c);
      if trie[s].next[c] == n {
        assert words[s] == DropLast(words[n]) == words[p.cur];
        assert c == Last(words[n]) == b;
      }
    }
  }

  lemma StepPresentLinks(
    trie: seq<Node>, nodes: seq<Node>, words: seq<Word>, tokens: seq<Word>, p: Progress, b: Byte, n: nat, g: nat)
    requires PresentStep(trie, nodes, words, tokens, p, b, n, g)
    requires LinksInv(trie, nodes, words, tokens, p)
    requires Frame(trie, LinkChild(nodes, n, g), words, tokens, p.(b := b + 1, order := p.order + [n]))
    ensures LinksInv(trie, LinkChild(nodes, n, g), words, tokens, p.(b := b + 1, order := p.order + [n]))
  {
    hide TrieOf;
    var nodes' := LinkChild(nodes, n, g);
    var p' := p.(b := b + 1, order := p.order + [n]);
    TokensAreWords(trie, words, tokens);
    assert nodes[n].out == trie[n].out;
    OutputsMerge(nodes, words, tokens, n, g, nodes'[n].out);
    forall i: nat | i < |nodes'| && (i == 0 || i in p'.order)
      ensures FailOk(nodes', words, i) && OutOk(nodes', words, tokens, i)
    {
    }
  }

  lemma StepPresentDepth(
    trie: seq<Node>, nodes: seq<Node>, words: seq<Word>, tokens: seq<Word>, p: Progress, b: Byte, n: nat, g: nat)
    requires PresentStep(trie, nodes, words, tokens, p, b, n, g)
    requires OrderInv(trie, nodes, words, tokens, p) && DepthInv(trie, nodes, words, tokens, p)
    requires Frame(trie, LinkChild(nodes, n, g), words, tokens, p.(b := b + 1, order := p.order + [n]))
    requires OrderInv(trie, LinkChild(nodes, n, g), words, tokens, p.(b := b + 1, order := p.order + [n]))
    ensures DepthInv(trie, LinkChild(nodes, n, g), words, tokens, p.(b := b + 1, order := p.order + [n]))
  {
    assert forall i :: 0 <= i < |p.order| ==> p.order[i] in p.order;
  }

  lemma TokensAreWords(trie: seq<Node>, words: seq<Word>, tokens: seq<Word>)
    requires TrieOf(trie, words, tokens)
    ensures forall k :: 0 <= k < |tokens| ==> tokens[k] in words
    ensures |trie| == |words|
    ensures forall n: nat {:trigger trie[n].out} :: n < |trie| ==> trie[n].out == Own(tokens, words[n])
  {
    forall k | 0 <= k < |tokens|
      ensures tokens[k] in words
    {
      assert IsPrefixOfSome(tokens, tokens[k]);
    }
  }

  // ---------------------------------------------------------------------
  // Between states, and the end of the pass
  // ---------------------------------------------------------------------

  /** `order` is what was taken from the queue, then what is still in it. */
  ghost predicate Between(
    trie: seq<Node>, nodes: seq<Node>, words: seq<Word>, tokens: seq<Word>, p: Progress, queue: seq<nat>)
  {
    && PassInv(trie, nodes, words, tokens, p) && p.b == ALPHABET
    && |queue| <= |p.order| && p.order[|p.order| - |queue|..] == queue
    && (forall n :: n in p.order[..|p.order| - |queue|] <==> n != 0 && n in p.done + {p.cur})
  }

  /** Finishing `cur` and taking the head of the queue keeps the invariant. */
  lemma NextState(
    trie: seq<Node>, nodes: seq<Node>, words: seq<Word>, tokens: seq<Word>, p: Progress, queue: seq<nat>)
    requires Between(trie, nodes, words, tokens, p, queue) && queue != []
    ensures PassInv(trie, nodes, words, tokens, Progress(p.done + {p.cur}, queue[0], 0, p.order))
    ensures forall n :: n in p.order[..|p.order| - |queue| + 1] <==> n != 0 && n in p.done + {p.cur, queue[0]}
  {
    var q := Progress(p.done + {p.cur}, queue[0], 0, p.order);
    HeadIsNew(trie, nodes, words, tokens, p, queue);
    assert forall s: nat, c: Byte :: Passed(q, s, c) <==> Passed(p, s, c);
    assert Frame(trie, nodes, words, tokens, q);
    assert RowsInv(trie, nodes, words, tokens, q);
    assert OrderInv(trie, nodes, words, tokens, q);
    SameLinks(trie, nodes, nodes, words, tokens, p, q);
  }

  lemma HeadIsNew(
    trie: seq<Node>, nodes: seq<Node>, words: seq<Word>, tokens: seq<Word>, p: Progress, queue: seq<nat>)
    requires Between(trie, nodes, words, tokens, p, queue) && queue != []
    ensures queue[0] in p.order && 0 < queue[0] < |nodes| && queue[0] !in p.done + {p.cur}
    ensures 0 in p.done + {p.cur}
    ensures forall n :: n in p.order[..|p.order| - |queue| + 1] <==> n != 0 && n in p.done + {p.cur, queue[0]}
  {
    var k := |p.order| - |queue|;
    assert p.order[k] == queue[0];
    assert p.order[..k + 1] == p.order[..k] + [queue[0]];
    assert queue[0] !in p.order[..k];
  }

  /** An empty queue means that the whole table is finished. */
  lemma {:induction false} EmptyQueueMeansAllDone(
    trie: seq<Node>, nodes: seq<Node>, words: seq<Word>, tokens: seq<Word>, p: Progress, n: nat)
    requires Between(trie, nodes, words, tokens, p, []) && n < |nodes|
    ensures n in p.done + {p.cur}
    ensures n == 0 || n in p.order
    decreases n
  {
    assert p.order[..|p.order| - 0] == p.order;
    if n != 0 {
      assert HasParent(trie, words, n);
      var s: nat :| s < n && words[s] == DropLast(words[n]) && trie[s].next[Last(words[n])] == n;
      EmptyQueueMeansAllDone(trie, nodes, words, tokens, p, s);
      assert Passed(p, s, Last(words[n]));
    }
  }

  /** Each state except the root was enqueued once, in order of depth. */
  ghost predicate VisitsAllOnce(words: seq<Word>, order: seq<nat>) {
    && Distinct(order)
    && (forall n: nat :: n in order <==> 0 < n < |words|)
    && SortedByDepth(words, order)
  }

  lemma PassEnds(trie: seq<Node>, nodes: seq<Node>, words: seq<Word>, tokens: seq<Word>, p: Progress)
    requires Between(trie, nodes, words, tokens, p, [])
    ensures AutomatonOf(nodes, words, tokens)
    ensures |nodes| == |trie|
    ensures VisitsAllOnce(words, p.order)
  {
    forall n: nat | n < |nodes|
      ensures n in p.done + {p.cur} && (n == 0 || n in p.order)
    {
      EmptyQueueMeansAllDone(trie, nodes, words, tokens, p, n);
    }
    forall s: nat, b: Byte | s < |nodes|
      ensures EntryDone(nodes, words, s, b)
    {
      assert Passed(p, s, b);
    }
    forall s: nat | s < |nodes|
      ensures FailOk(nodes, words, s) && OutOk(nodes, words, tokens, s)
    {
      assert nodes[s] == nodes[s];
    }
  }

  // ---------------------------------------------------------------------
  // Scanning
  // ---------------------------------------------------------------------

  /** The state reached after reading t from the root, one table lookup per byte. */
  ghost function Run(nodes: seq<Node>, words: seq<Word>, tokens: seq<Word>, t: Word): (s: nat)
    requires AutomatonOf(nodes, words, tokens)
    ensures s < |nodes|
  {
    if t == [] then 0
    else
      var s := Run(nodes, words, tokens, DropLast(t));
      assert EntryDone(nodes, words, s, Last(t));
      nodes[s].next[Last(t)]
  }

  lemma {:induction false} RunIsLongestSuffix(nodes: seq<Node>, words: seq<Word>, tokens: seq<Word>, t: Word)
    requires AutomatonOf(nodes, words, tokens)
    ensures words[Run(nodes, words, tokens, t)] == LongestSuffix(words, t)
  {
    if t == [] {
      assert words[0] in words;
    } else {
      var u := DropLast(t);
      RunIsLongestSuffix(nodes, words, tokens, u);
      assert t == u + [Last(t)];
      LongestSuffixStep(words, u, Last(t));
      assert EntryDone(nodes, words, Run(nodes, words, tokens, u), Last(t));
    }
  }

  /** One table lookup. */
  lemma RunStep(nodes: seq<Node>, words: seq<Word>, tokens: seq<Word>, t: Word, b: Byte)
    requires AutomatonOf(nodes, words, tokens)
    ensures var s := Run(nodes, words, tokens, t);
            |nodes[s].next| == ALPHABET && nodes[s].next[b] == Run(nodes, words, tokens, t + [b])
  {
    assert DropLast(t + [b]) == t;
  }

  /** The rules reported on reading t's last byte are those whose token ends there. */
  lemma OutputsAfter(nodes: seq<Node>, words: seq<Word>, tokens: seq<Word>, t: Word, k: nat)
    requires AutomatonOf(nodes, words, tokens)
    ensures k in nodes[Run(nodes, words, tokens, t)].out <==> k < |tokens| && IsSuffix(tokens[k], t)
  {
    var s := Run(nodes, words, tokens, t);
    RunIsLongestSuffix(nodes, words, tokens, t);
    assert OutOk(nodes, words, tokens, s) by {
      assert nodes[s].out == nodes[s].out;
    }
    LongestSuffixIsLongest(words, t, words[s]);
    if k < |tokens| {
      assert IsPrefixOfSome(tokens, tokens[k]);
      LongestSuffixIsLongest(words, t, tokens[k]);
    }
  }

  /** The same for the union over all bytes read so far: substrings. */
  lemma SeenGrows(
    nodes: seq<Node>, words: seq<Word>, tokens: seq<Word>, t: Word, b: Byte, before: set<nat>, seen: set<nat>)
    requires AutomatonOf(nodes, words, tokens)
    requires Seen(tokens, t, before)
    requires forall k: nat :: k in seen <==> k in before || k in nodes[Run(nodes, words, tokens, t + [b])].out
    ensures Seen(tokens, t + [b], seen)
  {
    forall k: nat
      ensures k in seen <==> k < |tokens| && Contains(t + [b], tokens[k])
    {
      OutputsAfter(nodes, words, tokens, t + [b], k);
      if k < |tokens| {
        ContainsGrows(t, b, tokens[k]);
      }
    }
  }

  /** `seen` holds exactly the rules whose token is a substring of t. */
  ghost predicate Seen(tokens: seq<Word>, t: Word, seen: set<nat>) {
    forall k: nat :: k in seen <==> k < |tokens| && Contains(t, tokens[k])
  }
}
