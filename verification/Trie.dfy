/** The trie that repeated insertion builds, as an invariant over the node
    table. `words[s]` is the word that leads from the root to node s. */
module Trie {
  import opened Words

  /** One automaton state: a transition row, a failure link and the rules reported. */
  datatype Node = Node(next: seq<int>, fail: int, out: seq<nat>)

  const ALPHABET: nat := 256

  function NewNode(): (n: Node)
    ensures |n.next| == ALPHABET && n.fail == 0 && n.out == []
    ensures forall b :: 0 <= b < ALPHABET ==> n.next[b] == -1
  {
    Node(seq(ALPHABET, _ => -1), 0, [])
  }

  function SetNext(nodes: seq<Node>, s: nat, b: Byte, target: int): seq<Node>
    requires s < |nodes| && |nodes[s].next| == ALPHABET
  {
    nodes[s := nodes[s].(next := nodes[s].next[b := target])]
  }

  ghost predicate Shape(nodes: seq<Node>, words: seq<Word>) {
    && |nodes| == |words| > 0
    && words[0] == []
    && Distinct(words)
    && (forall s :: 0 <= s < |nodes| ==> |nodes[s].next| == ALPHABET)
  }

  /** Entry b of row s is absent or leads to a later node for the extended word. */
  ghost predicate TrieEdge(nodes: seq<Node>, words: seq<Word>, s: nat, b: Byte)
    requires Shape(nodes, words) && s < |nodes|
  {
    var n := nodes[s].next[b];
    n == -1 || (s < n < |nodes| && words[n] == words[s] + [b])
  }

  ghost predicate HasParent(nodes: seq<Node>, words: seq<Word>, n: nat)
    requires Shape(nodes, words) && n < |nodes|
  {
    && words[n] != []
    && exists s: nat :: s < n && words[s] == DropLast(words[n]) && nodes[s].next[Last(words[n])] == n
  }

  ghost predicate IsTrie(nodes: seq<Node>, words: seq<Word>) {
    && Shape(nodes, words)
    && (forall s: nat, b: Byte {:trigger nodes[s].next[b]} :: s < |nodes| ==> TrieEdge(nodes, words, s, b))
    && (forall n: nat {:trigger words[n]} :: 0 < n < |nodes| ==> HasParent(nodes, words, n))
  }

  ghost predicate IsPrefixOfSome(tokens: seq<Word>, w: Word) {
    w == [] || exists k :: 0 <= k < |tokens| && w <= tokens[k]
  }

  /** Rule indices whose token is exactly w, in insertion order. */
  ghost function Own(tokens: seq<Word>, w: Word): seq<nat> {
    if tokens == [] then []
    else
      Own(tokens[..|tokens| - 1], w) + (if tokens[|tokens| - 1] == w then [|tokens| - 1] else [])
  }

  /** The trie of a token list: a node for each distinct prefix and no other,
      and each node reports exactly the rules whose token ends there. */
  ghost predicate TrieOf(nodes: seq<Node>, words: seq<Word>, tokens: seq<Word>) {
    && IsTrie(nodes, words)
    && (forall w: Word :: w in words <==> IsPrefixOfSome(tokens, w))
    && (forall s :: 0 <= s < |nodes| ==> nodes[s].out == Own(tokens, words[s]) && nodes[s].fail == 0)
  }

  // ---------------------------------------------------------------------
  // Adding one node
  // ---------------------------------------------------------------------

  /** A present edge of a trie is determined by the word it leads to. */
  lemma EdgeOfWord(nodes: seq<Node>, words: seq<Word>, s: nat, b: Byte, n: nat)
    requires IsTrie(nodes, words) && s < |nodes| && n < |nodes|
    requires words[n] == words[s] + [b]
    ensures nodes[s].next[b] == n
  {
    assert n != 0;
    assert HasParent(nodes, words, n);
    var p: nat :| p < n && words[p] == DropLast(words[n]) && nodes[p].next[Last(words[n])] == n;
    assert words[p] == words[s];
    assert p == s;
  }

  /** A missing edge means that the extended word has no node. */
  lemma MissingEdgeMeansNewWord(nodes: seq<Node>, words: seq<Word>, s: nat, b: Byte)
    requires IsTrie(nodes, words) && s < |nodes|
    requires nodes[s].next[b] == -1
    ensures words[s] + [b] !in words
  {
    if words[s] + [b] in words {
      var n: nat :| n < |words| && words[n] == words[s] + [b];
      EdgeOfWord(nodes, words, s, b, n);
    }
  }

  lemma AddChild(nodes: seq<Node>, words: seq<Word>, s: nat, b: Byte)
    requires IsTrie(nodes, words) && s < |nodes|
    requires nodes[s].next[b] == -1
    ensures IsTrie(SetNext(nodes + [NewNode()], s, b, |nodes|), words + [words[s] + [b]])
  {
    MissingEdgeMeansNewWord(nodes, words, s, b);
    var nodes' := SetNext(nodes + [NewNode()], s, b, |nodes|);
    var words' := words + [words[s] + [b]];
    assert Shape(nodes', words');
    forall i: nat, c: Byte | i < |nodes'|
      ensures TrieEdge(nodes', words', i, c)
    {
      if i < |nodes| {
        assert TrieEdge(nodes, words, i, c);
      }
    }
    forall n: nat | 0 < n < |nodes'|
      ensures HasParent(nodes', words', n)
    {
      ChildParent(nodes, words, s, b, n);
    }
  }

  /** Every node keeps its parent, and the new one has node s for its parent. */
  lemma ChildParent(nodes: seq<Node>, words: seq<Word>, s: nat, b: Byte, n: nat)
    requires IsTrie(nodes, words) && s < |nodes| && nodes[s].next[b] == -1 && 0 < n <= |nodes|
    requires Shape(SetNext(nodes + [NewNode()], s, b, |nodes|), words + [words[s] + [b]])
    ensures HasParent(SetNext(nodes + [NewNode()], s, b, |nodes|), words + [words[s] + [b]], n)
  {
    var nodes' := SetNext(nodes + [NewNode()], s, b, |nodes|);
    var words' := words + [words[s] + [b]];
    if n < |nodes| {
      assert HasParent(nodes, words, n);
      var p: nat :| p < n && words[p] == DropLast(words[n]) && nodes[p].next[Last(words[n])] == n;
      assert nodes'[p].next[Last(words'[n])] == n;
    } else {
      assert DropLast(words'[n]) == words'[s];
      assert nodes'[s].next[Last(words'[n])] == n;
    }
  }

  lemma {:induction false} OwnIsExact(tokens: seq<Word>, w: Word)
    ensures forall k: nat :: k in Own(tokens, w) <==> k < |tokens| && tokens[k] == w
    ensures Distinct(Own(tokens, w))
  {
    if tokens != [] {
      var n := |tokens| - 1;
      var own, last := Own(tokens[..n], w), if tokens[n] == w then [n] else [];
      OwnIsExact(tokens[..n], w);
      assert Own(tokens, w) == own + last;
      assert forall k: nat :: k in own + last <==> k in own || k in last;
      assert forall i :: 0 <= i < |own| ==> own[i] in own;
    }
  }

  // ---------------------------------------------------------------------
  // The trie is prefix closed, and its size is a count of distinct prefixes
  // ---------------------------------------------------------------------

  lemma TrieIsPrefixClosed(nodes: seq<Node>, words: seq<Word>)
    requires IsTrie(nodes, words)
    ensures PrefixClosed(words)
  {
    assert words[0] in words;
    forall w | w in words && w != []
      ensures DropLast(w) in words
    {
      var n: nat :| n < |words| && words[n] == w;
      assert HasParent(nodes, words, n);
    }
  }

  ghost function PrefixesOf(t: Word): set<Word> {
    set n | 0 <= n <= |t| :: t[..n]
  }

  /** All prefixes of all tokens, the empty one included. */
  ghost function PrefixSet(tokens: seq<Word>): set<Word> {
    if tokens == [] then {[]}
    else PrefixSet(tokens[..|tokens| - 1]) + PrefixesOf(tokens[|tokens| - 1])
  }

  ghost function TotalLength(tokens: seq<Word>): nat {
    if tokens == [] then 0
    else TotalLength(tokens[..|tokens| - 1]) + |tokens[|tokens| - 1]|
  }

  lemma {:induction false} PrefixSetIsExact(tokens: seq<Word>, w: Word)
    ensures w in PrefixSet(tokens) <==> IsPrefixOfSome(tokens, w)
  {
    if tokens != [] {
      var init, t := tokens[..|tokens| - 1], tokens[|tokens| - 1];
      PrefixSetIsExact(init, w);
      if w <= t {
        assert w == t[..|w|];
      }
      if w in PrefixSet(init) && w != [] {
        var k :| 0 <= k < |init| && w <= init[k];
        assert w <= tokens[k];
      }
    }
  }

  lemma {:induction false} PrefixesOfSize(t: Word)
    ensures |PrefixesOf(t) - {[]}| <= |t|
  {
    if t == [] {
      assert PrefixesOf(t) == {[]};
    } else {
      var init := DropLast(t);
      PrefixesOfSize(init);
      forall w | w in PrefixesOf(t)
        ensures w in PrefixesOf(init) + {t}
      {
        var n :| 0 <= n <= |t| && w == t[..n];
        if n < |t| {
          assert w == init[..n];
          assert w in PrefixesOf(init);
        } else {
          assert w == t;
        }
      }
      assert PrefixesOf(t) - {[]} <= (PrefixesOf(init) - {[]}) + {t};
      SubsetSize(PrefixesOf(t) - {[]}, (PrefixesOf(init) - {[]}) + {t});
    }
  }

  lemma {:induction false} SubsetSize<T>(a: set<T>, b: set<T>)
    requires a <= b
    ensures |a| <= |b|
  {
    if a != {} {
      var x :| x in a;
      SubsetSize(a - {x}, b - {x});
    }
  }

  lemma {:induction false} PrefixSetSize(tokens: seq<Word>)
    ensures [] in PrefixSet(tokens)
    ensures |PrefixSet(tokens)| <= 1 + TotalLength(tokens)
  {
    if tokens != [] {
      var init, t := tokens[..|tokens| - 1], tokens[|tokens| - 1];
      PrefixSetSize(init);
      PrefixesOfSize(t);
      assert PrefixSet(tokens) == PrefixSet(init) + (PrefixesOf(t) - {[]});
    }
  }

  lemma {:induction false} DistinctSize<T>(xs: seq<T>, s: set<T>)
    requires Distinct(xs)
    requires forall x :: x in s <==> x in xs
    ensures |s| == |xs|
  {
    if xs == [] {
      assert s == {};
    } else {
      var x := xs[|xs| - 1];
      DistinctSize(xs[..|xs| - 1], s - {x});
    }
  }

  /** The number of nodes is the number of distinct prefixes of the tokens. */
  lemma NodesCountPrefixes(nodes: seq<Node>, words: seq<Word>, tokens: seq<Word>)
    requires TrieOf(nodes, words, tokens)
    ensures |nodes| == |PrefixSet(tokens)| <= 1 + TotalLength(tokens)
  {
    WordsCountPrefixes(words, tokens);
  }

  lemma WordsCountPrefixes(words: seq<Word>, tokens: seq<Word>)
    requires Distinct(words) && forall w: Word :: w in words <==> IsPrefixOfSome(tokens, w)
    ensures |words| == |PrefixSet(tokens)| <= 1 + TotalLength(tokens)
  {
    forall w
      ensures w in PrefixSet(tokens) <==> w in words
    {
      PrefixSetIsExact(tokens, w);
    }
    DistinctSize(words, PrefixSet(tokens));
    PrefixSetSize(tokens);
  }
}
