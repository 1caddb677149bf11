/** Concurrent use of the Bloom filter: any number of threads interleave the
    atomic loads and compare-and-swaps of Add and the atomic loads of Test. */
module BloomRuns {
  import opened Words
  import opened Bits
  import Bloom

  /** A filter's dimensions with its index function. Nothing here depends on how
      good the hashes are, only on their being functions of the value. */
  datatype Layout = Layout(size: Bloom.Size, index: (Word, nat) -> nat) {
    ghost predicate Ok() {
      size.Ok() && forall v: Word, i: nat {:trigger index(v, i)} :: index(v, i) < size.bits
    }
  }

  /** The layout of the filter, for dimensions that its constructor accepts. */
  ghost function OfFilter(size: Bloom.Size): (r: Layout)
    requires size.Ok()
    ensures r.Ok() && r.size == size
    ensures forall v: Word, i: nat :: r.index(v, i) == Bloom.Index(size, v, i)
  {
    Layout(size, (v, i) => Bloom.Index(size, v, i))
  }

  /** Where a thread stands. `failures` counts failed swaps on the current word. */
  datatype Thread =
    | Idle
    | AddLoad(op: nat, failures: nat)
    | AddSwap(op: nat, failures: nat, loaded: bv64)
    | TestLoad(op: nat)

  /** An Add: its value and how many of its index bits it has written. */
  datatype AddOp = AddOp(value: Word, done: nat)

  /** A Test: its value, how many bits it has seen set, its answer if it has
      returned, and whether some Add of the value had returned when it started. */
  datatype TestOp = TestOp(value: Word, seen: nat, answer: Answer, afterAdd: bool)

  datatype Answer = Pending | Hit | Miss

  datatype State = State(words: seq<bv64>, threads: seq<Thread>, adds: seq<AddOp>, tests: seq<TestOp>)

  datatype Action =
    | StartAdd(thread: nat, value: Word)
    | StartTest(thread: nat, value: Word)
    | Step(thread: nat)

  ghost predicate Returned(layout: Layout, a: AddOp) {
    a.value == [] || a.done == layout.size.k
  }

  ghost predicate AddReturned(layout: Layout, s: State, value: Word) {
    exists op :: 0 <= op < |s.adds| && s.adds[op].value == value && Returned(layout, s.adds[op])
  }

  function Zeros(n: nat): seq<bv64> {
    seq(n, _ => 0)
  }

  function Init(layout: Layout, threads: nat): State {
    State(Zeros(Bloom.WordCount(layout.size.bits)), seq(threads, _ => Idle), [], [])
  }

  ghost predicate Sized(layout: Layout, s: State) {
    layout.Ok() && |s.words| == Bloom.WordCount(layout.size.bits)
  }

  /** Thread t's next index, and the bit it concerns. */
  ghost function AddIndex(layout: Layout, s: State, op: nat): (idx: nat)
    requires layout.Ok() && op < |s.adds|
    ensures idx < layout.size.bits
  {
    layout.index(s.adds[op].value, s.adds[op].done)
  }

  ghost function TestIndex(layout: Layout, s: State, op: nat): (idx: nat)
    requires layout.Ok() && op < |s.tests|
    ensures idx < layout.size.bits
  {
    layout.index(s.tests[op].value, s.tests[op].seen)
  }

  ghost predicate OpsExist(s: State) {
    forall t :: 0 <= t < |s.threads| ==>
      match s.threads[t]
      case Idle => true
      case AddLoad(op, _) => op < |s.adds|
      case AddSwap(op, _, _) => op < |s.adds|
      case TestLoad(op) => op < |s.tests|
  }

  /** One index of an Add is finished: go on with the next one or return. */
  function AdvanceAdd(layout: Layout, s: State, t: nat, op: nat, words: seq<bv64>): State
    requires t < |s.threads| && op < |s.adds|
  {
    var a := s.adds[op];
    State(words,
          s.threads[t := if a.done + 1 >= layout.size.k then Idle else AddLoad(op, 0)],
          s.adds[op := AddOp(a.value, a.done + 1)],
          s.tests)
  }

  /** One step; an action that is not enabled changes nothing. */
  ghost function Next(layout: Layout, s: State, a: Action): State
    requires Sized(layout, s) && OpsExist(s)
  {
    if a.thread >= |s.threads| then s
    else
      var t := a.thread;
      match a
      case StartAdd(_, value) =>
        if s.threads[t] != Idle then s
        else if value == [] then s.(adds := s.adds + [AddOp(value, 0)])
        else s.(adds := s.adds + [AddOp(value, 0)], threads := s.threads[t := AddLoad(|s.adds|, 0)])
      case StartTest(_, value) =>
        if s.threads[t] != Idle then s
        else if value == [] then s.(tests := s.tests + [TestOp(value, 0, Miss, false)])
        else s.(tests := s.tests + [TestOp(value, 0, Pending, AddReturned(layout, s, value))],
                threads := s.threads[t := TestLoad(|s.tests|)])
      case Step(_) =>
        match s.threads[t]
        case Idle => s
        case AddLoad(op, failures) =>
          var idx := AddIndex(layout, s, op);
          var loaded := s.words[idx / 64];
          if Meets(loaded, Mask(idx % 64)) then AdvanceAdd(layout, s, t, op, s.words)
          else s.(threads := s.threads[t := AddSwap(op, failures, loaded)])
        case AddSwap(op, failures, loaded) =>
          var idx := AddIndex(layout, s, op);
          if s.words[idx / 64] == loaded
          then AdvanceAdd(layout, s, t, op, s.words[idx / 64 := Or(loaded, Mask(idx % 64))])
          else s.(threads := s.threads[t := AddLoad(op, failures + 1)])
        case TestLoad(op) =>
          var idx := TestIndex(layout, s, op);
          var q := s.tests[op];
          if !Meets(s.words[idx / 64], Mask(idx % 64))
          then s.(tests := s.tests[op := q.(answer := Miss)], threads := s.threads[t := Idle])
          else if q.seen + 1 >= layout.size.k
          then s.(tests := s.tests[op := q.(seen := q.seen + 1, answer := Hit)], threads := s.threads[t := Idle])
          else s.(tests := s.tests[op := q.(seen := q.seen + 1)])
  }

  // ---------------------------------------------------------------------
  // The invariant
  // ---------------------------------------------------------------------

  ghost predicate WrittenBy(layout: Layout, a: AddOp, idx: nat)
    requires layout.Ok()
  {
    exists j: nat :: j < a.done && layout.index(a.value, j) == idx
  }

  /** Some Add has already finished this index. */
  ghost predicate Written(layout: Layout, adds: seq<AddOp>, idx: nat)
    requires layout.Ok()
  {
    exists op :: 0 <= op < |adds| && WrittenBy(layout, adds[op], idx)
  }

  /** No update is lost and no bit is invented. */
  ghost predicate BitsExact(layout: Layout, s: State)
    requires Sized(layout, s)
  {
    forall idx: nat :: idx < layout.size.bits ==> (Bit(s.words, idx) <==> Written(layout, s.adds, idx))
  }

  ghost predicate ThreadOk(layout: Layout, s: State, t: nat)
    requires Sized(layout, s) && OpsExist(s) && t < |s.threads|
  {
    match s.threads[t]
    case Idle => true
    case AddLoad(op, failures) =>
      && s.adds[op].done < layout.size.k && s.adds[op].value != []
      && failures <= Ones(s.words[AddIndex(layout, s, op) / 64], 64)
    case AddSwap(op, failures, loaded) =>
      var idx := AddIndex(layout, s, op);
      && s.adds[op].done < layout.size.k && s.adds[op].value != []
      && failures <= Ones(loaded, 64)
      && !Meets(loaded, Mask(idx % 64))
      && SubWord(loaded, s.words[idx / 64])
    case TestLoad(op) =>
      && s.tests[op].seen < layout.size.k && s.tests[op].value != [] && s.tests[op].answer == Pending
  }

  ghost predicate ThreadsOk(layout: Layout, s: State)
    requires Sized(layout, s) && OpsExist(s)
  {
    forall t :: 0 <= t < |s.threads| ==> ThreadOk(layout, s, t)
  }

  function OpOf(th: Thread): int {
    match th
    case Idle => -1
    case AddLoad(op, _) => op
    case AddSwap(op, _, _) => op
    case TestLoad(op) => op
  }

  ghost predicate IsAdding(th: Thread) {
    th.AddLoad? || th.AddSwap?
  }

  /** Two threads never work on the same operation. */
  ghost predicate Exclusive(s: State) {
    forall t, u :: 0 <= t < u < |s.threads| && OpOf(s.threads[t]) == OpOf(s.threads[u]) && s.threads[t] != Idle ==>
      IsAdding(s.threads[t]) != IsAdding(s.threads[u])
  }

  /** What a Test has seen is still set; a Test that started after an Add of its
      value returned can only see set bits. */
  ghost predicate TestOk(layout: Layout, s: State, q: TestOp)
    requires Sized(layout, s)
  {
    && q.seen <= layout.size.k
    && (forall j: nat :: j < q.seen ==> Bit(s.words, layout.index(q.value, j)))
    && (q.answer == Hit ==> q.value != [] && q.seen == layout.size.k)
    && (q.afterAdd ==> q.value != [] && q.answer != Miss && AddReturned(layout, s, q.value))
  }

  ghost predicate TestsOk(layout: Layout, s: State)
    requires Sized(layout, s)
  {
    forall op :: 0 <= op < |s.tests| ==> TestOk(layout, s, s.tests[op])
  }

  ghost predicate Inv(layout: Layout, s: State) {
    && Sized(layout, s) && OpsExist(s)
    && BitsExact(layout, s) && ThreadsOk(layout, s) && Exclusive(s) && TestsOk(layout, s)
    && (forall op :: 0 <= op < |s.adds| ==> s.adds[op].done <= layout.size.k)
  }

  /** Between two states bits only appear, and Adds only make progress. */
  ghost predicate Grows(layout: Layout, s: State, s': State) {
    && |s.words| == |s'.words|
    && (forall w :: 0 <= w < |s.words| ==> SubWord(s.words[w], s'.words[w]))
    && |s.adds| <= |s'.adds|
    && (forall op :: 0 <= op < |s.adds| ==> s'.adds[op].value == s.adds[op].value && s.adds[op].done <= s'.adds[op].done)
  }

  lemma InitInv(layout: Layout, threads: nat)
    requires layout.Ok()
    ensures Inv(layout, Init(layout, threads))
  {
    var s := Init(layout, threads);
    forall idx: nat | idx < layout.size.bits
      ensures !Bit(s.words, idx)
    {
      EmptyWord(idx % 64);
    }
  }

  // ---------------------------------------------------------------------
  // Steps
  // ---------------------------------------------------------------------

  lemma GrowthKeepsThread(layout: Layout, s: State, s': State, t: nat)
    requires Sized(layout, s) && Sized(layout, s') && OpsExist(s) && OpsExist(s')
    requires t < |s.threads| == |s'.threads| && s.threads[t] == s'.threads[t]
    requires Grows(layout, s, s')
    requires ThreadOk(layout, s, t)
    requires IsAdding(s.threads[t]) ==> s.adds[OpOf(s.threads[t])] == s'.adds[OpOf(s.threads[t])]
    requires s.threads[t].TestLoad? ==> s.tests[s.threads[t].op] == s'.tests[s.threads[t].op]
    ensures ThreadOk(layout, s', t)
  {
    if s.threads[t].AddLoad? {
      var w := AddIndex(layout, s, s.threads[t].op) / 64;
      OnesMonotone(s.words[w], s'.words[w], 64);
    }
  }

  lemma GrowthKeepsTest(layout: Layout, s: State, s': State, q: TestOp)
    requires Sized(layout, s) && Sized(layout, s') && Grows(layout, s, s')
    requires forall op :: 0 <= op < |s'.adds| ==> s'.adds[op].done <= layout.size.k
    requires TestOk(layout, s, q)
    ensures TestOk(layout, s', q)
  {
    forall j: nat | j < q.seen
      ensures Bit(s'.words, layout.index(q.value, j))
    {
      var idx := layout.index(q.value, j);
      assert Bit(s.words, idx);
      assert SubWord(s.words[idx / 64], s'.words[idx / 64]);
    }
    if q.afterAdd {
      var op :| 0 <= op < |s.adds| && s.adds[op].value == q.value && Returned(layout, s.adds[op]);
      assert s'.adds[op].value == q.value && Returned(layout, s'.adds[op]);
    }
  }

  /** Recording one more written index keeps the bits exact. */
  lemma AdvanceKeepsBits(layout: Layout, s: State, op: nat, words: seq<bv64>)
    requires Sized(layout, s) && BitsExact(layout, s) && op < |s.adds|
    requires |words| == |s.words|
    requires forall i: nat :: i < layout.size.bits ==>
               (Bit(words, i) <==> Bit(s.words, i) || i == AddIndex(layout, s, op))
    ensures var adds := s.adds[op := AddOp(s.adds[op].value, s.adds[op].done + 1)];
            forall i: nat :: i < layout.size.bits ==> (Bit(words, i) <==> Written(layout, adds, i))
  {
    var a := s.adds[op];
    var adds := s.adds[op := AddOp(a.value, a.done + 1)];
    forall i: nat | i < layout.size.bits
      ensures Written(layout, adds, i) <==> Written(layout, s.adds, i) || i == AddIndex(layout, s, op)
    {
      assert WrittenBy(layout, adds[op], i) <==> WrittenBy(layout, a, i) || i == layout.index(a.value, a.done) by {
        if i == layout.index(a.value, a.done) {
          assert a.done < adds[op].done;
        }
        if WrittenBy(layout, a, i) {
          var j: nat :| j < a.done && layout.index(a.value, j) == i;
          assert j < adds[op].done;
        }
      }
      if Written(layout, s.adds, i) {
        var o :| 0 <= o < |s.adds| && WrittenBy(layout, s.adds[o], i);
        assert WrittenBy(layout, adds[o], i);
      }
      if Written(layout, adds, i) {
        var o :| 0 <= o < |adds| && WrittenBy(layout, adds[o], i);
        if o != op {
          assert WrittenBy(layout, s.adds[o], i);
        }
      }
      if i == AddIndex(layout, s, op) {
        assert WrittenBy(layout, adds[op], i);
      }
    }
  }

  /** A finished index, however it was finished, keeps the invariant. */
  lemma AdvanceInv(layout: Layout, s: State, t: nat, op: nat, words: seq<bv64>)
    requires Inv(layout, s) && t < |s.threads| && op < |s.adds|
    requires IsAdding(s.threads[t]) && OpOf(s.threads[t]) == op
    requires |words| == |s.words|
    requires forall w :: 0 <= w < |words| ==> SubWord(s.words[w], words[w])
    requires forall i: nat :: i < layout.size.bits ==>
               (Bit(words, i) <==> Bit(s.words, i) || i == AddIndex(layout, s, op))
    ensures Inv(layout, AdvanceAdd(layout, s, t, op, words))
    ensures Grows(layout, s, AdvanceAdd(layout, s, t, op, words))
  {
    var s' := AdvanceAdd(layout, s, t, op, words);
    assert ThreadOk(layout, s, t);
    AdvanceKeepsBits(layout, s, op, words);
    AdvanceKeepsThreads(layout, s, s', t, op);
    forall o | 0 <= o < |s'.tests|
      ensures TestOk(layout, s', s'.tests[o])
    {
      GrowthKeepsTest(layout, s, s', s.tests[o]);
    }
  }

  lemma AdvanceKeepsThreads(layout: Layout, s: State, s': State, t: nat, op: nat)
    requires Inv(layout, s) && t < |s.threads| && op < |s.adds|
    requires IsAdding(s.threads[t]) && OpOf(s.threads[t]) == op
    requires Sized(layout, s') && s' == AdvanceAdd(layout, s, t, op, s'.words) && Grows(layout, s, s')
    ensures OpsExist(s') && ThreadsOk(layout, s')
  {
    assert ThreadOk(layout, s, t);
    forall u | 0 <= u < |s'.threads|
      ensures ThreadOk(layout, s', u)
    {
      if u != t {
        assert ThreadOk(layout, s, u);
        GrowthKeepsThread(layout, s, s', u);
      }
    }
  }

  lemma SelfGrows(layout: Layout, s: State, s': State)
    requires s.words == s'.words && s.adds <= s'.adds
    ensures Grows(layout, s, s')
  {
  }

  lemma StartAddInv(layout: Layout, s: State, t: nat, value: Word)
    requires Inv(layout, s) && t < |s.threads| && s.threads[t] == Idle
    ensures Inv(layout, Next(layout, s, StartAdd(t, value)))
    ensures Grows(layout, s, Next(layout, s, StartAdd(t, value)))
  {
    var s' := Next(layout, s, StartAdd(t, value));
    SelfGrows(layout, s, s');
    forall idx: nat | idx < layout.size.bits
      ensures Written(layout, s'.adds, idx) <==> Written(layout, s.adds, idx)
    {
      if Written(layout, s.adds, idx) {
        var o :| 0 <= o < |s.adds| && WrittenBy(layout, s.adds[o], idx);
        assert WrittenBy(layout, s'.adds[o], idx);
      }
    }
    forall u | 0 <= u < |s'.threads|
      ensures ThreadOk(layout, s', u)
    {
      if s'.threads[u] == s.threads[u] {
        assert ThreadOk(layout, s, u);
        GrowthKeepsThread(layout, s, s', u);
      }
    }
    forall o | 0 <= o < |s'.tests|
      ensures TestOk(layout, s', s'.tests[o])
    {
      GrowthKeepsTest(layout, s, s', s.tests[o]);
    }
  }

  /** Steps that change only threads and tests. */
  lemma QuietInv(layout: Layout, s: State, s': State, t: nat)
    requires Inv(layout, s) && t < |s.threads|
    requires s'.words == s.words && s'.adds == s.adds
    requires |s'.threads| == |s.threads| && forall u :: 0 <= u < |s.threads| && u != t ==> s'.threads[u] == s.threads[u]
    requires OpsExist(s') && ThreadOk(layout, s', t) && Exclusive(s')
    requires |s.tests| <= |s'.tests| <= |s.tests| + 1
    requires forall u :: 0 <= u < |s.threads| && u != t && s.threads[u].TestLoad? ==>
               s'.tests[s.threads[u].op] == s.tests[s.threads[u].op]
    requires forall o :: 0 <= o < |s'.tests| ==> (o < |s.tests| && s'.tests[o] == s.tests[o]) || TestOk(layout, s', s'.tests[o])
    ensures Inv(layout, s') && Grows(layout, s, s')
  {
    SelfGrows(layout, s, s');
    forall u | 0 <= u < |s'.threads|
      ensures ThreadOk(layout, s', u)
    {
      if u != t {
        assert ThreadOk(layout, s, u);
        GrowthKeepsThread(layout, s, s', u);
      }
    }
    forall o | 0 <= o < |s'.tests|
      ensures TestOk(layout, s', s'.tests[o])
    {
      if o < |s.tests| && s'.tests[o] == s.tests[o] {
        GrowthKeepsTest(layout, s, s', s.tests[o]);
      }
    }
  }

  lemma AddLoadInv(layout: Layout, s: State, t: nat)
    requires Inv(layout, s) && t < |s.threads| && s.threads[t].AddLoad?
    ensures Inv(layout, Next(layout, s, Step(t)))
    ensures Grows(layout, s, Next(layout, s, Step(t)))
  {
    var op := s.threads[t].op;
    var idx := AddIndex(layout, s, op);
    assert ThreadOk(layout, s, t);
    if Meets(s.words[idx / 64], Mask(idx % 64)) {
      assert Bit(s.words, idx);
      AdvanceInv(layout, s, t, op, s.words);
    } else {
      QuietInv(layout, s, Next(layout, s, Step(t)), t);
    }
  }

  /** A failed swap means that another thread set a bit of this word since the load. */
  lemma FailedSwapMeansProgress(layout: Layout, s: State, t: nat)
    requires Inv(layout, s) && t < |s.threads| && s.threads[t].AddSwap?
    requires var w := AddIndex(layout, s, s.threads[t].op) / 64; s.words[w] != s.threads[t].loaded
    ensures var w := AddIndex(layout, s, s.threads[t].op) / 64;
            Ones(s.threads[t].loaded, 64) < Ones(s.words[w], 64)
  {
    assert ThreadOk(layout, s, t);
    var loaded := s.threads[t].loaded;
    var now := s.words[AddIndex(layout, s, s.threads[t].op) / 64];
    DifferentWordsDiffer(loaded, now);
    OnesMonotone(loaded, now, 64);
  }

  /** Words with the same 64 bits are equal. */
  lemma DifferentWordsDiffer(v: bv64, w: bv64)
    requires v != w && SubWord(v, w)
    ensures exists j :: 0 <= j < 64 && HasBit(w, j) && !HasBit(v, j)
  {
    if forall j :: 0 <= j < 64 ==> (HasBit(v, j) <==> HasBit(w, j)) {
      SameBits(v, w);
    }
  }

  lemma AddSwapInv(layout: Layout, s: State, t: nat)
    requires Inv(layout, s) && t < |s.threads| && s.threads[t].AddSwap?
    ensures Inv(layout, Next(layout, s, Step(t)))
    ensures Grows(layout, s, Next(layout, s, Step(t)))
  {
    var op, loaded := s.threads[t].op, s.threads[t].loaded;
    var idx := AddIndex(layout, s, op);
    assert ThreadOk(layout, s, t);
    if s.words[idx / 64] == loaded {
      forall i: nat | i < layout.size.bits
        ensures Bit(SetBit(s.words, idx), i) <==> Bit(s.words, i) || i == idx
      {
        SetBitExact(s.words, idx, i);
      }
      AdvanceInv(layout, s, t, op, SetBit(s.words, idx));
    } else {
      FailedSwapMeansProgress(layout, s, t);
      QuietInv(layout, s, Next(layout, s, Step(t)), t);
    }
  }

  /** Looking at one more bit keeps what is known about a Test. */
  lemma LookKeepsTest(layout: Layout, s: State, s': State, q: TestOp, q': TestOp)
    requires Inv(layout, s) && Sized(layout, s') && s'.words == s.words && s'.adds == s.adds
    requires TestOk(layout, s, q) && q.seen < layout.size.k && q.value != [] && q.answer == Pending
    requires var hit := Bit(s.words, layout.index(q.value, q.seen));
             q' == if !hit then q.(answer := Miss)
                   else if q.seen + 1 >= layout.size.k then q.(seen := q.seen + 1, answer := Hit)
                   else q.(seen := q.seen + 1)
    ensures TestOk(layout, s', q')
  {
  }

  lemma TestLoadInv(layout: Layout, s: State, t: nat)
    requires Inv(layout, s) && t < |s.threads| && s.threads[t].TestLoad?
    ensures Inv(layout, Next(layout, s, Step(t)))
    ensures Grows(layout, s, Next(layout, s, Step(t)))
  {
    var op := s.threads[t].op;
    var q := s.tests[op];
    var s' := Next(layout, s, Step(t));
    assert ThreadOk(layout, s, t) && TestOk(layout, s, q);
    LookKeepsTest(layout, s, s', q, s'.tests[op]);
    QuietInv(layout, s, s', t);
  }

  lemma StartTestInv(layout: Layout, s: State, t: nat, value: Word)
    requires Inv(layout, s) && t < |s.threads| && s.threads[t] == Idle
    ensures Inv(layout, Next(layout, s, StartTest(t, value)))
    ensures Grows(layout, s, Next(layout, s, StartTest(t, value)))
  {
    QuietInv(layout, s, Next(layout, s, StartTest(t, value)), t);
  }

  lemma NextInv(layout: Layout, s: State, a: Action)
    requires Inv(layout, s)
    ensures Inv(layout, Next(layout, s, a))
    ensures Grows(layout, s, Next(layout, s, a))
  {
    hide Inv;
    hide Next;
    InertActions(layout, s, a);
    if a.thread < |s.threads| {
      match a
      case StartAdd(t, value) => if s.threads[t] == Idle { StartAddInv(layout, s, t, value); }
      case StartTest(t, value) => if s.threads[t] == Idle { StartTestInv(layout, s, t, value); }
      case Step(t) =>
        match s.threads[t]
        case Idle =>
        case AddLoad(_, _) => AddLoadInv(layout, s, t);
        case AddSwap(_, _, _) => AddSwapInv(layout, s, t);
        case TestLoad(_) => TestLoadInv(layout, s, t);
    }
  }

  lemma InertActions(layout: Layout, s: State, a: Action)
    requires Inv(layout, s)
    ensures Sized(layout, s) && OpsExist(s)
    ensures a.thread >= |s.threads| || (!a.Step? && s.threads[a.thread] != Idle) || (a.Step? && s.threads[a.thread] == Idle)
      ==> Next(layout, s, a) == s
    ensures Grows(layout, s, s)
  {
  }

  // ---------------------------------------------------------------------
  // Runs
  // ---------------------------------------------------------------------

  ghost function Run(layout: Layout, s: State, actions: seq<Action>): (r: State)
    requires Inv(layout, s)
    ensures Inv(layout, r)
    decreases |actions|
  {
    if actions == [] then s
    else
      NextInv(layout, s, actions[0]);
      Run(layout, Next(layout, s, actions[0]), actions[1..])
  }

  /** Under any schedule the set bits are exactly those of the indices already
      finished by some Add, and every later state has at least these bits. */
  lemma {:induction false} BitsNeverClear(layout: Layout, s: State, actions: seq<Action>)
    requires Inv(layout, s)
    ensures Grows(layout, s, Run(layout, s, actions))
    decreases |actions|
  {
    if actions != [] {
      NextInv(layout, s, actions[0]);
      BitsNeverClear(layout, Next(layout, s, actions[0]), actions[1..]);
    }
  }

  lemma RunsAreExact(layout: Layout, threads: nat, actions: seq<Action>, idx: nat)
    requires layout.Ok() && idx < layout.size.bits
    ensures Inv(layout, Init(layout, threads))
    ensures var s := Run(layout, Init(layout, threads), actions);
            |s.words| == Bloom.WordCount(layout.size.bits) && (Bit(s.words, idx) <==> Written(layout, s.adds, idx))
  {
    InitInv(layout, threads);
  }

  /** No false negatives: a Test that starts after an Add of its value has
      returned never misses; and a hit means that every index was written. */
  lemma NoFalseNegatives(layout: Layout, threads: nat, actions: seq<Action>, op: nat)
    requires layout.Ok()
    ensures Inv(layout, Init(layout, threads))
    ensures var s := Run(layout, Init(layout, threads), actions);
            op < |s.tests| ==>
              && (s.tests[op].afterAdd ==> s.tests[op].answer != Miss)
              && (s.tests[op].answer == Hit ==>
                    forall j: nat :: j < layout.size.k ==> Written(layout, s.adds, layout.index(s.tests[op].value, j)))
  {
    InitInv(layout, threads);
    var s := Run(layout, Init(layout, threads), actions);
    if op < |s.tests| {
      var q := s.tests[op];
      assert TestOk(layout, s, q);
      if q.answer == Hit {
        forall j: nat | j < layout.size.k
          ensures Written(layout, s.adds, layout.index(q.value, j))
        {
          assert Bit(s.words, layout.index(q.value, j));
        }
      }
    }
  }

  /** Under any schedule a swap fails at most 64 times on one word, so each
      retry loop ends within 65 iterations. */
  lemma RetryBound(layout: Layout, threads: nat, actions: seq<Action>, t: nat)
    requires layout.Ok()
    ensures Inv(layout, Init(layout, threads))
    ensures var s := Run(layout, Init(layout, threads), actions);
            t < |s.threads| ==>
              match s.threads[t]
              case AddLoad(_, failures) => failures <= 64
              case AddSwap(_, failures, _) => failures <= 63
              case _ => true
  {
    InitInv(layout, threads);
    var s := Run(layout, Init(layout, threads), actions);
    if t < |s.threads| {
      assert ThreadOk(layout, s, t);
      if s.threads[t].AddSwap? {
        var idx := AddIndex(layout, s, s.threads[t].op);
        ClearBitLeavesRoom(s.threads[t].loaded, idx % 64, 64);
      }
    }
  }
}
