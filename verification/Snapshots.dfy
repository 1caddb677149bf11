/** Ownership of pooled request snapshots between request goroutines, the bounded
    analysis channel and the background workers (engine_background.go), over
    every interleaving. */
module Snapshots {
  import opened Words
  import opened Wrappers

  /** Snapshots are numbered objects; a submission's contents are its number.
      `accepted` and `received` list contents in channel order. */
  datatype State = State(
    capacity: nat,
    pool: set<nat>,
    created: nat,
    content: map<nat, nat>,
    channel: seq<nat>,
    requests: seq<Option<nat>>,
    workers: seq<Option<nat>>,
    submitted: nat,
    dropped: nat,
    processed: seq<nat>,
    accepted: seq<nat>,
    received: seq<nat>)

  datatype Action =
    | Take(request: nat, reuse: Option<nat>)  // getSnapshot and filling it
    | Send(request: nat)                      // tryEnqueue: send, or drop when full
    | Receive(worker: nat)
    | Finish(worker: nat)                     // processSnapshot has returned; putSnapshot
    | Collect(victim: nat)                    // the pool may lose an object

  /** Goroutines that hold nothing. */
  function Idle(n: nat): (r: seq<Option<nat>>)
    ensures |r| == n && forall i :: 0 <= i < n ==> r[i] == None
  {
    seq(n, _ => None)
  }

  function Init(capacity: nat, requests: nat, workers: nat): State {
    State(capacity, {}, 0, map[], [], Idle(requests), Idle(workers), 0, 0, [], [], [])
  }

  function Next(s: State, a: Action): State {
    match a
    case Take(q, reuse) =>
      if q >= |s.requests| || s.requests[q].Some? then s
      else if reuse.Some? && reuse.value in s.pool then
        s.(pool := s.pool - {reuse.value}, content := s.content[reuse.value := s.submitted],
           requests := s.requests[q := reuse], submitted := s.submitted + 1)
      else
        s.(created := s.created + 1, content := s.content[s.created := s.submitted],
           requests := s.requests[q := Some(s.created)], submitted := s.submitted + 1)
    case Send(q) =>
      if q >= |s.requests| || s.requests[q].None? then s
      else
        var id := s.requests[q].value;
        var free := s.(requests := s.requests[q := None]);
        if |s.channel| < s.capacity && id in s.content then
          free.(channel := s.channel + [id], accepted := s.accepted + [s.content[id]])
        else free.(pool := s.pool + {id}, dropped := s.dropped + 1)
    case Receive(w) =>
      if w >= |s.workers| || s.workers[w].Some? || s.channel == [] || s.channel[0] !in s.content then s
      else
        s.(channel := s.channel[1..], workers := s.workers[w := Some(s.channel[0])],
           received := s.received + [s.content[s.channel[0]]])
    case Finish(w) =>
      if w >= |s.workers| || s.workers[w].None? || s.workers[w].value !in s.content then s
      else
        var id := s.workers[w].value;
        s.(workers := s.workers[w := None], pool := s.pool + {id}, processed := s.processed + [s.content[id]])
    case Collect(id) => s.(pool := s.pool - {id})
  }

  function Run(s: State, actions: seq<Action>): State {
    if actions == [] then s else Next(Run(s, actions[..|actions| - 1]), actions[|actions| - 1])
  }

  // ---------------------------------------------------------------------
  // One owner
  // ---------------------------------------------------------------------

  /** The places a snapshot can be in. */
  datatype Place = InPool | InChannel | WithRequest(q: nat) | WithWorker(w: nat)

  ghost predicate Holds(s: State, p: Place, id: nat) {
    match p
    case InPool => id in s.pool
    case InChannel => id in s.channel
    case WithRequest(q) => q < |s.requests| && s.requests[q] == Some(id)
    case WithWorker(w) => w < |s.workers| && s.workers[w] == Some(id)
  }

  ghost predicate AtMostOnePlace(s: State, id: nat) {
    forall p, q :: Holds(s, p, id) && Holds(s, q, id) ==> p == q
  }

  ghost predicate Exists(s: State, id: nat) {
    id < s.created && id in s.content
  }

  /** Every snapshot is in at most one place, once, and exists. */
  ghost predicate OneOwner(s: State) {
    && (forall id: nat :: AtMostOnePlace(s, id))
    && (forall p, id: nat :: Holds(s, p, id) ==> Exists(s, id))
    && (forall i, j :: 0 <= i < j < |s.channel| ==> s.channel[i] != s.channel[j])
    && |s.channel| <= s.capacity
  }

  /** The snapshot that an action moves, and where to. */
  ghost function Moved(s: State, a: Action): Option<(nat, Place)> {
    match a
    case Take(q, reuse) =>
      if q >= |s.requests| || s.requests[q].Some? then None
      else Some((if reuse.Some? && reuse.value in s.pool then reuse.value else s.created, WithRequest(q)))
    case Send(q) =>
      if q >= |s.requests| || s.requests[q].None? then None
      else
        var id := s.requests[q].value;
        Some((id, if |s.channel| < s.capacity && id in s.content then InChannel else InPool))
    case Receive(w) =>
      if w >= |s.workers| || s.workers[w].Some? || s.channel == [] || s.channel[0] !in s.content then None
      else Some((s.channel[0], WithWorker(w)))
    case Finish(w) =>
      if w >= |s.workers| || s.workers[w].None? || s.workers[w].value !in s.content then None
      else Some((s.workers[w].value, InPool))
    case Collect(_) => None
  }

  /** Nothing else moves. */
  lemma OthersStay(s: State, a: Action, p: Place, id: nat)
    requires OneOwner(s)
    requires Moved(s, a) == None || Moved(s, a).value.0 != id
    ensures Holds(Next(s, a), p, id) ==> Holds(s, p, id)
  {
  }

  /** What moves is afterwards in its new place only. */
  lemma MovedOnce(s: State, a: Action, p: Place)
    requires OneOwner(s) && Moved(s, a).Some?
    ensures Holds(Next(s, a), p, Moved(s, a).value.0) ==> p == Moved(s, a).value.1
  {
    var id, to := Moved(s, a).value.0, Moved(s, a).value.1;
    assert AtMostOnePlace(s, id);
    match a
    case Take(q, reuse) =>
      assert reuse.Some? && reuse.value in s.pool ==> Holds(s, InPool, reuse.value);
      assert Holds(s, p, id) ==> Exists(s, id);
    case Send(q) =>
      assert Holds(s, WithRequest(q), id);
      assert p != WithRequest(q) ==> !Holds(s, p, id);
    case Receive(w) =>
      assert Holds(s, InChannel, id) && id !in s.channel[1..];
      assert p != InChannel ==> !Holds(s, p, id);
    case Finish(w) =>
      assert Holds(s, WithWorker(w), id);
      assert p != WithWorker(w) ==> !Holds(s, p, id);
    case Collect(_) =>
  }

  lemma OwnerStep(s: State, a: Action)
    requires OneOwner(s)
    ensures OneOwner(Next(s, a))
  {
    var s' := Next(s, a);
    forall id: nat
      ensures AtMostOnePlace(s', id)
    {
      forall p, q | Holds(s', p, id) && Holds(s', q, id)
        ensures p == q
      {
        if Moved(s, a).Some? && Moved(s, a).value.0 == id {
          MovedOnce(s, a, p);
          MovedOnce(s, a, q);
        } else {
          OthersStay(s, a, p, id);
          OthersStay(s, a, q, id);
          assert AtMostOnePlace(s, id);
        }
      }
    }
    forall p, id: nat | Holds(s', p, id)
      ensures Exists(s', id)
    {
      if Moved(s, a) == None || Moved(s, a).value.0 != id {
        OthersStay(s, a, p, id);
      } else {
        MovedExists(s, a);
      }
    }
    ChannelDistinct(s, a);
  }

  lemma MovedExists(s: State, a: Action)
    requires OneOwner(s) && Moved(s, a).Some?
    ensures Exists(Next(s, a), Moved(s, a).value.0)
  {
    var id := Moved(s, a).value.0;
    match a
    case Take(q, reuse) => assert reuse.Some? && reuse.value in s.pool ==> Holds(s, InPool, reuse.value);
    case Send(q) => assert Holds(s, WithRequest(q), id);
    case Receive(w) => assert Holds(s, InChannel, id);
    case Finish(w) => assert Holds(s, WithWorker(w), id);
    case Collect(_) =>
  }

  lemma ChannelDistinct(s: State, a: Action)
    requires OneOwner(s)
    ensures var c := Next(s, a).channel;
            (forall i, j :: 0 <= i < j < |c| ==> c[i] != c[j]) && |c| <= Next(s, a).capacity
  {
    if a.Send? && a.request < |s.requests| && s.requests[a.request].Some? {
      var id := s.requests[a.request].value;
      assert AtMostOnePlace(s, id);
      assert Holds(s, WithRequest(a.request), id);
      assert !Holds(s, InChannel, id);
    }
  }

  // ---------------------------------------------------------------------
  // Conservation, order, and contents
  // ---------------------------------------------------------------------

  ghost function Held(xs: seq<Option<nat>>): nat {
    if xs == [] then 0 else Held(xs[..|xs| - 1]) + (if xs[|xs| - 1].Some? then 1 else 0)
  }

  lemma {:induction false} HeldUpdate(xs: seq<Option<nat>>, i: nat, x: Option<nat>)
    requires i < |xs|
    ensures Held(xs[i := x]) + (if xs[i].Some? then 1 else 0) == Held(xs) + (if x.Some? then 1 else 0)
  {
    var n := |xs| - 1;
    if i == n {
      assert xs[i := x][..n] == xs[..n];
    } else {
      HeldUpdate(xs[..n], i, x);
      assert xs[i := x][..n] == xs[..n][i := x];
    }
  }

  /** Every submission is processed, dropped, queued, with a worker, or still with
      the request that made it. */
  ghost predicate Conserved(s: State) {
    s.submitted == |s.processed| + s.dropped + |s.channel| + Held(s.workers) + Held(s.requests)
  }

  lemma ConservedStep(s: State, a: Action)
    requires OneOwner(s) && Conserved(s)
    ensures Conserved(Next(s, a))
  {
    match a
    case Take(q, reuse) =>
      if q < |s.requests| && s.requests[q].None? {
        HeldUpdate(s.requests, q, Some(if reuse.Some? && reuse.value in s.pool then reuse.value else s.created));
      }
    case Send(q) => if q < |s.requests| && s.requests[q].Some? { HeldUpdate(s.requests, q, None); }
    case Receive(w) =>
      if w < |s.workers| && s.workers[w].None? && s.channel != [] {
        HeldUpdate(s.workers, w, Some(s.channel[0]));
      }
    case Finish(w) => if w < |s.workers| && s.workers[w].Some? { HeldUpdate(s.workers, w, None); }
    case Collect(_) =>
  }

  /** What the channel holds now. */
  function Contents(channel: seq<nat>, content: map<nat, nat>): seq<nat>
    requires forall i :: 0 <= i < |channel| ==> channel[i] in content
  {
    seq(|channel|, i requires 0 <= i < |channel| => content[channel[i]])
  }

  /** The contents of a queued snapshot are still what was sent, first in, first out. */
  ghost predicate FirstInFirstOut(s: State) {
    && (forall i :: 0 <= i < |s.channel| ==> s.channel[i] in s.content)
    && s.accepted == s.received + Contents(s.channel, s.content)
  }

  lemma FifoStep(s: State, a: Action)
    requires OneOwner(s) && FirstInFirstOut(s)
    ensures FirstInFirstOut(Next(s, a))
  {
    var s' := Next(s, a);
    forall i | 0 <= i < |s.channel|
      ensures s.channel[i] in s'.content && (a.Take? ==> s'.content[s.channel[i]] == s.content[s.channel[i]])
    {
      assert Holds(s, InChannel, s.channel[i]);
      assert AtMostOnePlace(s, s.channel[i]);
      assert Exists(s, s.channel[i]);
      if a.Take? && a.reuse.Some? {
        assert Holds(s, InPool, a.reuse.value) ==> a.reuse.value != s.channel[i];
      }
    }
    if s'.channel == s.channel {
      assert Contents(s'.channel, s'.content) == Contents(s.channel, s.content);
    } else if a.Send? {
      assert Contents(s'.channel, s'.content) ==
             Contents(s.channel, s.content) + [s.content[s.requests[a.request].value]];
    } else {
      assert Contents(s.channel, s.content) ==
             [s.content[s.channel[0]]] + Contents(s'.channel, s'.content);
    }
  }

  /** No contents are sent twice: those still held by requests have not been sent,
      and no two requests hold the same. */
  ghost predicate SentOnce(s: State) {
    && (forall i, j :: 0 <= i < j < |s.accepted| ==> s.accepted[i] != s.accepted[j])
    && (forall i :: 0 <= i < |s.accepted| ==> s.accepted[i] < s.submitted)
    && (forall q :: 0 <= q < |s.requests| && s.requests[q].Some? ==> Unsent(s, s.requests[q].value))
    && (forall q, t :: 0 <= q < t < |s.requests| && s.requests[q].Some? && s.requests[t].Some? ==>
          Different(s, s.requests[q].value, s.requests[t].value))
  }

  ghost predicate Unsent(s: State, id: nat) {
    id in s.content && s.content[id] < s.submitted && s.content[id] !in s.accepted
  }

  ghost predicate Different(s: State, id: nat, other: nat) {
    id in s.content && other in s.content ==> s.content[id] != s.content[other]
  }

  /** What a request holds is not overwritten by another request's snapshot. */
  lemma RequestKept(s: State, a: Action, q: nat)
    requires OneOwner(s) && SentOnce(s) && q < |s.requests| && s.requests[q].Some?
    requires a.Take?
    ensures var id := s.requests[q].value;
            id in s.content && id in Next(s, a).content && Next(s, a).content[id] == s.content[id]
  {
    var id := s.requests[q].value;
    assert Holds(s, WithRequest(q), id);
    assert AtMostOnePlace(s, id) && Exists(s, id);
    if a.reuse.Some? && a.reuse.value in s.pool {
      assert Holds(s, InPool, a.reuse.value);
    }
  }

  lemma TakeSentOnce(s: State, a: Action)
    requires OneOwner(s) && SentOnce(s) && a.Take?
    ensures SentOnce(Next(s, a))
  {
    forall q | 0 <= q < |s.requests| && s.requests[q].Some?
      ensures Unsent(s, s.requests[q].value)
      ensures var id := s.requests[q].value;
              id in Next(s, a).content && Next(s, a).content[id] == s.content[id]
    {
      RequestKept(s, a, q);
    }
    assert s.submitted !in s.accepted;
  }

  lemma SendSentOnce(s: State, a: Action)
    requires OneOwner(s) && SentOnce(s) && a.Send?
    ensures SentOnce(Next(s, a))
  {
    var s' := Next(s, a);
    if a.request < |s.requests| && s.requests[a.request].Some? {
      assert Unsent(s, s.requests[a.request].value);
      forall q | 0 <= q < |s'.requests| && s'.requests[q].Some?
        ensures Unsent(s', s'.requests[q].value)
      {
        assert q != a.request && Unsent(s, s.requests[q].value);
        assert Different(s, s.requests[q].value, s.requests[a.request].value);
      }
    }
  }

  lemma SentOnceStep(s: State, a: Action)
    requires OneOwner(s) && SentOnce(s)
    ensures SentOnce(Next(s, a))
  {
    match a
    case Take(_, _) => TakeSentOnce(s, a);
    case Send(_) => SendSentOnce(s, a);
    case _ =>
  }

  /** The contents of worker w's snapshot: received, and not processed so far. */
  ghost predicate InWork(s: State, w: nat)
    requires w < |s.workers| && s.workers[w].Some?
  {
    var id := s.workers[w].value;
    id in s.content && s.content[id] in s.received && s.content[id] !in s.processed
  }

  /** No contents are processed twice: what was processed had been received, what
      workers hold is not processed yet, and no two workers hold the same. */
  ghost predicate ProcessedOnce(s: State) {
    && Distinct(s.processed)
    && (forall x :: x in s.processed ==> x in s.received)
    && (forall w: nat :: w < |s.workers| && s.workers[w].Some? ==> InWork(s, w))
    && (forall w: nat, v: nat :: w < v < |s.workers| && s.workers[w].Some? && s.workers[v].Some? ==>
          Different(s, s.workers[w].value, s.workers[v].value))
    && |s.received| == |s.processed| + Held(s.workers)
  }

  /** What a worker holds is not overwritten while it works. */
  lemma WorkerKept(s: State, a: Action, w: nat)
    requires OneOwner(s) && w < |s.workers| && s.workers[w].Some? && a.Take?
    ensures var id := s.workers[w].value;
            id in s.content && id in Next(s, a).content && Next(s, a).content[id] == s.content[id]
  {
    var id := s.workers[w].value;
    assert Holds(s, WithWorker(w), id);
    assert AtMostOnePlace(s, id) && Exists(s, id);
    if a.reuse.Some? && a.reuse.value in s.pool {
      assert Holds(s, InPool, a.reuse.value);
    }
  }

  lemma TakeProcessedOnce(s: State, a: Action)
    requires OneOwner(s) && ProcessedOnce(s) && a.Take?
    ensures ProcessedOnce(Next(s, a))
  {
    var s' := Next(s, a);
    forall w: nat | w < |s.workers| && s.workers[w].Some?
      ensures InWork(s', w)
      ensures var id := s.workers[w].value;
              id in s.content && id in s'.content && s'.content[id] == s.content[id]
    {
      assert InWork(s, w);
      WorkerKept(s, a, w);
    }
  }

  /** The head of the channel has not been received before. */
  lemma HeadIsNew(s: State)
    requires FirstInFirstOut(s) && SentOnce(s) && s.channel != []
    ensures s.content[s.channel[0]] !in s.received
  {
    var x := Contents(s.channel, s.content)[0];
    assert s.accepted[|s.received|] == x;
    forall i | 0 <= i < |s.received|
      ensures s.received[i] != x
    {
      assert s.accepted[i] == s.received[i];
    }
  }

  lemma ReceiveProcessedOnce(s: State, a: Action)
    requires FirstInFirstOut(s) && SentOnce(s) && ProcessedOnce(s) && a.Receive?
    ensures ProcessedOnce(Next(s, a))
  {
    var s' := Next(s, a);
    if a.worker < |s.workers| && s.workers[a.worker].None? && s.channel != [] {
      HeadIsNew(s);
      HeldUpdate(s.workers, a.worker, Some(s.channel[0]));
      forall w: nat | w < |s'.workers| && s'.workers[w].Some?
        ensures InWork(s', w)
      {
        assert w != a.worker ==> InWork(s, w);
      }
      forall w: nat, v: nat | w < v < |s'.workers| && s'.workers[w].Some? && s'.workers[v].Some?
        ensures Different(s', s'.workers[w].value, s'.workers[v].value)
      {
        assert w != a.worker ==> InWork(s, w);
        assert v != a.worker ==> InWork(s, v);
      }
    }
  }

  lemma FinishProcessedOnce(s: State, a: Action)
    requires ProcessedOnce(s) && a.Finish?
    ensures ProcessedOnce(Next(s, a))
  {
    var s' := Next(s, a);
    if a.worker < |s.workers| && s.workers[a.worker].Some? {
      assert InWork(s, a.worker);
      HeldUpdate(s.workers, a.worker, None);
      forall w: nat | w < |s'.workers| && s'.workers[w].Some?
        ensures InWork(s', w)
      {
        assert w != a.worker && InWork(s, w);
        assert Different(s, s.workers[if w < a.worker then w else a.worker].value,
                         s.workers[if w < a.worker then a.worker else w].value);
      }
    }
  }

  lemma ProcessedOnceStep(s: State, a: Action)
    requires OneOwner(s) && FirstInFirstOut(s) && SentOnce(s) && ProcessedOnce(s)
    ensures ProcessedOnce(Next(s, a))
  {
    match a
    case Take(_, _) => TakeProcessedOnce(s, a);
    case Receive(_) => ReceiveProcessedOnce(s, a);
    case Finish(_) => FinishProcessedOnce(s, a);
    case _ =>
  }

  ghost predicate Inv(s: State) {
    OneOwner(s) && Conserved(s) && FirstInFirstOut(s) && SentOnce(s) && ProcessedOnce(s)
  }

  lemma {:induction false} NothingHeld(xs: seq<Option<nat>>)
    requires forall i :: 0 <= i < |xs| ==> xs[i] == None
    ensures Held(xs) == 0
  {
    if xs != [] {
      NothingHeld(xs[..|xs| - 1]);
    }
  }

  lemma InitInv(capacity: nat, requests: nat, workers: nat)
    ensures Inv(Init(capacity, requests, workers))
  {
    NothingHeld(Idle(requests));
    NothingHeld(Idle(workers));
  }

  lemma StepInv(s: State, a: Action)
    requires Inv(s)
    ensures Inv(Next(s, a)) && Next(s, a).capacity == s.capacity
  {
    hide OneOwner;
    hide Conserved;
    hide FirstInFirstOut;
    hide SentOnce;
    hide ProcessedOnce;
    OwnerStep(s, a);
    ConservedStep(s, a);
    FifoStep(s, a);
    SentOnceStep(s, a);
    ProcessedOnceStep(s, a);
  }

  /** Over every interleaving: one owner per snapshot, a bounded channel, every
      submission accounted for, each sent snapshot received once, unchanged and in
      order, and none processed that was not received, or processed twice. */
  lemma {:induction false} RunInv(capacity: nat, requests: nat, workers: nat, actions: seq<Action>)
    ensures Inv(Run(Init(capacity, requests, workers), actions))
    ensures var s := Run(Init(capacity, requests, workers), actions);
            && s.capacity == capacity && s.received <= s.accepted && |s.channel| <= capacity
            && Distinct(s.processed)
            && (forall x :: x in s.processed ==> x in s.received && x < s.submitted)
  {
    hide Next;
    if actions == [] {
      InitInv(capacity, requests, workers);
    } else {
      var n := |actions| - 1;
      RunInv(capacity, requests, workers, actions[..n]);
      StepInv(Run(Init(capacity, requests, workers), actions[..n]), actions[n]);
    }
  }

  /** Nothing is dropped while there is room: a sent snapshot is queued, last, unless
      the channel is full; then it goes back to the pool and counts as dropped. */
  lemma DropsOnlyWhenFull(s: State, q: nat)
    requires Inv(s) && q < |s.requests| && s.requests[q].Some?
    ensures var s', id := Next(s, Send(q)), s.requests[q].value;
            && s'.requests == s.requests[q := None] && s'.processed == s.processed
            && (if |s.channel| < s.capacity
                then s'.channel == s.channel + [id] && s'.pool == s.pool && s'.dropped == s.dropped
                else s'.channel == s.channel && s'.pool == s.pool + {id} && s'.dropped == s.dropped + 1)
  {
    assert Unsent(s, s.requests[q].value);
  }

  /** An idle worker takes the head of the channel, and what it finishes is processed
      and pooled. */
  lemma WorkersProceed(s: State, w: nat)
    requires Inv(s) && w < |s.workers|
    ensures var r, f := Next(s, Receive(w)), Next(s, Finish(w));
            && (s.workers[w].None? && s.channel != [] ==>
                  r.workers == s.workers[w := Some(s.channel[0])] && r.channel == s.channel[1..] && r.pool == s.pool)
            && (s.workers[w].Some? ==>
                  var id := s.workers[w].value;
                  && f.workers == s.workers[w := None] && f.pool == s.pool + {id} && f.channel == s.channel
                  && id in s.content && f.processed == s.processed + [s.content[id]])
  {
    if s.workers[w].Some? {
      assert InWork(s, w);
    }
  }
}
