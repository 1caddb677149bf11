/** The interval bound of the rate limit is reached by script calls, so it is exact. */
module Tightness {
  import opened Words
  import opened Wrappers
  import opened Store
  import opened Ledger
  import opened FixedWindow

  const EMPTY: Db := Db(map[], map[], map[], map[])

  /** One check at 0; the others of its window at that window's last moment. */
  ghost function OlderOps(w: int, ip: Word, key: Word, most: int, k: nat): seq<Op>
    requires w > 0
  {
    if k == 0 then []
    else if k == 1 then [Check(ip, key, most), Wait(w - 1)]
    else OlderOps(w, ip, key, most, k - 1) + [Check(ip, key, most)]
  }

  /** A full older window, one more millisecond, and k checks. */
  ghost function BothOps(w: int, ip: Word, key: Word, most: nat, k: nat): seq<Op>
    requires w > 0
  {
    if k == 0 then OlderOps(w, ip, key, most, most) + [Wait(1)]
    else BothOps(w, ip, key, most, k - 1) + [Check(ip, key, most)]
  }

  /** The recorded history and the stored counter of the key, with nobody banned. */
  ghost predicate Reached(conf: Conf, l: Ledger, key: Word, hits: seq<Hit>, c: Counter, now: int) {
    && l.now == now && l.db.sets == map[]
    && HitsOf(l.hits, key) == hits
    && CounterShape(l.db, RlKey(conf.prefix, key), now)
    && CounterAt(l.db, RlKey(conf.prefix, key), now) == c
  }

  lemma RunSnoc(conf: Conf, l: Ledger, ops: seq<Op>, op: Op)
    ensures Run(conf, l, ops + [op]) == Next(conf, Run(conf, l, ops), op)
  {
    assert (ops + [op])[..|ops|] == ops;
  }

  lemma ReachedCheck(conf: Conf, l: Ledger, ip: Word, key: Word, hits: seq<Hit>, c: Counter, now: int, most: int)
    requires Reached(conf, l, key, hits, c, now)
    ensures var c' := Bump(c, now, conf.windowMs);
            c.On? || conf.windowMs > 0 ==>
              Reached(conf, Next(conf, l, Check(ip, key, most)), key,
                      hits + [Hit(now, c'.expiry - conf.windowMs, c'.value, most)], c', now)
  {
    var e := Bumped(l.db, RlKey(conf.prefix, key), now, conf.windowMs);
  }

  lemma ReachedWait(conf: Conf, l: Ledger, key: Word, hits: seq<Hit>, c: Counter, now: int, d: nat)
    requires Reached(conf, l, key, hits, c, now)
    ensures Reached(conf, Next(conf, l, Wait(d)), key, hits, At(c, now + d), now + d)
  {
  }

  lemma {:induction false} OlderReached(conf: Conf, ip: Word, key: Word, most: int, k: nat)
    requires conf.windowMs > 0 && 1 <= k
    ensures var w := conf.windowMs;
            Reached(conf, Run(conf, Start(EMPTY, 0), OlderOps(w, ip, key, most, k)), key,
                    OlderWindow(w, most, k), On(k, w), w - 1)
  {
    hide Reached;
    hide Next;
    hide Run;
    var w, l := conf.windowMs, Start(EMPTY, 0);
    if k == 1 {
      EmptyReached(conf, key);
      RunSnoc(conf, l, [], Check(ip, key, most));
      RunSnoc(conf, l, [Check(ip, key, most)], Wait(w - 1));
      assert [] + [Check(ip, key, most)] == [Check(ip, key, most)];
      assert [Check(ip, key, most)] + [Wait(w - 1)] == OlderOps(w, ip, key, most, 1);
      ReachedCheck(conf, l, ip, key, [], Off, 0, most);
      assert [] + [Hit(0, 0, 1, most)] == [Hit(0, 0, 1, most)];
      ReachedWait(conf, Run(conf, l, [Check(ip, key, most)]), key, [Hit(0, 0, 1, most)], On(1, w), 0, w - 1);
    } else {
      OlderReached(conf, ip, key, most, k - 1);
      RunSnoc(conf, l, OlderOps(w, ip, key, most, k - 1), Check(ip, key, most));
      ReachedCheck(conf, Run(conf, l, OlderOps(w, ip, key, most, k - 1)), ip, key,
                   OlderWindow(w, most, k - 1), On(k - 1, w), w - 1, most);
    }
  }

  lemma EmptyReached(conf: Conf, key: Word)
    ensures Reached(conf, Start(EMPTY, 0), key, [], Off, 0) && Run(conf, Start(EMPTY, 0), []) == Start(EMPTY, 0)
  {
  }

  /** Script calls produce the history with 2 * most - 1 hits allowed in one interval. */
  lemma {:induction false} BothReached(conf: Conf, ip: Word, key: Word, most: nat, k: nat)
    requires conf.windowMs > 1 && 1 <= most && k <= most
    ensures var w := conf.windowMs;
            Reached(conf, Run(conf, Start(EMPTY, 0), BothOps(w, ip, key, most, k)), key,
                    BothWindows(w, most, k), if k == 0 then Off else On(k, 2 * w), w)
  {
    hide Reached;
    hide Next;
    hide Run;
    hide OlderOps;
    hide OlderWindow;
    var w, l := conf.windowMs, Start(EMPTY, 0);
    if k == 0 {
      OlderReached(conf, ip, key, most, most);
      RunSnoc(conf, l, OlderOps(w, ip, key, most, most), Wait(1));
      ReachedWait(conf, Run(conf, l, OlderOps(w, ip, key, most, most)), key,
                  OlderWindow(w, most, most), On(most, w), w - 1, 1);
    } else {
      BothReached(conf, ip, key, most, k - 1);
      RunSnoc(conf, l, BothOps(w, ip, key, most, k - 1), Check(ip, key, most));
      ReachedCheck(conf, Run(conf, l, BothOps(w, ip, key, most, k - 1)), ip, key,
                   BothWindows(w, most, k - 1), if k == 1 then Off else On(k - 1, 2 * w), w, most);
    }
  }

  lemma {:induction false} OlderOpsWithin(w: int, ip: Word, key: Word, most: int, k: nat)
    requires w > 0 && most >= 1
    ensures LimitsWithin(OlderOps(w, ip, key, most, k), key, most)
  {
    if k > 1 {
      OlderOpsWithin(w, ip, key, most, k - 1);
    }
  }

  lemma {:induction false} BothOpsWithin(w: int, ip: Word, key: Word, most: nat, k: nat)
    requires w > 0 && most >= 1
    ensures LimitsWithin(BothOps(w, ip, key, most, k), key, most)
  {
    if k == 0 {
      OlderOpsWithin(w, ip, key, most, most);
    } else {
      BothOpsWithin(w, ip, key, most, k - 1);
    }
  }

  /** Allowed checks of the key in [from, from + windowMs), after the script calls `ops`. */
  ghost function AllowedBy(conf: Conf, ops: seq<Op>, key: Word, from: int): nat {
    AllowedDuring(HitsOf(Run(conf, Start(EMPTY, 0), ops).hits, key), from, conf.windowMs)
  }

  /** The largest number of checks that some interval allows. */
  function Largest(w: int, most: nat): int {
    if w == 1 then most else 2 * most - 1
  }

  lemma AllowedAtMost(conf: Conf, ops: seq<Op>, key: Word, from: int, most: nat)
    requires conf.windowMs > 0 && most > 0 && LimitsWithin(ops, key, most)
    ensures AllowedBy(conf, ops, key, from) <= Largest(conf.windowMs, most)
  {
    hide Run;
    RunKeepsRate(conf, EMPTY, 0, ops, key);
    RunLimits(conf, Start(EMPTY, 0), ops, key, most);
    var hits := HitsOf(Run(conf, Start(EMPTY, 0), ops).hits, key);
    IntervalBoundIsTight(conf.windowMs, most, Largest(conf.windowMs, most));
    assert History(conf.windowMs, hits, most);
    assert AllowedDuring(hits, from, conf.windowMs) <= Largest(conf.windowMs, most);
  }

  /** Script calls that reach it. */
  lemma SomeOpsReach(conf: Conf, ip: Word, key: Word, most: nat) returns (ops: seq<Op>, from: int)
    requires conf.windowMs > 0 && most > 0
    ensures LimitsWithin(ops, key, most)
    ensures AllowedBy(conf, ops, key, from) == Largest(conf.windowMs, most)
  {
    var w := conf.windowMs;
    from := w - 1;
    if w == 1 {
      ops := OlderOps(w, ip, key, most, most);
      OlderOpsWithin(w, ip, key, most, most);
      OlderReached(conf, ip, key, most, most);
      OlderWindowCounts(w, most, most);
    } else {
      ops := BothOps(w, ip, key, most, most);
      BothOpsWithin(w, ip, key, most, most);
      BothReached(conf, ip, key, most, most);
      BothWindowsCount(w, most, most);
    }
  }

  /** Over all sequences of script calls, waiting and other writes from an empty
      store, b bounds the checks allowed in any interval of the window's length
      exactly from 2 * most - 1 on (from `most` on for a window of one millisecond). */
  lemma RateBoundIsTight(conf: Conf, key: Word, most: nat, b: int)
    requires conf.windowMs > 0 && most > 0
    ensures (forall ops: seq<Op>, from: int :: LimitsWithin(ops, key, most) ==> AllowedBy(conf, ops, key, from) <= b) <==>
            b >= Largest(conf.windowMs, most)
  {
    hide AllowedBy;
    hide LimitsWithin;
    forall ops: seq<Op>, from: int | LimitsWithin(ops, key, most)
      ensures AllowedBy(conf, ops, key, from) <= Largest(conf.windowMs, most)
    {
      AllowedAtMost(conf, ops, key, from, most);
    }
    var ops, from := SomeOpsReach(conf, [], key, most);
  }

  /** So the limit itself bounds every such interval exactly when it is one, or the
      window is a single millisecond. */
  lemma LimitBoundsIntervalsIff(conf: Conf, key: Word, most: nat)
    requires conf.windowMs > 0 && most > 0
    ensures (forall ops: seq<Op>, from: int :: LimitsWithin(ops, key, most) ==> AllowedBy(conf, ops, key, from) <= most) <==>
            most == 1 || conf.windowMs == 1
  {
    RateBoundIsTight(conf, key, most, most);
  }
}
