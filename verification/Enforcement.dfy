/** Bans and penalties over every interleaving of requests, background jobs,
    evictions, Bloom collisions, waiting and other Redis clients. */
module Enforcement {
  import opened Words
  import opened Wrappers
  import opened Store
  import opened Ledger
  import opened FixedWindow
  import opened Decisions
  import opened Protocol

  ghost predicate BannedNow(cfg: Config, sys: Sys, ip: Word) {
    Banned(sys.s.l.db, BlKey(cfg.conf.prefix, ip), sys.s.l.now)
  }

  ghost predicate BannedThroughout(cfg: Config, sys: Sys, actions: seq<Action>, ip: Word) {
    forall n :: 0 <= n <= |actions| ==> BannedNow(cfg, StateAt(cfg, sys, actions, n), ip)
  }

  /** The agent can only end in a denial, or in the open failure mode. */
  ghost predicate EndsDenied(a: Agent) {
    match a
    case CacheShort(_, _, after) => EndsDenied(after)
    case BanWrite(_, _, after) => EndsDenied(after)
    case BanCache(_, _, after) => EndsDenied(after)
    case BloomAdd(_, after) => EndsDenied(after)
    case Finished(d, source) => !d.allowed || (d.reason == FailOpen && source == FailOpenAllow)
    case _ => false
  }

  /** Every step of agent i is answered by Redis. */
  ghost predicate Answered(actions: seq<Action>, i: nat) {
    forall n :: 0 <= n < |actions| && actions[n].Go? && actions[n].i == i ==> actions[n].c.redisOk
  }

  ghost predicate NoFailOpen(a: Agent) {
    match a
    case CacheShort(_, _, after) => NoFailOpen(after)
    case BanWrite(_, _, after) => NoFailOpen(after)
    case BanCache(_, _, after) => NoFailOpen(after)
    case BloomAdd(_, after) => NoFailOpen(after)
    case Finished(d, _) => d.reason != FailOpen
    case _ => true
  }

  ghost predicate StillChecking(a: Agent, ip: Word) {
    match a
    case ReqCache(r, _, _) => r.ip == ip
    case ReqPbox(r, _, _) => r.ip == ip
    case ReqPttl(r, _, _) => r.ip == ip
    case ReqPboxWrite(r, _, _, _) => r.ip == ip
    case ReqPenalty(r, _, _) => r.ip == ip
    case ReqBloom(r, _, _) => r.ip == ip
    case ReqScript(r, _, _) => r.ip == ip
    case _ => false
  }

  ghost predicate Protected(cfg: Config, s: Shared, ip: Word) {
    ip != [] && (cfg.bloom ==> ip in s.added)
  }

  lemma ProtectedGrows(cfg: Config, sys: Sys, a: Action, ip: Word)
    requires Protected(cfg, sys.s, ip)
    ensures Protected(cfg, Act(cfg, sys, a).s, ip)
  {
  }

  /** A step of a request whose address is banned and in the Bloom filter. */
  lemma BannedStep(cfg: Config, s: Shared, a: Agent, c: Choice, ip: Word)
    requires Protected(cfg, s, ip) && Banned(s.l.db, BlKey(cfg.conf.prefix, ip), s.l.now)
    requires StillChecking(a, ip) || EndsDenied(a)
    ensures var a' := AgentAfter(cfg, s, a, c);
            && (StillChecking(a', ip) || EndsDenied(a'))
            && (NoFailOpen(a) && c.redisOk ==> NoFailOpen(a'))
  {
    if a.ReqScript? && c.redisOk {
      var reply := CheckReply(cfg.conf, s.l.now, s.l.db, ip, a.r.RateKey(), a.limit);
      assert reply.code == 2;
      var d := NewDecisionWithTtl(false, Blacklisted, reply.counter, a.limit, a.t, reply.ttl, cfg.conf.windowMs);
      assert EndsDenied(AddToBloom(cfg, ip, Finished(d, RedisBlacklist)));
      assert NoFailOpen(AddToBloom(cfg, ip, Finished(d, RedisBlacklist)));
    }
  }

  lemma AgentsPersist(cfg: Config, sys: Sys, a: Action, i: nat)
    requires i < |sys.agents|
    ensures var sys' := Act(cfg, sys, a);
            i < |sys'.agents| &&
            sys'.agents[i] == if a.Go? && a.i == i then AgentAfter(cfg, sys.s, sys.agents[i], a.c) else sys.agents[i]
  {
  }

  lemma {:induction false} BannedRun(cfg: Config, sys: Sys, actions: seq<Action>, i: nat, ip: Word)
    requires i < |sys.agents| && StillChecking(sys.agents[i], ip) && Protected(cfg, sys.s, ip)
    requires BannedThroughout(cfg, sys, actions, ip)
    ensures var sys' := RunSys(cfg, sys, actions);
            && i < |sys'.agents| && Protected(cfg, sys'.s, ip)
            && (StillChecking(sys'.agents[i], ip) || EndsDenied(sys'.agents[i]))
            && (Answered(actions, i) ==> NoFailOpen(sys'.agents[i]))
  {
    if actions != [] {
      var n := |actions| - 1;
      var mid := RunSys(cfg, sys, actions[..n]);
      forall m | 0 <= m <= n
        ensures BannedNow(cfg, StateAt(cfg, sys, actions[..n], m), ip)
      {
        StateAtPrefix(cfg, sys, actions, n, m);
        assert BannedNow(cfg, StateAt(cfg, sys, actions, m), ip);
      }
      BannedRun(cfg, sys, actions[..n], i, ip);
      assert BannedNow(cfg, StateAt(cfg, sys, actions, n), ip);
      ProtectedGrows(cfg, mid, actions[n], ip);
      AgentsPersist(cfg, mid, actions[n], i);
      assert Answered(actions, i) ==> Answered(actions[..n], i);
      if actions[n].Go? && actions[n].i == i {
        BannedStep(cfg, mid.s, mid.agents[i], actions[n].c, ip);
      }
    }
  }

  /** Ban enforcement. A request that arrives when its address's Bloom write has
      completed (or with Bloom off), and whose address stays banned in Redis while
      it is processed, is denied in every interleaving, whatever the caches evict
      and whatever collides; the only exception is an unanswered script under
      FailOpen. With Bloom off nothing is assumed about who wrote the ban. */
  lemma BanEnforced(cfg: Config, sys: Sys, r: Request, limit: int, actions: seq<Action>)
    requires Protected(cfg, sys.s, r.ip)
    requires var begun := Act(cfg, sys, Arrive(r, limit));
             BannedThroughout(cfg, begun, actions, r.ip)
    ensures var a := RunSys(cfg, Act(cfg, sys, Arrive(r, limit)), actions).agents;
            |sys.agents| < |a| &&
            (a[|sys.agents|].Finished? ==>
               && (!a[|sys.agents|].d.allowed || a[|sys.agents|].d.reason == FailOpen)
               && (Answered(actions, |sys.agents|) ==> !a[|sys.agents|].d.allowed))
  {
    BannedRun(cfg, Act(cfg, sys, Arrive(r, limit)), actions, |sys.agents|, r.ip);
  }

  /** Without the Bloom write the guarantee fails: such a request is let through. */
  lemma UnseenBanIsMissed(cfg: Config, r: Request, limit: int)
    requires cfg.bloom && r.ip != []
    ensures var db := Db(map[BlKey(cfg.conf.prefix, r.ip) := Entry({MEMBER}, None)], map[], map[], map[]);
            var sys := Sys(Shared(Start(db, 0), map[], map[], {}), [ReqCache(r, 0, limit)]);
            var step := Go(0, Choice(true, false));
            var last := RunSys(cfg, sys, [step, step, step, step]);
            BannedNow(cfg, last, r.ip) && |last.agents| == 1 && last.agents[0].Finished? && last.agents[0].d.allowed
  {
    var db := Db(map[BlKey(cfg.conf.prefix, r.ip) := Entry({MEMBER}, None)], map[], map[], map[]);
    var sys := Sys(Shared(Start(db, 0), map[], map[], {}), [ReqCache(r, 0, limit)]);
    var step := Go(0, Choice(true, false));
    assert [step][..0] == [] && [step, step][..1] == [step] && [step, step, step][..2] == [step, step];
    assert [step, step, step, step][..3] == [step, step, step];
    var s1 := Act(cfg, sys, step);
    assert s1 == RunSys(cfg, sys, [step]);
    var s2 := Act(cfg, s1, step);
    assert s2 == RunSys(cfg, sys, [step, step]);
    var s3 := Act(cfg, s2, step);
    assert s3 == RunSys(cfg, sys, [step, step, step]);
    assert s3.agents[0].ReqBloom?;
  }

  // ---------------------------------------------------------------------
  // The engine's Redis traffic is a ledger run, so its limits hold
  // ---------------------------------------------------------------------

  function OpOfAction(cfg: Config, sys: Sys, a: Action): Option<Op> {
    match a
    case Go(i, c) => if i < |sys.agents| then RedisOp(cfg, sys.agents[i], c) else None
    case Tick(d) => Some(Wait(d))
    case Foreign(op) => if op.Wait? then None else Some(op)
    case _ => None
  }

  function OpsOf(cfg: Config, sys: Sys, actions: seq<Action>): seq<Op> {
    if actions == [] then []
    else
      var n := |actions| - 1;
      var ops := OpsOf(cfg, sys, actions[..n]);
      var op := OpOfAction(cfg, RunSys(cfg, sys, actions[..n]), actions[n]);
      if op.Some? then ops + [op.value] else ops
  }

  lemma {:induction false} RunIsLedgerRun(cfg: Config, sys: Sys, actions: seq<Action>)
    ensures RunSys(cfg, sys, actions).s.l == Run(cfg.conf, sys.s.l, OpsOf(cfg, sys, actions))
  {
    hide Next;
    hide Act;
    hide OpOfAction;
    if actions != [] {
      var n := |actions| - 1;
      RunIsLedgerRun(cfg, sys, actions[..n]);
      var ops := OpsOf(cfg, sys, actions[..n]);
      var op := OpOfAction(cfg, RunSys(cfg, sys, actions[..n]), actions[n]);
      ActIsOp(cfg, RunSys(cfg, sys, actions[..n]), actions[n]);
      if op.Some? {
        assert (ops + [op.value])[..|ops|] == ops;
      }
    }
  }

  // ---------------------------------------------------------------------
  // How long a ban lasts
  // ---------------------------------------------------------------------

  /** Redis holds a ban of the address that does not end before e. */
  ghost predicate BanLasts(conf: Conf, l: Ledger, ip: Word, e: int) {
    var sets, k := l.db.sets, BlKey(conf.prefix, ip);
    k in sets && MEMBER in sets[k].value && (sets[k].expiry.None? || sets[k].expiry.value >= e)
  }

  /** The end of the ban that an operation writes for the address, if it writes one. */
  function NewBanEnd(conf: Conf, l: Ledger, op: Op, ip: Word): Option<int> {
    match op
    case Ban(ip2, ttl) => if ip2 == ip then Some(l.now + ttl) else None
    case Judge(ip2, field, delta) =>
      var reply := JudgeReply(conf, l.now, l.db, ip2, field, delta);
      if ip2 == ip && reply.action == 2 then Some(l.now + reply.banTtl) else None
    case _ => None
  }

  /** Nobody, on this engine or another client, replaces the ban of the address by
      one that ends before e. */
  ghost predicate NoShorterBan(cfg: Config, sys: Sys, actions: seq<Action>, ip: Word, e: int) {
    forall n: nat :: n < |actions| ==> KeepsLongBan(cfg, StateAt(cfg, sys, actions, n), actions[n], ip, e)
  }

  ghost predicate KeepsLongBan(cfg: Config, sys: Sys, a: Action, ip: Word, e: int) {
    var op := OpOfAction(cfg, sys, a);
    op.Some? && NewBanEnd(cfg.conf, sys.s.l, op.value, ip).Some? ==>
      NewBanEnd(cfg.conf, sys.s.l, op.value, ip).value >= e
  }

  lemma BanLastsStep(conf: Conf, l: Ledger, op: Op, ip: Word, e: int)
    requires BanLasts(conf, l, ip, e)
    requires NewBanEnd(conf, l, op, ip).Some? ==> NewBanEnd(conf, l, op, ip).value >= e
    ensures BanLasts(conf, Next(conf, l, op), ip, e)
  {
    hide Bumped;
    if op.Ban? || op.Judge? {
      KeysInjective(conf.prefix, ip, op.ip);
    }
  }

  /** A new ban replaces the old one, whichever is longer: it lasts until e exactly
      when its own end is not before e. So it shortens exactly the bans ending later. */
  lemma NewBanReplaces(conf: Conf, l: Ledger, op: Op, ip: Word, e: int)
    requires NewBanEnd(conf, l, op, ip).Some?
    ensures BanLasts(conf, Next(conf, l, op), ip, e) <==> NewBanEnd(conf, l, op, ip).value >= e
    ensures Next(conf, l, op).now == l.now
  {
    hide Bumped;
  }

  lemma ActIsOp(cfg: Config, sys: Sys, a: Action)
    ensures var op := OpOfAction(cfg, sys, a);
            Act(cfg, sys, a).s.l == if op.Some? then Next(cfg.conf, sys.s.l, op.value) else sys.s.l
  {
    hide Next;
    hide AgentAfter;
  }

  /** A ban that nobody shortens lasts through every run. */
  lemma {:induction false} BanLastsRun(cfg: Config, sys: Sys, actions: seq<Action>, ip: Word, e: int)
    requires BanLasts(cfg.conf, sys.s.l, ip, e) && NoShorterBan(cfg, sys, actions, ip, e)
    ensures BanLasts(cfg.conf, RunSys(cfg, sys, actions).s.l, ip, e)
  {
    hide Act;
    hide Next;
    hide BanLasts;
    if actions != [] {
      var n := |actions| - 1;
      NoShorterPrefix(cfg, sys, actions, n, ip, e);
      BanLastsRun(cfg, sys, actions[..n], ip, e);
      var mid := StateAt(cfg, sys, actions, n);
      assert KeepsLongBan(cfg, mid, actions[n], ip, e);
      ActIsOp(cfg, mid, actions[n]);
      if op: Op :| OpOfAction(cfg, mid, actions[n]) == Some(op) {
        BanLastsStep(cfg.conf, mid.s.l, op, ip, e);
      }
    }
  }

  lemma NoShorterPrefix(cfg: Config, sys: Sys, actions: seq<Action>, m: nat, ip: Word, e: int)
    requires NoShorterBan(cfg, sys, actions, ip, e) && m <= |actions|
    ensures NoShorterBan(cfg, sys, actions[..m], ip, e)
  {
    forall n: nat | n < m
      ensures KeepsLongBan(cfg, StateAt(cfg, sys, actions[..m], n), actions[..m][n], ip, e)
    {
      StateAtPrefix(cfg, sys, actions, m, n);
      assert KeepsLongBan(cfg, StateAt(cfg, sys, actions, n), actions[n], ip, e);
    }
  }

  /** As long as the clock is below e, the address is banned in every state. */
  lemma BannedWhileLasting(cfg: Config, sys: Sys, actions: seq<Action>, ip: Word, e: int)
    requires BanLasts(cfg.conf, sys.s.l, ip, e) && NoShorterBan(cfg, sys, actions, ip, e)
    requires RunSys(cfg, sys, actions).s.l.now < e
    ensures BannedThroughout(cfg, sys, actions, ip)
  {
    forall n: nat | n <= |actions|
      ensures BannedNow(cfg, StateAt(cfg, sys, actions, n), ip)
    {
      NoShorterPrefix(cfg, sys, actions, n, ip, e);
      BanLastsRun(cfg, sys, actions[..n], ip, e);
      TimeMonotone(cfg, sys, actions, n);
    }
  }

  /** A ban holds until its end: in every run from a state where Redis bans the
      address until e, if nobody shortens the ban and the clock stays below e, every
      request of the address that arrives (when the Bloom filter, if on, knows the
      address) is denied, an unanswered script under FailOpen excepted. */
  lemma BanHolds(
    cfg: Config, sys: Sys, before: seq<Action>, r: Request, limit: int, during: seq<Action>, e: int)
    requires BanLasts(cfg.conf, sys.s.l, r.ip, e) && Protected(cfg, RunSys(cfg, sys, before).s, r.ip)
    requires NoShorterBan(cfg, sys, before + [Arrive(r, limit)] + during, r.ip, e)
    requires RunSys(cfg, sys, before + [Arrive(r, limit)] + during).s.l.now < e
    ensures var i := |RunSys(cfg, sys, before).agents|;
            var a := RunSys(cfg, sys, before + [Arrive(r, limit)] + during).agents;
            i < |a| &&
            (a[i].Finished? ==>
               && (!a[i].d.allowed || a[i].d.reason == FailOpen)
               && (Answered(during, i) ==> !a[i].d.allowed))
  {
    hide Act;
    hide BannedNow;
    hide BanLasts;
    hide NoShorterBan;
    hide Answered;
    var all := before + [Arrive(r, limit)] + during;
    var m := |before| + 1;
    var mid := RunSys(cfg, sys, before);
    assert all[..|before|] == before && all[..m] == before + [Arrive(r, limit)] && all[m..] == during;
    StateAtNext(cfg, sys, all, |before|);
    var begun := Act(cfg, mid, Arrive(r, limit));
    BannedWhileLasting(cfg, sys, all, r.ip, e);
    RunConcat(cfg, sys, all[..m], during);
    assert all == all[..m] + during;
    forall n: nat | n <= |during|
      ensures BannedNow(cfg, StateAt(cfg, begun, during, n), r.ip)
    {
      RunConcat(cfg, sys, all[..m], during[..n]);
      assert all[..m + n] == all[..m] + during[..n];
      assert BannedNow(cfg, StateAt(cfg, sys, all, m + n), r.ip);
    }
    BanEnforced(cfg, mid, r, limit, during);
  }

  lemma {:induction false} ProtectedRun(cfg: Config, sys: Sys, actions: seq<Action>, ip: Word)
    requires Protected(cfg, sys.s, ip)
    ensures Protected(cfg, RunSys(cfg, sys, actions).s, ip)
  {
    if actions != [] {
      var n := |actions| - 1;
      ProtectedRun(cfg, sys, actions[..n], ip);
      ProtectedGrows(cfg, RunSys(cfg, sys, actions[..n]), actions[n], ip);
    }
  }

  /** Limits given at arrival, and those of other clients, lie between 1 and MaxRequests. */
  ghost predicate ActionsWithin(cfg: Config, actions: seq<Action>) {
    forall n :: 0 <= n < |actions| ==>
      && (actions[n].Arrive? ==> 1 <= actions[n].limit <= cfg.maxRequests)
      && (actions[n].Foreign? && actions[n].op.Check? ==> 1 <= actions[n].op.limit <= cfg.maxRequests)
  }

  ghost predicate AgentWithin(cfg: Config, a: Agent) {
    match a
    case ReqCache(_, _, limit) => 1 <= limit <= cfg.maxRequests
    case ReqPbox(_, _, limit) => 1 <= limit <= cfg.maxRequests
    case ReqPttl(_, _, limit) => 1 <= limit <= cfg.maxRequests
    case ReqPboxWrite(_, _, limit, _) => 1 <= limit <= cfg.maxRequests
    case ReqPenalty(_, _, limit) => 1 <= limit <= cfg.maxRequests
    case ReqBloom(_, _, limit) => 1 <= limit <= cfg.maxRequests
    case ReqScript(_, _, limit) => 1 <= limit <= cfg.maxRequests
    case CacheShort(_, _, after) => AgentWithin(cfg, after)
    case BanWrite(_, _, after) => AgentWithin(cfg, after)
    case BanCache(_, _, after) => AgentWithin(cfg, after)
    case BloomAdd(_, after) => AgentWithin(cfg, after)
    case PenaltySet(_, _, after) => AgentWithin(cfg, after)
    case PenaltyBox(_, _, after) => AgentWithin(cfg, after)
    case _ => true
  }

  lemma StepWithin(cfg: Config, s: Shared, a: Agent, c: Choice)
    requires AgentWithin(cfg, a)
    ensures AgentWithin(cfg, AgentAfter(cfg, s, a, c))
  {
    hide CheckReply;
    hide JudgeReply;
    hide Bumped;
    hide NewDecisionWithTtl;
    if a.ReqScript? && c.redisOk {
      var reply := CheckReply(cfg.conf, s.l.now, s.l.db, a.r.ip, a.r.RateKey(), a.limit);
      var d := NewDecisionWithTtl(false, Blacklisted, reply.counter, a.limit, a.t, reply.ttl, cfg.conf.windowMs);
      assert AgentWithin(cfg, AddToBloom(cfg, a.r.ip, Finished(d, RedisBlacklist)));
    }
  }

  lemma {:induction false} RunWithin(cfg: Config, sys: Sys, actions: seq<Action>, key: Word)
    requires sys.agents == [] && ActionsWithin(cfg, actions)
    ensures LimitsWithin(OpsOf(cfg, sys, actions), key, cfg.maxRequests)
    ensures forall i :: 0 <= i < |RunSys(cfg, sys, actions).agents| ==>
              AgentWithin(cfg, RunSys(cfg, sys, actions).agents[i])
  {
    if actions != [] {
      var n := |actions| - 1;
      RunWithin(cfg, sys, actions[..n], key);
      var mid := RunSys(cfg, sys, actions[..n]);
      assert actions[n].Arrive? ==> 1 <= actions[n].limit <= cfg.maxRequests;
      if actions[n].Go? && actions[n].i < |mid.agents| {
        StepWithin(cfg, mid.s, mid.agents[actions[n].i], actions[n].c);
      }
    }
  }

  /** Over every run of the engine, with any number of requests and background
      jobs interleaved and other clients on the same Redis, a rate-limit key gets
      at most MaxRequests through the script per counter window, and at most
      2*MaxRequests - 1 in any interval as long as the window. */
  lemma EngineRateLimit(
    cfg: Config, db: Db, now: int, cache: map<Word, int>, pbox: map<Word, int>, added: set<Word>,
    actions: seq<Action>, key: Word, start: int, from: int)
    requires cfg.conf.windowMs > 0 && cfg.maxRequests > 0 && Quiet(db, now)
    requires ActionsWithin(cfg, actions)
    ensures var l := RunSys(cfg, Sys(Shared(Start(db, now), cache, pbox, added), []), actions).s.l;
            && AllowedIn(HitsOf(l.hits, key), start) <= cfg.maxRequests
            && AllowedDuring(HitsOf(l.hits, key), from, cfg.conf.windowMs) <= 2 * cfg.maxRequests - 1
  {
    var sys := Sys(Shared(Start(db, now), cache, pbox, added), []);
    RunIsLedgerRun(cfg, sys, actions);
    RunWithin(cfg, sys, actions, key);
    RateLimitHolds(cfg.conf, db, now, OpsOf(cfg, sys, actions), key, cfg.maxRequests, start, from);
  }
}
