/** How stale the local blacklist can be. A ban is written to Redis first and to the
    local cache later. Over every run in which such a cache write, while it is
    outstanding, would end less than two seconds after the ban that Redis holds, a
    cache hit means that the address was banned in Redis less than two seconds
    before the request arrived, or later. A write that is later than that breaks
    this bound, so the condition is exact. */
module CacheSoundness {
  import opened Words
  import opened Wrappers
  import opened Store
  import opened Ledger
  import opened Decisions
  import opened Protocol

  /** Whole-millisecond, positive ban times. */
  ghost predicate PositiveTtls(cfg: Config) {
    && cfg.conf.rep.ban1 > 0 && cfg.conf.rep.ban2 > 0 && cfg.conf.rep.ban3 > 0
    && cfg.penaltyBanTtl > 0 && cfg.adaptiveBanTtl > 0
  }

  function Key(cfg: Config, ip: Word): Word {
    BlKey(cfg.conf.prefix, ip)
  }

  /** The address was banned in Redis at time tau of the run. */
  ghost predicate BanLiveAt(cfg: Config, sys: Sys, actions: seq<Action>, ip: Word, tau: int) {
    exists n: nat :: LiveIn(cfg, sys, actions, ip, tau, n)
  }

  ghost predicate LiveIn(cfg: Config, sys: Sys, actions: seq<Action>, ip: Word, tau: int, n: nat) {
    && n <= |actions|
    && Banned(StateAt(cfg, sys, actions, n).s.l.db, Key(cfg, ip), tau)
    && StateAt(cfg, sys, actions, n).s.l.now <= tau
    && tau <= StateAt(cfg, sys, actions, if n < |actions| then n + 1 else n).s.l.now
  }

  /** The address was banned late enough to justify an entry that lasts until e. */
  ghost predicate Justified(cfg: Config, sys: Sys, actions: seq<Action>, ip: Word, e: int) {
    exists tau :: BanLiveAt(cfg, sys, actions, ip, tau) && e <= tau + 2000
  }

  /** When the ban that Redis holds ends or ended; without one, now. */
  function BanEnd(cfg: Config, l: Ledger, ip: Word): int {
    var sets := l.db.sets;
    if Key(cfg, ip) in sets && sets[Key(cfg, ip)].expiry.Some? then sets[Key(cfg, ip)].expiry.value else l.now
  }

  /** The blacklist key holds a ban, which may have run out. */
  ghost predicate HasEntry(cfg: Config, l: Ledger, ip: Word) {
    var sets := l.db.sets;
    Key(cfg, ip) in sets && MEMBER in sets[Key(cfg, ip)].value && sets[Key(cfg, ip)].expiry.Some?
  }

  /** Redis bans the address now, until exactly e. */
  ghost predicate BannedUntil(cfg: Config, l: Ledger, ip: Word, e: int) {
    HasEntry(cfg, l, ip) && l.now < e == BanEnd(cfg, l, ip)
  }

  /** An agent between the Redis write of a ban of the address and its cache write. */
  ghost predicate PendingFor(sys: Sys, i: nat, ip: Word) {
    i < |sys.agents| && sys.agents[i].BanCache? && sys.agents[i].ip == ip
  }

  /** If agent i wrote its cache entry now, the entry would end less than two
      seconds after the ban that Redis holds. */
  ghost predicate Timely(cfg: Config, sys: Sys, i: nat, ip: Word)
    requires PendingFor(sys, i, ip)
  {
    sys.s.l.now + sys.agents[i].ttl < BanEnd(cfg, sys.s.l, ip) + 2000
  }

  ghost predicate TimelyNow(cfg: Config, sys: Sys, ip: Word) {
    forall i: nat :: PendingFor(sys, i, ip) ==> Timely(cfg, sys, i, ip)
  }

  /** Every outstanding cache write of the address is timely in every state of the run. */
  ghost predicate TimelyThroughout(cfg: Config, sys: Sys, actions: seq<Action>, ip: Word) {
    forall n: nat :: n <= |actions| ==> TimelyNow(cfg, StateAt(cfg, sys, actions, n), ip)
  }

  /** Bans of the address come only from this engine. */
  ghost predicate OwnBans(actions: seq<Action>, ip: Word) {
    forall n :: 0 <= n < |actions| && actions[n].Foreign? ==>
      !((actions[n].op.Ban? || actions[n].op.Judge?) && actions[n].op.ip == ip)
  }

  /** TTLs carried by agents are positive, and short-lived cache writes are justified. */
  ghost predicate AgentOk(cfg: Config, sys: Sys, actions: seq<Action>, ip: Word, now: int, a: Agent) {
    match a
    case ReqCache(_, t, _) => t <= now
    case ReqPbox(_, t, _) => t <= now
    case ReqPttl(_, t, _) => t <= now
    case ReqPboxWrite(_, t, _, _) => t <= now
    case ReqPenalty(_, t, _) => t <= now
    case ReqBloom(_, t, _) => t <= now
    case ReqScript(_, t, _) => t <= now
    case CacheShort(ip2, until, after) =>
      (ip2 == ip ==> Justified(cfg, sys, actions, ip, until)) && PlainAfter(after)
    case BanWrite(_, ttl, after) => ttl > 0 && PlainAfter(after)
    case BanCache(_, ttl, after) => ttl > 0 && PlainAfter(after)
    case BloomAdd(_, after) => PlainAfter(after)
    case PenaltySet(_, _, after) => PlainAfter(after)
    case PenaltyBox(_, _, after) => PlainAfter(after)
    case _ => true
  }

  /** Continuations never write to the blacklist cache again by themselves. */
  ghost predicate PlainAfter(a: Agent) {
    match a
    case BloomAdd(_, after) => PlainAfter(after)
    case JobAdaptive(_) => true
    case Finished(_, _) => true
    case JobDone => true
    case _ => false
  }

  /** What follows an agent's step by itself is no further ban. */
  ghost predicate Plain(a: Agent) {
    match a
    case CacheShort(_, _, after) => PlainAfter(after)
    case BanWrite(_, _, after) => PlainAfter(after)
    case BanCache(_, _, after) => PlainAfter(after)
    case BloomAdd(_, after) => PlainAfter(after)
    case PenaltySet(_, _, after) => PlainAfter(after)
    case PenaltyBox(_, _, after) => PlainAfter(after)
    case _ => true
  }

  /** Where a run may start: requests that arrived, jobs, and bans not yet begun. */
  ghost predicate Begins(sys: Sys) {
    forall i :: 0 <= i < |sys.agents| ==>
      match sys.agents[i]
      case ReqCache(_, t, _) => t <= sys.s.l.now
      case BanWrite(_, ttl, after) => ttl > 0 && PlainAfter(after)
      case JobScore(_, _, _) => true
      case _ => false
  }

  /** Redis holds a ban that is live or was live until its end, and the address was
      never banned from that end on. */
  ghost predicate Standing(cfg: Config, sys: Sys, actions: seq<Action>, ip: Word) {
    var l := RunSys(cfg, sys, actions).s.l;
    && HasEntry(cfg, l, ip)
    && (l.now < BanEnd(cfg, l, ip) || BanLiveAt(cfg, sys, actions, ip, BanEnd(cfg, l, ip) - 1))
    && (forall tau :: BanLiveAt(cfg, sys, actions, ip, tau) ==> tau < BanEnd(cfg, l, ip))
  }

  /** Agents are sane, and an outstanding cache write has its ban in Redis. */
  ghost predicate Inv(cfg: Config, sys: Sys, actions: seq<Action>, ip: Word) {
    var cur := RunSys(cfg, sys, actions);
    && (forall i :: 0 <= i < |cur.agents| ==> AgentOk(cfg, sys, actions, ip, cur.s.l.now, cur.agents[i]))
    && (forall i: nat :: PendingFor(cur, i, ip) ==> Standing(cfg, sys, actions, ip))
  }

  /** An entry until e ends less than two seconds after a time at which the address
      was banned, or at which the present ban will end. */
  ghost predicate Backed(cfg: Config, sys: Sys, actions: seq<Action>, ip: Word, e: int) {
    var l := RunSys(cfg, sys, actions).s.l;
    || Justified(cfg, sys, actions, ip, e)
    || (BannedUntil(cfg, l, ip, BanEnd(cfg, l, ip)) && e < BanEnd(cfg, l, ip) + 2000)
  }

  /** When no cache write is outstanding, the cache entry is backed. */
  ghost predicate CacheOk(cfg: Config, sys: Sys, actions: seq<Action>, ip: Word) {
    var cur := RunSys(cfg, sys, actions);
    (forall i: nat :: !PendingFor(cur, i, ip)) && ip in cur.s.cache ==>
      Backed(cfg, sys, actions, ip, cur.s.cache[ip])
  }

  // ---------------------------------------------------------------------
  // The results
  // ---------------------------------------------------------------------

  /** Cache soundness: when a request that arrived at time t is denied from the local
      cache, its address was banned in Redis at some time after t - 2 s and not
      later than now, across evictions, expiries, re-bans and the short entries.
      Other addresses' bans may interleave in any way. */
  lemma CacheHitIsRecentBan(cfg: Config, sys: Sys, actions: seq<Action>, i: nat)
    requires PositiveTtls(cfg) && Begins(sys)
    requires i < |RunSys(cfg, sys, actions).agents| && RunSys(cfg, sys, actions).agents[i].ReqCache?
    requires var r := RunSys(cfg, sys, actions).agents[i].r;
             r.ip != [] && r.ip !in sys.s.cache && OwnBans(actions, r.ip) && TimelyThroughout(cfg, sys, actions, r.ip)
    ensures var cur := RunSys(cfg, sys, actions);
            var a := cur.agents[i];
            CacheHit(cur.s.cache, a.r.ip, a.t) ==>
              exists tau :: BanLiveAt(cfg, sys, actions, a.r.ip, tau) && a.t - 2000 < tau <= cur.s.l.now
  {
    hide RunSys;
    hide BanLiveAt;
    hide Standing;
    var cur := RunSys(cfg, sys, actions);
    var a := cur.agents[i];
    var ip := a.r.ip;
    RunInv(cfg, sys, actions, ip);
    RunCacheOk(cfg, sys, actions, ip);
    assert AgentOk(cfg, sys, actions, ip, cur.s.l.now, a);
    assert actions[..|actions|] == actions && TimelyNow(cfg, StateAt(cfg, sys, actions, |actions|), ip);
    if CacheHit(cur.s.cache, ip, a.t) {
      if BannedUntil(cfg, cur.s.l, ip, BanEnd(cfg, cur.s.l, ip)) {
        LiveNow(cfg, sys, actions, ip);
      } else if j: nat :| PendingFor(cur, j, ip) {
        assert AgentOk(cfg, sys, actions, ip, cur.s.l.now, cur.agents[j]) && Timely(cfg, cur, j, ip);
        StandingSound(cfg, sys, actions, ip);
      } else {
        var tau :| BanLiveAt(cfg, sys, actions, ip, tau) && cur.s.cache[ip] <= tau + 2000;
        LiveIsPast(cfg, sys, actions, ip, tau);
      }
    }
  }

  /** Over every run with timely cache writes. */
  lemma {:induction false} RunCacheOk(cfg: Config, sys: Sys, actions: seq<Action>, ip: Word)
    requires PositiveTtls(cfg) && ip != [] && Begins(sys) && ip !in sys.s.cache && OwnBans(actions, ip)
    requires TimelyThroughout(cfg, sys, actions, ip)
    ensures CacheOk(cfg, sys, actions, ip)
  {
    hide Backed;
    hide Standing;
    hide Inv;
    hide Act;
    hide WritesBan;
    hide Timely;
    if actions != [] {
      var n := |actions| - 1;
      var init, last := actions[..n], actions[n];
      assert actions == init + [last];
      forall m: nat | m <= n
        ensures TimelyNow(cfg, StateAt(cfg, sys, init, m), ip)
      {
        StateAtPrefix(cfg, sys, actions, n, m);
        assert TimelyNow(cfg, StateAt(cfg, sys, actions, m), ip);
      }
      LastIsOwn(init, last, ip);
      RunCacheOk(cfg, sys, init, ip);
      RunInv(cfg, sys, init, ip);
      assert TimelyNow(cfg, StateAt(cfg, sys, actions, n), ip);
      var cur := RunSys(cfg, sys, init);
      if Bans(cfg, cur, last, ip) {
        StandingBegins(cfg, sys, init, last.i, last.c, ip);
      } else if Caches(cur, last, ip) {
        WriteKeepsCacheOk(cfg, sys, init, last, ip);
      } else {
        OtherKeepsCacheOk(cfg, sys, init, last, ip);
      }
    }
  }

  /** Over every run, however late the cache writes are. */
  lemma {:induction false} RunInv(cfg: Config, sys: Sys, actions: seq<Action>, ip: Word)
    requires PositiveTtls(cfg) && ip != [] && Begins(sys) && OwnBans(actions, ip)
    ensures Inv(cfg, sys, actions, ip)
  {
    if actions != [] {
      var init, last := actions[..|actions| - 1], actions[|actions| - 1];
      assert actions == init + [last];
      RunInv(cfg, sys, init, ip);
      InvStep(cfg, sys, init, last, ip);
    }
  }

  /** With a ban standing, a time less than two seconds after its end is close to a ban. */
  lemma StandingSound(cfg: Config, sys: Sys, actions: seq<Action>, ip: Word)
    requires Standing(cfg, sys, actions, ip)
    ensures var l := RunSys(cfg, sys, actions).s.l;
            l.now + 1 < BanEnd(cfg, l, ip) + 2000 ==>
              exists tau :: BanLiveAt(cfg, sys, actions, ip, tau) && l.now - 2000 < tau <= l.now
  {
    var l := RunSys(cfg, sys, actions).s.l;
    if l.now < BanEnd(cfg, l, ip) {
      LiveNow(cfg, sys, actions, ip);
    } else {
      LiveIsPast(cfg, sys, actions, ip, BanEnd(cfg, l, ip) - 1);
    }
  }

  // ---------------------------------------------------------------------
  // Extending a run by one action
  // ---------------------------------------------------------------------

  ghost predicate Extends(cfg: Config, sys: Sys, actions: seq<Action>, a: Action) {
    RunSys(cfg, sys, actions + [a]) == Act(cfg, RunSys(cfg, sys, actions), a)
  }

  lemma RunSnoc(cfg: Config, sys: Sys, actions: seq<Action>, a: Action)
    ensures Extends(cfg, sys, actions, a)
  {
    assert (actions + [a])[..|actions|] == actions;
  }

  lemma LiveStays(cfg: Config, sys: Sys, actions: seq<Action>, a: Action, ip: Word, tau: int)
    requires BanLiveAt(cfg, sys, actions, ip, tau)
    ensures BanLiveAt(cfg, sys, actions + [a], ip, tau)
  {
    var n: nat :| LiveIn(cfg, sys, actions, ip, tau, n);
    var more := actions + [a];
    assert more[..|actions|] == actions && actions[..|actions|] == actions;
    StateAtPrefix(cfg, sys, more, |actions|, n);
    if n < |actions| {
      StateAtPrefix(cfg, sys, more, |actions|, n + 1);
    } else {
      StateAtNext(cfg, sys, more, n);
      TimeGoesOn(cfg, StateAt(cfg, sys, more, n), a);
    }
    assert LiveIn(cfg, sys, more, ip, tau, n);
  }

  lemma JustifiedStays(cfg: Config, sys: Sys, actions: seq<Action>, a: Action, ip: Word, e: int)
    requires Justified(cfg, sys, actions, ip, e)
    ensures Justified(cfg, sys, actions + [a], ip, e)
  {
    var tau :| BanLiveAt(cfg, sys, actions, ip, tau) && e <= tau + 2000;
    LiveStays(cfg, sys, actions, a, ip, tau);
  }

  /** Banned in the current state: live at the current time. */
  lemma LiveNow(cfg: Config, sys: Sys, actions: seq<Action>, ip: Word)
    requires var l := RunSys(cfg, sys, actions).s.l; Banned(l.db, Key(cfg, ip), l.now)
    ensures BanLiveAt(cfg, sys, actions, ip, RunSys(cfg, sys, actions).s.l.now)
  {
    assert actions[..|actions|] == actions;
    assert LiveIn(cfg, sys, actions, ip, RunSys(cfg, sys, actions).s.l.now, |actions|);
  }

  /** A ban that runs out while time passes was live until its last millisecond. */
  lemma LiveUntilExpiry(cfg: Config, sys: Sys, actions: seq<Action>, d: nat, ip: Word, e: int)
    requires BannedUntil(cfg, RunSys(cfg, sys, actions).s.l, ip, e)
    requires e <= RunSys(cfg, sys, actions).s.l.now + d
    ensures BanLiveAt(cfg, sys, actions + [Tick(d)], ip, e - 1)
  {
    var more := actions + [Tick(d)];
    assert more[..|actions|] == actions;
    StateAtNext(cfg, sys, more, |actions|);
    assert LiveIn(cfg, sys, more, ip, e - 1, |actions|);
  }

  /** A time at which the address was banned in a longer run belongs to the run
      before, or to one of its last two states. */
  lemma LiveSplit(cfg: Config, sys: Sys, actions: seq<Action>, a: Action, ip: Word, tau: int)
    requires BanLiveAt(cfg, sys, actions + [a], ip, tau)
    ensures || BanLiveAt(cfg, sys, actions, ip, tau)
            || Banned(RunSys(cfg, sys, actions).s.l.db, Key(cfg, ip), tau)
            || Banned(RunSys(cfg, sys, actions + [a]).s.l.db, Key(cfg, ip), tau)
  {
    var more := actions + [a];
    var n: nat :| LiveIn(cfg, sys, more, ip, tau, n);
    assert more[..|actions|] == actions && more[..|more|] == more;
    if n < |actions| {
      StateAtPrefix(cfg, sys, more, |actions|, n);
      StateAtPrefix(cfg, sys, more, |actions|, n + 1);
      assert LiveIn(cfg, sys, actions, ip, tau, n);
    }
  }

  lemma LiveIsPast(cfg: Config, sys: Sys, actions: seq<Action>, ip: Word, tau: int)
    requires BanLiveAt(cfg, sys, actions, ip, tau)
    ensures tau <= RunSys(cfg, sys, actions).s.l.now
  {
    var n: nat :| LiveIn(cfg, sys, actions, ip, tau, n);
    TimeMonotone(cfg, sys, actions, if n < |actions| then n + 1 else n);
  }

  // ---------------------------------------------------------------------
  // Steps
  // ---------------------------------------------------------------------

  /** Operations that leave the ban of the address as it is. */
  ghost predicate LeavesBan(op: Op, ip: Word) {
    !(op.Ban? && op.ip == ip) && !(op.Judge? && op.ip == ip) && !op.Wait?
  }

  ghost predicate SameEntry(cfg: Config, l: Ledger, l': Ledger, ip: Word) {
    && (Key(cfg, ip) in l.db.sets <==> Key(cfg, ip) in l'.db.sets)
    && (Key(cfg, ip) in l.db.sets ==> l.db.sets[Key(cfg, ip)] == l'.db.sets[Key(cfg, ip)])
  }

  lemma BanKept(cfg: Config, l: Ledger, op: Op, ip: Word)
    requires LeavesBan(op, ip)
    ensures SameEntry(cfg, l, Next(cfg.conf, l, op), ip) && Next(cfg.conf, l, op).now == l.now
  {
    if op.Ban? || op.Judge? {
      KeysInjective(cfg.conf.prefix, ip, op.ip);
    }
  }

  /** Where a reputation script does not cross the threshold, no ban changes. */
  lemma QuietJudge(cfg: Config, l: Ledger, ip: Word, field: Word, delta: real)
    requires JudgeReply(cfg.conf, l.now, l.db, ip, field, delta).action != 2
    ensures Next(cfg.conf, l, Judge(ip, field, delta)).db.sets == l.db.sets
  {
  }

  ghost predicate WritesBan(cfg: Config, l: Ledger, a: Agent, c: Choice, ip: Word) {
    c.redisOk && ip != [] &&
    match a
    case BanWrite(ip2, _, _) => ip2 == ip
    case JobScore(ip2, field, score) =>
      ip2 == ip && score > 0.0 && cfg.reputation && JudgeReply(cfg.conf, l.now, l.db, ip, field, score).action == 2
    case _ => false
  }

  ghost predicate WritesCache(a: Agent, ip: Word) {
    (a.CacheShort? || a.BanCache?) && a.ip == ip
  }

  /** A step that does not write the ban or the cache entry of the address keeps both. */
  lemma KeptStep(cfg: Config, s: Shared, a: Agent, c: Choice, ip: Word)
    requires ip != [] && !WritesBan(cfg, s.l, a, c, ip)
    ensures var s' := SharedAfter(cfg, s, a, c);
            && s'.l.now == s.l.now && SameEntry(cfg, s.l, s'.l, ip)
            && (!WritesCache(a, ip) && ip in s'.cache ==> ip in s.cache && s'.cache[ip] == s.cache[ip])
  {
    var op := RedisOp(cfg, a, c);
    if op.Some? {
      if op.value.Judge? && op.value.ip == ip {
        QuietJudge(cfg, s.l, ip, op.value.field, op.value.delta);
      } else {
        BanKept(cfg, s.l, op.value, ip);
      }
    }
  }

  /** Writing a ban: Redis then holds it for exactly the time the agent carries on. */
  lemma BanStep(cfg: Config, s: Shared, a: Agent, c: Choice, ip: Word)
    requires WritesBan(cfg, s.l, a, c, ip) && PositiveTtls(cfg)
    requires a.BanWrite? ==> a.ttl > 0
    ensures var a' := AgentAfter(cfg, s, a, c);
            var s' := SharedAfter(cfg, s, a, c);
            && a'.BanCache? && a'.ip == ip && a'.ttl > 0 && s'.l.now == s.l.now
            && BannedUntil(cfg, s'.l, ip, s.l.now + a'.ttl)
  {
  }

  lemma OkAfter(cfg: Config, sys: Sys, actions: seq<Action>, action: Action, s: Shared, a: Agent, c: Choice, ip: Word)
    requires PositiveTtls(cfg) && ip != []
    requires s == RunSys(cfg, sys, actions).s
    requires AgentOk(cfg, sys, actions, ip, s.l.now, a)
    ensures AgentOk(cfg, sys, actions + [action], ip, s.l.now, AgentAfter(cfg, s, a, c))
  {
    match a
    case ReqScript(r, t, limit) => OkAfterScript(cfg, sys, actions, action, s, a, c, ip);
    case JobScore(_, _, _) => OkAfterScore(cfg, sys, actions, action, s, a, c, ip);
    case _ => OkAfterOther(cfg, sys, actions, action, s, a, c, ip);
  }

  lemma OkAfterScript(cfg: Config, sys: Sys, actions: seq<Action>, action: Action, s: Shared, a: Agent, c: Choice, ip: Word)
    requires ip != [] && a.ReqScript?
    requires s == RunSys(cfg, sys, actions).s
    requires AgentOk(cfg, sys, actions, ip, s.l.now, a)
    ensures AgentOk(cfg, sys, actions + [action], ip, s.l.now, AgentAfter(cfg, s, a, c))
  {
    hide AgentAfter;
    hide RunSys;
    ScriptOutcome(cfg, s, a, c);
    if AgentAfter(cfg, s, a, c).CacheShort? && a.r.ip == ip {
      LiveNow(cfg, sys, actions, ip);
      LiveStays(cfg, sys, actions, action, ip, s.l.now);
      assert Justified(cfg, sys, actions + [action], ip, a.t + 2000);
    }
  }

  /** The script ends a request, or finds a ban and has it cached for two seconds. */
  lemma ScriptOutcome(cfg: Config, s: Shared, a: Agent, c: Choice)
    requires a.ReqScript?
    ensures var a' := AgentAfter(cfg, s, a, c);
            || a'.Finished?
            || (&& a'.CacheShort? && a'.ip == a.r.ip && a'.until == a.t + 2000 && PlainAfter(a'.after)
                && Banned(s.l.db, Key(cfg, a.r.ip), s.l.now))
  {
    hide NewDecisionWithTtl;
    hide Bumped;
  }

  lemma OkAfterScore(cfg: Config, sys: Sys, actions: seq<Action>, action: Action, s: Shared, a: Agent, c: Choice, ip: Word)
    requires PositiveTtls(cfg) && a.JobScore?
    ensures AgentOk(cfg, sys, actions + [action], ip, s.l.now, AgentAfter(cfg, s, a, c))
  {
    hide RunSys;
    hide Score;
    hide Bumped;
  }

  lemma OkAfterOther(cfg: Config, sys: Sys, actions: seq<Action>, action: Action, s: Shared, a: Agent, c: Choice, ip: Word)
    requires PositiveTtls(cfg) && !a.ReqScript? && !a.JobScore?
    requires AgentOk(cfg, sys, actions, ip, s.l.now, a)
    ensures AgentOk(cfg, sys, actions + [action], ip, s.l.now, AgentAfter(cfg, s, a, c))
  {
    hide RunSys;
    hide Justified;
    hide Bumped;
  }

  lemma OkStays(cfg: Config, sys: Sys, actions: seq<Action>, action: Action, ip: Word, now: int, later: int, a: Agent)
    requires now <= later && AgentOk(cfg, sys, actions, ip, now, a)
    ensures AgentOk(cfg, sys, actions + [action], ip, later, a)
  {
    if a.CacheShort? && a.ip == ip {
      JustifiedStays(cfg, sys, actions, action, ip, a.until);
    }
  }

  // ---------------------------------------------------------------------
  // Actions
  // ---------------------------------------------------------------------

  /** The action writes the ban of the address to Redis. */
  ghost predicate Bans(cfg: Config, sys: Sys, action: Action, ip: Word) {
    action.Go? && action.i < |sys.agents| && WritesBan(cfg, sys.s.l, sys.agents[action.i], action.c, ip)
  }

  /** The action is a cache write of the address. */
  ghost predicate Caches(sys: Sys, action: Action, ip: Word) {
    action.Go? && action.i < |sys.agents| && WritesCache(sys.agents[action.i], ip)
  }

  lemma ActKeeps(cfg: Config, sys: Sys, action: Action, ip: Word)
    requires ip != [] && !Bans(cfg, sys, action, ip) && OwnBans([action], ip)
    ensures var sys' := Act(cfg, sys, action);
            && SameEntry(cfg, sys.s.l, sys'.s.l, ip)
            && (!Caches(sys, action, ip) && ip in sys'.s.cache ==>
                  ip in sys.s.cache && sys'.s.cache[ip] == sys.s.cache[ip])
  {
    assert [action][0] == action;
    if action.Go? && action.i < |sys.agents| {
      KeptStep(cfg, sys.s, sys.agents[action.i], action.c, ip);
    } else if action.Foreign? && !action.op.Wait? {
      BanKept(cfg, sys.s.l, action.op, ip);
    }
  }

  lemma StepNotPending(cfg: Config, s: Shared, a: Agent, c: Choice, ip: Word)
    requires ip != [] && !WritesBan(cfg, s.l, a, c, ip) && Plain(a)
    ensures var a' := AgentAfter(cfg, s, a, c);
            !(a'.BanCache? && a'.ip == ip)
  {
    hide NewDecisionWithTtl;
    hide Bumped;
  }

  /** Only a ban write makes a cache write outstanding, and only the cache write ends that. */
  lemma PendingKept(cfg: Config, sys: Sys, action: Action, ip: Word, j: nat)
    requires ip != [] && forall i :: 0 <= i < |sys.agents| ==> Plain(sys.agents[i])
    ensures !Bans(cfg, sys, action, ip) && PendingFor(Act(cfg, sys, action), j, ip) ==> PendingFor(sys, j, ip)
    ensures PendingFor(sys, j, ip) && !(action.Go? && action.i == j) ==>
              PendingFor(Act(cfg, sys, action), j, ip) && Act(cfg, sys, action).agents[j] == sys.agents[j]
  {
    hide AgentAfter;
    hide Next;
    if action.Go? && action.i < |sys.agents| && !Bans(cfg, sys, action, ip) {
      StepNotPending(cfg, sys.s, sys.agents[action.i], action.c, ip);
    }
  }

  lemma OkIsPlain(cfg: Config, sys: Sys, actions: seq<Action>, ip: Word)
    requires Inv(cfg, sys, actions, ip)
    ensures forall i :: 0 <= i < |RunSys(cfg, sys, actions).agents| ==> Plain(RunSys(cfg, sys, actions).agents[i])
  {
    hide Justified;
    var cur := RunSys(cfg, sys, actions);
    forall i | 0 <= i < |cur.agents|
      ensures Plain(cur.agents[i])
    {
      assert AgentOk(cfg, sys, actions, ip, cur.s.l.now, cur.agents[i]);
    }
  }

  // ---------------------------------------------------------------------
  // Over every run, whatever the timing: the ban behind an outstanding write
  // ---------------------------------------------------------------------

  lemma AgentsOk(cfg: Config, sys: Sys, actions: seq<Action>, action: Action, ip: Word)
    requires PositiveTtls(cfg) && ip != [] && Inv(cfg, sys, actions, ip)
    ensures var next := RunSys(cfg, sys, actions + [action]);
            forall i :: 0 <= i < |next.agents| ==>
              AgentOk(cfg, sys, actions + [action], ip, next.s.l.now, next.agents[i])
  {
    hide AgentOk;
    hide AgentAfter;
    hide SharedAfter;
    hide RunSys;
    var cur := RunSys(cfg, sys, actions);
    RunSnoc(cfg, sys, actions, action);
    var next := Act(cfg, cur, action);
    TimeGoesOn(cfg, cur, action);
    forall i | 0 <= i < |next.agents|
      ensures AgentOk(cfg, sys, actions + [action], ip, next.s.l.now, next.agents[i])
    {
      if i >= |cur.agents| {
        NewAgentOk(cfg, sys, actions + [action], ip, cur, action, i);
      } else if action.Go? && action.i == i {
        OkAfter(cfg, sys, actions, action, cur.s, cur.agents[i], action.c, ip);
      } else {
        OkStays(cfg, sys, actions, action, ip, cur.s.l.now, next.s.l.now, cur.agents[i]);
      }
    }
  }

  lemma NewAgentOk(cfg: Config, sys: Sys, more: seq<Action>, ip: Word, cur: Sys, action: Action, i: nat)
    requires |cur.agents| <= i < |Act(cfg, cur, action).agents|
    ensures AgentOk(cfg, sys, more, ip, Act(cfg, cur, action).s.l.now, Act(cfg, cur, action).agents[i])
  {
  }

  lemma StandingStays(cfg: Config, sys: Sys, actions: seq<Action>, action: Action, ip: Word)
    requires Standing(cfg, sys, actions, ip)
    requires SameEntry(cfg, RunSys(cfg, sys, actions).s.l, RunSys(cfg, sys, actions + [action]).s.l, ip)
    ensures Standing(cfg, sys, actions + [action], ip)
  {
    hide Act;
    var l := RunSys(cfg, sys, actions).s.l;
    var end := BanEnd(cfg, l, ip);
    RunSnoc(cfg, sys, actions, action);
    TimeGoesOn(cfg, RunSys(cfg, sys, actions), action);
    if l.now >= end {
      LiveStays(cfg, sys, actions, action, ip, end - 1);
    } else if action.Tick? && l.now + action.d >= end {
      LiveUntilExpiry(cfg, sys, actions, action.d, ip, end);
    } else {
      TickTime(cfg, RunSys(cfg, sys, actions), action);
    }
    forall tau | BanLiveAt(cfg, sys, actions + [action], ip, tau)
      ensures tau < end
    {
      LiveSplit(cfg, sys, actions, action, ip, tau);
    }
  }

  lemma TickTime(cfg: Config, sys: Sys, action: Action)
    ensures Act(cfg, sys, action).s.l.now == sys.s.l.now + if action.Tick? then action.d else 0
  {
  }

  lemma StandingBegins(cfg: Config, sys: Sys, actions: seq<Action>, i: nat, c: Choice, ip: Word)
    requires PositiveTtls(cfg) && ip != [] && Inv(cfg, sys, actions, ip)
    requires Bans(cfg, RunSys(cfg, sys, actions), Go(i, c), ip)
    ensures Standing(cfg, sys, actions + [Go(i, c)], ip)
    ensures var next := RunSys(cfg, sys, actions + [Go(i, c)]);
            && next.s.l.now == RunSys(cfg, sys, actions).s.l.now
            && PendingFor(next, i, ip) && BanEnd(cfg, next.s.l, ip) == next.s.l.now + next.agents[i].ttl
  {
    hide AgentAfter;
    hide SharedAfter;
    var cur := RunSys(cfg, sys, actions);
    RunSnoc(cfg, sys, actions, Go(i, c));
    assert AgentOk(cfg, sys, actions, ip, cur.s.l.now, cur.agents[i]);
    BanStep(cfg, cur.s, cur.agents[i], c, ip);
    forall tau | BanLiveAt(cfg, sys, actions + [Go(i, c)], ip, tau)
      ensures tau <= cur.s.l.now
    {
      LiveIsPast(cfg, sys, actions + [Go(i, c)], ip, tau);
    }
  }

  lemma InvStep(cfg: Config, sys: Sys, actions: seq<Action>, action: Action, ip: Word)
    requires PositiveTtls(cfg) && ip != [] && OwnBans(actions + [action], ip)
    requires Inv(cfg, sys, actions, ip)
    ensures Inv(cfg, sys, actions + [action], ip)
  {
    hide AgentOk;
    hide Standing;
    hide Act;
    hide RunSys;
    hide WritesBan;
    var cur := RunSys(cfg, sys, actions);
    var next := RunSys(cfg, sys, actions + [action]);
    RunSnoc(cfg, sys, actions, action);
    LastIsOwn(actions, action, ip);
    if Bans(cfg, cur, action, ip) {
      StandingBegins(cfg, sys, actions, action.i, action.c, ip);
    } else {
      OkIsPlain(cfg, sys, actions, ip);
      ActKeeps(cfg, cur, action, ip);
      forall j: nat | PendingFor(next, j, ip)
        ensures PendingFor(cur, j, ip) && Standing(cfg, sys, actions + [action], ip)
      {
        PendingKept(cfg, cur, action, ip, j);
        StandingStays(cfg, sys, actions, action, ip);
      }
    }
    AgentsOk(cfg, sys, actions, action, ip);
    assert forall i: nat :: PendingFor(next, i, ip) ==> Standing(cfg, sys, actions + [action], ip);
    assert forall i :: 0 <= i < |next.agents| ==> AgentOk(cfg, sys, actions + [action], ip, next.s.l.now, next.agents[i]);
  }

  lemma LastIsOwn(actions: seq<Action>, action: Action, ip: Word)
    requires OwnBans(actions + [action], ip)
    ensures OwnBans(actions, ip) && OwnBans([action], ip)
  {
    assert (actions + [action])[|actions|] == action;
    forall n | 0 <= n < |actions|
      ensures (actions + [action])[n] == actions[n]
    {
    }
  }

  // ---------------------------------------------------------------------
  // Under timely cache writes: the cache entry
  // ---------------------------------------------------------------------

  lemma BackedStays(cfg: Config, sys: Sys, actions: seq<Action>, action: Action, ip: Word, e: int)
    requires Backed(cfg, sys, actions, ip, e)
    requires SameEntry(cfg, RunSys(cfg, sys, actions).s.l, RunSys(cfg, sys, actions + [action]).s.l, ip)
    ensures Backed(cfg, sys, actions + [action], ip, e)
  {
    hide Act;
    var l := RunSys(cfg, sys, actions).s.l;
    var end := BanEnd(cfg, l, ip);
    RunSnoc(cfg, sys, actions, action);
    TickTime(cfg, RunSys(cfg, sys, actions), action);
    if Justified(cfg, sys, actions, ip, e) {
      JustifiedStays(cfg, sys, actions, action, ip, e);
    } else if action.Tick? && l.now + action.d >= end {
      LiveUntilExpiry(cfg, sys, actions, action.d, ip, end);
    }
  }

  /** The entry that a timely cache write leaves is backed already before the write. */
  lemma TimelyIsBacked(cfg: Config, sys: Sys, actions: seq<Action>, i: nat, ip: Word)
    requires Standing(cfg, sys, actions, ip)
    requires PendingFor(RunSys(cfg, sys, actions), i, ip) && Timely(cfg, RunSys(cfg, sys, actions), i, ip)
    ensures var cur := RunSys(cfg, sys, actions);
            Backed(cfg, sys, actions, ip, cur.s.l.now + cur.agents[i].ttl)
  {
    hide RunSys;
  }

  lemma CacheWrite(cfg: Config, cur: Sys, i: nat, c: Choice, ip: Word)
    requires i < |cur.agents| && WritesCache(cur.agents[i], ip)
    ensures var a := cur.agents[i];
            var next := Act(cfg, cur, Go(i, c));
            && next.s.l == cur.s.l
            && next.s.cache == cur.s.cache[ip := if a.CacheShort? then a.until else cur.s.l.now + a.ttl]
  {
  }

  /** A cache write leaves a backed entry. */
  lemma WriteKeepsCacheOk(cfg: Config, sys: Sys, actions: seq<Action>, action: Action, ip: Word)
    requires ip != [] && Inv(cfg, sys, actions, ip)
    requires Caches(RunSys(cfg, sys, actions), action, ip)
    requires TimelyNow(cfg, RunSys(cfg, sys, actions), ip)
    ensures var next := RunSys(cfg, sys, actions + [action]);
            ip in next.s.cache && Backed(cfg, sys, actions + [action], ip, next.s.cache[ip])
  {
    hide Backed;
    hide Standing;
    hide Act;
    hide RunSys;
    hide Timely;
    hide Justified;
    var cur := RunSys(cfg, sys, actions);
    var a := cur.agents[action.i];
    RunSnoc(cfg, sys, actions, action);
    assert AgentOk(cfg, sys, actions, ip, cur.s.l.now, a);
    if a.BanCache? {
      assert PendingFor(cur, action.i, ip);
      TimelyIsBacked(cfg, sys, actions, action.i, ip);
      CacheWrite(cfg, cur, action.i, action.c, ip);
      BackedStays(cfg, sys, actions, action, ip, cur.s.l.now + a.ttl);
    } else {
      CacheWrite(cfg, cur, action.i, action.c, ip);
      JustifiedStays(cfg, sys, actions, action, ip, a.until);
      JustifiedIsBacked(cfg, sys, actions + [action], ip, a.until);
    }
  }

  /** An action that writes neither the ban nor the entry keeps the entry backed. */
  lemma OtherKeepsCacheOk(cfg: Config, sys: Sys, actions: seq<Action>, action: Action, ip: Word)
    requires ip != [] && OwnBans([action], ip) && Inv(cfg, sys, actions, ip)
    requires !Bans(cfg, RunSys(cfg, sys, actions), action, ip) && !Caches(RunSys(cfg, sys, actions), action, ip)
    requires CacheOk(cfg, sys, actions, ip)
    ensures CacheOk(cfg, sys, actions + [action], ip)
  {
    hide Backed;
    hide Standing;
    hide Act;
    hide RunSys;
    hide WritesBan;
    var cur := RunSys(cfg, sys, actions);
    var next := RunSys(cfg, sys, actions + [action]);
    RunSnoc(cfg, sys, actions, action);
    OkIsPlain(cfg, sys, actions, ip);
    ActKeeps(cfg, cur, action, ip);
    if ip in next.s.cache && forall j: nat :: !PendingFor(next, j, ip) {
      forall j: nat
        ensures !PendingFor(cur, j, ip)
      {
        PendingKept(cfg, cur, action, ip, j);
      }
      BackedStays(cfg, sys, actions, action, ip, cur.s.cache[ip]);
    }
  }

  lemma JustifiedIsBacked(cfg: Config, sys: Sys, actions: seq<Action>, ip: Word, e: int)
    requires Justified(cfg, sys, actions, ip, e)
    ensures Backed(cfg, sys, actions, ip, e)
  {
  }
}
