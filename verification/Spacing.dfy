/** Requests that the script lets through under a limit of one, as it does for
    penalised addresses, are at least a window apart. */
module Spacing {
  import opened Words
  import opened Wrappers
  import opened Store
  import opened Ledger
  import opened FixedWindow
  import opened Decisions
  import opened Protocol
  import opened Enforcement
  import opened Penalties

  /** The action is the script step of agent i's request, which passes under a limit of one. */
  ghost predicate Passes(cfg: Config, sys: Sys, a: Action, i: nat) {
    && a.Go? && a.i == i < |sys.agents| && a.c.redisOk
    && sys.agents[i].ReqScript? && sys.agents[i].limit <= 1
    && EndSource(AgentAfter(cfg, sys.s, sys.agents[i], a.c)) == Some(LuaAllow)
  }

  /** The n-th action of the run is such a pass of agent i. */
  ghost predicate PassAt(cfg: Config, sys: Sys, actions: seq<Action>, n: nat, i: nat) {
    n < |actions| && Passes(cfg, StateAt(cfg, sys, actions, n), actions[n], i)
  }

  function KeyAt(cfg: Config, sys: Sys, actions: seq<Action>, n: nat, i: nat): Word
    requires n < |actions|
  {
    var agents := StateAt(cfg, sys, actions, n).agents;
    if i < |agents| && agents[i].ReqScript? then agents[i].r.RateKey() else []
  }

  function TimeAt(cfg: Config, sys: Sys, actions: seq<Action>, n: nat): int
    requires n <= |actions|
  {
    StateAt(cfg, sys, actions, n).s.l.now
  }

  // ---------------------------------------------------------------------
  // A pass is a first hit of its window
  // ---------------------------------------------------------------------

  lemma PassIsFirstHit(cfg: Config, sys: Sys, a: Action, i: nat)
    requires cfg.conf.windowMs > 0 && Passes(cfg, sys, a, i)
    requires RateInv(cfg.conf, sys.s.l, sys.agents[i].r.RateKey())
    ensures var key, now := sys.agents[i].r.RateKey(), sys.s.l.now;
            var hits, hits' := HitsOf(sys.s.l.hits, key), HitsOf(Act(cfg, sys, a).s.l.hits, key);
            && |hits'| == |hits| + 1 && hits'[|hits|].counter == 1
            && hits'[|hits|].start == hits'[|hits|].time == now
  {
    hide Act;
    hide AgentAfter;
    var r, limit, l := sys.agents[i].r, sys.agents[i].limit, sys.s.l;
    var key := r.RateKey();
    PassIsAllowed(cfg, sys, a, i);
    ActIsOp(cfg, sys, a);
    RateStep(cfg.conf, l, Check(r.ip, key, limit), key);
    var hits := HitsOf(l.hits, key);
    var hits' := HitsOf(Next(cfg.conf, l, Check(r.ip, key, limit)).hits, key);
    assert HitOk(cfg.conf.windowMs, hits', |hits|) && hits'[..|hits|] == hits;
  }

  lemma PassIsAllowed(cfg: Config, sys: Sys, a: Action, i: nat)
    requires Passes(cfg, sys, a, i)
    ensures var r, l := sys.agents[i].r, sys.s.l;
            && OpOfAction(cfg, sys, a) == Some(Check(r.ip, r.RateKey(), sys.agents[i].limit))
            && !Banned(l.db, BlKey(cfg.conf.prefix, r.ip), l.now)
            && Bumped(l.db, RlKey(cfg.conf.prefix, r.RateKey()), l.now, cfg.conf.windowMs).value <= 1
  {
    hide Bumped;
    var q := sys.agents[i];
    ScriptEnds(cfg, q.r, q.t, q.limit,
               CheckReply(cfg.conf, sys.s.l.now, sys.s.l.db, q.r.ip, q.r.RateKey(), q.limit));
  }

  /** The history of a key only grows. */
  lemma HitsGrow(conf: Conf, l: Ledger, op: Op, key: Word)
    ensures HitsOf(l.hits, key) <= HitsOf(Next(conf, l, op).hits, key)
  {
    if op.Check? && !Banned(l.db, BlKey(conf.prefix, op.ip), l.now) {
      var e := Bumped(l.db, RlKey(conf.prefix, op.key), l.now, conf.windowMs);
    }
  }

  lemma {:induction false} HitsGrowAlong(cfg: Config, sys: Sys, actions: seq<Action>, n: nat, m: nat, key: Word)
    requires n <= m <= |actions|
    ensures HitsOf(StateAt(cfg, sys, actions, n).s.l.hits, key) <= HitsOf(StateAt(cfg, sys, actions, m).s.l.hits, key)
  {
    hide Act;
    hide Next;
    if n < m {
      HitsGrowAlong(cfg, sys, actions, n, m - 1, key);
      StateAtNext(cfg, sys, actions, m - 1);
      var mid := StateAt(cfg, sys, actions, m - 1);
      ActIsOp(cfg, mid, actions[m - 1]);
      if op: Op :| OpOfAction(cfg, mid, actions[m - 1]) == Some(op) {
        HitsGrow(cfg.conf, mid.s.l, op, key);
      }
    }
  }

  lemma RateInvAt(cfg: Config, sys: Sys, actions: seq<Action>, n: nat, key: Word, db: Db, now: int)
    requires cfg.conf.windowMs > 0 && Quiet(db, now) && sys.s.l == Start(db, now) && n <= |actions|
    ensures RateInv(cfg.conf, StateAt(cfg, sys, actions, n).s.l, key)
  {
    RunIsLedgerRun(cfg, sys, actions[..n]);
    RunKeepsRate(cfg.conf, db, now, OpsOf(cfg, sys, actions[..n]), key);
  }

  /** Over every run, two passes under a limit of one for the same key are at least
      a window apart, whoever made them. */
  lemma PassesAreApart(
    cfg: Config, sys: Sys, actions: seq<Action>, db: Db, now: int, n: nat, i: nat, m: nat, j: nat)
    requires cfg.conf.windowMs > 0 && Quiet(db, now) && sys.s.l == Start(db, now)
    requires n < m && PassAt(cfg, sys, actions, n, i) && PassAt(cfg, sys, actions, m, j)
    requires KeyAt(cfg, sys, actions, n, i) == KeyAt(cfg, sys, actions, m, j)
    ensures TimeAt(cfg, sys, actions, n) + cfg.conf.windowMs <= TimeAt(cfg, sys, actions, m)
  {
    hide Act;
    hide AgentAfter;
    hide Fits;
    var key := KeyAt(cfg, sys, actions, n, i);
    RateInvAt(cfg, sys, actions, n, key, db, now);
    RateInvAt(cfg, sys, actions, m, key, db, now);
    RateInvAt(cfg, sys, actions, m + 1, key, db, now);
    PassIsFirstHit(cfg, StateAt(cfg, sys, actions, n), actions[n], i);
    PassIsFirstHit(cfg, StateAt(cfg, sys, actions, m), actions[m], j);
    StateAtNext(cfg, sys, actions, n);
    StateAtNext(cfg, sys, actions, m);
    HitsGrowAlong(cfg, sys, actions, n + 1, m, key);
    HitsGrowAlong(cfg, sys, actions, n + 1, m + 1, key);
    var hits := HitsOf(StateAt(cfg, sys, actions, m + 1).s.l.hits, key);
    var a := |HitsOf(StateAt(cfg, sys, actions, n).s.l.hits, key)|;
    var b := |HitsOf(StateAt(cfg, sys, actions, m).s.l.hits, key)|;
    FirstHitsApart(cfg.conf, StateAt(cfg, sys, actions, m + 1).s.l, key, a, b);
  }

  lemma FirstHitsApart(conf: Conf, l: Ledger, key: Word, a: nat, b: nat)
    requires conf.windowMs > 0 && RateInv(conf, l, key) && a < b < |HitsOf(l.hits, key)|
    requires var hits := HitsOf(l.hits, key); hits[a].counter == 1 && hits[b].counter == 1
    ensures var hits := HitsOf(l.hits, key); hits[a].start + conf.windowMs <= hits[b].start
  {
    var hits := HitsOf(l.hits, key);
    if hits[a].start == hits[b].start {
      LaterHitCountsMore(conf.windowMs, hits, a, b);
    }
  }

  /** Over every run, a check under a limit of one is allowed only as the first of its window. */
  lemma OnePenalisedPerWindow(cfg: Config, sys: Sys, actions: seq<Action>, db: Db, now: int, key: Word, i: nat, j: nat)
    requires cfg.conf.windowMs > 0 && Quiet(db, now) && sys.s.l == Start(db, now)
    ensures var hits := HitsOf(RunSys(cfg, sys, actions).s.l.hits, key);
            i < j < |hits| && hits[i].start == hits[j].start && hits[j].limit <= 1 ==> !hits[j].Allowed()
  {
    RunIsLedgerRun(cfg, sys, actions);
    RunKeepsRate(cfg.conf, db, now, OpsOf(cfg, sys, actions), key);
    var hits := HitsOf(RunSys(cfg, sys, actions).s.l.hits, key);
    if i < j < |hits| && hits[i].start == hits[j].start {
      LaterHitCountsMore(cfg.conf.windowMs, hits, i, j);
    }
  }

  // ---------------------------------------------------------------------
  // Every decision of this kind has its pass
  // ---------------------------------------------------------------------

  /** The agent's end, if it is an allowance by the script under a limit of one, came
      from a pass in the run. */
  ghost predicate HasPass(cfg: Config, sys: Sys, actions: seq<Action>, a: Agent, i: nat) {
    EndSource(a) == Some(LuaAllow) && EndLimit(a) <= 1 ==> exists n: nat :: PassAt(cfg, sys, actions, n, i)
  }

  /** What a job does after its current step never ends as a request does. */
  ghost predicate NoRequest(a: Agent) {
    match a
    case PenaltySet(_, _, after) => EndSource(after) == None && NoRequest(after)
    case PenaltyBox(_, _, after) => EndSource(after) == None && NoRequest(after)
    case CacheShort(_, _, after) => NoRequest(after)
    case BanWrite(_, _, after) => NoRequest(after)
    case BanCache(_, _, after) => NoRequest(after)
    case BloomAdd(_, after) => NoRequest(after)
    case _ => true
  }

  /** Only the script step makes a script allowance. */
  lemma StepSource(cfg: Config, s: Shared, a: Agent, c: Choice)
    requires NoRequest(a)
    ensures var a' := AgentAfter(cfg, s, a, c);
            && NoRequest(a')
            && (EndSource(a').Some? && EndSource(a') == Some(LuaAllow) ==>
                  || (EndSource(a) == Some(LuaAllow) && EndLimit(a) == EndLimit(a'))
                  || (a.ReqScript? && c.redisOk && EndLimit(a') == a.limit))
  {
    hide Bumped;
    hide JudgeReply;
    hide NewDecisionWithTtl;
    hide CheckReply;
    if EndSource(a).Some? {
      EndSourceKept(cfg, s, a, c);
    } else if a.ReqScript? && c.redisOk {
      var reply := CheckReply(cfg.conf, s.l.now, s.l.db, a.r.ip, a.r.RateKey(), a.limit);
      ScriptEnds(cfg, a.r, a.t, a.limit, reply);
      var d := NewDecisionWithTtl(false, Blacklisted, reply.counter, a.limit, a.t, reply.ttl, cfg.conf.windowMs);
      assert NoRequest(AddToBloom(cfg, a.r.ip, Finished(d, RedisBlacklist)));
    } else {
      OtherStepSource(cfg, s, a, c);
    }
  }

  lemma OtherStepSource(cfg: Config, s: Shared, a: Agent, c: Choice)
    requires NoRequest(a) && EndSource(a) == None && !(a.ReqScript? && c.redisOk)
    ensures EndSource(AgentAfter(cfg, s, a, c)) != Some(LuaAllow) && NoRequest(AgentAfter(cfg, s, a, c))
  {
    hide Bumped;
    hide JudgeReply;
    hide NewDecisionWithTtl;
    hide Ttl;
    match a
    case ReqPenalty(r, t, _) => assert EndSource(Forbidden(cfg, t)) == Some(Source.PenaltyForbidden);
    case JobScore(ip, _, _) => assert EndSource(JobAdaptive(ip)) == None;
    case JobAdaptive(_) => assert EndSource(JobDone) == None;
    case _ =>
  }

  lemma PassStays(cfg: Config, sys: Sys, actions: seq<Action>, a: Action, n: nat, i: nat)
    requires PassAt(cfg, sys, actions, n, i)
    ensures PassAt(cfg, sys, actions + [a], n, i)
  {
    assert (actions + [a])[..n] == actions[..n];
  }

  lemma {:induction false} EveryAllowanceHasPass(cfg: Config, sys: Sys, actions: seq<Action>, i: nat)
    requires sys.agents == []
    ensures var agents := RunSys(cfg, sys, actions).agents;
            i < |agents| ==> NoRequest(agents[i]) && HasPass(cfg, sys, actions, agents[i], i)
  {
    hide Act;
    hide AgentAfter;
    hide PassAt;
    if actions != [] {
      var m := |actions| - 1;
      var init, last := actions[..m], actions[m];
      assert actions == init + [last];
      EveryAllowanceHasPass(cfg, sys, init, i);
      var mid := RunSys(cfg, sys, init);
      if n: nat :| PassAt(cfg, sys, init, n, i) {
        PassStays(cfg, sys, init, last, n, i);
      }
      if i >= |mid.agents| {
        NewAgentIsFresh(cfg, mid, last, i);
      } else {
        AgentsPersist(cfg, mid, last, i);
        if last.Go? && last.i == i {
          StepSource(cfg, mid.s, mid.agents[i], last.c);
          PassIfAllowed(cfg, sys, init, last, i);
        }
      }
    }
  }

  lemma NewAgentIsFresh(cfg: Config, sys: Sys, a: Action, i: nat)
    requires i >= |sys.agents|
    ensures var agents := Act(cfg, sys, a).agents;
            i < |agents| ==> NoRequest(agents[i]) && EndSource(agents[i]) == None
  {
  }

  lemma PassIfAllowed(cfg: Config, sys: Sys, actions: seq<Action>, a: Action, i: nat)
    requires a.Go? && a.i == i < |RunSys(cfg, sys, actions).agents|
    ensures var mid := RunSys(cfg, sys, actions);
            var q := mid.agents[i];
            q.ReqScript? && a.c.redisOk && q.limit <= 1 &&
            EndSource(AgentAfter(cfg, mid.s, q, a.c)) == Some(LuaAllow) ==>
              PassAt(cfg, sys, actions + [a], |actions|, i)
  {
    hide AgentAfter;
    hide Act;
    assert (actions + [a])[..|actions|] == actions;
  }

  lemma PassIsOwnStep(cfg: Config, sys: Sys, actions: seq<Action>, n: nat, i: nat)
    requires PassAt(cfg, sys, actions, n, i)
    ensures n < |actions| && actions[n].Go? && actions[n].i == i
  {
  }

  /** Over every run, two requests that the script let through under a limit of one,
      as every penalised request that gets through is, passed at least a window
      apart if they share their rate-limit key. */
  lemma PenalisedRequestsApart(cfg: Config, sys: Sys, actions: seq<Action>, db: Db, now: int, i: nat, j: nat)
    requires cfg.conf.windowMs > 0 && Quiet(db, now) && sys.s.l == Start(db, now) && sys.agents == []
    requires i != j && i < |RunSys(cfg, sys, actions).agents| && j < |RunSys(cfg, sys, actions).agents|
    requires var a := RunSys(cfg, sys, actions).agents;
             && a[i].Finished? && a[i].source == LuaAllow && a[i].d.limit == 1
             && a[j].Finished? && a[j].source == LuaAllow && a[j].d.limit == 1
    ensures exists n: nat, m: nat ::
              && PassAt(cfg, sys, actions, n, i) && PassAt(cfg, sys, actions, m, j)
              && (KeyAt(cfg, sys, actions, n, i) == KeyAt(cfg, sys, actions, m, j) ==>
                    || TimeAt(cfg, sys, actions, n) + cfg.conf.windowMs <= TimeAt(cfg, sys, actions, m)
                    || TimeAt(cfg, sys, actions, m) + cfg.conf.windowMs <= TimeAt(cfg, sys, actions, n))
  {
    hide RunSys;
    hide TimeAt;
    hide Act;
    hide AgentAfter;
    hide PassAt;
    EveryAllowanceHasPass(cfg, sys, actions, i);
    EveryAllowanceHasPass(cfg, sys, actions, j);
    var n: nat :| PassAt(cfg, sys, actions, n, i);
    var m: nat :| PassAt(cfg, sys, actions, m, j);
    PassIsOwnStep(cfg, sys, actions, n, i);
    PassIsOwnStep(cfg, sys, actions, m, j);
    if KeyAt(cfg, sys, actions, n, i) == KeyAt(cfg, sys, actions, m, j) {
      if n < m {
        PassesAreApart(cfg, sys, actions, db, now, n, i, m, j);
      } else {
        PassesAreApart(cfg, sys, actions, db, now, m, j, n, i);
      }
    }
  }
}
