/** The numbers in a decision, over every interleaving. */
module Accounting {
  import opened Words
  import opened Wrappers
  import opened Store
  import opened Ledger
  import opened Decisions
  import opened Protocol

  /** Stored counts are positive: they come from INCR. */
  ghost predicate CountsPositive(db: Db) {
    forall k :: k in db.ints ==> db.ints[k].value >= 1
  }

  /** Counter, limit, remaining and status agree with the answer that was given. */
  ghost predicate AddsUp(d: Decision, source: Source) {
    && 1 <= d.limit && 0 <= d.remaining <= d.limit
    && (source == LuaAllow ==> d.allowed && d.counter >= 1 && d.counter + d.remaining == d.limit)
    && (source == RateLimit ==> !d.allowed && d.counter > d.limit && d.remaining == 0)
    && (source == RedisBlacklist ==> !d.allowed && d.counter == 0 && d.remaining == d.limit)
    && (d.allowed <==> source in {LuaAllow, BloomNegative, FailOpenAllow})
    && (forall default: int :: d.StatusCodeOr(default) ==
          if source == Source.PenaltyForbidden then 403 else if default != 0 then default else 429)
  }

  ghost predicate AgentAddsUp(a: Agent) {
    match a
    case ReqCache(_, _, limit) => limit >= 1
    case ReqPbox(_, _, limit) => limit >= 1
    case ReqPttl(_, _, limit) => limit >= 1
    case ReqPboxWrite(_, _, limit, _) => limit >= 1
    case ReqPenalty(_, _, limit) => limit >= 1
    case ReqBloom(_, _, limit) => limit >= 1
    case ReqScript(_, _, limit) => limit >= 1
    case CacheShort(_, _, after) => AgentAddsUp(after)
    case BanWrite(_, _, after) => AgentAddsUp(after)
    case BanCache(_, _, after) => AgentAddsUp(after)
    case BloomAdd(_, after) => AgentAddsUp(after)
    case PenaltySet(_, _, after) => AgentAddsUp(after)
    case PenaltyBox(_, _, after) => AgentAddsUp(after)
    case Finished(d, source) => AddsUp(d, source)
    case _ => true
  }

  ghost predicate AllAddUp(sys: Sys) {
    CountsPositive(sys.s.l.db) && forall i :: 0 <= i < |sys.agents| ==> AgentAddsUp(sys.agents[i])
  }

  lemma OpKeepsCounts(conf: Conf, l: Ledger, op: Op)
    requires CountsPositive(l.db)
    ensures CountsPositive(Next(conf, l, op).db)
  {
    hide Reputation;
    hide Marked;
  }

  lemma ScriptAddsUp(cfg: Config, s: Shared, r: Request, t: int, limit: int)
    requires CountsPositive(s.l.db) && limit >= 1
    ensures AgentAddsUp(AfterScript(cfg, r, t, limit, CheckReply(cfg.conf, s.l.now, s.l.db, r.ip, r.RateKey(), limit)))
  {
    var reply := CheckReply(cfg.conf, s.l.now, s.l.db, r.ip, r.RateKey(), limit);
    if reply.code == 2 {
      var d := NewDecisionWithTtl(false, Blacklisted, reply.counter, limit, t, reply.ttl, cfg.conf.windowMs);
      assert AgentAddsUp(AddToBloom(cfg, r.ip, Finished(d, RedisBlacklist)));
    }
  }

  lemma StepAddsUp(cfg: Config, s: Shared, a: Agent, c: Choice)
    requires CountsPositive(s.l.db) && AgentAddsUp(a)
    ensures AgentAddsUp(AgentAfter(cfg, s, a, c))
  {
    hide CheckReply;
    hide JudgeReply;
    hide Bumped;
    hide CountsPositive;
    hide NewDecisionWithTtl;
    if a.ReqScript? {
      ScriptAddsUp(cfg, s, a.r, a.t, a.limit);
    }
  }

  ghost predicate LimitsPositive(actions: seq<Action>) {
    forall n :: 0 <= n < |actions| && actions[n].Arrive? ==> actions[n].limit >= 1
  }

  lemma ActAddsUp(cfg: Config, sys: Sys, a: Action)
    requires AllAddUp(sys) && (a.Arrive? ==> a.limit >= 1)
    ensures AllAddUp(Act(cfg, sys, a))
  {
    hide AgentAfter;
    hide Next;
    hide CountsPositive;
    match a
    case Go(i, c) =>
      if i < |sys.agents| {
        var op := RedisOp(cfg, sys.agents[i], c);
        StepAddsUp(cfg, sys.s, sys.agents[i], c);
        if op.Some? {
          OpKeepsCounts(cfg.conf, sys.s.l, op.value);
        }
      }
    case Tick(d) => OpKeepsCounts(cfg.conf, sys.s.l, Wait(d));
    case Foreign(op) => OpKeepsCounts(cfg.conf, sys.s.l, op);
    case _ =>
  }

  /** In every run every decision adds up. */
  lemma {:induction false} DecisionsAddUp(cfg: Config, sys: Sys, actions: seq<Action>)
    requires AllAddUp(sys) && LimitsPositive(actions)
    ensures AllAddUp(RunSys(cfg, sys, actions))
  {
    hide AllAddUp;
    hide Act;
    if actions != [] {
      var n := |actions| - 1;
      DecisionsAddUp(cfg, sys, actions[..n]);
      ActAddsUp(cfg, RunSys(cfg, sys, actions[..n]), actions[n]);
    }
  }
}
