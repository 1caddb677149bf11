/** One agent of the protocol run to its end without interference. */
module Solo {
  import opened Words
  import opened Protocol
  import opened Decisions
  import Store
  import Ledger

  /** Which Redis calls of the agent are answered. */
  datatype Answers = Answers(pttlOk: bool, banOk: bool, scriptOk: bool, penaltyOk: bool, threatOk: bool)

  /** The same, and whether the Bloom filter reports the address. */
  datatype Env = Env(a: Answers, hit: bool)

  function ChoiceFor(env: Env, a: Agent): Choice {
    match a
    case ReqPttl(_, _, _) => Choice(env.a.pttlOk, env.hit)
    case BanWrite(_, _, _) => Choice(env.a.banOk, env.hit)
    case ReqScript(_, _, _) => Choice(env.a.scriptOk, env.hit)
    case JobScore(_, _, _) => Choice(env.a.scriptOk, env.hit)
    case PenaltySet(_, _, _) => Choice(env.a.penaltyOk, env.hit)
    case JobAdaptive(_) => Choice(env.a.threatOk, env.hit)
    case _ => Choice(true, env.hit)
  }

  function Rank(a: Agent): nat {
    match a
    case ReqCache(_, _, _) => 10
    case ReqPbox(_, _, _) => 9
    case ReqPttl(_, _, _) => 8
    case ReqPboxWrite(_, _, _, _) => 7
    case ReqPenalty(_, _, _) => 6
    case ReqBloom(_, _, _) => 5
    case ReqScript(_, _, _) => 4
    case CacheShort(_, _, after) => 1 + Rank(after)
    case BanWrite(_, _, after) => 3 + Rank(after)
    case BanCache(_, _, after) => 2 + Rank(after)
    case BloomAdd(_, after) => 1 + Rank(after)
    case JobScore(_, _, _) => 8
    case PenaltySet(_, _, after) => 2 + Rank(after)
    case PenaltyBox(_, _, after) => 1 + Rank(after)
    case JobAdaptive(_) => 4
    case Finished(_, _) => 0
    case JobDone => 0
  }

  predicate Final(a: Agent) {
    a.Finished? || a.JobDone?
  }

  /** Every step of the protocol brings its agent closer to the end. */
  lemma StepsEnd(cfg: Config, s: Shared, a: Agent, c: Choice)
    requires !Final(a)
    ensures Rank(AgentAfter(cfg, s, a, c)) < Rank(a)
  {
    hide NewDecisionWithTtl;
    hide Store.Bumped;
    hide Ledger.JudgeReply;
    hide Ledger.CheckReply;
    hide Store.Ttl;
    if a.ReqScript? && c.redisOk {
      var reply := Ledger.CheckReply(cfg.conf, s.l.now, s.l.db, a.r.ip, a.r.RateKey(), a.limit);
      var d := NewDecisionWithTtl(
        false, Blacklisted, reply.counter, a.limit, a.t, reply.ttl, cfg.conf.windowMs);
      assert Rank(AddToBloom(cfg, a.r.ip, Finished(d, RedisBlacklist))) <= 1;
    }
  }

  function ToEnd(cfg: Config, s: Shared, a: Agent, env: Env): (r: (Shared, Agent))
    ensures Final(r.1)
    decreases Rank(a)
  {
    if Final(a) then (s, a)
    else
      var c := ChoiceFor(env, a);
      StepsEnd(cfg, s, a, c);
      ToEnd(cfg, SharedAfter(cfg, s, a, c), AgentAfter(cfg, s, a, c), env)
  }

  /** Running to the end is one possible schedule of the whole system: nobody else
      moves in between. */
  lemma {:induction false} ToEndIsRun(cfg: Config, sys: Sys, i: nat, env: Env) returns (actions: seq<Action>)
    requires i < |sys.agents|
    ensures RunSys(cfg, sys, actions) ==
            Sys(ToEnd(cfg, sys.s, sys.agents[i], env).0,
                sys.agents[i := ToEnd(cfg, sys.s, sys.agents[i], env).1])
    ensures forall n :: 0 <= n < |actions| ==> actions[n].Go? && actions[n].i == i
    decreases Rank(sys.agents[i])
  {
    if Final(sys.agents[i]) {
      actions := [];
      assert sys.agents[i := sys.agents[i]] == sys.agents;
    } else {
      var c := ChoiceFor(env, sys.agents[i]);
      StepsEnd(cfg, sys.s, sys.agents[i], c);
      var next := Act(cfg, sys, Go(i, c));
      var rest := ToEndIsRun(cfg, next, i, env);
      actions := [Go(i, c)] + rest;
      RunConcat(cfg, sys, [Go(i, c)], rest);
      assert [Go(i, c)][..0] == [];
      assert next.agents[i := ToEnd(cfg, next.s, next.agents[i], env).1] ==
             sys.agents[i := ToEnd(cfg, next.s, next.agents[i], env).1];
    }
  }

  // ---------------------------------------------------------------------
  // The stretches of a request's run
  // ---------------------------------------------------------------------

  lemma Unfold(cfg: Config, s: Shared, a: Agent, env: Env)
    requires !Final(a)
    ensures ToEnd(cfg, s, a, env) ==
            ToEnd(cfg, SharedAfter(cfg, s, a, ChoiceFor(env, a)), AgentAfter(cfg, s, a, ChoiceFor(env, a)), env)
  {
  }

  lemma FromCache(cfg: Config, s: Shared, r: Request, t: int, limit: int, env: Env)
    ensures ToEnd(cfg, s, ReqCache(r, t, limit), env) ==
            if r.ip == [] then ToEnd(cfg, s, ReqScript(r, t, limit), env)
            else
              var looked := s.(cache := AfterLookup(s.cache, r.ip, t));
              if CacheHit(s.cache, r.ip, t) then (looked, Deny(cfg, Blacklisted, limit, t, CacheBlacklist))
              else ToEnd(cfg, looked, ReqPbox(r, t, limit), env)
  {
    Unfold(cfg, s, ReqCache(r, t, limit), env);
  }

  lemma FromPbox(cfg: Config, s: Shared, r: Request, t: int, limit: int, env: Env)
    ensures var looked := s.(pbox := AfterLookup(s.pbox, r.ip, t));
            var live := Store.Ttl(s.l.db.strings, Store.PboxKey(cfg.conf.prefix, r.ip), s.l.now);
            ToEnd(cfg, s, ReqPbox(r, t, limit), env) ==
            if CacheHit(s.pbox, r.ip, t) then ToEnd(cfg, looked, ReqPenalty(r, t, limit), env)
            else if !env.a.pttlOk || live <= 0 then ToEnd(cfg, looked, ReqBloom(r, t, limit), env)
            else ToEnd(cfg, looked.(pbox := looked.pbox[r.ip := t + live]), ReqPenalty(r, t, limit), env)
  {
    var looked := s.(pbox := AfterLookup(s.pbox, r.ip, t));
    var live := Store.Ttl(s.l.db.strings, Store.PboxKey(cfg.conf.prefix, r.ip), s.l.now);
    Unfold(cfg, s, ReqPbox(r, t, limit), env);
    if !CacheHit(s.pbox, r.ip, t) {
      Unfold(cfg, looked, ReqPttl(r, t, limit), env);
      if env.a.pttlOk && live > 0 {
        Unfold(cfg, looked, ReqPboxWrite(r, t, limit, live), env);
      }
    }
  }

  /** What a completed ban leaves behind. */
  function BannedShared(cfg: Config, s: Shared, ip: Word, ttl: int): Shared {
    Shared(Ledger.Next(cfg.conf, s.l, Ledger.Ban(ip, ttl)),
           s.cache[ip := s.l.now + ttl],
           s.pbox,
           if cfg.bloom && ip != [] then s.added + {ip} else s.added)
  }

  lemma FromPenalty(cfg: Config, s: Shared, r: Request, t: int, limit: int, env: Env)
    requires r.ip != []
    ensures ToEnd(cfg, s, ReqPenalty(r, t, limit), env) ==
            if PassesPenaltyChecks(cfg, r) then ToEnd(cfg, s, ReqBloom(r, t, MinLimit(limit)), env)
            else if env.a.banOk then (BannedShared(cfg, s, r.ip, FailedCheckTtl(cfg)), Forbidden(cfg, t))
            else (s, Forbidden(cfg, t))
  {
    Unfold(cfg, s, ReqPenalty(r, t, limit), env);
    if !PassesPenaltyChecks(cfg, r) {
      FromBan(cfg, s, r.ip, FailedCheckTtl(cfg), Forbidden(cfg, t), env);
    }
  }

  lemma FromBan(cfg: Config, s: Shared, ip: Word, ttl: int, after: Agent, env: Env)
    requires ip != [] && Final(after)
    ensures ToEnd(cfg, s, BanWrite(ip, ttl, after), env) ==
            if env.a.banOk then (BannedShared(cfg, s, ip, ttl), after) else (s, after)
  {
    Unfold(cfg, s, BanWrite(ip, ttl, after), env);
    if env.a.banOk {
      var s1 := s.(l := Ledger.Next(cfg.conf, s.l, Ledger.Ban(ip, ttl)));
      Unfold(cfg, s1, BanCache(ip, ttl, after), env);
      if cfg.bloom {
        Unfold(cfg, s1.(cache := s.cache[ip := s.l.now + ttl]), BloomAdd(ip, after), env);
      }
    }
  }

  lemma FromBloom(cfg: Config, s: Shared, r: Request, t: int, limit: int, env: Env)
    ensures ToEnd(cfg, s, ReqBloom(r, t, limit), env) ==
            if cfg.bloom && !(r.ip in s.added || env.hit)
            then (s, Allow(cfg, Allowed, limit, t, BloomNegative))
            else ToEnd(cfg, s, ReqScript(r, t, limit), env)
  {
    Unfold(cfg, s, ReqBloom(r, t, limit), env);
  }

  lemma FromScript(cfg: Config, s: Shared, r: Request, t: int, limit: int, env: Env)
    ensures var w := cfg.conf.windowMs;
            var reply := Ledger.CheckReply(cfg.conf, s.l.now, s.l.db, r.ip, r.RateKey(), limit);
            var l := Ledger.Next(cfg.conf, s.l, Ledger.Check(r.ip, r.RateKey(), limit));
            ToEnd(cfg, s, ReqScript(r, t, limit), env) ==
            if !env.a.scriptOk then
              (s, if cfg.failOpen then Allow(cfg, FailOpen, limit, t, FailOpenAllow)
                  else Deny(cfg, RedisError, limit, t, RedisFailure))
            else if reply.code == 2 then
              (Shared(l, s.cache[r.ip := t + SHORT_MS], s.pbox,
                      if cfg.bloom && r.ip != [] then s.added + {r.ip} else s.added),
               Finished(NewDecisionWithTtl(false, Blacklisted, reply.counter, limit, t, reply.ttl, w), RedisBlacklist))
            else if reply.code == 1 then
              (s.(l := l),
               Finished(NewDecisionWithTtl(false, RateLimited, reply.counter, limit, t, reply.ttl, w), RateLimit))
            else
              (s.(l := l),
               Finished(NewDecisionWithTtl(true, Allowed, reply.counter, limit, t, reply.ttl, w), LuaAllow))
  {
    var a := ReqScript(r, t, limit);
    Unfold(cfg, s, a, env);
    var c := ChoiceFor(env, a);
    var s1 := SharedAfter(cfg, s, a, c);
    var a1 := AgentAfter(cfg, s, a, c);
    if a1.CacheShort? {
      Unfold(cfg, s1, a1, env);
      if a1.after.BloomAdd? {
        Unfold(cfg, s1.(cache := s.cache[r.ip := t + SHORT_MS]), a1.after, env);
      }
    }
  }

  // ---------------------------------------------------------------------
  // The stretches of a background job's run
  // ---------------------------------------------------------------------

  lemma FromScore(cfg: Config, s: Shared, ip: Word, field: Word, score: real, env: Env)
    ensures var reply := Ledger.JudgeReply(cfg.conf, s.l.now, s.l.db, ip, field, score);
            var judged := s.(l := Ledger.Next(cfg.conf, s.l, Ledger.Judge(ip, field, score)));
            ToEnd(cfg, s, JobScore(ip, field, score), env) ==
            if score <= 0.0 || ip == [] then (s, JobDone)
            else if !cfg.reputation then
              ToEnd(cfg, s, if score >= cfg.scoreThreshold then PenaltySet(ip, cfg.penaltyTtl, JobAdaptive(ip))
                            else JobAdaptive(ip), env)
            else if !env.a.scriptOk then ToEnd(cfg, s, JobAdaptive(ip), env)
            else if reply.action == 1 then
              ToEnd(cfg, judged, PenaltySet(ip, cfg.conf.rep.penaltyTtl, JobAdaptive(ip)), env)
            else if reply.action == 2 then
              ToEnd(cfg, judged.(cache := s.cache[ip := s.l.now + reply.banTtl],
                                 added := if cfg.bloom then s.added + {ip} else s.added), JobAdaptive(ip), env)
            else ToEnd(cfg, judged, JobAdaptive(ip), env)
  {
    hide Ledger.JudgeReply;
    hide Ledger.Next;
    hide Store.Bumped;
    hide NewDecisionWithTtl;
    Unfold(cfg, s, JobScore(ip, field, score), env);
    var reply := Ledger.JudgeReply(cfg.conf, s.l.now, s.l.db, ip, field, score);
    var judged := s.(l := Ledger.Next(cfg.conf, s.l, Ledger.Judge(ip, field, score)));
    if score > 0.0 && ip != [] && cfg.reputation && env.a.scriptOk && reply.action == 2 {
      JudgeKeepsTime(cfg, s, ip, field, score);
      Unfold(cfg, judged, BanCache(ip, reply.banTtl, JobAdaptive(ip)), env);
      if cfg.bloom {
        Unfold(cfg, judged.(cache := s.cache[ip := s.l.now + reply.banTtl]), BloomAdd(ip, JobAdaptive(ip)), env);
      }
    }
  }

  lemma JudgeKeepsTime(cfg: Config, s: Shared, ip: Word, field: Word, score: real)
    ensures Ledger.Next(cfg.conf, s.l, Ledger.Judge(ip, field, score)).now == s.l.now
  {
  }

  lemma FromPenaltySet(cfg: Config, s: Shared, ip: Word, ttl: int, env: Env)
    requires ip != []
    ensures ToEnd(cfg, s, PenaltySet(ip, ttl, JobAdaptive(ip)), env) ==
            ToEnd(cfg,
                  if env.a.penaltyOk
                  then s.(l := Ledger.Next(cfg.conf, s.l, Ledger.Penalise(ip, ttl)), pbox := s.pbox[ip := s.l.now + ttl])
                  else s,
                  JobAdaptive(ip), env)
  {
    Unfold(cfg, s, PenaltySet(ip, ttl, JobAdaptive(ip)), env);
    if env.a.penaltyOk {
      Unfold(cfg, s.(l := Ledger.Next(cfg.conf, s.l, Ledger.Penalise(ip, ttl))), PenaltyBox(ip, ttl, JobAdaptive(ip)), env);
    }
  }

  lemma FromAdaptive(cfg: Config, s: Shared, ip: Word, env: Env)
    requires ip != []
    ensures var count := Store.Bumped(s.l.db, Store.ThreatKey(cfg.conf.prefix, ip), s.l.now, cfg.conf.threatWindow).value;
            var counted := s.(l := Ledger.Next(cfg.conf, s.l, Ledger.Threat(ip)));
            ToEnd(cfg, s, JobAdaptive(ip), env) ==
            if !cfg.adaptive || !env.a.threatOk then (s, JobDone)
            else if count < cfg.threatThreshold || !env.a.banOk then (counted, JobDone)
            else (BannedShared(cfg, counted, ip, cfg.adaptiveBanTtl), JobDone)
  {
    Unfold(cfg, s, JobAdaptive(ip), env);
    var count := Store.Bumped(s.l.db, Store.ThreatKey(cfg.conf.prefix, ip), s.l.now, cfg.conf.threatWindow).value;
    if cfg.adaptive && env.a.threatOk && count >= cfg.threatThreshold {
      FromBan(cfg, s.(l := Ledger.Next(cfg.conf, s.l, Ledger.Threat(ip))), ip, cfg.adaptiveBanTtl, JobDone, env);
    }
  }
}
