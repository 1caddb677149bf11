/** From the score of one request to the answer to the next one. */
module EndToEnd {
  import opened Words
  import opened Wrappers
  import opened Store
  import opened Ledger
  import opened Protocol
  import opened Solo
  import Decisions
  import opened Enforcement

  /** The score reaches the reputation script. */
  predicate Counted(cfg: Config, ip: Word, score: real, env: Env) {
    cfg.reputation && env.a.scriptOk && ip != [] && score > 0.0
  }

  /** The stored score with this one added. */
  function NewScore(cfg: Config, s: Shared, field: Word, score: real): real {
    Score(s.l.db, RepKey(cfg.conf.prefix), field, s.l.now) + score
  }

  predicate BanTtlsPositive(cfg: Config) {
    var rep := cfg.conf.rep;
    rep.ban1 > 0 && rep.ban2 > 0 && rep.ban3 > 0 && cfg.adaptiveBanTtl > 0
  }

  predicate BannedAt(cfg: Config, s: Shared, ip: Word) {
    Banned(s.l.db, BlKey(cfg.conf.prefix, ip), s.l.now)
  }

  lemma JudgeBans(cfg: Config, s: Shared, ip: Word, field: Word, score: real)
    requires BanTtlsPositive(cfg)
    ensures var l' := Next(cfg.conf, s.l, Judge(ip, field, score));
            var reply := JudgeReply(cfg.conf, s.l.now, s.l.db, ip, field, score);
            && l'.now == s.l.now
            && (reply.action == 2 <==> NewScore(cfg, s, field, score) >= cfg.conf.rep.threshold)
            && (reply.action == 2 ==> reply.banTtl > 0)
            && (Banned(l'.db, BlKey(cfg.conf.prefix, ip), l'.now) <==> BannedAt(cfg, s, ip) || reply.action == 2)
  {
  }

  lemma OthersKeepBan(cfg: Config, l: Ledger, ip: Word, ttl: int)
    ensures var k := BlKey(cfg.conf.prefix, ip);
            var b := Next(cfg.conf, l, Ban(ip, ttl));
            var t := Next(cfg.conf, l, Threat(ip));
            var p := Next(cfg.conf, l, Penalise(ip, ttl));
            && b.now == l.now && (ttl > 0 ==> Banned(b.db, k, b.now))
            && t.now == l.now && t.db.sets == l.db.sets
            && p.now == l.now && p.db.sets == l.db.sets
            && (Banned(p.db, k, p.now) <==> Banned(l.db, k, l.now))
            && (forall e :: BanLasts(cfg.conf, t, ip, e) <==> BanLasts(cfg.conf, l, ip, e))
  {
  }

  /** A job's last stage never lifts a ban, and without adaptive banning never places one. */
  lemma AdaptiveKeepsBan(cfg: Config, s: Shared, ip: Word, env: Env)
    requires BanTtlsPositive(cfg) && ip != []
    ensures var s' := ToEnd(cfg, s, JobAdaptive(ip), env).0;
            && (BannedAt(cfg, s, ip) ==> BannedAt(cfg, s', ip))
            && (BannedAt(cfg, s', ip) && !cfg.adaptive ==> BannedAt(cfg, s, ip))
            && (ip in s.added ==> ip in s'.added)
            && (CacheHit(s.cache, ip, s.l.now) ==> CacheHit(s'.cache, ip, s'.l.now))
  {
    hide ToEnd;
    hide Next;
    hide Bumped;
    FromAdaptive(cfg, s, ip, env);
    OthersKeepBan(cfg, s.l, ip, cfg.adaptiveBanTtl);
    OthersKeepBan(cfg, Next(cfg.conf, s.l, Threat(ip)), ip, cfg.adaptiveBanTtl);
  }

  /** A counted score bans its address exactly when the stored score reaches the
      threshold, and then the local cache and the Bloom filter know the ban too. */
  lemma ScoreBansIff(cfg: Config, s: Shared, ip: Word, field: Word, score: real, env: Env)
    requires BanTtlsPositive(cfg) && Counted(cfg, ip, score, env)
    ensures var s' := ToEnd(cfg, s, JobScore(ip, field, score), env).0;
            && (NewScore(cfg, s, field, score) >= cfg.conf.rep.threshold ==>
                  && BannedAt(cfg, s', ip)
                  && CacheHit(s'.cache, ip, s'.l.now)
                  && (cfg.bloom ==> ip in s'.added))
            && (!cfg.adaptive && !BannedAt(cfg, s, ip) && BannedAt(cfg, s', ip) ==>
                  NewScore(cfg, s, field, score) >= cfg.conf.rep.threshold)
  {
    hide ToEnd;
    hide Next;
    hide JudgeReply;
    hide Banned;
    hide NewScore;
    FromScore(cfg, s, ip, field, score, env);
    JudgeBans(cfg, s, ip, field, score);
    var reply := JudgeReply(cfg.conf, s.l.now, s.l.db, ip, field, score);
    var judged := s.(l := Next(cfg.conf, s.l, Judge(ip, field, score)));
    if reply.action == 2 {
      AdaptiveKeepsBan(cfg, judged.(cache := s.cache[ip := s.l.now + reply.banTtl],
                                    added := if cfg.bloom then s.added + {ip} else s.added), ip, env);
    } else if reply.action == 1 {
      var ttl := cfg.conf.rep.penaltyTtl;
      FromPenaltySet(cfg, judged, ip, ttl, env);
      OthersKeepBan(cfg, judged.l, ip, ttl);
      var penalised := if env.a.penaltyOk
                       then judged.(l := Next(cfg.conf, judged.l, Penalise(ip, ttl)),
                                    pbox := s.pbox[ip := judged.l.now + ttl])
                       else judged;
      AdaptiveKeepsBan(cfg, penalised, ip, env);
    } else {
      AdaptiveKeepsBan(cfg, judged, ip, env);
    }
  }

  // ---------------------------------------------------------------------
  // Exactly when a banned address gets through
  // ---------------------------------------------------------------------

  /** The request is treated as penalised. */
  predicate InPenalty(cfg: Config, s: Shared, r: Request, env: Env) {
    CacheHit(s.pbox, r.ip, s.l.now) ||
    (env.a.pttlOk && Ttl(s.l.db.strings, PboxKey(cfg.conf.prefix, r.ip), s.l.now) > 0)
  }

  /** The filter is on and does not report the address. */
  predicate Unreported(cfg: Config, s: Shared, r: Request, env: Env) {
    cfg.bloom && !(r.ip in s.added || env.hit)
  }

  /** In every state with the address banned in Redis, its request is let through
      exactly when the local cache does not know the ban, no penalty check fails,
      and either the filter does not report the address or the script goes
      unanswered under FailOpen. */
  lemma BannedGetsThroughIff(cfg: Config, s: Shared, r: Request, limit: int, env: Env)
    requires BannedAt(cfg, s, r.ip) && r.ip != []
    ensures var end := ToEnd(cfg, s, ReqCache(r, s.l.now, limit), env).1;
            && end.Finished?
            && (end.d.allowed <==>
                  && !CacheHit(s.cache, r.ip, s.l.now)
                  && (InPenalty(cfg, s, r, env) ==>
                        !(cfg.requireUserAgent && !r.userAgent) && !(cfg.requireReferer && !r.referer))
                  && (Unreported(cfg, s, r, env) || (!env.a.scriptOk && cfg.failOpen)))
  {
    hide ToEnd;
    hide Next;
    hide Ttl;
    hide AfterLookup;
    hide Unreported;
    var t := s.l.now;
    FromCache(cfg, s, r, t, limit, env);
    if !CacheHit(s.cache, r.ip, t) {
      var s1 := s.(cache := AfterLookup(s.cache, r.ip, t));
      FromPbox(cfg, s1, r, t, limit, env);
      var s2 := s1.(pbox := AfterLookup(s1.pbox, r.ip, t));
      var live := Ttl(s.l.db.strings, PboxKey(cfg.conf.prefix, r.ip), s.l.now);
      var s3 := s2.(pbox := s2.pbox[r.ip := t + live]);
      FromPenalty(cfg, s2, r, t, limit, env);
      FromPenalty(cfg, s3, r, t, limit, env);
      BloomStageOfBanned(cfg, s, s2, r, t, limit, env);
      BloomStageOfBanned(cfg, s, s2, r, t, MinLimit(limit), env);
      BloomStageOfBanned(cfg, s, s3, r, t, MinLimit(limit), env);
    }
  }

  lemma BloomStageOfBanned(cfg: Config, s: Shared, s': Shared, r: Request, t: int, limit: int, env: Env)
    requires BannedAt(cfg, s, r.ip) && s'.l == s.l && s'.added == s.added
    ensures var end := ToEnd(cfg, s', ReqBloom(r, t, limit), env).1;
            && end.Finished?
            && (end.d.allowed <==> Unreported(cfg, s, r, env) || (!env.a.scriptOk && cfg.failOpen))
  {
    hide ToEnd;
    hide Next;
    FromBloom(cfg, s', r, t, limit, env);
    FromScript(cfg, s', r, t, limit, env);
  }

  /** A banned address that the Bloom filter reports is denied when the script answers. */
  lemma BannedIsDenied(cfg: Config, s: Shared, r: Request, limit: int, env: Env)
    requires BannedAt(cfg, s, r.ip) && r.ip != [] && env.a.scriptOk
    requires cfg.bloom ==> r.ip in s.added || env.hit
    ensures var end := ToEnd(cfg, s, ReqCache(r, s.l.now, limit), env).1;
            end.Finished? && !end.d.allowed
  {
    BannedGetsThroughIff(cfg, s, r, limit, env);
  }

  // ---------------------------------------------------------------------
  // An offender's later requests
  // ---------------------------------------------------------------------

  /** How long the ban is that a finished job leaves behind: the last write counts. */
  function JobBanTtl(cfg: Config, s: Shared, ip: Word, field: Word, score: real, env: Env): int {
    var l := Next(cfg.conf, s.l, Judge(ip, field, score));
    var threats := Bumped(l.db, ThreatKey(cfg.conf.prefix, ip), l.now, cfg.conf.threatWindow).value;
    if cfg.adaptive && env.a.threatOk && threats >= cfg.threatThreshold && env.a.banOk then cfg.adaptiveBanTtl
    else JudgeReply(cfg.conf, s.l.now, s.l.db, ip, field, score).banTtl
  }

  lemma JobBanLastsIff(cfg: Config, s: Shared, ip: Word, field: Word, score: real, env: Env, e: int)
    requires Counted(cfg, ip, score, env) && NewScore(cfg, s, field, score) >= cfg.conf.rep.threshold
    requires BanTtlsPositive(cfg)
    ensures BanLasts(cfg.conf, ToEnd(cfg, s, JobScore(ip, field, score), env).0.l, ip, e) <==>
            e <= s.l.now + JobBanTtl(cfg, s, ip, field, score, env)
  {
    hide ToEnd;
    hide Next;
    hide JudgeReply;
    hide BanLasts;
    hide NewScore;
    hide Bumped;
    FromScore(cfg, s, ip, field, score, env);
    JudgeBans(cfg, s, ip, field, score);
    var l := Next(cfg.conf, s.l, Judge(ip, field, score));
    var reply := JudgeReply(cfg.conf, s.l.now, s.l.db, ip, field, score);
    NewBanReplaces(cfg.conf, s.l, Judge(ip, field, score), ip, e);
    var s1 := Shared(l, s.cache[ip := s.l.now + reply.banTtl], s.pbox,
                     if cfg.bloom then s.added + {ip} else s.added);
    FromAdaptive(cfg, s1, ip, env);
    OthersKeepBan(cfg, l, ip, cfg.adaptiveBanTtl);
    var counted := Next(cfg.conf, l, Threat(ip));
    NewBanReplaces(cfg.conf, counted, Ban(ip, cfg.adaptiveBanTtl), ip, e);
  }

  /** An offender stays out. From the end of a job that lifted the address over the
      threshold, over every run in which nobody shortens the ban and the clock stays
      below its end, every request of the address is denied, whatever the caches
      evict and whatever else runs in between. */
  lemma OffenderIsDenied(
    cfg: Config, sys: Sys, j: nat, field: Word, score: real, env: Env,
    before: seq<Action>, r: Request, limit: int, during: seq<Action>)
    requires j < |sys.agents| && sys.agents[j] == JobScore(r.ip, field, score)
    requires BanTtlsPositive(cfg) && Counted(cfg, r.ip, score, env)
    requires NewScore(cfg, sys.s, field, score) >= cfg.conf.rep.threshold
    requires var end := ToEnd(cfg, sys.s, sys.agents[j], env);
             var done := Sys(end.0, sys.agents[j := end.1]);
             var e := sys.s.l.now + JobBanTtl(cfg, sys.s, r.ip, field, score, env);
             && NoShorterBan(cfg, done, before + [Arrive(r, limit)] + during, r.ip, e)
             && RunSys(cfg, done, before + [Arrive(r, limit)] + during).s.l.now < e
    ensures var end := ToEnd(cfg, sys.s, sys.agents[j], env);
            var done := Sys(end.0, sys.agents[j := end.1]);
            var i := |RunSys(cfg, done, before).agents|;
            var a := RunSys(cfg, done, before + [Arrive(r, limit)] + during).agents;
            i < |a| &&
            (a[i].Finished? ==>
               && (!a[i].d.allowed || a[i].d.reason == Decisions.FailOpen)
               && (Answered(during, i) ==> !a[i].d.allowed))
  {
    hide ToEnd;
    hide Banned;
    hide NewScore;
    hide JobBanTtl;
    hide NoShorterBan;
    hide BanLasts;
    hide RunSys;
    hide Answered;
    var end := ToEnd(cfg, sys.s, sys.agents[j], env);
    var done := Sys(end.0, sys.agents[j := end.1]);
    var e := sys.s.l.now + JobBanTtl(cfg, sys.s, r.ip, field, score, env);
    ScoreBansIff(cfg, sys.s, r.ip, field, score, env);
    JobBanLastsIff(cfg, sys.s, r.ip, field, score, env, e);
    ProtectedRun(cfg, done, before, r.ip);
    BanHolds(cfg, done, before, r, limit, during, e);
  }

  /** The same from the script call itself, with the rest of the job interleaved in
      any way: requests that arrive when the filter, if on, knows the address. */
  lemma OffenderIsDeniedMidJob(
    cfg: Config, sys: Sys, j: nat, c: Choice, field: Word, score: real,
    before: seq<Action>, r: Request, limit: int, during: seq<Action>)
    requires j < |sys.agents| && sys.agents[j] == JobScore(r.ip, field, score)
    requires BanTtlsPositive(cfg) && cfg.reputation && c.redisOk && r.ip != [] && score > 0.0
    requires NewScore(cfg, sys.s, field, score) >= cfg.conf.rep.threshold
    requires var begun := Act(cfg, sys, Go(j, c));
             var e := sys.s.l.now + JudgeReply(cfg.conf, sys.s.l.now, sys.s.l.db, r.ip, field, score).banTtl;
             && NoShorterBan(cfg, begun, before + [Arrive(r, limit)] + during, r.ip, e)
             && RunSys(cfg, begun, before + [Arrive(r, limit)] + during).s.l.now < e
             && Protected(cfg, RunSys(cfg, begun, before).s, r.ip)
    ensures var begun := Act(cfg, sys, Go(j, c));
            var i := |RunSys(cfg, begun, before).agents|;
            var a := RunSys(cfg, begun, before + [Arrive(r, limit)] + during).agents;
            i < |a| &&
            (a[i].Finished? ==>
               && (!a[i].d.allowed || a[i].d.reason == Decisions.FailOpen)
               && (Answered(during, i) ==> !a[i].d.allowed))
  {
    hide NewScore;
    hide JudgeReply;
    hide NoShorterBan;
    hide BanLasts;
    hide RunSys;
    hide Answered;
    hide Next;
    hide AgentAfter;
    var op := Judge(r.ip, field, score);
    var e := sys.s.l.now + JudgeReply(cfg.conf, sys.s.l.now, sys.s.l.db, r.ip, field, score).banTtl;
    JudgeBans(cfg, sys.s, r.ip, field, score);
    ActIsOp(cfg, sys, Go(j, c));
    NewBanReplaces(cfg.conf, sys.s.l, op, r.ip, e);
    BanHolds(cfg, Act(cfg, sys, Go(j, c)), before, r, limit, during, e);
  }
}
