/** What a background job leaves behind, read off the state before it and the answers
    of its environment: raw fields and key bytes again. ":rep" is 58 114 101 112,
    ":threat:" 58 116 104 114 101 97 116 58, ":ban_attempts:" 58 98 97 110 95 97 116 116
    101 109 112 116 115 58. */
module JobTable {
  import opened Words
  import opened Wrappers
  import opened Store
  import opened Ledger
  import opened Protocol
  import opened Solo
  import opened DecisionTable

  function ScoresKey(cfg: Config): Word {
    cfg.conf.prefix + [58, 114, 101, 112]
  }

  function PenaltyKey(cfg: Config, ip: Word): Word {
    cfg.conf.prefix + [58, 112, 98, 111, 120, 58] + ip
  }

  function CrossingsKey(cfg: Config, ip: Word): Word {
    cfg.conf.prefix + [58, 98, 97, 110, 95, 97, 116, 116, 101, 109, 112, 116, 115, 58] + ip
  }

  function ThreatsKey(cfg: Config, ip: Word): Word {
    cfg.conf.prefix + [58, 116, 104, 114, 101, 97, 116, 58] + ip
  }

  /** The fields that are alive, and the score of one. */
  function Scores(cfg: Config, s: Shared): map<Word, real> {
    var k, hashes := ScoresKey(cfg), s.l.db.hashes;
    if k in hashes && (hashes[k].expiry.None? || s.l.now < hashes[k].expiry.value) then hashes[k].value else map[]
  }

  function NewTotal(cfg: Config, s: Shared, field: Word, score: real): real {
    (if field in Scores(cfg, s) then Scores(cfg, s)[field] else 0.0) + score
  }

  /** The number of a live counter after one more. */
  function NextCount(ints: map<Word, Entry<int>>, k: Word, now: int): int {
    if k in ints && (ints[k].expiry.None? || now < ints[k].expiry.value) then ints[k].value + 1 else 1
  }

  predicate Scored(cfg: Config, env: Env) {
    cfg.reputation && env.a.scriptOk
  }

  predicate Crosses(cfg: Config, s: Shared, field: Word, score: real, env: Env) {
    Scored(cfg, env) && NewTotal(cfg, s, field, score) >= cfg.conf.rep.threshold
  }

  predicate Warns(cfg: Config, s: Shared, field: Word, score: real, env: Env) {
    Scored(cfg, env) && cfg.conf.rep.warning <= NewTotal(cfg, s, field, score) < cfg.conf.rep.threshold
  }

  /** Without reputation, the score alone decides. */
  predicate PlainPenalty(cfg: Config, score: real, env: Env) {
    !cfg.reputation && score >= cfg.scoreThreshold && env.a.penaltyOk
  }

  /** First, second, and any later crossing. */
  function LevelTtl(cfg: Config, s: Shared, ip: Word): int {
    var n := NextCount(s.l.db.ints, CrossingsKey(cfg, ip), s.l.now);
    if n == 2 then cfg.conf.rep.ban2 else if n >= 3 then cfg.conf.rep.ban3 else cfg.conf.rep.ban1
  }

  function Threats(cfg: Config, s: Shared, ip: Word): int {
    NextCount(s.l.db.ints, ThreatsKey(cfg, ip), s.l.now)
  }

  predicate CountsThreat(cfg: Config, env: Env) {
    cfg.adaptive && env.a.threatOk
  }

  predicate AdaptiveBans(cfg: Config, s: Shared, ip: Word, env: Env) {
    CountsThreat(cfg, env) && Threats(cfg, s, ip) >= cfg.threatThreshold && env.a.banOk
  }

  function HashesAfter(cfg: Config, s: Shared, field: Word, score: real, env: Env): map<Word, Entry<map<Word, real>>> {
    if Scored(cfg, env) then
      s.l.db.hashes[ScoresKey(cfg) :=
        Entry(Scores(cfg, s)[field := NewTotal(cfg, s, field, score)], Some(s.l.now + cfg.conf.rep.scoreWindow))]
    else s.l.db.hashes
  }

  function PenaltyAfter(cfg: Config, s: Shared, ip: Word, field: Word, score: real, env: Env): map<Word, Entry<Word>> {
    var k, strings := PenaltyKey(cfg, ip), s.l.db.strings;
    if Crosses(cfg, s, field, score, env) then strings - {k}
    else if Warns(cfg, s, field, score, env) then strings[k := Entry([49], Some(s.l.now + cfg.conf.rep.penaltyTtl))]
    else if PlainPenalty(cfg, score, env) then strings[k := Entry([49], Some(s.l.now + cfg.penaltyTtl))]
    else strings
  }

  function CountersAfter(cfg: Config, s: Shared, ip: Word, field: Word, score: real, env: Env): map<Word, Entry<int>> {
    var k, t, ints, now := CrossingsKey(cfg, ip), ThreatsKey(cfg, ip), s.l.db.ints, s.l.now;
    var n := NextCount(ints, k, now);
    var crossed := if Crosses(cfg, s, field, score, env)
                   then ints[k := Entry(n, if n == 1 then Some(now + cfg.conf.rep.backoffWindow) else ints[k].expiry)]
                   else ints;
    if CountsThreat(cfg, env)
    then crossed[t := Entry(NextCount(ints, t, now), Some(now + cfg.conf.threatWindow))] else crossed
  }

  /** The ban that stands at the end: the last write counts. */
  function BansAfter(cfg: Config, s: Shared, ip: Word, field: Word, score: real, env: Env): map<Word, Entry<set<Word>>> {
    var k := BanKey(cfg, ip);
    var sets := if Crosses(cfg, s, field, score, env) then s.l.db.sets[k := BanEntry(cfg, s, ip, LevelTtl(cfg, s, ip))]
                else s.l.db.sets;
    if AdaptiveBans(cfg, s, ip, env)
    then sets[k := Entry(BanEntry(cfg, s, ip, 0).value, Some(s.l.now + cfg.adaptiveBanTtl))] else sets
  }

  function CacheAfter(cfg: Config, s: Shared, ip: Word, field: Word, score: real, env: Env): map<Word, int> {
    var cache := if Crosses(cfg, s, field, score, env) then s.cache[ip := s.l.now + LevelTtl(cfg, s, ip)] else s.cache;
    if AdaptiveBans(cfg, s, ip, env) then cache[ip := s.l.now + cfg.adaptiveBanTtl] else cache
  }

  function BoxAfter(cfg: Config, s: Shared, ip: Word, field: Word, score: real, env: Env): map<Word, int> {
    if Warns(cfg, s, field, score, env) && env.a.penaltyOk then s.pbox[ip := s.l.now + cfg.conf.rep.penaltyTtl]
    else if PlainPenalty(cfg, score, env) then s.pbox[ip := s.l.now + cfg.penaltyTtl]
    else s.pbox
  }

  ghost predicate JobLeavesInRedis(
    cfg: Config, s: Shared, ip: Word, field: Word, score: real, env: Env, l: Ledger)
  {
    && l.now == s.l.now
    && l.db.hashes == HashesAfter(cfg, s, field, score, env)
    && l.db.strings == PenaltyAfter(cfg, s, ip, field, score, env)
    && l.db.ints == CountersAfter(cfg, s, ip, field, score, env)
    && l.db.sets == BansAfter(cfg, s, ip, field, score, env)
  }

  ghost predicate JobLeaves(cfg: Config, s: Shared, ip: Word, field: Word, score: real, env: Env, s': Shared) {
    if score <= 0.0 || ip == [] then s' == s
    else
      && JobLeavesInRedis(cfg, s, ip, field, score, env, s'.l)
      && s'.cache == CacheAfter(cfg, s, ip, field, score, env)
      && s'.pbox == BoxAfter(cfg, s, ip, field, score, env)
      && s'.added == (if cfg.bloom && (Crosses(cfg, s, field, score, env) || AdaptiveBans(cfg, s, ip, env))
                      then s.added + {ip} else s.added)
  }

  // ---------------------------------------------------------------------
  // It is what the protocol does
  // ---------------------------------------------------------------------

  lemma JudgeEffect(cfg: Config, s: Shared, ip: Word, field: Word, score: real)
    ensures var l := Next(cfg.conf, s.l, Judge(ip, field, score));
            var reply := JudgeReply(cfg.conf, s.l.now, s.l.db, ip, field, score);
            var total := NewTotal(cfg, s, field, score);
            var crosses := total >= cfg.conf.rep.threshold;
            var warns := !crosses && cfg.conf.rep.warning <= total;
            var k, ints := CrossingsKey(cfg, ip), s.l.db.ints;
            var n := NextCount(ints, k, s.l.now);
            && l.now == s.l.now
            && (reply.action == 2 <==> crosses) && (reply.action == 1 <==> warns)
            && (crosses ==> reply.banTtl == LevelTtl(cfg, s, ip))
            && l.db.hashes == s.l.db.hashes[ScoresKey(cfg) :=
                 Entry(Scores(cfg, s)[field := total], Some(s.l.now + cfg.conf.rep.scoreWindow))]
            && l.db.strings == (if crosses then s.l.db.strings - {PenaltyKey(cfg, ip)}
                                else if warns then s.l.db.strings[PenaltyKey(cfg, ip) :=
                                       Entry([49], Some(s.l.now + cfg.conf.rep.penaltyTtl))]
                                else s.l.db.strings)
            && l.db.ints == (if crosses
                             then ints[k := Entry(n, if n == 1 then Some(s.l.now + cfg.conf.rep.backoffWindow)
                                                     else ints[k].expiry)]
                             else ints)
            && l.db.sets == (if crosses then s.l.db.sets[BanKey(cfg, ip) := BanEntry(cfg, s, ip, LevelTtl(cfg, s, ip))]
                             else s.l.db.sets)
  {
  }

  lemma ThreatEffect(cfg: Config, s: Shared, ip: Word)
    ensures var l := Next(cfg.conf, s.l, Threat(ip));
            && l.now == s.l.now
            && l.db == s.l.db.(ints := s.l.db.ints[ThreatsKey(cfg, ip) :=
                 Entry(Threats(cfg, s, ip), Some(s.l.now + cfg.conf.threatWindow))])
            && Bumped(s.l.db, ThreatKey(cfg.conf.prefix, ip), s.l.now, cfg.conf.threatWindow).value == Threats(cfg, s, ip)
  {
  }

  lemma PenaltyEffect(cfg: Config, s: Shared, ip: Word, ttl: int)
    ensures var l := Next(cfg.conf, s.l, Penalise(ip, ttl));
            && l.now == s.l.now
            && l.db == s.l.db.(strings := s.l.db.strings[PenaltyKey(cfg, ip) := Entry([49], Some(s.l.now + ttl))])
  {
  }

  /** The counters of the two kinds do not meet. */
  lemma CountersApart(cfg: Config, ip: Word)
    ensures CrossingsKey(cfg, ip) != ThreatsKey(cfg, ip)
  {
    var n := |cfg.conf.prefix|;
    assert CrossingsKey(cfg, ip)[n + 1] == 98 && ThreatsKey(cfg, ip)[n + 1] == 116;
  }

  /** The adaptive stage alone. */
  lemma AdaptiveLeaves(cfg: Config, s: Shared, ip: Word, env: Env)
    requires ip != []
    ensures var s' := ToEnd(cfg, s, JobAdaptive(ip), env).0;
            var bans := AdaptiveBans(cfg, s, ip, env);
            && s'.l.now == s.l.now && s'.l.db.hashes == s.l.db.hashes && s'.l.db.strings == s.l.db.strings
            && s'.l.db.ints == (if CountsThreat(cfg, env)
                                then s.l.db.ints[ThreatsKey(cfg, ip) :=
                                       Entry(Threats(cfg, s, ip), Some(s.l.now + cfg.conf.threatWindow))]
                                else s.l.db.ints)
            && s'.l.db.sets == (if bans then s.l.db.sets[BanKey(cfg, ip) := BanEntry(cfg, s, ip, cfg.adaptiveBanTtl)]
                                else s.l.db.sets)
            && s'.cache == (if bans then s.cache[ip := s.l.now + cfg.adaptiveBanTtl] else s.cache)
            && s'.pbox == s.pbox
            && s'.added == (if bans && cfg.bloom then s.added + {ip} else s.added)
  {
    hide ToEnd;
    hide Next;
    hide Bumped;
    hide Threats;
    hide BanKey;
    FromAdaptive(cfg, s, ip, env);
    ThreatEffect(cfg, s, ip);
    var counted := s.(l := Next(cfg.conf, s.l, Threat(ip)));
    BanEffect(cfg, counted, ip, cfg.adaptiveBanTtl);
    SameBanEntry(cfg, s, counted, ip, cfg.adaptiveBanTtl);
  }

  lemma SameBanEntry(cfg: Config, s: Shared, s': Shared, ip: Word, ttl: int)
    requires s.l.now == s'.l.now && s.l.db.sets == s'.l.db.sets
    ensures BanEntry(cfg, s, ip, ttl) == BanEntry(cfg, s', ip, ttl)
  {
  }

  /** A ban on top of one placed at the same moment. */
  lemma BanOnBan(cfg: Config, s: Shared, s': Shared, ip: Word, first: int, second: int)
    requires s.l.now == s'.l.now && first > 0
    requires s'.l.db.sets == s.l.db.sets[BanKey(cfg, ip) := BanEntry(cfg, s, ip, first)]
    ensures BanEntry(cfg, s', ip, second) == Entry(BanEntry(cfg, s, ip, 0).value, Some(s.l.now + second))
  {
    assert BanEntry(cfg, s, ip, first).value + {[49]} == BanEntry(cfg, s, ip, 0).value;
  }

  lemma PlainBan(cfg: Config, s: Shared, ip: Word, ttl: int)
    ensures BanEntry(cfg, s, ip, ttl) == Entry(BanEntry(cfg, s, ip, 0).value, Some(s.l.now + ttl))
  {
  }

  lemma SameThreats(cfg: Config, s: Shared, s': Shared, ip: Word)
    requires s.l.now == s'.l.now
    requires ThreatsKey(cfg, ip) in s.l.db.ints <==> ThreatsKey(cfg, ip) in s'.l.db.ints
    requires ThreatsKey(cfg, ip) in s.l.db.ints ==> s.l.db.ints[ThreatsKey(cfg, ip)] == s'.l.db.ints[ThreatsKey(cfg, ip)]
    ensures Threats(cfg, s, ip) == Threats(cfg, s', ip)
    ensures forall env :: AdaptiveBans(cfg, s, ip, env) <==> AdaptiveBans(cfg, s', ip, env)
  {
  }

  /** From the state in which a job with a score stops scoring. */
  ghost predicate ScoreStageLeaves(cfg: Config, s: Shared, ip: Word, field: Word, score: real, env: Env, s1: Shared) {
    var k, ints := CrossingsKey(cfg, ip), s.l.db.ints;
    var n := NextCount(ints, k, s.l.now);
    var crosses := Crosses(cfg, s, field, score, env);
    && s1.l.now == s.l.now
    && s1.l.db.hashes == HashesAfter(cfg, s, field, score, env)
    && s1.l.db.strings == PenaltyAfter(cfg, s, ip, field, score, env)
    && s1.l.db.ints == (if crosses
                        then ints[k := Entry(n, if n == 1 then Some(s.l.now + cfg.conf.rep.backoffWindow)
                                                else ints[k].expiry)]
                        else ints)
    && s1.l.db.sets == (if crosses then s.l.db.sets[BanKey(cfg, ip) := BanEntry(cfg, s, ip, LevelTtl(cfg, s, ip))]
                        else s.l.db.sets)
    && s1.cache == (if crosses then s.cache[ip := s.l.now + LevelTtl(cfg, s, ip)] else s.cache)
    && s1.pbox == BoxAfter(cfg, s, ip, field, score, env)
    && s1.added == (if cfg.bloom && crosses then s.added + {ip} else s.added)
  }

  lemma ScoreStage(cfg: Config, s: Shared, ip: Word, field: Word, score: real, env: Env) returns (s1: Shared)
    requires score > 0.0 && ip != []
    ensures ToEnd(cfg, s, JobScore(ip, field, score), env) == ToEnd(cfg, s1, JobAdaptive(ip), env)
    ensures ScoreStageLeaves(cfg, s, ip, field, score, env, s1)
  {
    hide ToEnd;
    hide Next;
    hide JudgeReply;
    hide NewTotal;
    hide Scores;
    hide LevelTtl;
    hide BanEntry;
    hide BanKey;
    hide NextCount;
    hide PenaltyKey;
    FromScore(cfg, s, ip, field, score, env);
    s1 := s;
    var ttl := if cfg.reputation then cfg.conf.rep.penaltyTtl else cfg.penaltyTtl;
    if Scored(cfg, env) {
      JudgeEffect(cfg, s, ip, field, score);
      var reply := JudgeReply(cfg.conf, s.l.now, s.l.db, ip, field, score);
      s1 := s.(l := Next(cfg.conf, s.l, Judge(ip, field, score)));
      if reply.action == 2 {
        s1 := s1.(cache := s.cache[ip := s.l.now + reply.banTtl],
                  added := if cfg.bloom then s.added + {ip} else s.added);
      }
    }
    if Warns(cfg, s, field, score, env) || (!cfg.reputation && score >= cfg.scoreThreshold) {
      FromPenaltySet(cfg, s1, ip, ttl, env);
      PenaltyEffect(cfg, s1, ip, ttl);
      if env.a.penaltyOk {
        s1 := s1.(l := Next(cfg.conf, s1.l, Penalise(ip, ttl)), pbox := s.pbox[ip := s.l.now + ttl]);
      }
    }
  }

  /** For every state, address, score and answers: what an uninterrupted job leaves behind. */
  lemma JobLeavesExactly(cfg: Config, s: Shared, ip: Word, field: Word, score: real, env: Env)
    requires cfg.conf.rep.ban1 > 0 && cfg.conf.rep.ban2 > 0 && cfg.conf.rep.ban3 > 0
    ensures JobLeaves(cfg, s, ip, field, score, env, ToEnd(cfg, s, JobScore(ip, field, score), env).0)
  {
    hide ToEnd;
    hide HashesAfter;
    hide PenaltyAfter;
    hide BoxAfter;
    hide Crosses;
    hide BanEntry;
    hide BanKey;
    hide NextCount;
    hide CrossingsKey;
    hide ThreatsKey;
    if score <= 0.0 || ip == [] {
      FromScore(cfg, s, ip, field, score, env);
    } else {
      var s1 := ScoreStage(cfg, s, ip, field, score, env);
      AdaptiveLeaves(cfg, s1, ip, env);
      CountersApart(cfg, ip);
      SameThreats(cfg, s, s1, ip);
      PlainBan(cfg, s, ip, cfg.adaptiveBanTtl);
      if Crosses(cfg, s, field, score, env) {
        BanOnBan(cfg, s, s1, ip, LevelTtl(cfg, s, ip), cfg.adaptiveBanTtl);
      } else {
        SameBanEntry(cfg, s, s1, ip, cfg.adaptiveBanTtl);
      }
    }
  }
}
