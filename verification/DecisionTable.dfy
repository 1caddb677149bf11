/** The decision of a request and what it leaves behind, read off the state before it
    and the answers of its environment: one table over raw fields and key bytes, proved
    equal to the protocol run. ":bl:" is 58 98 108 58, ":rl:" 58 114 108 58, ":pbox:"
    58 112 98 111 120 58, and the member of every ban is "1", 49. */
module DecisionTable {
  import opened Words
  import opened Wrappers
  import opened Store
  import opened Ledger
  import opened Decisions
  import opened Protocol
  import opened Solo

  // ---------------------------------------------------------------------
  // The questions
  // ---------------------------------------------------------------------

  /** The local blacklist knows the address. */
  predicate Cached(s: Shared, r: Request) {
    r.ip != [] && r.ip in s.cache && s.l.now < s.cache[r.ip]
  }

  /** The local penalty box knows the address, or an answered lookup in Redis does. */
  predicate Penalised(cfg: Config, s: Shared, r: Request, env: Env) {
    var k := cfg.conf.prefix + [58, 112, 98, 111, 120, 58] + r.ip;
    var strings := s.l.db.strings;
    r.ip != [] &&
    (|| (r.ip in s.pbox && s.l.now < s.pbox[r.ip])
     || (env.a.pttlOk && k in strings && strings[k].expiry.Some? && s.l.now < strings[k].expiry.value))
  }

  predicate LacksHeaders(cfg: Config, r: Request) {
    (cfg.requireUserAgent && !r.userAgent) || (cfg.requireReferer && !r.referer)
  }

  /** The filter is on and reports nothing. */
  predicate Unknown(cfg: Config, s: Shared, r: Request, env: Env) {
    r.ip != [] && cfg.bloom && r.ip !in s.added && !env.hit
  }

  function BanKey(cfg: Config, ip: Word): Word {
    cfg.conf.prefix + [58, 98, 108, 58] + ip
  }

  predicate RedisBans(cfg: Config, s: Shared, ip: Word) {
    var k, sets := BanKey(cfg, ip), s.l.db.sets;
    k in sets && [49] in sets[k].value && (sets[k].expiry.None? || s.l.now < sets[k].expiry.value)
  }

  /** The counter that a request goes to: by its key, or without one by its address. */
  function CounterKey(cfg: Config, r: Request): Word {
    cfg.conf.prefix + [58, 114, 108, 58] + (if r.key != [] then r.key else r.ip)
  }

  predicate Counting(cfg: Config, s: Shared, r: Request) {
    var k, ints := CounterKey(cfg, r), s.l.db.ints;
    k in ints && (ints[k].expiry.None? || s.l.now < ints[k].expiry.value)
  }

  /** The number that a counted request gets. */
  function Number(cfg: Config, s: Shared, r: Request): int {
    if Counting(cfg, s, r) then s.l.db.ints[CounterKey(cfg, r)].value + 1 else 1
  }

  /** When the counter ends: one window after the first request. */
  function CounterEnd(cfg: Config, s: Shared, r: Request): Option<int> {
    if Number(cfg, s, r) == 1 then Some(s.l.now + cfg.conf.windowMs)
    else s.l.db.ints[CounterKey(cfg, r)].expiry
  }

  /** The time of a ban for failed checks. */
  function StrictBan(cfg: Config): int {
    if cfg.reputation then cfg.conf.rep.ban3 else cfg.penaltyBanTtl
  }

  // ---------------------------------------------------------------------
  // The table
  // ---------------------------------------------------------------------

  function Row(allowed: bool, reason: Reason, counter: int, limit: int, resetAt: int, status: int): Decision {
    Decision(allowed, reason, counter, limit, if counter < limit then limit - counter else 0, resetAt, status)
  }

  /** A time in the future, or else one window from now. */
  function ResetAt(cfg: Config, s: Shared, end: Option<int>): int {
    if end.Some? && s.l.now < end.value then end.value else s.l.now + cfg.conf.windowMs
  }

  function ScriptRow(cfg: Config, s: Shared, r: Request, limit: int, env: Env): (Decision, Source) {
    var window := s.l.now + cfg.conf.windowMs;
    var n := Number(cfg, s, r);
    if !env.a.scriptOk then
      if cfg.failOpen then (Row(true, FailOpen, 0, limit, window, 0), FailOpenAllow)
      else (Row(false, RedisError, 0, limit, window, 0), RedisFailure)
    else if RedisBans(cfg, s, r.ip) then
      (Row(false, Blacklisted, 0, limit, ResetAt(cfg, s, s.l.db.sets[BanKey(cfg, r.ip)].expiry), 0), RedisBlacklist)
    else if n > limit then (Row(false, RateLimited, n, limit, ResetAt(cfg, s, CounterEnd(cfg, s, r)), 0), RateLimit)
    else (Row(true, Allowed, n, limit, ResetAt(cfg, s, CounterEnd(cfg, s, r)), 0), LuaAllow)
  }

  function FilterRow(cfg: Config, s: Shared, r: Request, limit: int, env: Env): (Decision, Source) {
    if Unknown(cfg, s, r, env) then (Row(true, Allowed, 0, limit, s.l.now + cfg.conf.windowMs, 0), BloomNegative)
    else ScriptRow(cfg, s, r, limit, env)
  }

  function Expected(cfg: Config, s: Shared, r: Request, limit: int, env: Env): (Decision, Source) {
    if Cached(s, r) then (Row(false, Blacklisted, 0, limit, s.l.now + cfg.conf.windowMs, 0), CacheBlacklist)
    else if !Penalised(cfg, s, r, env) then FilterRow(cfg, s, r, limit, env)
    else if LacksHeaders(cfg, r) then
      (Row(false, Reason.PenaltyForbidden, 0, 1, ResetAt(cfg, s, Some(s.l.now + StrictBan(cfg))), 403),
       Source.PenaltyForbidden)
    else FilterRow(cfg, s, r, if limit > 1 then 1 else limit, env)
  }

  // ---------------------------------------------------------------------
  // It is what the protocol does
  // ---------------------------------------------------------------------

  lemma ScriptStage(cfg: Config, s: Shared, s': Shared, r: Request, limit: int, env: Env)
    requires s'.l == s.l
    ensures var row := ScriptRow(cfg, s, r, limit, env);
            ToEnd(cfg, s', ReqScript(r, s.l.now, limit), env).1 == Finished(row.0, row.1)
  {
    hide ToEnd;
    hide Next;
    FromScript(cfg, s', r, s.l.now, limit, env);
  }

  lemma FilterStage(cfg: Config, s: Shared, s': Shared, r: Request, limit: int, env: Env)
    requires s'.l == s.l && s'.added == s.added && r.ip != []
    ensures var row := FilterRow(cfg, s, r, limit, env);
            ToEnd(cfg, s', ReqBloom(r, s.l.now, limit), env).1 == Finished(row.0, row.1)
  {
    hide ToEnd;
    hide ScriptRow;
    FromBloom(cfg, s', r, s.l.now, limit, env);
    ScriptStage(cfg, s, s', r, limit, env);
  }

  lemma PenaltyStage(cfg: Config, s: Shared, s': Shared, r: Request, limit: int, env: Env)
    requires s'.l == s.l && s'.added == s.added && r.ip != []
    ensures var row := if LacksHeaders(cfg, r) then
                         (Row(false, Reason.PenaltyForbidden, 0, 1, ResetAt(cfg, s, Some(s.l.now + StrictBan(cfg))), 403),
                          Source.PenaltyForbidden)
                       else FilterRow(cfg, s, r, if limit > 1 then 1 else limit, env);
            ToEnd(cfg, s', ReqPenalty(r, s.l.now, limit), env).1 == Finished(row.0, row.1)
  {
    hide ToEnd;
    hide FilterRow;
    hide Next;
    FromPenalty(cfg, s', r, s.l.now, limit, env);
    FilterStage(cfg, s, s', r, MinLimit(limit), env);
  }

  /** For every state, request, limit and answers: the decision of an uninterrupted
      request is the one in the table. */
  lemma TableIsExact(cfg: Config, s: Shared, r: Request, limit: int, env: Env)
    ensures var row := Expected(cfg, s, r, limit, env);
            ToEnd(cfg, s, ReqCache(r, s.l.now, limit), env).1 == Finished(row.0, row.1)
  {
    hide ToEnd;
    hide FilterRow;
    hide ScriptRow;
    hide Row;
    hide ResetAt;
    var t := s.l.now;
    FromCache(cfg, s, r, t, limit, env);
    if r.ip == [] {
      ScriptStage(cfg, s, s, r, limit, env);
      NoAddress(cfg, s, r, limit, env);
    } else if CacheHit(s.cache, r.ip, t) {
      CachedRow(cfg, limit, t);
    } else {
      var s1 := s.(cache := AfterLookup(s.cache, r.ip, t));
      FromPbox(cfg, s1, r, t, limit, env);
      var s2 := s1.(pbox := AfterLookup(s1.pbox, r.ip, t));
      var live := Ttl(s.l.db.strings, PboxKey(cfg.conf.prefix, r.ip), t);
      var s3 := s2.(pbox := s2.pbox[r.ip := t + live]);
      PenaltyStage(cfg, s, s2, r, limit, env);
      PenaltyStage(cfg, s, s3, r, limit, env);
      FilterStage(cfg, s, s2, r, limit, env);
    }
  }

  lemma NoAddress(cfg: Config, s: Shared, r: Request, limit: int, env: Env)
    requires r.ip == []
    ensures Expected(cfg, s, r, limit, env) == ScriptRow(cfg, s, r, limit, env)
  {
  }

  lemma CachedRow(cfg: Config, limit: int, t: int)
    ensures NewDecision(false, Blacklisted, limit, t, cfg.conf.windowMs) ==
            Row(false, Blacklisted, 0, limit, t + cfg.conf.windowMs, 0)
  {
  }

  /** A penalised request is forbidden exactly when a required header is missing. */
  lemma ForbiddenIff(cfg: Config, s: Shared, r: Request, limit: int, env: Env)
    requires !Cached(s, r) && Penalised(cfg, s, r, env)
    ensures var end := ToEnd(cfg, s, ReqCache(r, s.l.now, limit), env).1;
            && end.Finished?
            && (end.source == Source.PenaltyForbidden <==>
                  (cfg.requireUserAgent && !r.userAgent) || (cfg.requireReferer && !r.referer))
  {
    hide ToEnd;
    TableIsExact(cfg, s, r, limit, env);
  }

  // ---------------------------------------------------------------------
  // What is left behind
  // ---------------------------------------------------------------------

  predicate Forbids(cfg: Config, s: Shared, r: Request, env: Env) {
    !Cached(s, r) && Penalised(cfg, s, r, env) && LacksHeaders(cfg, r)
  }

  predicate ReachesScript(cfg: Config, s: Shared, r: Request, env: Env) {
    !Cached(s, r) && !Forbids(cfg, s, r, env) && !Unknown(cfg, s, r, env) && env.a.scriptOk
  }

  /** The ban entry of an address after a ban now. */
  function BanEntry(cfg: Config, s: Shared, ip: Word, ttl: int): Entry<set<Word>> {
    var k, sets := BanKey(cfg, ip), s.l.db.sets;
    var alive := k in sets && (sets[k].expiry.None? || s.l.now < sets[k].expiry.value);
    Entry((if alive then sets[k].value else {}) + {[49]}, Some(s.l.now + ttl))
  }

  /** Redis after the request: a counted request changes its counter, a forbidden one
      its address's ban, and nothing else changes. */
  ghost predicate LeavesInRedis(cfg: Config, s: Shared, r: Request, env: Env, l: Ledger) {
    && l.now == s.l.now && l.db.strings == s.l.db.strings && l.db.hashes == s.l.db.hashes
    && l.db.ints == (if ReachesScript(cfg, s, r, env) && !RedisBans(cfg, s, r.ip)
                     then s.l.db.ints[CounterKey(cfg, r) := Entry(Number(cfg, s, r), CounterEnd(cfg, s, r))]
                     else s.l.db.ints)
    && l.db.sets == (if Forbids(cfg, s, r, env) && env.a.banOk
                     then s.l.db.sets[BanKey(cfg, r.ip) := BanEntry(cfg, s, r.ip, StrictBan(cfg))]
                     else s.l.db.sets)
  }

  /** The local copies after it: a ban found by the script is cached for two seconds, one
      placed for failed checks for its whole time; both enter the filter. */
  ghost predicate LeavesLocally(cfg: Config, s: Shared, r: Request, env: Env, s': Shared) {
    var found := ReachesScript(cfg, s, r, env) && RedisBans(cfg, s, r.ip);
    var placed := Forbids(cfg, s, r, env) && env.a.banOk;
    && (found ==> r.ip in s'.cache && s'.cache[r.ip] == s.l.now + 2000)
    && (placed ==> r.ip in s'.cache && s'.cache[r.ip] == s.l.now + StrictBan(cfg))
    && (!found && !placed && r.ip in s'.cache ==> r.ip in s.cache && s'.cache[r.ip] == s.cache[r.ip])
    && s'.added == (if cfg.bloom && r.ip != [] && (found || placed) then s.added + {r.ip} else s.added)
  }

  ghost predicate Leaves(cfg: Config, s: Shared, r: Request, env: Env, s': Shared) {
    LeavesInRedis(cfg, s, r, env, s'.l) && LeavesLocally(cfg, s, r, env, s')
  }

  lemma CheckEffect(cfg: Config, s: Shared, r: Request, limit: int)
    ensures var l := Next(cfg.conf, s.l, Check(r.ip, r.RateKey(), limit));
            && l.now == s.l.now
            && l.db == (if RedisBans(cfg, s, r.ip) then s.l.db
                        else s.l.db.(ints := s.l.db.ints[CounterKey(cfg, r) :=
                                       Entry(Number(cfg, s, r), CounterEnd(cfg, s, r))]))
            && (CheckReply(cfg.conf, s.l.now, s.l.db, r.ip, r.RateKey(), limit).code == 2 <==> RedisBans(cfg, s, r.ip))
  {
  }

  lemma BanEffect(cfg: Config, s: Shared, ip: Word, ttl: int)
    ensures var l := Next(cfg.conf, s.l, Ban(ip, ttl));
            l.now == s.l.now && l.db == s.l.db.(sets := s.l.db.sets[BanKey(cfg, ip) := BanEntry(cfg, s, ip, ttl)])
  {
  }

  /** The script stage, from a state that agrees with s but for lookups. */
  lemma ScriptLeaves(cfg: Config, s: Shared, s1: Shared, r: Request, limit: int, env: Env)
    requires s1.l == s.l && s1.added == s.added
    requires r.ip in s1.cache ==> r.ip in s.cache && s1.cache[r.ip] == s.cache[r.ip]
    requires !Cached(s, r) && !Forbids(cfg, s, r, env) && !Unknown(cfg, s, r, env)
    ensures Leaves(cfg, s, r, env, ToEnd(cfg, s1, ReqScript(r, s.l.now, limit), env).0)
  {
    hide ToEnd;
    hide Next;
    hide CheckReply;
    hide NewDecisionWithTtl;
    hide Cached;
    hide Forbids;
    hide Unknown;
    hide RedisBans;
    hide Number;
    hide CounterEnd;
    hide CounterKey;
    FromScript(cfg, s1, r, s.l.now, limit, env);
    CheckEffect(cfg, s, r, limit);
  }

  lemma FilterLeaves(cfg: Config, s: Shared, s1: Shared, r: Request, limit: int, env: Env)
    requires s1.l == s.l && s1.added == s.added && r.ip != []
    requires r.ip in s1.cache ==> r.ip in s.cache && s1.cache[r.ip] == s.cache[r.ip]
    requires !Cached(s, r) && !Forbids(cfg, s, r, env)
    ensures Leaves(cfg, s, r, env, ToEnd(cfg, s1, ReqBloom(r, s.l.now, limit), env).0)
  {
    hide ToEnd;
    hide Cached;
    hide Forbids;
    hide RedisBans;
    hide Number;
    hide CounterEnd;
    hide CounterKey;
    FromBloom(cfg, s1, r, s.l.now, limit, env);
    if !Unknown(cfg, s, r, env) {
      ScriptLeaves(cfg, s, s1, r, limit, env);
    }
  }

  lemma PenaltyLeaves(cfg: Config, s: Shared, s1: Shared, r: Request, limit: int, env: Env)
    requires s1.l == s.l && s1.added == s.added && r.ip != []
    requires r.ip in s1.cache ==> r.ip in s.cache && s1.cache[r.ip] == s.cache[r.ip]
    requires !Cached(s, r) && Penalised(cfg, s, r, env)
    ensures Leaves(cfg, s, r, env, ToEnd(cfg, s1, ReqPenalty(r, s.l.now, limit), env).0)
  {
    hide ToEnd;
    hide Next;
    hide Cached;
    hide Penalised;
    hide RedisBans;
    hide Number;
    hide CounterEnd;
    hide CounterKey;
    hide BanKey;
    hide BanEntry;
    FromPenalty(cfg, s1, r, s.l.now, limit, env);
    BanEffect(cfg, s, r.ip, StrictBan(cfg));
    if !LacksHeaders(cfg, r) {
      FilterLeaves(cfg, s, s1, r, MinLimit(limit), env);
    }
  }

  /** For every state, request, limit and answers: what an uninterrupted request leaves
      behind. */
  lemma LeavesExactly(cfg: Config, s: Shared, r: Request, limit: int, env: Env)
    ensures Leaves(cfg, s, r, env, ToEnd(cfg, s, ReqCache(r, s.l.now, limit), env).0)
  {
    hide ToEnd;
    hide Leaves;
    var t := s.l.now;
    FromCache(cfg, s, r, t, limit, env);
    if r.ip == [] {
      ScriptLeaves(cfg, s, s, r, limit, env);
    } else {
      var s1 := s.(cache := AfterLookup(s.cache, r.ip, t));
      if CacheHit(s.cache, r.ip, t) {
        CachedLeaves(cfg, s, s1, r, env);
      } else {
        FromPbox(cfg, s1, r, t, limit, env);
        var s2 := s1.(pbox := AfterLookup(s1.pbox, r.ip, t));
        var live := Ttl(s.l.db.strings, PboxKey(cfg.conf.prefix, r.ip), t);
        var s3 := s2.(pbox := s2.pbox[r.ip := t + live]);
        if !Penalised(cfg, s, r, env) {
          FilterLeaves(cfg, s, s2, r, limit, env);
        } else {
          PenaltyLeaves(cfg, s, s2, r, limit, env);
          PenaltyLeaves(cfg, s, s3, r, limit, env);
        }
      }
    }
  }

  lemma CachedLeaves(cfg: Config, s: Shared, s1: Shared, r: Request, env: Env)
    requires Cached(s, r) && s1 == s.(cache := s1.cache)
    requires r.ip in s1.cache ==> r.ip in s.cache && s1.cache[r.ip] == s.cache[r.ip]
    ensures Leaves(cfg, s, r, env, s1)
  {
  }
}
