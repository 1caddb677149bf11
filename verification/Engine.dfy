/** The engine object: `Process` in the source's own step order (engine_process.go),
    proved to be one uninterrupted run of the protocol's request agent. */
module Engine {
  import opened Words
  import opened Wrappers
  import opened Store
  import opened Ledger
  import opened Decisions
  import opened Protocol
  import opened Solo
  import opened LruCache
  import opened EndToEnd
  import Bloom
  import SelfHealing
  import DecisionTable
  import JobTable
  import Scoring
  import Ruleset

  datatype Status = AllowedStatus | BlockedStatus

  /** One requests_total record. */
  datatype RequestEvent = RequestEvent(status: Status, source: Source)

  datatype Snapshot = Snapshot(r: Request, ts: int)

  function EventOf(d: Decision, source: Source): RequestEvent {
    RequestEvent(if d.allowed then AllowedStatus else BlockedStatus, source)
  }

  /** What counts as clean traffic. */
  predicate IsClean(d: Decision) {
    d.allowed || d.reason == FailOpen
  }

  /** The cache holds what the protocol's cache holds, up to evictions of other addresses. */
  ghost predicate Tracks(m: map<Word, int>, n: map<Word, int>, ip: Word) {
    Submap(m, n) && (ip in n ==> ip in m)
  }

  /** A lookup of the tracked address answers alike in both. */
  lemma TracksLookup(m: map<Word, int>, n: map<Word, int>, ip: Word, t: int)
    requires Tracks(m, n, ip)
    ensures CacheHit(m, ip, t) == CacheHit(n, ip, t)
    ensures Tracks(AfterLookup(m, ip, t), AfterLookup(n, ip, t), ip)
  {
  }

  lemma TracksAdd(m': map<Word, int>, m: map<Word, int>, n: map<Word, int>, ip: Word, e: int)
    requires Tracks(m, n, ip) && Submap(m', m[ip := e]) && ip in m'
    ensures Tracks(m', n[ip := e], ip)
  {
  }

  class Engine {
    const cfg: Config
    const redis: Redis
    const cache: Cache
    const pbox: Cache
    const bf: Bloom.Filter?
    const sh: SelfHealing.SelfHealingState?
    /** Scores requests against the signature rules. */
    const ev: Scoring.Evaluator
    const queueSize: nat
    /** Without a background pipeline nothing is ever queued. */
    const background: bool
    var queue: seq<Snapshot>
    var events: seq<RequestEvent>
    /** The protocol's view of Redis with its history, and of the Bloom filter. */
    ghost var ledger: Ledger
    ghost var added: set<Word>

    ghost predicate Valid()
      reads this, redis, cache, pbox, if bf != null then {bf.words} else {}, sh
    {
      && cache != pbox && cache.Valid() && pbox.Valid()
      && ledger.db == redis.db && ledger.now == redis.now
      && cfg.bloom == (bf != null)
      && (bf != null ==> bf.Valid() && BloomHolds(bf, added))
      && (sh != null ==> sh.Valid())
      && |queue| <= queueSize
      && cfg.maxRequests >= 1
    }

    /** The shared state as the protocol sees it. */
    ghost function View(): Shared
      reads this, cache, pbox
    {
      Shared(ledger, cache.lru, pbox.lru, added)
    }

    constructor (
      cfg: Config, redis: Redis, cache: Cache, pbox: Cache, bf: Bloom.Filter?,
      sh: SelfHealing.SelfHealingState?, ev: Scoring.Evaluator, queueSize: nat, background: bool)
      requires cache != pbox && cache.Valid() && pbox.Valid() && cfg.maxRequests >= 1
      requires cfg.bloom == (bf != null) && (bf != null ==> bf.Valid()) && (sh != null ==> sh.Valid())
      ensures Valid() && this.cfg == cfg && this.redis == redis && events == [] && queue == [] && added == {}
    {
      this.cfg, this.redis, this.cache, this.pbox := cfg, redis, cache, pbox;
      this.bf, this.sh, this.ev := bf, sh, ev;
      this.queueSize, this.background := queueSize, background;
      queue, events, added := [], [], {};
      ledger := Start(redis.db, redis.now);
    }

    /** The limit that the self-healing state puts in force for this request. */
    method EffectiveLimit(ip: Word) returns (limit: int)
      requires Valid()
      modifies sh
      ensures Valid()
      ensures sh == null ==> limit == cfg.maxRequests
      ensures sh != null ==>
                && sh.Snapshot() == SelfHealing.Asked(sh.cfg, old(sh.Snapshot()), ip, cfg.maxRequests, redis.now)
                && limit == SelfHealing.LimitAfter(sh.cfg, old(sh.Snapshot()), ip, cfg.maxRequests, redis.now)
      ensures 1 <= limit <= cfg.maxRequests
    {
      limit := cfg.maxRequests;
      if sh != null {
        limit := sh.EffectiveLimit(ip, cfg.maxRequests, redis.now);
      }
    }

    // -------------------------------------------------------------------
    // What happens around the engine
    // -------------------------------------------------------------------

    /** Time passes. */
    method Elapse(d: nat)
      requires Valid()
      modifies this`ledger, redis`now
      ensures Valid()
      ensures ledger == Next(cfg.conf, old(ledger), Wait(d)) && redis.now == old(redis.now) + d
    {
      redis.now := redis.now + d;
      ledger := Next(cfg.conf, ledger, Wait(d));
    }

    /** Another engine acts on the same Redis. */
    method Foreign(op: Op)
      requires Valid() && !op.Wait?
      modifies this`ledger, redis`db
      ensures Valid()
      ensures ledger == Next(cfg.conf, old(ledger), op)
    {
      hide Next;
      hide BloomHolds;
      match op {
        case Check(ip, key, limit) =>
          var p := cfg.conf.prefix;
          var code, counter, ttl := redis.CriticalPath(BlKey(p, ip), RlKey(p, key), cfg.conf.windowMs, limit);
          OpNext(cfg.conf, ledger, op);
          ledger := Next(cfg.conf, ledger, op);
        case Judge(ip, field, delta) =>
          var action, banTtl, attempts := ApplyReputationScore(ip, field, delta);
        case Ban(ip, ttl) =>
          WriteBan(ip, ttl);
        case Penalise(ip, ttl) =>
          redis.SetPx(PboxKey(cfg.conf.prefix, ip), MEMBER, ttl);
          OpNext(cfg.conf, ledger, Penalise(ip, ttl));
          ledger := Next(cfg.conf, ledger, op);
        case Threat(ip) =>
          var count := CountThreat(ip);
        case Wait(_) =>
      }
    }

    /** The self-healing state, if there is one. */
    ghost function Health(): Option<SelfHealing.State>
      reads sh
    {
      if sh == null then None else Some(sh.Snapshot())
    }

    /** Exactly one request event with the decision's status, exactly one
        observation, and the request queued if it is let through and there is room. */
    ghost predicate Accounted(
      events0: seq<RequestEvent>, queue0: seq<Snapshot>, health0: Option<SelfHealing.State>,
      r: Request, now: int, d: Decision, source: Source)
      reads this`events, this`queue, sh
    {
      && events == events0 + [EventOf(d, source)]
      && queue == (if d.allowed && background && |queue0| < queueSize then queue0 + [Snapshot(r, now)] else queue0)
      && (sh != null ==>
            health0.Some? && sh.Snapshot() == SelfHealing.Seen(sh.cfg, health0.value, IsClean(d), now))
    }

    method RecordRequestStat(status: Status, source: Source)
      requires Valid()
      modifies this`events
      ensures Valid()
      ensures events == old(events) + [RequestEvent(status, source)]
    {
      events := events + [RequestEvent(status, source)];
    }

    /** Lets the self-healing state observe the decision. */
    method FinishDecision(d: Decision, now: int)
      requires Valid()
      modifies sh
      ensures Valid()
      ensures sh != null ==> sh.Snapshot() == SelfHealing.Seen(sh.cfg, old(sh.Snapshot()), IsClean(d), now)
    {
      if sh != null {
        sh.Observe(IsClean(d), now);
      }
    }

    /** A full queue drops the snapshot. */
    method TryEnqueue(r: Request, now: int)
      requires Valid()
      modifies this`queue
      ensures Valid()
      ensures queue == if |old(queue)| < queueSize then old(queue) + [Snapshot(r, now)] else old(queue)
    {
      if |queue| < queueSize {
        queue := queue + [Snapshot(r, now)];
      }
    }

    /** Adds the address to the Bloom filter, if there is one. */
    method BloomAddIp(ip: Word)
      requires Valid() && ip != []
      modifies this`added, if bf != null then {bf.words} else {}
      ensures Valid()
      ensures added == if cfg.bloom then old(added) + {ip} else old(added)
    {
      if bf != null {
        bf.Add(ip);
        added := added + {ip};
      }
    }

    /** Writes a ban: Redis, then the local cache, then the Bloom filter; without an
        address, or when the Redis write fails, nothing is written. */
    method BanIP(ip: Word, ttl: int, ok: bool)
      requires Valid()
      modifies this`added, this`ledger, redis`db, cache, if bf != null then {bf.words} else {}
      ensures Valid()
      ensures !ok || ip == [] ==> ledger == old(ledger) && cache.lru == old(cache.lru) && added == old(added)
      ensures ok && ip != [] ==>
                && ledger == Next(cfg.conf, old(ledger), Ban(ip, ttl))
                && Submap(cache.lru, old(cache.lru)[ip := redis.now + ttl]) && ip in cache.lru
                && added == if cfg.bloom then old(added) + {ip} else old(added)
    {
      hide Next;
      hide Marked;
      hide BloomHolds;
      hide Submap;
      if ip == [] || !ok {
        return;
      }
      WriteBan(ip, ttl);
      cache.Blacklist(ip, redis.now + ttl);
      BloomAddIp(ip);
    }

    /** SADD and PEXPIRE of the blacklist key. */
    method WriteBan(ip: Word, ttl: int)
      requires Valid()
      modifies this`ledger, redis`db
      ensures Valid()
      ensures ledger == Next(cfg.conf, old(ledger), Ban(ip, ttl))
    {
      hide Next;
      hide Marked;
      hide BloomHolds;
      var blKey := BlKey(cfg.conf.prefix, ip);
      redis.SAdd(blKey, MEMBER);
      redis.PExpireSet(blKey, ttl);
      OpNext(cfg.conf, ledger, Ban(ip, ttl));
      ledger := Next(cfg.conf, ledger, Ban(ip, ttl));
      AddThenExpire(old(redis.db), redis.db, blKey, redis.now, ttl);
    }

    /** The penalty lookup: the local box first, then the lifetime of the Redis key,
        which is remembered locally when it is alive. */
    method IsInPenalty(ip: Word, now: int, ok: bool) returns (inPenalty: bool, ttl: int)
      requires Valid()
      modifies pbox
      ensures Valid()
      ensures var box := AfterLookup(old(pbox.lru), ip, now);
              var live := Ttl(redis.db.strings, PboxKey(cfg.conf.prefix, ip), redis.now);
              if CacheHit(old(pbox.lru), ip, now) then inPenalty && pbox.lru == box && ttl == PenaltyTtl(cfg)
              else if !ok || live <= 0 then !inPenalty && pbox.lru == box && ttl == 0
              else inPenalty && Submap(pbox.lru, box[ip := now + live]) && ip in pbox.lru && ttl == live
    {
      var hit := pbox.IsBlacklisted(ip, now);
      if hit {
        return true, PenaltyTtl(cfg);
      }
      ttl := Ttl(redis.db.strings, PboxKey(cfg.conf.prefix, ip), redis.now);
      if !ok || ttl <= 0 {
        return false, 0;
      }
      pbox.Blacklist(ip, now + ttl);
      return true, ttl;
    }

    /** The critical-path script and the decoding of its reply. */
    method RunScript(r: Request, limit: int) returns (code: int, counter: int, ttl: int)
      requires Valid()
      modifies this`ledger, redis`db
      ensures Valid()
      ensures CriticalReply(code, counter, ttl) ==
              CheckReply(cfg.conf, old(ledger).now, old(ledger).db, r.ip, r.RateKey(), limit)
      ensures ledger == Next(cfg.conf, old(ledger), Check(r.ip, r.RateKey(), limit))
    {
      var p := cfg.conf.prefix;
      code, counter, ttl := redis.CriticalPath(BlKey(p, r.ip), RlKey(p, r.RateKey()), cfg.conf.windowMs, limit);
      code, counter, ttl := ParseLuaResult(LuaArray([LuaInt(code), LuaInt(counter), LuaInt(ttl)]));
      ledger := Next(cfg.conf, ledger, Check(r.ip, r.RateKey(), limit));
    }

    /** The protocol state s is the engine's, up to evictions of other addresses. */
    ghost predicate Follows(s: Shared, ip: Word)
      reads this`ledger, this`added, cache, pbox
    {
      && s.l == ledger && s.added == added
      && Tracks(cache.lru, s.cache, ip) && Tracks(pbox.lru, s.pbox, ip)
    }

    /** The decision and the state left behind are those of the protocol agent run to its end. */
    ghost predicate Ends(end: (Shared, Agent), d: Decision, source: Source, ip: Word)
      reads this`ledger, this`added, cache, pbox
    {
      end.1 == Finished(d, source) && Follows(end.0, ip)
    }

    // The eight ways a request ends. Each reports the request and lets the
    // self-healing state observe it; the three that let it through also queue it.

    /** The local cache knows a ban. */
    method EndCached(r: Request, now: int, limit: int) returns (d: Decision, source: Source)
      requires Valid()
      modifies this`events, sh
      ensures Valid() && Accounted(old(events), old(queue), old(Health()), r, now, d, source)
      ensures Finished(d, source) == Deny(cfg, Blacklisted, limit, now, CacheBlacklist)
    {
      hide BloomHolds;
      hide SelfHealing.Seen;
      RecordRequestStat(BlockedStatus, CacheBlacklist);
      d, source := NewDecision(false, Blacklisted, limit, now, cfg.conf.windowMs), CacheBlacklist;
      FinishDecision(d, now);
    }

    /** A penalised request fails the strict checks. */
    method EndForbidden(r: Request, now: int) returns (d: Decision, source: Source)
      requires Valid()
      modifies this`events, sh
      ensures Valid() && Accounted(old(events), old(queue), old(Health()), r, now, d, source)
      ensures Finished(d, source) == Forbidden(cfg, now)
    {
      hide BloomHolds;
      hide SelfHealing.Seen;
      RecordRequestStat(BlockedStatus, Source.PenaltyForbidden);
      d, source := NewDecisionWithTtl(
        false, Reason.PenaltyForbidden, 0, 1, now, FailedCheckTtl(cfg), cfg.conf.windowMs).(statusCode := 403), Source.PenaltyForbidden;
      FinishDecision(d, now);
    }

    /** The Bloom filter does not know the address. */
    method EndUnknown(r: Request, now: int, limit: int) returns (d: Decision, source: Source)
      requires Valid()
      modifies this`events, this`queue, sh
      ensures Valid() && Accounted(old(events), old(queue), old(Health()), r, now, d, source)
      ensures Finished(d, source) == Allow(cfg, Allowed, limit, now, BloomNegative)
    {
      hide BloomHolds;
      hide SelfHealing.Seen;
      RecordRequestStat(AllowedStatus, BloomNegative);
      if background {
        TryEnqueue(r, now);
      }
      d, source := NewDecision(true, Allowed, limit, now, cfg.conf.windowMs), BloomNegative;
      FinishDecision(d, now);
    }

    /** The script is not answered, and failures let requests through. */
    method EndFailOpen(r: Request, now: int, limit: int) returns (d: Decision, source: Source)
      requires Valid()
      modifies this`events, this`queue, sh
      ensures Valid() && Accounted(old(events), old(queue), old(Health()), r, now, d, source)
      ensures Finished(d, source) == Allow(cfg, FailOpen, limit, now, FailOpenAllow)
    {
      hide BloomHolds;
      hide SelfHealing.Seen;
      RecordRequestStat(AllowedStatus, FailOpenAllow);
      if background {
        TryEnqueue(r, now);
      }
      d, source := NewDecision(true, FailOpen, limit, now, cfg.conf.windowMs), FailOpenAllow;
      FinishDecision(d, now);
    }

    /** The script is not answered, and failures block requests. */
    method EndRedisError(r: Request, now: int, limit: int) returns (d: Decision, source: Source)
      requires Valid()
      modifies this`events, sh
      ensures Valid() && Accounted(old(events), old(queue), old(Health()), r, now, d, source)
      ensures Finished(d, source) == Deny(cfg, RedisError, limit, now, RedisFailure)
    {
      hide BloomHolds;
      hide SelfHealing.Seen;
      RecordRequestStat(BlockedStatus, RedisFailure);
      d, source := NewDecision(false, RedisError, limit, now, cfg.conf.windowMs), RedisFailure;
      FinishDecision(d, now);
    }

    /** The script found the limit exceeded. */
    method EndRateLimited(r: Request, now: int, limit: int, counter: int, ttl: int) returns (d: Decision, source: Source)
      requires Valid()
      modifies this`events, sh
      ensures Valid() && Accounted(old(events), old(queue), old(Health()), r, now, d, source)
      ensures source == RateLimit && d == NewDecisionWithTtl(false, RateLimited, counter, limit, now, ttl, cfg.conf.windowMs)
    {
      hide BloomHolds;
      hide SelfHealing.Seen;
      RecordRequestStat(BlockedStatus, RateLimit);
      d, source := NewDecisionWithTtl(false, RateLimited, counter, limit, now, ttl, cfg.conf.windowMs), RateLimit;
      FinishDecision(d, now);
    }

    /** The script found the request within its limit. */
    method EndAllowed(r: Request, now: int, limit: int, counter: int, ttl: int) returns (d: Decision, source: Source)
      requires Valid()
      modifies this`events, this`queue, sh
      ensures Valid() && Accounted(old(events), old(queue), old(Health()), r, now, d, source)
      ensures source == LuaAllow && d == NewDecisionWithTtl(true, Allowed, counter, limit, now, ttl, cfg.conf.windowMs)
    {
      hide BloomHolds;
      hide SelfHealing.Seen;
      RecordRequestStat(AllowedStatus, LuaAllow);
      if background {
        TryEnqueue(r, now);
      }
      d, source := NewDecisionWithTtl(true, Allowed, counter, limit, now, ttl, cfg.conf.windowMs), LuaAllow;
      FinishDecision(d, now);
    }

    /** The script found a ban: it is cached for two seconds and added to the filter. */
    method EndBlacklisted(r: Request, now: int, limit: int, counter: int, ttl: int)
      returns (d: Decision, source: Source)
      requires Valid()
      modifies this`events, this`added, sh, cache, if bf != null then {bf.words} else {}
      ensures Valid() && Accounted(old(events), old(queue), old(Health()), r, now, d, source)
      ensures source == RedisBlacklist
      ensures d == NewDecisionWithTtl(false, Blacklisted, counter, limit, now, ttl, cfg.conf.windowMs)
      ensures Submap(cache.lru, old(cache.lru)[r.ip := now + SHORT_MS]) && r.ip in cache.lru
      ensures added == if cfg.bloom && r.ip != [] then old(added) + {r.ip} else old(added)
    {
      hide BloomHolds;
      hide SelfHealing.Seen;
      hide Submap;
      RecordRequestStat(BlockedStatus, RedisBlacklist);
      cache.Blacklist(r.ip, now + SHORT_MS);
      if r.ip != [] {
        BloomAddIp(r.ip);
      }
      d := NewDecisionWithTtl(false, Blacklisted, counter, limit, now, ttl, cfg.conf.windowMs);
      source := RedisBlacklist;
      FinishDecision(d, now);
    }

    /** Last stage: the script, and what its answer means. */
    method AskRedis(r: Request, now: int, limit: int, scriptOk: bool, ghost s: Shared, ghost env: Env)
      returns (d: Decision, source: Source)
      requires Valid() && Follows(s, r.ip) && env.a.scriptOk == scriptOk
      modifies this`ledger, this`added, this`events, this`queue, redis`db, cache, sh,
               if bf != null then {bf.words} else {}
      ensures Valid() && Ends(ToEnd(cfg, s, ReqScript(r, now, limit), env), d, source, r.ip)
      ensures Accounted(old(events), old(queue), old(Health()), r, now, d, source)
    {
      hide ToEnd;
      hide Next;
      hide CheckReply;
      hide BloomHolds;
      hide Tracks;
      hide Submap;
      hide NewDecisionWithTtl;
      hide Allow;
      hide Deny;
      hide Accounted;
      if scriptOk {
        d, source := AskScript(r, now, limit, s, env);
        return;
      }
      FromScript(cfg, s, r, now, limit, env);
      if cfg.failOpen {
        d, source := EndFailOpen(r, now, limit);
      } else {
        d, source := EndRedisError(r, now, limit);
      }
    }

    /** The script answers. */
    method AskScript(r: Request, now: int, limit: int, ghost s: Shared, ghost env: Env)
      returns (d: Decision, source: Source)
      requires Valid() && Follows(s, r.ip) && env.a.scriptOk
      modifies this`ledger, this`added, this`events, this`queue, redis`db, cache, sh,
               if bf != null then {bf.words} else {}
      ensures Valid() && Ends(ToEnd(cfg, s, ReqScript(r, now, limit), env), d, source, r.ip)
      ensures Accounted(old(events), old(queue), old(Health()), r, now, d, source)
    {
      hide ToEnd;
      hide Next;
      hide CheckReply;
      hide BloomHolds;
      hide Tracks;
      hide Submap;
      hide NewDecisionWithTtl;
      hide Accounted;
      hide Allow;
      hide Deny;
      hide CacheHit;
      hide AfterLookup;
      FromScript(cfg, s, r, now, limit, env);
      var code, counter, ttl := RunScript(r, limit);
      if code == 2 {
        ghost var before := cache.lru;
        d, source := EndBlacklisted(r, now, limit, counter, ttl);
        TracksAdd(cache.lru, before, s.cache, r.ip, now + SHORT_MS);
      } else if code == 1 {
        d, source := EndRateLimited(r, now, limit, counter, ttl);
      } else {
        d, source := EndAllowed(r, now, limit, counter, ttl);
      }
    }

    /** Third stage: a request whose address the filter does not know is let through. */
    method AskBloom(r: Request, now: int, limit: int, scriptOk: bool, ghost s: Shared, ghost env: Env)
      returns (d: Decision, source: Source)
      requires Valid() && Follows(s, r.ip) && env.a.scriptOk == scriptOk
      requires r.ip != [] && (bf != null ==> env.hit == bf.Holds(r.ip))
      modifies this`ledger, this`added, this`events, this`queue, redis`db, cache, sh,
               if bf != null then {bf.words} else {}
      ensures Valid() && Ends(ToEnd(cfg, s, ReqBloom(r, now, limit), env), d, source, r.ip)
      ensures Accounted(old(events), old(queue), old(Health()), r, now, d, source)
    {
      hide ToEnd;
      hide BloomHolds;
      hide NewDecisionWithTtl;
      hide Accounted;
      hide Next;
      hide Tracks;
      hide Submap;
      hide Allow;
      FromBloom(cfg, s, r, now, limit, env);
      if bf != null {
        var hit := BloomTest(r.ip);
        if !hit {
          d, source := EndUnknown(r, now, limit);
          return;
        }
      }
      d, source := AskRedis(r, now, limit, scriptOk, s, env);
    }

    /** The filter's answer, in the protocol's terms. */
    method BloomTest(ip: Word) returns (hit: bool)
      requires Valid() && bf != null && ip != []
      ensures hit == bf.Holds(ip)
      ensures ip in added ==> hit
    {
      hit := bf.Test(ip);
      assert hit == bf.Holds(ip);
    }

    /** The local blacklist's answer, in the protocol's terms. */
    method CacheLookup(ip: Word, now: int) returns (hit: bool)
      requires Valid()
      modifies cache
      ensures Valid()
      ensures hit == CacheHit(old(cache.lru), ip, now) && cache.lru == AfterLookup(old(cache.lru), ip, now)
    {
      hide BloomHolds;
      hit := cache.IsBlacklisted(ip, now);
    }

    /** The penalty lookup as a stretch of the protocol run. */
    method LookUpPenalty(r: Request, now: int, limit: int, pttlOk: bool, ghost s: Shared, ghost env: Env)
      returns (inPenalty: bool, ghost s1: Shared)
      requires Valid() && Follows(s, r.ip) && env.a.pttlOk == pttlOk
      modifies pbox
      ensures Valid() && Follows(s1, r.ip)
      ensures ToEnd(cfg, s, ReqPbox(r, now, limit), env) ==
              ToEnd(cfg, s1, if inPenalty then ReqPenalty(r, now, limit) else ReqBloom(r, now, limit), env)
    {
      hide ToEnd;
      hide BloomHolds;
      hide AfterLookup;
      hide Tracks;
      hide Submap;
      hide CacheHit;
      hide Ttl;
      FromPbox(cfg, s, r, now, limit, env);
      TracksLookup(pbox.lru, s.pbox, r.ip, now);
      ghost var before := AfterLookup(pbox.lru, r.ip, now);
      s1 := s.(pbox := AfterLookup(s.pbox, r.ip, now));
      var ttl;
      inPenalty, ttl := IsInPenalty(r.ip, now, pttlOk);
      if inPenalty && !CacheHit(s.pbox, r.ip, now) {
        TracksAdd(pbox.lru, before, s1.pbox, r.ip, now + ttl);
        s1 := s1.(pbox := s1.pbox[r.ip := now + ttl]);
      }
    }

    /** A request that fails the strict checks is denied and its address banned. */
    method Forbid(r: Request, now: int, limit: int, banOk: bool, ghost s: Shared, ghost env: Env)
      returns (d: Decision, source: Source)
      requires Valid() && Follows(s, r.ip) && env.a.banOk == banOk
      requires r.ip != [] && !PassesPenaltyChecks(cfg, r)
      modifies this`ledger, this`added, this`events, this`queue, redis`db, cache, sh,
               if bf != null then {bf.words} else {}
      ensures Valid() && Ends(ToEnd(cfg, s, ReqPenalty(r, now, limit), env), d, source, r.ip)
      ensures Accounted(old(events), old(queue), old(Health()), r, now, d, source)
    {
      hide ToEnd;
      hide Next;
      hide BloomHolds;
      hide NewDecisionWithTtl;
      hide Accounted;
      FromPenalty(cfg, s, r, now, limit, env);
      BanIP(r.ip, FailedCheckTtl(cfg), banOk);
      d, source := EndForbidden(r, now);
    }

    /** Second stage: the penalty box. */
    method AskPenalty(
      r: Request, now: int, limit: int, answers: Answers, ghost s: Shared, ghost env: Env)
      returns (d: Decision, source: Source)
      requires Valid() && Follows(s, r.ip)
      requires env.a == answers
      requires r.ip != [] && (bf != null ==> env.hit == bf.Holds(r.ip))
      modifies this`ledger, this`added, this`events, this`queue, redis`db, cache, pbox, sh,
               if bf != null then {bf.words} else {}
      ensures Valid() && Ends(ToEnd(cfg, s, ReqPbox(r, now, limit), env), d, source, r.ip)
      ensures Accounted(old(events), old(queue), old(Health()), r, now, d, source)
    {
      hide ToEnd;
      hide BloomHolds;
      hide Follows;
      hide Ends;
      hide Accounted;
      var inPenalty, s1 := LookUpPenalty(r, now, limit, answers.pttlOk, s, env);
      var effectiveLimit := limit;
      if inPenalty {
        if !PassesPenaltyChecks(cfg, r) {
          d, source := Forbid(r, now, limit, answers.banOk, s1, env);
          return;
        }
        FromPenalty(cfg, s1, r, now, limit, env);
        if effectiveLimit > 1 {
          effectiveLimit := 1;
        }
      }
      d, source := AskBloom(r, now, effectiveLimit, answers.scriptOk, s1, env);
    }

    /** The whole decision under a limit, starting with the local blacklist. */
    method Decide(
      r: Request, now: int, limit: int, answers: Answers, ghost s: Shared, ghost env: Env)
      returns (d: Decision, source: Source)
      requires Valid() && Follows(s, r.ip)
      requires env.a == answers
      requires bf != null && r.ip != [] ==> env.hit == bf.Holds(r.ip)
      modifies this`ledger, this`added, this`events, this`queue, redis`db, cache, pbox, sh,
               if bf != null then {bf.words} else {}
      ensures Valid() && Ends(ToEnd(cfg, s, ReqCache(r, now, limit), env), d, source, r.ip)
      ensures Accounted(old(events), old(queue), old(Health()), r, now, d, source)
    {
      hide ToEnd;
      hide Accounted;
      hide BloomHolds;
      hide Next;
      hide Tracks;
      hide Submap;
      hide Deny;
      hide CacheHit;
      hide AfterLookup;
      FromCache(cfg, s, r, now, limit, env);
      if r.ip == [] {
        d, source := AskRedis(r, now, limit, answers.scriptOk, s, env);
        return;
      }
      TracksLookup(cache.lru, s.cache, r.ip, now);
      var cached := CacheLookup(r.ip, now);
      ghost var looked := s.(cache := AfterLookup(s.cache, r.ip, now));
      assert Follows(looked, r.ip);
      if cached {
        d, source := EndCached(r, now, limit);
        return;
      }
      d, source := AskPenalty(r, now, limit, answers, looked, env);
    }

    /** The decision under a limit, and what it amounts to. */
    method Answer(r: Request, limit: int, answers: Answers, ghost s: Shared, ghost env: Env)
      returns (d: Decision, source: Source)
      requires Valid() && Follows(s, r.ip) && s.l.now == redis.now
      requires env.a == answers
      requires bf != null && r.ip != [] ==> env.hit == bf.Holds(r.ip)
      modifies this`ledger, this`added, this`events, this`queue, redis`db, cache, pbox, sh,
               if bf != null then {bf.words} else {}
      ensures Valid() && Ends(ToEnd(cfg, s, ReqCache(r, redis.now, limit), env), d, source, r.ip)
      ensures Accounted(old(events), old(queue), old(Health()), r, redis.now, d, source)
      ensures (d, source) == DecisionTable.Expected(cfg, s, r, limit, env)
      ensures DecisionTable.LeavesInRedis(cfg, s, r, env, ledger)
      ensures d.reason == FailOpen ==> d.allowed
      ensures BannedAt(cfg, s, r.ip) && r.ip != [] && env.a.scriptOk && (cfg.bloom ==> env.hit) ==> !d.allowed
    {
      hide ToEnd;
      hide DecisionTable.Expected;
      hide DecisionTable.LeavesInRedis;
      hide BloomHolds;
      hide Follows;
      hide Ends;
      hide Accounted;
      hide BannedAt;
      d, source := Decide(r, redis.now, limit, answers, s, env);
      DeniedIfBanned(s, r, limit, env, d, source);
      InTable(s, r, limit, env, d, source);
    }

    /** One request. The environment decides which Redis calls are answered. */
    method Process(r: Request, answers: Answers)
      returns (d: Decision, source: Source, ghost limit: int, ghost env: Env)
      requires Valid()
      modifies this`queue, this`events, this`ledger, this`added, redis`db, cache, pbox, sh,
               if bf != null then {bf.words} else {}
      ensures Valid()
      // The limit in force, and what the environment and the filter answered.
      ensures 1 <= limit <= cfg.maxRequests && (sh == null ==> limit == cfg.maxRequests)
      ensures sh != null ==>
                limit == SelfHealing.LimitAfter(sh.cfg, old(sh.Snapshot()), r.ip, cfg.maxRequests, redis.now)
      ensures env == Env(answers, bf != null && r.ip != [] && old(bf != null && bf.Holds(r.ip)))
      // The decision and the shared state are those of one uninterrupted protocol run.
      ensures Ends(ToEnd(cfg, old(View()), ReqCache(r, redis.now, limit), env), d, source, r.ip)
      // The decision and what is left in Redis are those of the table over raw fields.
      ensures (d, source) == DecisionTable.Expected(cfg, old(View()), r, limit, env)
      ensures DecisionTable.LeavesInRedis(cfg, old(View()), r, env, ledger)
      // A banned address that the filter reports is never let through by an answered script.
      ensures old(BannedAt(cfg, View(), r.ip)) && r.ip != [] && answers.scriptOk && (bf != null ==> env.hit) ==>
                !d.allowed
      // Exactly one request event, one observation and at most one queued snapshot.
      ensures events == old(events) + [EventOf(d, source)]
      ensures sh != null ==>
                sh.Snapshot() == SelfHealing.Seen(sh.cfg,
                  SelfHealing.Asked(sh.cfg, old(sh.Snapshot()), r.ip, cfg.maxRequests, redis.now), IsClean(d), redis.now)
      ensures sh != null ==>
                var asked := SelfHealing.Asked(sh.cfg, old(sh.Snapshot()), r.ip, cfg.maxRequests, redis.now);
                sh.total == asked.total + 1 && sh.clean == asked.clean + (if d.allowed then 1 else 0)
      ensures queue == if d.allowed && background && |old(queue)| < queueSize
                       then old(queue) + [Snapshot(r, redis.now)] else old(queue)
    {
      hide ToEnd;
      hide DecisionTable.Expected;
      hide DecisionTable.LeavesInRedis;
      hide BloomHolds;
      hide Follows;
      hide Ends;
      hide SelfHealing.Asked;
      hide SelfHealing.Seen;
      hide SelfHealing.LimitAfter;
      hide SelfHealing.Inv;
      hide BannedAt;
      hide IsClean;
      hide EventOf;
      hide Tracks;
      hide Submap;
      hide Accounted;
      hide Health;
      env := Env(answers, bf != null && r.ip != [] && bf != null && bf.Holds(r.ip));
      ghost var s := View();
      FollowsView(r.ip);
      var effectiveLimit := EffectiveLimit(r.ip);
      limit := effectiveLimit;
      ghost var events0, queue0, health0 := events, queue, Health();
      HealthIs();
      d, source := Answer(r, effectiveLimit, answers, s, env);
      Unpack(events0, queue0, health0, r, redis.now, d, source);
      if sh != null {
        CleanGrows(sh.cfg, old(sh.Snapshot()), r.ip, cfg.maxRequests, redis.now, d);
      }
    }

    lemma HealthIs()
      ensures sh != null ==> Health() == Some(sh.Snapshot())
    {
    }

    lemma Unpack(
      events0: seq<RequestEvent>, queue0: seq<Snapshot>, health0: Option<SelfHealing.State>,
      r: Request, now: int, d: Decision, source: Source)
      requires Accounted(events0, queue0, health0, r, now, d, source)
      ensures events == events0 + [EventOf(d, source)]
      ensures queue == if d.allowed && background && |queue0| < queueSize then queue0 + [Snapshot(r, now)] else queue0
      ensures sh != null ==>
                health0.Some? && sh.Snapshot() == SelfHealing.Seen(sh.cfg, health0.value, IsClean(d), now)
    {
    }

    lemma InTable(s: Shared, r: Request, limit: int, env: Env, d: Decision, source: Source)
      requires Ends(ToEnd(cfg, s, ReqCache(r, s.l.now, limit), env), d, source, r.ip)
      ensures (d, source) == DecisionTable.Expected(cfg, s, r, limit, env)
      ensures DecisionTable.LeavesInRedis(cfg, s, r, env, ledger)
      ensures d.reason == FailOpen ==> d.allowed
    {
      hide ToEnd;
      hide DecisionTable.LeavesInRedis;
      DecisionTable.TableIsExact(cfg, s, r, limit, env);
      DecisionTable.LeavesExactly(cfg, s, r, limit, env);
    }

    lemma DeniedIfBanned(s: Shared, r: Request, limit: int, env: Env, d: Decision, source: Source)
      requires Ends(ToEnd(cfg, s, ReqCache(r, s.l.now, limit), env), d, source, r.ip)
      ensures BannedAt(cfg, s, r.ip) && r.ip != [] && env.a.scriptOk && (cfg.bloom ==> env.hit) ==> !d.allowed
    {
      hide ToEnd;
      hide BannedAt;
      if BannedAt(cfg, s, r.ip) && r.ip != [] && env.a.scriptOk && (cfg.bloom ==> env.hit) {
        BannedIsDenied(cfg, s, r, limit, env);
      }
    }

    // -------------------------------------------------------------------
    // The background job
    // -------------------------------------------------------------------

    /** Puts an address in the penalty box: Redis, then the local box. */
    method SetPenalty(ip: Word, ttl: int, ok: bool)
      requires Valid()
      modifies this`ledger, redis`db, pbox
      ensures Valid()
      ensures !ok || ip == [] ==> ledger == old(ledger) && pbox.lru == old(pbox.lru)
      ensures ok && ip != [] ==>
                && ledger == Next(cfg.conf, old(ledger), Penalise(ip, ttl))
                && Submap(pbox.lru, old(pbox.lru)[ip := redis.now + ttl]) && ip in pbox.lru
    {
      hide Next;
      hide BloomHolds;
      hide Submap;
      if ip == [] || !ok {
        return;
      }
      redis.SetPx(PboxKey(cfg.conf.prefix, ip), MEMBER, ttl);
      OpNext(cfg.conf, ledger, Penalise(ip, ttl));
      ledger := Next(cfg.conf, ledger, Penalise(ip, ttl));
      pbox.Blacklist(ip, redis.now + ttl);
    }

    /** The reputation script under the keys of the address. */
    method ApplyReputationScore(ip: Word, field: Word, score: real)
      returns (action: int, banTtl: int, attempts: int)
      requires Valid()
      modifies this`ledger, redis`db
      ensures Valid()
      ensures ledger == Next(cfg.conf, old(ledger), Judge(ip, field, score))
      ensures var reply := JudgeReply(cfg.conf, old(ledger).now, old(ledger).db, ip, field, score);
              action == reply.action && banTtl == reply.banTtl && attempts == reply.attempts
    {
      hide Next;
      hide Reputation;
      hide ReputationDb;
      hide BloomHolds;
      var p := cfg.conf.prefix;
      var total;
      total, action, banTtl, attempts := redis.ReputationScript(
        RepKey(p), PboxKey(p, ip), BlKey(p, ip), AttemptsKey(p, ip), field, score, cfg.conf.rep);
      OpNext(cfg.conf, ledger, Judge(ip, field, score));
      ledger := Next(cfg.conf, ledger, Judge(ip, field, score));
    }

    /** A positive score reaches the reputation script, or the plain threshold. */
    method UseScore(ip: Word, field: Word, score: real, answers: Answers, ghost s: Shared, ghost env: Env)
      returns (ghost s1: Shared)
      requires Valid() && Follows(s, ip) && env.a == answers && ip != [] && score > 0.0
      modifies this`ledger, this`added, redis`db, cache, pbox, if bf != null then {bf.words} else {}
      ensures Valid() && Follows(s1, ip)
      ensures ToEnd(cfg, s, JobScore(ip, field, score), env) == ToEnd(cfg, s1, JobAdaptive(ip), env)
    {
      hide ToEnd;
      hide Next;
      hide Reputation;
      hide BloomHolds;
      hide Tracks;
      hide Submap;
      FromScore(cfg, s, ip, field, score, env);
      s1 := s;
      if cfg.reputation {
        if answers.scriptOk {
          var action, banTtl, attempts := ApplyReputationScore(ip, field, score);
          s1 := s.(l := ledger);
          if action == 1 {
            s1 := Penalty(ip, cfg.conf.rep.penaltyTtl, answers.penaltyOk, s1, env);
          } else if action == 2 {
            ghost var before := cache.lru;
            cache.Blacklist(ip, redis.now + banTtl);
            TracksAdd(cache.lru, before, s.cache, ip, redis.now + banTtl);
            BloomAddIp(ip);
            s1 := s1.(cache := s.cache[ip := redis.now + banTtl], added := added);
          }
        }
      } else if score >= cfg.scoreThreshold {
        s1 := Penalty(ip, cfg.penaltyTtl, answers.penaltyOk, s, env);
      }
    }

    /** SetPenalty as a stretch of the protocol run. */
    method Penalty(ip: Word, ttl: int, ok: bool, ghost s: Shared, ghost env: Env) returns (ghost s1: Shared)
      requires Valid() && Follows(s, ip) && env.a.penaltyOk == ok && ip != []
      modifies this`ledger, redis`db, pbox
      ensures Valid() && Follows(s1, ip)
      ensures ToEnd(cfg, s, PenaltySet(ip, ttl, JobAdaptive(ip)), env) == ToEnd(cfg, s1, JobAdaptive(ip), env)
    {
      hide ToEnd;
      hide Next;
      hide BloomHolds;
      hide Tracks;
      hide Submap;
      FromPenaltySet(cfg, s, ip, ttl, env);
      ghost var before := pbox.lru;
      SetPenalty(ip, ttl, ok);
      s1 := s;
      if ok {
        TracksAdd(pbox.lru, before, s.pbox, ip, redis.now + ttl);
        s1 := s.(l := ledger, pbox := s.pbox[ip := redis.now + ttl]);
      }
    }

    /** Counts the threat, and bans the address from the threshold on. */
    method AdaptiveBan(ip: Word, answers: Answers, ghost s: Shared, ghost env: Env)
      requires Valid() && Follows(s, ip) && env.a == answers && ip != []
      modifies this`ledger, this`added, redis`db, cache, if bf != null then {bf.words} else {}
      ensures Valid() && Follows(ToEnd(cfg, s, JobAdaptive(ip), env).0, ip)
    {
      hide ToEnd;
      hide Next;
      hide BloomHolds;
      hide Bumped;
      hide Tracks;
      hide Submap;
      FromAdaptive(cfg, s, ip, env);
      if !cfg.adaptive || !answers.threatOk {
        return;
      }
      var count := CountThreat(ip);
      if count >= cfg.threatThreshold {
        ghost var before := cache.lru;
        BanIP(ip, cfg.adaptiveBanTtl, answers.banOk);
        if answers.banOk {
          TracksAdd(cache.lru, before, s.cache, ip, redis.now + cfg.adaptiveBanTtl);
        }
      }
    }

    /** INCR and, every time, PEXPIRE of the threat counter. */
    method CountThreat(ip: Word) returns (count: int)
      requires Valid()
      modifies this`ledger, redis`db
      ensures Valid()
      ensures ledger == Next(cfg.conf, old(ledger), Threat(ip))
      ensures count == Bumped(old(ledger).db, ThreatKey(cfg.conf.prefix, ip), old(ledger).now, cfg.conf.threatWindow).value
    {
      hide Next;
      hide BloomHolds;
      hide Bumped;
      var threatKey := ThreatKey(cfg.conf.prefix, ip);
      count := redis.Incr(threatKey);
      redis.PExpireInt(threatKey, cfg.conf.threatWindow);
      ThreatNext(cfg.conf, ledger, redis.db, ip, count);
      ledger := Next(cfg.conf, ledger, Threat(ip));
    }

    /** One background job: all scores are added, and the sum is one protocol run. */
    method ProcessSnapshot(
      ip: Word, field: Word, http: Scoring.Request, ruleScores: seq<int>, evaluatorScores: seq<real>,
      behavior: int, answers: Answers)
      returns (ghost score: real, ghost anyOrder: seq<Word>, ghost headerOrder: seq<Word>)
      requires Valid() && (ev.InForce() != null ==> ev.InForce().Valid())
      modifies this`ledger, this`added, redis`db, cache, pbox, ev`compiled, if bf != null then {bf.words} else {}
      ensures Valid()
      ensures Scoring.IsOrder(http.header, anyOrder) && Scoring.IsOrder(http.header, headerOrder)
      ensures var signatures := if old(ev.compiled) == null || ev.compiled == null then 0
                                else Ruleset.Wrap64(Scoring.CompiledScore(ev.compiled, http, anyOrder, headerOrder));
              score == IntTotal(ruleScores) as real + Total(evaluatorScores) + (signatures + behavior) as real
      ensures Follows(ToEnd(cfg, old(View()), JobScore(ip, field, score), Env(answers, false)).0, ip)
      // What is left in Redis is that of the job's table over raw fields.
      ensures BanTtlsPositive(cfg) && score > 0.0 && ip != [] ==>
                JobTable.JobLeavesInRedis(cfg, old(View()), ip, field, score, Env(answers, false), ledger)
      // A score over the threshold bans, in Redis and for this engine's own filter.
      ensures BanTtlsPositive(cfg) && Counted(cfg, ip, score, Env(answers, false)) &&
              NewScore(cfg, old(View()), field, score) >= cfg.conf.rep.threshold ==>
                BannedAt(cfg, View(), ip) && (bf != null ==> bf.Holds(ip))
    {
      hide ToEnd;
      hide BloomHolds;
      hide Follows;
      hide Scoring.IsOrder;
      hide Scoring.CompiledScore;
      hide Ruleset.Wrap64;
      hide BannedAt;
      hide NewScore;
      hide Counted;
      hide JobTable.JobLeavesInRedis;
      hide Total;
      hide IntTotal;
      ghost var s := View();
      FollowsView(ip);
      var sum;
      sum, anyOrder, headerOrder := SumScores(http, ruleScores, evaluatorScores, behavior);
      score := sum;
      ActOnScore(ip, field, sum, answers, s, Env(answers, false));
      OffenderIsBanned(s, ip, field, sum, Env(answers, false));
      JobInTable(s, ip, field, sum, Env(answers, false));
    }

    lemma JobInTable(s: Shared, ip: Word, field: Word, score: real, env: Env)
      requires Follows(ToEnd(cfg, s, JobScore(ip, field, score), env).0, ip)
      ensures BanTtlsPositive(cfg) && score > 0.0 && ip != [] ==>
                JobTable.JobLeavesInRedis(cfg, s, ip, field, score, env, ledger)
    {
      hide ToEnd;
      hide JobTable.JobLeavesInRedis;
      if BanTtlsPositive(cfg) {
        JobTable.JobLeavesExactly(cfg, s, ip, field, score, env);
      }
    }

    lemma OffenderIsBanned(s: Shared, ip: Word, field: Word, score: real, env: Env)
      requires Valid() && Follows(ToEnd(cfg, s, JobScore(ip, field, score), env).0, ip)
      ensures BanTtlsPositive(cfg) && Counted(cfg, ip, score, env) &&
              NewScore(cfg, s, field, score) >= cfg.conf.rep.threshold ==>
                BannedAt(cfg, View(), ip) && (bf != null ==> bf.Holds(ip))
    {
      hide ToEnd;
      hide Banned;
      hide NewScore;
      hide Counted;
      if BanTtlsPositive(cfg) && Counted(cfg, ip, score, env) && NewScore(cfg, s, field, score) >= cfg.conf.rep.threshold {
        ScoreBansIff(cfg, s, ip, field, score, env);
      }
    }

    /** The job once its score is known. */
    method ActOnScore(ip: Word, field: Word, score: real, answers: Answers, ghost s: Shared, ghost env: Env)
      requires Valid() && Follows(s, ip) && env.a == answers
      modifies this`ledger, this`added, redis`db, cache, pbox, if bf != null then {bf.words} else {}
      ensures Valid() && Follows(ToEnd(cfg, s, JobScore(ip, field, score), env).0, ip)
    {
      hide ToEnd;
      hide BloomHolds;
      hide Follows;
      hide Next;
      hide JudgeReply;
      FromScore(cfg, s, ip, field, score, env);
      if score <= 0.0 {
        return;
      }
      if ip == [] {
        return;
      }
      ghost var s1 := UseScore(ip, field, score, answers, s, env);
      AdaptiveBan(ip, answers, s1, env);
    }

    /** The scores of the rules, the evaluators, the signature rules and the
        behaviour tracker, in this order. */
    method SumScores(http: Scoring.Request, ruleScores: seq<int>, evaluatorScores: seq<real>, behavior: int)
      returns (score: real, ghost anyOrder: seq<Word>, ghost headerOrder: seq<Word>)
      requires ev.InForce() != null ==> ev.InForce().Valid()
      modifies ev`compiled
      ensures Scoring.IsOrder(http.header, anyOrder) && Scoring.IsOrder(http.header, headerOrder)
      ensures var signatures := if old(ev.compiled) == null || ev.compiled == null then 0
                                else Ruleset.Wrap64(Scoring.CompiledScore(ev.compiled, http, anyOrder, headerOrder));
              score == IntTotal(ruleScores) as real + Total(evaluatorScores) + (signatures + behavior) as real
    {
      hide Scoring.CompiledScore;
      hide Ruleset.Wrap64;
      score := 0.0;
      for n := 0 to |ruleScores|
        invariant score == IntTotal(ruleScores[..n]) as real
      {
        score := score + ruleScores[n] as real;
        assert ruleScores[..n + 1][..n] == ruleScores[..n];
      }
      assert ruleScores[..|ruleScores|] == ruleScores;
      for n := 0 to |evaluatorScores|
        invariant score == IntTotal(ruleScores) as real + Total(evaluatorScores[..n])
      {
        score := score + evaluatorScores[n];
        assert evaluatorScores[..n + 1][..n] == evaluatorScores[..n];
      }
      assert evaluatorScores[..|evaluatorScores|] == evaluatorScores;
      anyOrder := Scoring.SomeOrder(http.header, http.header.Keys);
      headerOrder := anyOrder;
      if ev.compiled != null {
        var signatures;
        signatures, anyOrder, headerOrder := ev.EvaluateRuleset(http);
        score := score + signatures as real;
      }
      score := score + behavior as real;
    }

    lemma FollowsView(ip: Word)
      ensures Follows(View(), ip)
    {
    }
  }

  /** One observation right after one question does not start another window. */
  lemma CleanGrows(cfg: SelfHealing.Config, before: SelfHealing.State, ip: Word, base: int, now: int, d: Decision)
    requires cfg.Ok() && (d.reason == FailOpen ==> d.allowed)
    ensures var asked := SelfHealing.Asked(cfg, before, ip, base, now);
            var seen := SelfHealing.Seen(cfg, asked, IsClean(d), now);
            seen.total == asked.total + 1 && seen.clean == asked.clean + (if d.allowed then 1 else 0)
  {
    hide SelfHealing.SpikeRatio;
  }

  /** Every added address tests positive. */
  ghost predicate BloomHolds(bf: Bloom.Filter, added: set<Word>)
    requires bf.Valid()
    reads bf.words
  {
    forall ip :: ip in added ==> ip != [] && bf.Holds(ip)
  }

  /** What an operation other than waiting does to the store. */
  lemma OpNext(conf: Conf, l: Ledger, op: Op)
    requires !op.Wait?
    ensures Next(conf, l, op).now == l.now && Next(conf, l, op).db == OpDb(conf, l.now, l.db, op)
  {
  }

  /** INCR followed by an unconditional PEXPIRE. */
  lemma ThreatNext(conf: Conf, l: Ledger, after: Db, ip: Word, count: int)
    requires var k := ThreatKey(conf.prefix, ip);
             && count == (if Alive(l.db.ints, k, l.now) then l.db.ints[k].value + 1 else 1)
             && var incremented := l.db.(ints := l.db.ints[k :=
                  Entry(count, if Alive(l.db.ints, k, l.now) then l.db.ints[k].expiry else None)]);
                after == if Alive(incremented.ints, k, l.now)
                         then incremented.(ints := incremented.ints[k :=
                                incremented.ints[k].(expiry := Some(l.now + conf.threatWindow))])
                         else incremented
    ensures var l' := Next(conf, l, Threat(ip));
            && l'.now == l.now && l'.db == after
            && count == Bumped(l.db, ThreatKey(conf.prefix, ip), l.now, conf.threatWindow).value
  {
  }

  /** Totals are sums: nothing for nothing, the score for one, and additive. */
  lemma {:induction false} TotalsAdd(a: seq<int>, b: seq<int>, x: seq<real>, y: seq<real>)
    ensures IntTotal(a + b) == IntTotal(a) + IntTotal(b) && Total(x + y) == Total(x) + Total(y)
    ensures (|a| == 1 ==> IntTotal(a) == a[0]) && (|x| == 1 ==> Total(x) == x[0])
    decreases |b| + |y|
  {
    if b != [] {
      TotalsAdd(a, b[..|b| - 1], x, y);
      assert (a + b)[..|a + b| - 1] == a + b[..|b| - 1];
    } else if y != [] {
      TotalsAdd(a, b, x, y[..|y| - 1]);
      assert (x + y)[..|x + y| - 1] == x + y[..|y| - 1];
    } else {
      assert a + b == a && x + y == x;
    }
  }

  function IntTotal(scores: seq<int>): int {
    if scores == [] then 0 else IntTotal(scores[..|scores| - 1]) + scores[|scores| - 1]
  }

  function Total(scores: seq<real>): real {
    if scores == [] then 0.0 else Total(scores[..|scores| - 1]) + scores[|scores| - 1]
  }
}
