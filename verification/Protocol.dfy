/** The engine as a protocol: every request and every background job is an agent
    that takes atomic steps on Redis, the local LRU caches and the Bloom filter
    (engine_process.go, engine_penalty.go, engine_background.go). */
module Protocol {
  import opened Words
  import opened Wrappers
  import opened Store
  import opened Ledger
  import opened Decisions

  datatype Config = Config(
    conf: Conf, maxRequests: int, failOpen: bool, bloom: bool, reputation: bool,
    penaltyTtl: int, penaltyBanTtl: int, scoreThreshold: real,
    requireUserAgent: bool, requireReferer: bool,
    adaptive: bool, threatThreshold: int, adaptiveBanTtl: int)

  /** What the engine reads from a request; blank headers count as absent. */
  datatype Request = Request(ip: Word, key: Word, userAgent: bool, referer: bool) {
    function RateKey(): Word {
      if key == [] then ip else key
    }
  }

  datatype Source =
    CacheBlacklist | PenaltyForbidden | BloomNegative | FailOpenAllow | RedisFailure | RedisBlacklist | RateLimit | LuaAllow

  /** Redis with its clock and history, the two local caches (address to expiry),
      and the addresses whose Bloom write has completed. */
  datatype Shared = Shared(l: Ledger, cache: map<Word, int>, pbox: map<Word, int>, added: set<Word>)

  datatype Agent =
    | ReqCache(r: Request, t: int, limit: int)
    | ReqPbox(r: Request, t: int, limit: int)
    | ReqPttl(r: Request, t: int, limit: int)
    | ReqPboxWrite(r: Request, t: int, limit: int, ttl: int)
    | ReqPenalty(r: Request, t: int, limit: int)
    | ReqBloom(r: Request, t: int, limit: int)
    | ReqScript(r: Request, t: int, limit: int)
    | CacheShort(ip: Word, until: int, after: Agent)
    | BanWrite(ip: Word, ttl: int, after: Agent)
    | BanCache(ip: Word, ttl: int, after: Agent)
    | BloomAdd(ip: Word, after: Agent)
    | JobScore(ip: Word, field: Word, score: real)
    | PenaltySet(ip: Word, ttl: int, after: Agent)
    | PenaltyBox(ip: Word, ttl: int, after: Agent)
    | JobAdaptive(ip: Word)
    | Finished(d: Decision, source: Source)
    | JobDone

  /** What the environment decides at a step: whether Redis answers, and whether
      an address that was not added collides in the Bloom filter. */
  datatype Choice = Choice(redisOk: bool, collides: bool)

  const SHORT_MS: int := 2000

  function PenaltyTtl(cfg: Config): int {
    if cfg.reputation then cfg.conf.rep.penaltyTtl else cfg.penaltyTtl
  }

  function FailedCheckTtl(cfg: Config): int {
    if cfg.reputation then cfg.conf.rep.ban3 else cfg.penaltyBanTtl
  }

  predicate PassesPenaltyChecks(cfg: Config, r: Request) {
    (cfg.requireUserAgent ==> r.userAgent) && (cfg.requireReferer ==> r.referer)
  }

  predicate CacheHit(cache: map<Word, int>, ip: Word, t: int) {
    ip in cache && cache[ip] > t
  }

  /** A lookup removes an entry that has expired. */
  function AfterLookup(cache: map<Word, int>, ip: Word, t: int): map<Word, int> {
    if ip in cache && cache[ip] <= t then cache - {ip} else cache
  }

  function MinLimit(limit: int): int {
    if limit > 1 then 1 else limit
  }

  function Deny(cfg: Config, reason: Reason, limit: int, t: int, source: Source): Agent {
    Finished(NewDecision(false, reason, limit, t, cfg.conf.windowMs), source)
  }

  function Allow(cfg: Config, reason: Reason, limit: int, t: int, source: Source): Agent {
    Finished(NewDecision(true, reason, limit, t, cfg.conf.windowMs), source)
  }

  function Forbidden(cfg: Config, t: int): Agent {
    Finished(
      NewDecisionWithTtl(false, Reason.PenaltyForbidden, 0, 1, t, FailedCheckTtl(cfg), cfg.conf.windowMs).(statusCode := 403),
      Source.PenaltyForbidden)
  }

  function AddToBloom(cfg: Config, ip: Word, after: Agent): Agent {
    if cfg.bloom && ip != [] then BloomAdd(ip, after) else after
  }

  /** Where a request goes once the script has answered. */
  function AfterScript(cfg: Config, r: Request, t: int, limit: int, reply: CriticalReply): Agent {
    var w := cfg.conf.windowMs;
    if reply.code == 2 then
      CacheShort(r.ip, t + SHORT_MS, AddToBloom(cfg, r.ip,
        Finished(NewDecisionWithTtl(false, Blacklisted, reply.counter, limit, t, reply.ttl, w), RedisBlacklist)))
    else if reply.code == 1 then
      Finished(NewDecisionWithTtl(false, RateLimited, reply.counter, limit, t, reply.ttl, w), RateLimit)
    else
      Finished(NewDecisionWithTtl(true, Allowed, reply.counter, limit, t, reply.ttl, w), LuaAllow)
  }

  /** The Redis operation that an agent's next step performs, if any. */
  function RedisOp(cfg: Config, a: Agent, c: Choice): Option<Op> {
    if !c.redisOk then None
    else
      match a
      case ReqScript(r, _, limit) => Some(Check(r.ip, r.RateKey(), limit))
      case BanWrite(ip, ttl, _) => if ip == [] then None else Some(Ban(ip, ttl))
      case JobScore(ip, field, score) =>
        if score > 0.0 && ip != [] && cfg.reputation then Some(Judge(ip, field, score)) else None
      case PenaltySet(ip, ttl, _) => if ip == [] then None else Some(Penalise(ip, ttl))
      case JobAdaptive(ip) => if cfg.adaptive then Some(Threat(ip)) else None
      case _ => None
  }

  function LedgerAfter(cfg: Config, l: Ledger, op: Option<Op>): Ledger {
    if op.Some? then Next(cfg.conf, l, op.value) else l
  }

  /** Where an agent is after its step. */
  function AgentAfter(cfg: Config, s: Shared, a: Agent, c: Choice): Agent {
    var l := s.l;
    var p := cfg.conf.prefix;
    match a
    case ReqCache(r, t, limit) =>
      if r.ip == [] then ReqScript(r, t, limit)
      else if CacheHit(s.cache, r.ip, t) then Deny(cfg, Blacklisted, limit, t, CacheBlacklist)
      else ReqPbox(r, t, limit)
    case ReqPbox(r, t, limit) =>
      if CacheHit(s.pbox, r.ip, t) then ReqPenalty(r, t, limit) else ReqPttl(r, t, limit)
    case ReqPttl(r, t, limit) =>
      var ttl := Ttl(l.db.strings, PboxKey(p, r.ip), l.now);
      if !c.redisOk || ttl <= 0 then ReqBloom(r, t, limit) else ReqPboxWrite(r, t, limit, ttl)
    case ReqPboxWrite(r, t, limit, _) => ReqPenalty(r, t, limit)
    case ReqPenalty(r, t, limit) =>
      if PassesPenaltyChecks(cfg, r) then ReqBloom(r, t, MinLimit(limit))
      else BanWrite(r.ip, FailedCheckTtl(cfg), Forbidden(cfg, t))
    case ReqBloom(r, t, limit) =>
      if cfg.bloom && !(r.ip in s.added || c.collides) then Allow(cfg, Allowed, limit, t, BloomNegative)
      else ReqScript(r, t, limit)
    case ReqScript(r, t, limit) =>
      if !c.redisOk then
        (if cfg.failOpen then Allow(cfg, FailOpen, limit, t, FailOpenAllow)
         else Deny(cfg, RedisError, limit, t, RedisFailure))
      else AfterScript(cfg, r, t, limit, CheckReply(cfg.conf, l.now, l.db, r.ip, r.RateKey(), limit))
    case CacheShort(_, _, after) => after
    case BanWrite(ip, ttl, after) => if c.redisOk && ip != [] then BanCache(ip, ttl, after) else after
    case BanCache(ip, _, after) => AddToBloom(cfg, ip, after)
    case BloomAdd(_, after) => after
    case JobScore(ip, field, score) =>
      if score <= 0.0 || ip == [] then JobDone
      else if cfg.reputation then
        if !c.redisOk then JobAdaptive(ip)
        else
          var reply := JudgeReply(cfg.conf, l.now, l.db, ip, field, score);
          if reply.action == 1 then PenaltySet(ip, cfg.conf.rep.penaltyTtl, JobAdaptive(ip))
          else if reply.action == 2 then BanCache(ip, reply.banTtl, JobAdaptive(ip))
          else JobAdaptive(ip)
      else if score >= cfg.scoreThreshold then PenaltySet(ip, cfg.penaltyTtl, JobAdaptive(ip))
      else JobAdaptive(ip)
    case PenaltySet(ip, ttl, after) => if c.redisOk && ip != [] then PenaltyBox(ip, ttl, after) else after
    case PenaltyBox(_, _, after) => after
    case JobAdaptive(ip) =>
      if cfg.adaptive && c.redisOk &&
         Bumped(l.db, ThreatKey(p, ip), l.now, cfg.conf.threatWindow).value >= cfg.threatThreshold
      then BanWrite(ip, cfg.adaptiveBanTtl, JobDone) else JobDone
    case Finished(_, _) => a
    case JobDone => a
  }

  /** What the step does to the shared state. */
  function SharedAfter(cfg: Config, s: Shared, a: Agent, c: Choice): Shared {
    var s' := s.(l := LedgerAfter(cfg, s.l, RedisOp(cfg, a, c)));
    match a
    case ReqCache(r, t, _) => if r.ip == [] then s' else s'.(cache := AfterLookup(s.cache, r.ip, t))
    case ReqPbox(r, t, _) => s'.(pbox := AfterLookup(s.pbox, r.ip, t))
    case ReqPboxWrite(r, t, _, ttl) => s'.(pbox := s.pbox[r.ip := t + ttl])
    case CacheShort(ip, until, _) => s'.(cache := s.cache[ip := until])
    case BanCache(ip, ttl, _) => s'.(cache := s.cache[ip := s.l.now + ttl])
    case BloomAdd(ip, _) => s'.(added := s.added + {ip})
    case PenaltyBox(ip, ttl, _) => s'.(pbox := s.pbox[ip := s.l.now + ttl])
    case _ => s'
  }

  // ---------------------------------------------------------------------
  // Runs
  // ---------------------------------------------------------------------

  datatype Sys = Sys(s: Shared, agents: seq<Agent>)

  datatype Action =
    | Arrive(r: Request, limit: int)
    | Analyse(ip: Word, field: Word, score: real)
    | Go(i: nat, c: Choice)
    | Tick(d: nat)
    | EvictCache(ip: Word)
    | EvictPbox(ip: Word)
    | Foreign(op: Op)

  /** One action. A request notes the time of its arrival. */
  function Act(cfg: Config, sys: Sys, a: Action): Sys {
    var s := sys.s;
    match a
    case Arrive(r, limit) => sys.(agents := sys.agents + [ReqCache(r, s.l.now, limit)])
    case Analyse(ip, field, score) => sys.(agents := sys.agents + [JobScore(ip, field, score)])
    case Go(i, c) =>
      if i >= |sys.agents| then sys
      else Sys(SharedAfter(cfg, s, sys.agents[i], c), sys.agents[i := AgentAfter(cfg, s, sys.agents[i], c)])
    case Tick(d) => sys.(s := s.(l := Next(cfg.conf, s.l, Wait(d))))
    case EvictCache(ip) => sys.(s := s.(cache := s.cache - {ip}))
    case EvictPbox(ip) => sys.(s := s.(pbox := s.pbox - {ip}))
    case Foreign(op) => if op.Wait? then sys else sys.(s := s.(l := Next(cfg.conf, s.l, op)))
  }

  function RunSys(cfg: Config, sys: Sys, actions: seq<Action>): Sys {
    if actions == [] then sys
    else Act(cfg, RunSys(cfg, sys, actions[..|actions| - 1]), actions[|actions| - 1])
  }

  /** The state after the first n actions. */
  function StateAt(cfg: Config, sys: Sys, actions: seq<Action>, n: nat): Sys
    requires n <= |actions|
  {
    RunSys(cfg, sys, actions[..n])
  }

  lemma StateAtPrefix(cfg: Config, sys: Sys, actions: seq<Action>, m: nat, n: nat)
    requires n <= m <= |actions|
    ensures StateAt(cfg, sys, actions[..m], n) == StateAt(cfg, sys, actions, n)
  {
    assert actions[..m][..n] == actions[..n];
  }

  lemma StateAtNext(cfg: Config, sys: Sys, actions: seq<Action>, n: nat)
    requires n < |actions|
    ensures StateAt(cfg, sys, actions, n + 1) == Act(cfg, StateAt(cfg, sys, actions, n), actions[n])
  {
    assert actions[..n + 1][..n] == actions[..n];
  }

  lemma TimeGoesOn(cfg: Config, sys: Sys, a: Action)
    ensures sys.s.l.now <= Act(cfg, sys, a).s.l.now
    ensures a.Tick? || sys.s.l.now == Act(cfg, sys, a).s.l.now
  {
  }

  lemma {:induction false} TimeMonotone(cfg: Config, sys: Sys, actions: seq<Action>, n: nat)
    requires n <= |actions|
    ensures StateAt(cfg, sys, actions, n).s.l.now <= RunSys(cfg, sys, actions).s.l.now
  {
    if n == |actions| {
      assert actions[..n] == actions;
    } else {
      var m := |actions| - 1;
      TimeMonotone(cfg, sys, actions[..m], n);
      StateAtPrefix(cfg, sys, actions, m, n);
      TimeGoesOn(cfg, RunSys(cfg, sys, actions[..m]), actions[m]);
    }
  }

  /** Running on from where a run stopped. */
  lemma {:induction false} RunConcat(cfg: Config, sys: Sys, a: seq<Action>, b: seq<Action>)
    ensures RunSys(cfg, sys, a + b) == RunSys(cfg, RunSys(cfg, sys, a), b)
  {
    if b == [] {
      assert a + b == a;
    } else {
      var n := |b| - 1;
      RunConcat(cfg, sys, a, b[..n]);
      assert (a + b)[..|a + b| - 1] == a + b[..n];
    }
  }

  lemma OneAction(cfg: Config, sys: Sys, a: Action)
    ensures RunSys(cfg, sys, [a]) == Act(cfg, sys, a)
  {
    assert [a][..0] == [];
  }
}
