/** The penalty box over every interleaving: what a request of a penalised address
    can end in, how long a penalty lasts, and how far apart the requests are that
    get through under it. */
module Penalties {
  import opened Words
  import opened Wrappers
  import opened Store
  import opened Ledger
  import opened FixedWindow
  import opened Decisions
  import opened Protocol
  import opened Enforcement
  import opened Accounting

  ghost predicate PenalisedNow(cfg: Config, sys: Sys, ip: Word) {
    Ttl(sys.s.l.db.strings, PboxKey(cfg.conf.prefix, ip), sys.s.l.now) > 0
  }

  ghost predicate PenalisedThroughout(cfg: Config, sys: Sys, actions: seq<Action>, ip: Word) {
    forall n :: 0 <= n <= |actions| ==> PenalisedNow(cfg, StateAt(cfg, sys, actions, n), ip)
  }

  // ---------------------------------------------------------------------
  // Confinement
  // ---------------------------------------------------------------------

  /** Not yet past the penalty check, or on the way to the script under a limit of
      one, or ended by the script as the first of its window, or denied. */
  ghost predicate Confined(a: Agent, ip: Word) {
    match a
    case ReqCache(r, _, limit) => r.ip == ip && limit >= 1
    case ReqPbox(r, _, limit) => r.ip == ip && limit >= 1
    case ReqPttl(r, _, limit) => r.ip == ip && limit >= 1
    case ReqPboxWrite(r, _, limit, _) => r.ip == ip && limit >= 1
    case ReqPenalty(r, _, limit) => r.ip == ip && limit >= 1
    case ReqBloom(r, _, limit) => r.ip == ip && limit == 1
    case ReqScript(r, _, limit) => r.ip == ip && limit == 1
    case Finished(d, source) => d.allowed ==> source == LuaAllow && d.limit == 1 && d.counter == 1
    case CacheShort(_, _, after) => EndsDenied(after) && NoFailOpen(after)
    case BanWrite(_, _, after) => EndsDenied(after) && NoFailOpen(after)
    case BanCache(_, _, after) => EndsDenied(after) && NoFailOpen(after)
    case BloomAdd(_, after) => EndsDenied(after) && NoFailOpen(after)
    case _ => false
  }

  lemma ConfinedStep(cfg: Config, sys: Sys, a: Agent, c: Choice, ip: Word)
    requires Protected(cfg, sys.s, ip) && CountsPositive(sys.s.l.db)
    requires c.redisOk && PenalisedNow(cfg, sys, ip) && Confined(a, ip)
    ensures Confined(AgentAfter(cfg, sys.s, a, c), ip)
  {
  }

  lemma CountsStay(cfg: Config, sys: Sys, a: Action)
    requires CountsPositive(sys.s.l.db)
    ensures CountsPositive(Act(cfg, sys, a).s.l.db)
  {
    hide Act;
    hide Next;
    hide CountsPositive;
    ActIsOp(cfg, sys, a);
    if op: Op :| OpOfAction(cfg, sys, a) == Some(op) {
      OpKeepsCounts(cfg.conf, sys.s.l, op);
    }
  }

  lemma {:induction false} ConfinedRun(cfg: Config, sys: Sys, actions: seq<Action>, i: nat, ip: Word)
    requires Protected(cfg, sys.s, ip) && CountsPositive(sys.s.l.db)
    requires i < |sys.agents| && Confined(sys.agents[i], ip)
    requires PenalisedThroughout(cfg, sys, actions, ip) && Answered(actions, i)
    ensures var sys' := RunSys(cfg, sys, actions);
            && i < |sys'.agents| && Confined(sys'.agents[i], ip)
            && Protected(cfg, sys'.s, ip) && CountsPositive(sys'.s.l.db)
  {
    hide CountsPositive;
    hide Confined;
    hide AgentAfter;
    if actions != [] {
      var n := |actions| - 1;
      var mid := RunSys(cfg, sys, actions[..n]);
      forall m | 0 <= m <= n
        ensures PenalisedNow(cfg, StateAt(cfg, sys, actions[..n], m), ip)
      {
        StateAtPrefix(cfg, sys, actions, n, m);
        assert PenalisedNow(cfg, StateAt(cfg, sys, actions, m), ip);
      }
      ConfinedRun(cfg, sys, actions[..n], i, ip);
      assert PenalisedNow(cfg, StateAt(cfg, sys, actions, n), ip);
      ProtectedGrows(cfg, mid, actions[n], ip);
      CountsStay(cfg, mid, actions[n]);
      AgentsPersist(cfg, mid, actions[n], i);
      if actions[n].Go? && actions[n].i == i {
        ConfinedStep(cfg, mid, mid.agents[i], actions[n].c, ip);
      }
    }
  }

  /** Penalty confinement (Redis answering, and Bloom off or the address in the
      filter): while the penalty lives, a request is denied, or the script lets it
      through under a limit of one as the first of its counter window. */
  lemma PenaltyConfines(cfg: Config, sys: Sys, r: Request, limit: int, actions: seq<Action>)
    requires Protected(cfg, sys.s, r.ip) && CountsPositive(sys.s.l.db) && limit >= 1
    requires PenalisedThroughout(cfg, Act(cfg, sys, Arrive(r, limit)), actions, r.ip)
    requires Answered(actions, |sys.agents|)
    ensures var a := RunSys(cfg, Act(cfg, sys, Arrive(r, limit)), actions).agents;
            var i := |sys.agents|;
            i < |a| &&
            (a[i].Finished? && a[i].d.allowed ==>
               a[i].source == LuaAllow && a[i].d.limit == 1 && a[i].d.counter == 1)
  {
    hide CountsPositive;
    ConfinedRun(cfg, Act(cfg, sys, Arrive(r, limit)), actions, |sys.agents|, r.ip);
  }

  // ---------------------------------------------------------------------
  // How long a penalty lasts
  // ---------------------------------------------------------------------

  /** Redis holds a penalty of the address that does not end before e. */
  ghost predicate PenaltyLasts(conf: Conf, l: Ledger, ip: Word, e: int) {
    var strings, k := l.db.strings, PboxKey(conf.prefix, ip);
    k in strings && strings[k].expiry.Some? && strings[k].expiry.value >= e
  }

  /** The operation does not delete the penalty of the address (a threshold crossing
      does) or replace it by one that ends before e. */
  ghost predicate KeepsPenalty(conf: Conf, l: Ledger, op: Op, ip: Word, e: int) {
    match op
    case Judge(ip2, field, delta) =>
      var action := JudgeReply(conf, l.now, l.db, ip2, field, delta).action;
      ip2 == ip ==> action != 2 && (action == 1 ==> l.now + conf.rep.penaltyTtl >= e)
    case Penalise(ip2, ttl) => ip2 == ip ==> l.now + ttl >= e
    case _ => true
  }

  /** Exactly these operations keep it. */
  lemma PenaltyLastsStep(conf: Conf, l: Ledger, op: Op, ip: Word, e: int)
    requires PenaltyLasts(conf, l, ip, e)
    ensures PenaltyLasts(conf, Next(conf, l, op), ip, e) <==> KeepsPenalty(conf, l, op, ip, e)
  {
    hide Bumped;
    hide Marked;
    if op.Penalise? || op.Judge? {
      KeysInjective(conf.prefix, ip, op.ip);
    }
  }

  ghost predicate PenaltyKept(cfg: Config, sys: Sys, actions: seq<Action>, ip: Word, e: int) {
    forall n: nat :: n < |actions| ==> ActKeepsPenalty(cfg, StateAt(cfg, sys, actions, n), actions[n], ip, e)
  }

  ghost predicate ActKeepsPenalty(cfg: Config, sys: Sys, a: Action, ip: Word, e: int) {
    var op := OpOfAction(cfg, sys, a);
    op.Some? ==> KeepsPenalty(cfg.conf, sys.s.l, op.value, ip, e)
  }

  lemma KeptPrefix(cfg: Config, sys: Sys, actions: seq<Action>, m: nat, ip: Word, e: int)
    requires PenaltyKept(cfg, sys, actions, ip, e) && m <= |actions|
    ensures PenaltyKept(cfg, sys, actions[..m], ip, e)
  {
    forall n: nat | n < m
      ensures ActKeepsPenalty(cfg, StateAt(cfg, sys, actions[..m], n), actions[..m][n], ip, e)
    {
      StateAtPrefix(cfg, sys, actions, m, n);
      assert ActKeepsPenalty(cfg, StateAt(cfg, sys, actions, n), actions[n], ip, e);
    }
  }

  lemma {:induction false} PenaltyLastsRun(cfg: Config, sys: Sys, actions: seq<Action>, ip: Word, e: int)
    requires PenaltyLasts(cfg.conf, sys.s.l, ip, e) && PenaltyKept(cfg, sys, actions, ip, e)
    ensures PenaltyLasts(cfg.conf, RunSys(cfg, sys, actions).s.l, ip, e)
  {
    hide Act;
    hide Next;
    hide PenaltyLasts;
    if actions != [] {
      var n := |actions| - 1;
      KeptPrefix(cfg, sys, actions, n, ip, e);
      PenaltyLastsRun(cfg, sys, actions[..n], ip, e);
      var mid := StateAt(cfg, sys, actions, n);
      assert ActKeepsPenalty(cfg, mid, actions[n], ip, e);
      ActIsOp(cfg, mid, actions[n]);
      if op: Op :| OpOfAction(cfg, mid, actions[n]) == Some(op) {
        PenaltyLastsStep(cfg.conf, mid.s.l, op, ip, e);
      }
    }
  }

  lemma PenalisedWhileLasting(cfg: Config, sys: Sys, actions: seq<Action>, ip: Word, e: int)
    requires PenaltyLasts(cfg.conf, sys.s.l, ip, e) && PenaltyKept(cfg, sys, actions, ip, e)
    requires RunSys(cfg, sys, actions).s.l.now < e
    ensures PenalisedThroughout(cfg, sys, actions, ip)
  {
    forall n: nat | n <= |actions|
      ensures PenalisedNow(cfg, StateAt(cfg, sys, actions, n), ip)
    {
      KeptPrefix(cfg, sys, actions, n, ip, e);
      PenaltyLastsRun(cfg, sys, actions[..n], ip, e);
      TimeMonotone(cfg, sys, actions, n);
    }
  }

  lemma {:induction false} CountsRun(cfg: Config, sys: Sys, actions: seq<Action>)
    requires CountsPositive(sys.s.l.db)
    ensures CountsPositive(RunSys(cfg, sys, actions).s.l.db)
  {
    hide CountsPositive;
    hide Act;
    if actions != [] {
      var n := |actions| - 1;
      CountsRun(cfg, sys, actions[..n]);
      CountsStay(cfg, RunSys(cfg, sys, actions[..n]), actions[n]);
    }
  }

  /** A penalty holds until its end: in every run from a state where Redis penalises
      the address until e, if no crossing deletes the penalty, nobody shortens it and
      the clock stays below e, every answered request of the address that arrives is
      denied or passes as the first of its counter window. */
  lemma PenaltyHolds(
    cfg: Config, sys: Sys, before: seq<Action>, r: Request, limit: int, during: seq<Action>, e: int)
    requires PenaltyLasts(cfg.conf, sys.s.l, r.ip, e) && CountsPositive(sys.s.l.db) && limit >= 1
    requires Protected(cfg, RunSys(cfg, sys, before).s, r.ip)
    requires PenaltyKept(cfg, sys, before + [Arrive(r, limit)] + during, r.ip, e)
    requires RunSys(cfg, sys, before + [Arrive(r, limit)] + during).s.l.now < e
    requires Answered(during, |RunSys(cfg, sys, before).agents|)
    ensures var i := |RunSys(cfg, sys, before).agents|;
            var a := RunSys(cfg, sys, before + [Arrive(r, limit)] + during).agents;
            i < |a| &&
            (a[i].Finished? && a[i].d.allowed ==>
               a[i].source == LuaAllow && a[i].d.limit == 1 && a[i].d.counter == 1)
  {
    hide Act;
    hide PenalisedNow;
    hide PenaltyLasts;
    hide PenaltyKept;
    hide Answered;
    hide CountsPositive;
    var all := before + [Arrive(r, limit)] + during;
    var m := |before| + 1;
    var mid := RunSys(cfg, sys, before);
    assert all[..|before|] == before && all[..m] == before + [Arrive(r, limit)] && all[m..] == during;
    StateAtNext(cfg, sys, all, |before|);
    var begun := Act(cfg, mid, Arrive(r, limit));
    PenalisedWhileLasting(cfg, sys, all, r.ip, e);
    CountsRun(cfg, sys, before);
    RunConcat(cfg, sys, all[..m], during);
    assert all == all[..m] + during;
    forall n: nat | n <= |during|
      ensures PenalisedNow(cfg, StateAt(cfg, begun, during, n), r.ip)
    {
      RunConcat(cfg, sys, all[..m], during[..n]);
      assert all[..m + n] == all[..m] + during[..n];
      assert PenalisedNow(cfg, StateAt(cfg, sys, all, m + n), r.ip);
    }
    PenaltyConfines(cfg, mid, r, limit, during);
  }

  // ---------------------------------------------------------------------
  // A forbidden request leaves its address banned
  // ---------------------------------------------------------------------

  /** A request that fails the strict checks writes, in its next two steps, a ban
      that lasts until exactly the configured time. */
  lemma FailedChecksBan(cfg: Config, s: Shared, r: Request, t: int, limit: int, c: Choice, later: int)
    requires r.ip != [] && !PassesPenaltyChecks(cfg, r) && c.redisOk
    ensures var a := AgentAfter(cfg, s, ReqPenalty(r, t, limit), c);
            var s1 := SharedAfter(cfg, s, ReqPenalty(r, t, limit), c);
            var s2 := SharedAfter(cfg, s1, a, c);
            a.BanWrite? &&
            (Banned(s2.l.db, BlKey(cfg.conf.prefix, r.ip), later) <==>
               later < s.l.now + if cfg.reputation then cfg.conf.rep.ban3 else cfg.penaltyBanTtl)
  {
  }

  /** Where an agent that has nothing left to ask will end. */
  function EndSource(a: Agent): Option<Source> {
    match a
    case CacheShort(_, _, after) => EndSource(after)
    case BanWrite(_, _, after) => EndSource(after)
    case BanCache(_, _, after) => EndSource(after)
    case BloomAdd(_, after) => EndSource(after)
    case Finished(_, source) => Some(source)
    case _ => None
  }

  function EndLimit(a: Agent): int {
    match a
    case CacheShort(_, _, after) => EndLimit(after)
    case BanWrite(_, _, after) => EndLimit(after)
    case BanCache(_, _, after) => EndLimit(after)
    case BloomAdd(_, after) => EndLimit(after)
    case Finished(d, _) => d.limit
    case _ => 0
  }

  /** In state n of the run Redis banned the address for the configured time from then on. */
  ghost predicate BanPlaced(cfg: Config, sys: Sys, actions: seq<Action>, n: nat, ip: Word) {
    n <= |actions| &&
    var l := StateAt(cfg, sys, actions, n).s.l;
    BanLasts(cfg.conf, l, ip, l.now + if cfg.reputation then cfg.conf.rep.ban3 else cfg.penaltyBanTtl)
  }

  /** Still deciding; or about to write the ban; or past that write, with the ban
      placed in the run; or ending otherwise. */
  ghost predicate OnPath(cfg: Config, sys: Sys, actions: seq<Action>, a: Agent, ip: Word) {
    || StillChecking(a, ip)
    || (a.BanWrite? && a.ip == ip && a.ttl == FailedCheckTtl(cfg) && a.after.Finished?)
    || (EndSource(a).Some? && EndSource(a) != Some(Source.PenaltyForbidden))
    || (&& (exists n: nat :: BanPlaced(cfg, sys, actions, n, ip))
        && match a
           case BanCache(ip2, _, after) => ip2 == ip && after.Finished?
           case BloomAdd(ip2, after) => ip2 == ip && after.Finished?
           case Finished(_, _) => Protected(cfg, RunSys(cfg, sys, actions).s, ip)
           case _ => false)
  }

  lemma BanPlacedStays(cfg: Config, sys: Sys, actions: seq<Action>, a: Action, n: nat, ip: Word)
    requires BanPlaced(cfg, sys, actions, n, ip)
    ensures BanPlaced(cfg, sys, actions + [a], n, ip)
  {
    assert (actions + [a])[..n] == actions[..n];
  }

  /** Another agent's step, or none. */
  lemma PathKept(cfg: Config, sys: Sys, actions: seq<Action>, action: Action, a: Agent, ip: Word)
    requires OnPath(cfg, sys, actions, a, ip)
    ensures OnPath(cfg, sys, actions + [action], a, ip)
  {
    hide Act;
    hide BanPlaced;
    assert (actions + [action])[..|actions|] == actions;
    if n: nat :| BanPlaced(cfg, sys, actions, n, ip) {
      BanPlacedStays(cfg, sys, actions, action, n, ip);
    }
    if Protected(cfg, RunSys(cfg, sys, actions).s, ip) {
      ProtectedGrows(cfg, RunSys(cfg, sys, actions), action, ip);
    }
  }

  lemma PathStep(cfg: Config, sys: Sys, actions: seq<Action>, i: nat, c: Choice, ip: Word)
    requires ip != [] && c.redisOk
    requires i < |RunSys(cfg, sys, actions).agents|
    requires OnPath(cfg, sys, actions, RunSys(cfg, sys, actions).agents[i], ip)
    ensures var cur := RunSys(cfg, sys, actions);
            OnPath(cfg, sys, actions + [Go(i, c)], AgentAfter(cfg, cur.s, cur.agents[i], c), ip)
  {
    hide RunSys;
    hide BanPlaced;
    hide NewDecisionWithTtl;
    hide Next;
    var cur := RunSys(cfg, sys, actions);
    var a := cur.agents[i];
    RunGo(cfg, sys, actions, i, c);
    if StillChecking(a, ip) {
      CheckingStep(cfg, cur.s, a, c, ip);
    } else if EndSource(a).Some? && EndSource(a) != Some(Source.PenaltyForbidden) {
      EndSourceKept(cfg, cur.s, a, c);
    } else if a.BanWrite? {
      BanWritten(cfg, sys, actions, i, c, ip);
    } else {
      var n: nat :| BanPlaced(cfg, sys, actions, n, ip);
      BanPlacedStays(cfg, sys, actions, Go(i, c), n, ip);
    }
  }

  lemma RunGo(cfg: Config, sys: Sys, actions: seq<Action>, i: nat, c: Choice)
    requires i < |RunSys(cfg, sys, actions).agents|
    ensures RunSys(cfg, sys, actions + [Go(i, c)]).s ==
            SharedAfter(cfg, RunSys(cfg, sys, actions).s, RunSys(cfg, sys, actions).agents[i], c)
  {
    hide AgentAfter;
    hide SharedAfter;
    assert (actions + [Go(i, c)])[..|actions|] == actions;
  }

  /** A deciding request goes on deciding, starts the ban of its address, or ends otherwise. */
  lemma CheckingStep(cfg: Config, s: Shared, a: Agent, c: Choice, ip: Word)
    requires ip != [] && StillChecking(a, ip)
    ensures var a' := AgentAfter(cfg, s, a, c);
            || StillChecking(a', ip)
            || (a'.BanWrite? && a'.ip == ip && a'.ttl == FailedCheckTtl(cfg) && a'.after.Finished?)
            || (EndSource(a').Some? && EndSource(a') != Some(Source.PenaltyForbidden))
  {
    hide NewDecisionWithTtl;
    hide Bumped;
    if a.ReqScript? && c.redisOk {
      ScriptEnds(cfg, a.r, a.t, a.limit, CheckReply(cfg.conf, s.l.now, s.l.db, a.r.ip, a.r.RateKey(), a.limit));
    }
  }

  lemma ScriptEnds(cfg: Config, r: Request, t: int, limit: int, reply: CriticalReply)
    ensures EndSource(AfterScript(cfg, r, t, limit, reply)) ==
            Some(if reply.code == 2 then RedisBlacklist else if reply.code == 1 then RateLimit else LuaAllow)
  {
    hide NewDecisionWithTtl;
    var d := NewDecisionWithTtl(false, Blacklisted, reply.counter, limit, t, reply.ttl, cfg.conf.windowMs);
    assert EndSource(AddToBloom(cfg, r.ip, Finished(d, RedisBlacklist))) == Some(RedisBlacklist);
  }

  lemma EndSourceKept(cfg: Config, s: Shared, a: Agent, c: Choice)
    requires EndSource(a).Some?
    ensures var a' := AgentAfter(cfg, s, a, c);
            EndSource(a') == EndSource(a) && EndLimit(a') == EndLimit(a)
  {
  }

  lemma BanWritten(cfg: Config, sys: Sys, actions: seq<Action>, i: nat, c: Choice, ip: Word)
    requires ip != [] && c.redisOk && i < |RunSys(cfg, sys, actions).agents|
    requires var a := RunSys(cfg, sys, actions).agents[i];
             a.BanWrite? && a.ip == ip && a.ttl == FailedCheckTtl(cfg)
    ensures BanPlaced(cfg, sys, actions + [Go(i, c)], |actions| + 1, ip)
  {
    hide RunSys;
    hide Act;
    hide Next;
    hide BanLasts;
    var cur := RunSys(cfg, sys, actions);
    var more := actions + [Go(i, c)];
    assert more[..|actions| + 1] == more;
    RunConcat(cfg, sys, actions, [Go(i, c)]);
    OneAction(cfg, cur, Go(i, c));
    ActIsOp(cfg, cur, Go(i, c));
    NewBanReplaces(cfg.conf, cur.s.l, Ban(ip, FailedCheckTtl(cfg)), ip, cur.s.l.now + FailedCheckTtl(cfg));
  }

  lemma {:induction false} PathRun(cfg: Config, sys: Sys, actions: seq<Action>, i: nat, ip: Word)
    requires ip != [] && i < |sys.agents| && StillChecking(sys.agents[i], ip) && Answered(actions, i)
    ensures var sys' := RunSys(cfg, sys, actions);
            i < |sys'.agents| && OnPath(cfg, sys, actions, sys'.agents[i], ip)
  {
    hide OnPath;
    hide AgentAfter;
    hide Act;
    if actions == [] {
      PathBegins(cfg, sys, i, ip);
    } else {
      var n := |actions| - 1;
      var init, last := actions[..n], actions[n];
      assert actions == init + [last];
      PathRun(cfg, sys, init, i, ip);
      var mid := RunSys(cfg, sys, init);
      AgentsPersist(cfg, mid, last, i);
      if last.Go? && last.i == i {
        PathStep(cfg, sys, init, i, last.c, ip);
      } else {
        PathKept(cfg, sys, init, last, mid.agents[i], ip);
      }
    }
  }

  lemma PathBegins(cfg: Config, sys: Sys, i: nat, ip: Word)
    requires i < |sys.agents| && StillChecking(sys.agents[i], ip)
    ensures OnPath(cfg, sys, [], sys.agents[i], ip)
  {
  }

  /** Over every interleaving, an answered request that ends forbidden has had its
      address banned in Redis, from some moment of its run, for the configured time;
      and at its end the filter, if on, knows the address. */
  lemma ForbiddenIsBanned(cfg: Config, sys: Sys, r: Request, limit: int, actions: seq<Action>)
    requires r.ip != [] && Answered(actions, |sys.agents|)
    requires var a := RunSys(cfg, Act(cfg, sys, Arrive(r, limit)), actions).agents;
             |sys.agents| < |a| && a[|sys.agents|].Finished? && a[|sys.agents|].source == Source.PenaltyForbidden
    ensures var begun := Act(cfg, sys, Arrive(r, limit));
            && (exists n: nat :: BanPlaced(cfg, begun, actions, n, r.ip))
            && Protected(cfg, RunSys(cfg, begun, actions).s, r.ip)
  {
    hide BanPlaced;
    PathRun(cfg, Act(cfg, sys, Arrive(r, limit)), actions, |sys.agents|, r.ip);
  }

  /** What BanHolds promises of the next request of the address. */
  ghost predicate KeptOut(
    cfg: Config, from: Sys, before: seq<Action>, r: Request, limit: int, during: seq<Action>, e: int)
  {
    var all := before + [Arrive(r, limit)] + during;
    var i := |RunSys(cfg, from, before).agents|;
    var a := RunSys(cfg, from, all).agents;
    NoShorterBan(cfg, from, all, r.ip, e) && RunSys(cfg, from, all).s.l.now < e ==>
      i < |a| &&
      (a[i].Finished? ==>
         && (!a[i].d.allowed || a[i].d.reason == FailOpen)
         && (Answered(during, i) ==> !a[i].d.allowed))
  }

  /** So a forbidden request keeps its address out: from the ban on, every later
      request is denied until the configured time is over, if nobody shortens the ban. */
  lemma ForbiddenStaysOut(
    cfg: Config, sys: Sys, r: Request, limit: int, actions: seq<Action>,
    more: seq<Action>, next: Request, nextLimit: int, during: seq<Action>)
    requires r.ip != [] && next.ip == r.ip && Answered(actions, |sys.agents|)
    requires var a := RunSys(cfg, Act(cfg, sys, Arrive(r, limit)), actions).agents;
             |sys.agents| < |a| && a[|sys.agents|].Finished? && a[|sys.agents|].source == Source.PenaltyForbidden
    ensures var begun := Act(cfg, sys, Arrive(r, limit));
            exists n: nat ::
              && BanPlaced(cfg, begun, actions, n, r.ip)
              && var from := StateAt(cfg, begun, actions, n);
                 KeptOut(cfg, from, actions[n..] + more, next, nextLimit, during,
                         from.s.l.now + if cfg.reputation then cfg.conf.rep.ban3 else cfg.penaltyBanTtl)
  {
    hide BanLasts;
    hide NoShorterBan;
    hide Answered;
    hide Act;
    hide RunSys;
    var begun := Act(cfg, sys, Arrive(r, limit));
    ForbiddenIsBanned(cfg, sys, r, limit, actions);
    var n: nat :| BanPlaced(cfg, begun, actions, n, r.ip);
    var from := StateAt(cfg, begun, actions, n);
    var before, e := actions[n..] + more, from.s.l.now + FailedCheckTtl(cfg);
    assert actions[..n] + actions[n..] == actions;
    RunConcat(cfg, begun, actions[..n], actions[n..]);
    RunConcat(cfg, from, actions[n..], more);
    ProtectedRun(cfg, RunSys(cfg, begun, actions), more, r.ip);
    var all := before + [Arrive(next, nextLimit)] + during;
    if NoShorterBan(cfg, from, all, next.ip, e) && RunSys(cfg, from, all).s.l.now < e {
      BanHolds(cfg, from, before, next, nextLimit, during, e);
    }
    assert KeptOut(cfg, from, before, next, nextLimit, during, e);
  }
}
