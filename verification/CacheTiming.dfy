/** When a cache write keeps the local blacklist sound: the exact condition, what
    meets it, and the runs that break it. */
module CacheTiming {
  import opened Words
  import opened Wrappers
  import opened Store
  import opened Ledger
  import opened Decisions
  import opened Protocol
  import opened CacheSoundness

  // ---------------------------------------------------------------------
  // The condition is exact
  // ---------------------------------------------------------------------

  /** d milliseconds after agent i's cache write, a hit means a ban in the last two seconds. */
  ghost predicate SoundAfter(cfg: Config, sys: Sys, actions: seq<Action>, i: nat, c: Choice, ip: Word, d: nat) {
    var more := actions + [Go(i, c)] + [Tick(d)];
    var last := RunSys(cfg, sys, more).s;
    CacheHit(last.cache, ip, last.l.now) ==>
      exists tau :: BanLiveAt(cfg, sys, more, ip, tau) && last.l.now - 2000 < tau <= last.l.now
  }

  /** After any run, an outstanding cache write is harmless for all time to come
      exactly when it is timely. */
  lemma CacheWriteSoundIff(cfg: Config, sys: Sys, actions: seq<Action>, i: nat, c: Choice, ip: Word)
    requires PositiveTtls(cfg) && ip != [] && Begins(sys) && OwnBans(actions, ip)
    requires PendingFor(RunSys(cfg, sys, actions), i, ip)
    ensures Timely(cfg, RunSys(cfg, sys, actions), i, ip) <==>
            forall d: nat :: SoundAfter(cfg, sys, actions, i, c, ip, d)
  {
    var cur := RunSys(cfg, sys, actions);
    var ttl := cur.agents[i].ttl;
    RunInv(cfg, sys, actions, ip);
    assert AgentOk(cfg, sys, actions, ip, cur.s.l.now, cur.agents[i]);
    forall d: nat
      ensures var last := RunSys(cfg, sys, actions + [Go(i, c)] + [Tick(d)]).s;
              && last.l.now == cur.s.l.now + d && BanEnd(cfg, last.l, ip) == BanEnd(cfg, cur.s.l, ip)
              && ip in last.cache && last.cache[ip] == cur.s.l.now + ttl
              && Standing(cfg, sys, actions + [Go(i, c)] + [Tick(d)], ip)
    {
      WriteThenWait(cfg, sys, actions, i, c, ip, d);
    }
    if Timely(cfg, cur, i, ip) {
      forall d: nat
        ensures SoundAfter(cfg, sys, actions, i, c, ip, d)
      {
        StandingSound(cfg, sys, actions + [Go(i, c)] + [Tick(d)], ip);
      }
    } else {
      assert !SoundAfter(cfg, sys, actions, i, c, ip, ttl - 1);
    }
  }

  lemma WriteThenWait(cfg: Config, sys: Sys, actions: seq<Action>, i: nat, c: Choice, ip: Word, d: nat)
    requires Standing(cfg, sys, actions, ip) && PendingFor(RunSys(cfg, sys, actions), i, ip)
    ensures Standing(cfg, sys, actions + [Go(i, c)] + [Tick(d)], ip)
    ensures Cached(cfg, RunSys(cfg, sys, actions), i, ip, d, RunSys(cfg, sys, actions + [Go(i, c)] + [Tick(d)]).s)
  {
    hide AgentAfter;
    hide SharedAfter;
    hide Standing;
    hide RunSys;
    var cur := RunSys(cfg, sys, actions);
    RunSnoc(cfg, sys, actions, Go(i, c));
    CacheWrite(cfg, cur, i, c, ip);
    StandingStays(cfg, sys, actions, Go(i, c), ip);
    RunSnoc(cfg, sys, actions + [Go(i, c)], Tick(d));
    StandingFacts(cfg, sys, actions, ip);
    StandingStays(cfg, sys, actions + [Go(i, c)], Tick(d), ip);
  }

  /** The entry is written and d milliseconds have passed. */
  ghost predicate Cached(cfg: Config, cur: Sys, i: nat, ip: Word, d: nat, last: Shared)
    requires PendingFor(cur, i, ip)
  {
    && last.l.now == cur.s.l.now + d && BanEnd(cfg, last.l, ip) == BanEnd(cfg, cur.s.l, ip)
    && ip in last.cache && last.cache[ip] == cur.s.l.now + cur.agents[i].ttl
  }

  lemma StandingFacts(cfg: Config, sys: Sys, actions: seq<Action>, ip: Word)
    requires Standing(cfg, sys, actions, ip)
    ensures HasEntry(cfg, RunSys(cfg, sys, actions).s.l, ip)
    ensures forall tau :: BanLiveAt(cfg, sys, actions, ip, tau) ==> tau < BanEnd(cfg, RunSys(cfg, sys, actions).s.l, ip)
  {
  }

  /** A ban of the address by another client, d milliseconds ago. */
  ghost predicate SoundAfterForeign(cfg: Config, sys: Sys, actions: seq<Action>, ip: Word, ttl: int, d: nat) {
    var more := actions + [Foreign(Ban(ip, ttl))] + [Tick(d)];
    var last := RunSys(cfg, sys, more).s;
    CacheHit(last.cache, ip, last.l.now) ==>
      exists tau :: BanLiveAt(cfg, sys, more, ip, tau) && last.l.now - 2000 < tau <= last.l.now
  }

  /** After any run, a foreign ban of the address leaves the entry that the local cache
      holds sound for all time to come exactly when the entry ends less than two
      seconds after the new ban. */
  lemma ForeignBanSoundIff(cfg: Config, sys: Sys, actions: seq<Action>, ip: Word, ttl: int)
    requires ttl > 0 && ip in RunSys(cfg, sys, actions).s.cache
    ensures var cur := RunSys(cfg, sys, actions).s;
            cur.cache[ip] < cur.l.now + ttl + 2000 <==>
            forall d: nat :: SoundAfterForeign(cfg, sys, actions, ip, ttl, d)
  {
    hide RunSys;
    hide Standing;
    var cur := RunSys(cfg, sys, actions).s;
    var e := cur.cache[ip];
    forall d: nat
      ensures var last := RunSys(cfg, sys, actions + [Foreign(Ban(ip, ttl))] + [Tick(d)]).s;
              && last.l.now == cur.l.now + d && BanEnd(cfg, last.l, ip) == cur.l.now + ttl
              && last.cache == cur.cache
              && Standing(cfg, sys, actions + [Foreign(Ban(ip, ttl))] + [Tick(d)], ip)
    {
      BanThenWait(cfg, sys, actions, ip, ttl, d);
    }
    if e < cur.l.now + ttl + 2000 {
      forall d: nat
        ensures SoundAfterForeign(cfg, sys, actions, ip, ttl, d)
      {
        StandingSound(cfg, sys, actions + [Foreign(Ban(ip, ttl))] + [Tick(d)], ip);
      }
    } else {
      StandingFacts(cfg, sys, actions + [Foreign(Ban(ip, ttl))] + [Tick(e - 1 - cur.l.now)], ip);
      assert !SoundAfterForeign(cfg, sys, actions, ip, ttl, e - 1 - cur.l.now);
    }
  }

  lemma BanThenWait(cfg: Config, sys: Sys, actions: seq<Action>, ip: Word, ttl: int, d: nat)
    requires ttl > 0
    ensures var cur := RunSys(cfg, sys, actions).s;
            var last := RunSys(cfg, sys, actions + [Foreign(Ban(ip, ttl))] + [Tick(d)]).s;
            && last.l.now == cur.l.now + d && BanEnd(cfg, last.l, ip) == cur.l.now + ttl
            && last.cache == cur.cache
            && Standing(cfg, sys, actions + [Foreign(Ban(ip, ttl))] + [Tick(d)], ip)
  {
    hide RunSys;
    hide Standing;
    ForeignBanStands(cfg, sys, actions, ip, ttl);
    RunSnoc(cfg, sys, actions + [Foreign(Ban(ip, ttl))], Tick(d));
    StandingStays(cfg, sys, actions + [Foreign(Ban(ip, ttl))], Tick(d), ip);
  }

  lemma ForeignBanStands(cfg: Config, sys: Sys, actions: seq<Action>, ip: Word, ttl: int)
    requires ttl > 0
    ensures var cur := RunSys(cfg, sys, actions).s;
            var next := RunSys(cfg, sys, actions + [Foreign(Ban(ip, ttl))]).s;
            && next.l.now == cur.l.now && next.cache == cur.cache
            && Key(cfg, ip) in next.l.db.sets && BanEnd(cfg, next.l, ip) == cur.l.now + ttl
            && Standing(cfg, sys, actions + [Foreign(Ban(ip, ttl))], ip)
  {
    hide RunSys;
    RunSnoc(cfg, sys, actions, Foreign(Ban(ip, ttl)));
    forall tau | BanLiveAt(cfg, sys, actions + [Foreign(Ban(ip, ttl))], ip, tau)
      ensures tau <= RunSys(cfg, sys, actions).s.l.now
    {
      LiveIsPast(cfg, sys, actions + [Foreign(Ban(ip, ttl))], ip, tau);
    }
  }

  /** One clock reading: while a cache write of the address is outstanding, no time
      passes and nobody else writes a ban of the address. */
  ghost predicate OneReading(cfg: Config, sys: Sys, actions: seq<Action>, ip: Word) {
    forall n: nat :: n < |actions| ==> Undisturbed(cfg, StateAt(cfg, sys, actions, n), actions[n], ip)
  }

  ghost predicate Undisturbed(cfg: Config, cur: Sys, action: Action, ip: Word) {
    (exists i: nat :: PendingFor(cur, i, ip)) ==>
      (action.Tick? ==> action.d == 0) && !Bans(cfg, cur, action, ip)
  }

  /** An outstanding write would still end exactly with its ban. */
  ghost predicate Punctual(cfg: Config, cur: Sys, ip: Word) {
    forall i: nat :: PendingFor(cur, i, ip) ==>
      HasEntry(cfg, cur.s.l, ip) && BanEnd(cfg, cur.s.l, ip) == cur.s.l.now + cur.agents[i].ttl
  }

  /** Taking each ban of the address with one clock reading is always timely. */
  lemma {:induction false} OneReadingIsTimely(cfg: Config, sys: Sys, actions: seq<Action>, ip: Word)
    requires PositiveTtls(cfg) && ip != [] && Begins(sys) && OwnBans(actions, ip)
    requires OneReading(cfg, sys, actions, ip)
    ensures TimelyThroughout(cfg, sys, actions, ip)
  {
    forall n: nat | n <= |actions|
      ensures TimelyNow(cfg, StateAt(cfg, sys, actions, n), ip)
    {
      forall m: nat | m < n
        ensures Undisturbed(cfg, StateAt(cfg, sys, actions[..n], m), actions[..n][m], ip)
      {
        StateAtPrefix(cfg, sys, actions, n, m);
        assert Undisturbed(cfg, StateAt(cfg, sys, actions, m), actions[m], ip);
      }
      OneReadingIsPunctual(cfg, sys, actions[..n], ip);
    }
  }

  lemma {:induction false} OneReadingIsPunctual(cfg: Config, sys: Sys, actions: seq<Action>, ip: Word)
    requires PositiveTtls(cfg) && ip != [] && Begins(sys) && OwnBans(actions, ip)
    requires OneReading(cfg, sys, actions, ip)
    ensures Punctual(cfg, RunSys(cfg, sys, actions), ip)
  {
    if actions != [] {
      var n := |actions| - 1;
      var init, last := actions[..n], actions[n];
      assert actions == init + [last];
      forall m: nat | m < n
        ensures Undisturbed(cfg, StateAt(cfg, sys, init, m), init[m], ip)
      {
        StateAtPrefix(cfg, sys, actions, n, m);
        assert Undisturbed(cfg, StateAt(cfg, sys, actions, m), actions[m], ip);
      }
      LastIsOwn(init, last, ip);
      OneReadingIsPunctual(cfg, sys, init, ip);
      RunInv(cfg, sys, init, ip);
      assert Undisturbed(cfg, StateAt(cfg, sys, actions, n), last, ip);
      PunctualStep(cfg, sys, init, last, ip);
    }
  }

  lemma PunctualStep(cfg: Config, sys: Sys, actions: seq<Action>, action: Action, ip: Word)
    requires PositiveTtls(cfg) && ip != [] && OwnBans([action], ip) && Inv(cfg, sys, actions, ip)
    requires Punctual(cfg, RunSys(cfg, sys, actions), ip)
    requires Undisturbed(cfg, RunSys(cfg, sys, actions), action, ip)
    ensures Punctual(cfg, RunSys(cfg, sys, actions + [action]), ip)
  {
    hide Act;
    hide RunSys;
    hide WritesBan;
    hide AgentOk;
    var cur := RunSys(cfg, sys, actions);
    var next := RunSys(cfg, sys, actions + [action]);
    RunSnoc(cfg, sys, actions, action);
    OkIsPlain(cfg, sys, actions, ip);
    TickTime(cfg, cur, action);
    if Bans(cfg, cur, action, ip) {
      StandingBegins(cfg, sys, actions, action.i, action.c, ip);
      forall j: nat | j != action.i
        ensures !PendingFor(next, j, ip)
      {
        OthersStay(cfg, cur, action, j);
        assert !PendingFor(cur, j, ip);
      }
    } else {
      ActKeeps(cfg, cur, action, ip);
      forall j: nat | PendingFor(next, j, ip)
        ensures HasEntry(cfg, next.s.l, ip) && BanEnd(cfg, next.s.l, ip) == next.s.l.now + next.agents[j].ttl
      {
        PendingKept(cfg, cur, action, ip, j);
        OwnStepEnds(cfg, sys, actions, action, ip, j);
      }
    }
  }

  lemma OthersStay(cfg: Config, cur: Sys, action: Action, j: nat)
    requires action.Go? && action.i != j
    ensures var next := Act(cfg, cur, action);
            (j < |next.agents| <==> j < |cur.agents|) && (j < |next.agents| ==> next.agents[j] == cur.agents[j])
  {
  }

  /** An outstanding write that takes its step is no longer outstanding. */
  lemma OwnStepEnds(cfg: Config, sys: Sys, actions: seq<Action>, action: Action, ip: Word, j: nat)
    requires ip != [] && Inv(cfg, sys, actions, ip)
    requires PendingFor(RunSys(cfg, sys, actions), j, ip)
    requires PendingFor(Act(cfg, RunSys(cfg, sys, actions), action), j, ip)
    ensures !(action.Go? && action.i == j)
  {
    var cur := RunSys(cfg, sys, actions);
    assert AgentOk(cfg, sys, actions, ip, cur.s.l.now, cur.agents[j]);
  }

  // ---------------------------------------------------------------------
  // Both parts of the condition matter: two runs
  // ---------------------------------------------------------------------

  function Nothing(agents: seq<Agent>): Sys {
    Sys(Shared(Start(Db(map[], map[], map[], map[]), 0), map[], map[], {}), agents)
  }

  /** A cache write that comes d milliseconds after its ban is sound exactly when d
      is below two seconds. */
  lemma LateCacheWrite(cfg: Config, ip: Word, ttl: int, d: nat)
    requires PositiveTtls(cfg) && ip != [] && ttl > 0
    ensures var sys := Nothing([BanWrite(ip, ttl, JobDone)]);
            var ok := Choice(true, false);
            d < 2000 <==> forall t: nat :: SoundAfter(cfg, sys, [Go(0, ok), Tick(d)], 0, ok, ip, t)
  {
    hide RunSys;
    hide Act;
    hide SoundAfter;
    var ok := Choice(true, false);
    WriteIsLeft(cfg, ip, ttl, d);
    CacheWriteSoundIff(cfg, Nothing([BanWrite(ip, ttl, JobDone)]), [Go(0, ok), Tick(d)], 0, ok, ip);
  }

  lemma WriteIsLeft(cfg: Config, ip: Word, ttl: int, d: nat)
    requires ip != [] && ttl > 0
    ensures var ok := Choice(true, false);
            var cur := RunSys(cfg, Nothing([BanWrite(ip, ttl, JobDone)]), [Go(0, ok), Tick(d)]);
            && PendingFor(cur, 0, ip) && cur.agents[0].ttl == ttl
            && cur.s.l.now == d && BanEnd(cfg, cur.s.l, ip) == ttl
  {
    hide RunSys;
    var sys := Nothing([BanWrite(ip, ttl, JobDone)]);
    var ok := Choice(true, false);
    RunSnoc(cfg, sys, [], Go(0, ok));
    RunSnoc(cfg, sys, [Go(0, ok)], Tick(d));
    EmptyRun(cfg, sys);
    assert [] + [Go(0, ok)] == [Go(0, ok)] && [Go(0, ok)] + [Tick(d)] == [Go(0, ok), Tick(d)];
    var s1 := Act(cfg, sys, Go(0, ok));
    assert s1.agents == [BanCache(ip, ttl, JobDone)];
  }

  /** Two bans of one address at one instant: if the first writes its cache entry
      last, that is sound exactly when it is not two seconds longer than the second. */
  lemma InterleavedBansGoStale(cfg: Config, ip: Word, first: int, second: int)
    requires PositiveTtls(cfg) && ip != [] && first > 0 && second > 0
    ensures var sys := Nothing([BanWrite(ip, first, JobDone), BanWrite(ip, second, JobDone)]);
            var ok := Choice(true, false);
            first < second + 2000 <==>
            forall t: nat :: SoundAfter(cfg, sys, [Go(0, ok), Go(1, ok), Go(1, ok)], 0, ok, ip, t)
  {
    hide RunSys;
    hide Act;
    hide SoundAfter;
    var sys := Nothing([BanWrite(ip, first, JobDone), BanWrite(ip, second, JobDone)]);
    var ok := Choice(true, false);
    FirstIsLeft(cfg, ip, first, second);
    CacheWriteSoundIff(cfg, sys, [Go(0, ok), Go(1, ok), Go(1, ok)], 0, ok, ip);
  }

  lemma FirstIsLeft(cfg: Config, ip: Word, first: int, second: int)
    requires ip != [] && first > 0
    ensures var sys := Nothing([BanWrite(ip, first, JobDone), BanWrite(ip, second, JobDone)]);
            var ok := Choice(true, false);
            var cur := RunSys(cfg, sys, [Go(0, ok), Go(1, ok), Go(1, ok)]);
            && PendingFor(cur, 0, ip) && cur.agents[0].ttl == first
            && cur.s.l.now == 0 && BanEnd(cfg, cur.s.l, ip) == second
  {
    hide RunSys;
    hide Act;
    var sys := Nothing([BanWrite(ip, first, JobDone), BanWrite(ip, second, JobDone)]);
    var ok := Choice(true, false);
    var s2 := TwoBanWrites(cfg, ip, first, second);
    RunSnoc(cfg, sys, [], Go(0, ok));
    RunSnoc(cfg, sys, [Go(0, ok)], Go(1, ok));
    RunSnoc(cfg, sys, [Go(0, ok), Go(1, ok)], Go(1, ok));
    EmptyRun(cfg, sys);
    assert [] + [Go(0, ok)] == [Go(0, ok)] && [Go(0, ok)] + [Go(1, ok)] == [Go(0, ok), Go(1, ok)];
    assert [Go(0, ok), Go(1, ok)] + [Go(1, ok)] == [Go(0, ok), Go(1, ok), Go(1, ok)];
    CacheWrite(cfg, s2, 1, ok, ip);
    OthersStay(cfg, s2, Go(1, ok), 0);
  }

  lemma EmptyRun(cfg: Config, sys: Sys)
    ensures RunSys(cfg, sys, []) == sys
  {
  }

  lemma TwoBanWrites(cfg: Config, ip: Word, first: int, second: int) returns (s2: Sys)
    requires ip != [] && first > 0
    ensures var sys := Nothing([BanWrite(ip, first, JobDone), BanWrite(ip, second, JobDone)]);
            s2 == Act(cfg, Act(cfg, sys, Go(0, Choice(true, false))), Go(1, Choice(true, false)))
    ensures s2.agents == [BanCache(ip, first, JobDone), BanCache(ip, second, JobDone)]
    ensures s2.s.l.now == 0 && BanEnd(cfg, s2.s.l, ip) == second
  {
    var sys := Nothing([BanWrite(ip, first, JobDone), BanWrite(ip, second, JobDone)]);
    var s1 := Act(cfg, sys, Go(0, Choice(true, false)));
    assert s1.agents == [BanCache(ip, first, JobDone), BanWrite(ip, second, JobDone)];
    s2 := Act(cfg, s1, Go(1, Choice(true, false)));
  }
}
