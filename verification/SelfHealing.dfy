/** The windowed adaptive limit of self_healing.go. Floating point is modelled
    by reals; times are whole milliseconds. */
module SelfHealing {
  import opened Words

  datatype Config = Config(
    window: int, minSamples: int, cleanThreshold: real, spikeFactor: real, maxSensitivity: real, decayStep: real)
  {
    ghost predicate Ok() {
      window > 0 && spikeFactor > 0.0 && maxSensitivity > 1.0 && decayStep > 0.0
    }
  }

  datatype State = State(windowStart: int, total: int, clean: int, perIP: map<Word, int>, multiplier: real)

  function Max(a: real, b: real): real {
    if a > b then a else b
  }

  function Min(a: real, b: real): real {
    if a < b then a else b
  }

  function MaxInt(a: int, b: int): int {
    if a > b then a else b
  }

  /** What the counters must always satisfy. */
  ghost predicate Inv(cfg: Config, s: State) {
    && 0 <= s.clean <= s.total
    && (forall ip :: ip in s.perIP ==> s.perIP[ip] > 0)
    && 1.0 <= s.multiplier <= cfg.maxSensitivity
  }

  // ---------------------------------------------------------------------
  // Specification
  // ---------------------------------------------------------------------

  predicate Expired(cfg: Config, s: State, now: int) {
    now - s.windowStart >= cfg.window
  }

  function Rotated(cfg: Config, s: State, now: int): State {
    if Expired(cfg, s, now) then State(now, 0, 0, map[], Max(1.0, s.multiplier - cfg.decayStep)) else s
  }

  function CountOf(s: State, ip: Word): int {
    if ip in s.perIP then s.perIP[ip] else 0
  }

  function Times(base: int, factor: real): real {
    (base as real) * factor
  }

  function Trigger(cfg: Config, base: int): (t: real)
    ensures t >= 1.0
  {
    Max(1.0, Times(base, cfg.spikeFactor))
  }

  function CleanRatio(clean: int, total: int): real {
    (clean as real) / (MaxInt(1, total) as real)
  }

  /** How many times the trigger a count is. */
  function Excess(count: int, trigger: real): (r: real)
    requires trigger >= 1.0
    ensures (count as real) > trigger ==> r > 1.0
  {
    if (count as real) > trigger then RatioAboveOne(count as real, trigger); (count as real) / trigger
    else (count as real) / trigger
  }

  /** The ratio by which an address exceeds the trigger, when traffic is clean
      enough and plentiful enough for that to matter; otherwise 1. */
  function SpikeRatio(cfg: Config, total: int, clean: int, count: int, base: int): (r: real)
    ensures cfg.maxSensitivity > 1.0 ==> 1.0 <= r <= cfg.maxSensitivity
  {
    if total >= cfg.minSamples
       && CleanRatio(clean, total) >= cfg.cleanThreshold
       && (count as real) > Trigger(cfg, base)
    then Min(cfg.maxSensitivity, Excess(count, Trigger(cfg, base)))
    else 1.0
  }

  lemma RatioAboveOne(c: real, t: real)
    requires c > t >= 1.0
    ensures c / t > 1.0
  {
    var q := c / t;
    assert q * t == c;
  }

  function Asked(cfg: Config, s: State, ip: Word, base: int, now: int): State
  {
    var r := Rotated(cfg, s, now);
    if ip == [] then r
    else
      var count := CountOf(r, ip) + 1;
      r.(perIP := r.perIP[ip := count],
         multiplier := Max(r.multiplier, SpikeRatio(cfg, r.total, r.clean, count, base)))
  }

  function LimitFor(base: int, multiplier: real): (limit: int)
    requires multiplier >= 1.0
    ensures limit >= 1
    ensures base >= 1 ==> limit <= base
    ensures base >= 1 && multiplier == 1.0 ==> limit == base
  {
    var q := ((base as real) / multiplier).Floor;
    if q < 1 then 1 else q
  }

  /** The limit fits into the base limit, multiplied, and the next one does not;
      a multiplier above the base limit leaves a limit of one. */
  ghost predicate DividesInto(base: int, multiplier: real, limit: int) {
    if (base as real) >= multiplier then
      limit >= 1 && (limit as real) * multiplier <= (base as real) < ((limit + 1) as real) * multiplier
    else limit == 1
  }

  lemma LimitDivides(base: int, multiplier: real)
    requires base >= 1 && multiplier >= 1.0
    ensures DividesInto(base, multiplier, LimitFor(base, multiplier))
  {
    var b, q := base as real, (base as real) / multiplier;
    var f := q.Floor;
    assert f as real <= q < (f + 1) as real;
    QuotientCompare(b, multiplier, f as real);
    QuotientCompare(b, multiplier, (f + 1) as real);
    QuotientCompare(b, multiplier, 1.0);
  }

  /** Comparing a quotient is comparing a product. */
  lemma QuotientCompare(b: real, m: real, x: real)
    requires m > 0.0
    ensures x <= b / m <==> x * m <= b
    ensures b / m == x <==> x * m == b
  {
    var q := b / m;
    assert q * m == b;
    if x < q {
      Scales(x, q, m);
    } else if x > q {
      Scales(q, x, m);
    }
  }

  lemma Scales(a: real, b: real, t: real)
    requires a < b && t > 0.0
    ensures a * t < b * t
  {
  }

  /** When a request raises the multiplier, and to what, on the counts themselves:
      only with enough samples, enough clean ones and more requests of the address
      than the trigger, and then to their ratio, at most MaxSensitivity. */
  lemma MultiplierRises(cfg: Config, s: State, ip: Word, base: int, now: int)
    requires cfg.Ok() && Inv(cfg, s) && ip != []
    ensures var m := Asked(cfg, s, ip, base, now).multiplier;
            var expired := now - s.windowStart >= cfg.window;
            var start := if !expired then s.multiplier
                         else if s.multiplier - cfg.decayStep > 1.0 then s.multiplier - cfg.decayStep else 1.0;
            var total, clean := if expired then 0 else s.total, if expired then 0 else s.clean;
            var count := 1 + if !expired && ip in s.perIP then s.perIP[ip] else 0;
            var trigger := if (base as real) * cfg.spikeFactor > 1.0 then (base as real) * cfg.spikeFactor else 1.0;
            var eligible :=
              && total >= cfg.minSamples
              && cfg.cleanThreshold * ((if total > 1 then total else 1) as real) <= clean as real
              && count as real > trigger;
            if !eligible || count as real <= start * trigger then m == start
            else if cfg.maxSensitivity * trigger <= count as real then m == cfg.maxSensitivity
            else m * trigger == count as real
  {
    hide SpikeRatio;
    hide Max;
    var r := Rotated(cfg, s, now);
    assert r.multiplier == Max(1.0, s.multiplier - cfg.decayStep) || r == s;
    RotatedMultiplier(cfg, s);
    SpikeExact(cfg, r.total, r.clean, CountOf(r, ip) + 1, base, r.multiplier);
  }

  lemma RotatedMultiplier(cfg: Config, s: State)
    ensures Max(1.0, s.multiplier - cfg.decayStep) ==
            if s.multiplier - cfg.decayStep > 1.0 then s.multiplier - cfg.decayStep else 1.0
  {
  }

  lemma SpikeExact(cfg: Config, total: int, clean: int, count: int, base: int, start: real)
    requires cfg.Ok() && 0 <= total && 1.0 <= start <= cfg.maxSensitivity
    ensures var trigger := if (base as real) * cfg.spikeFactor > 1.0 then (base as real) * cfg.spikeFactor else 1.0;
            var eligible :=
              && total >= cfg.minSamples
              && cfg.cleanThreshold * ((if total > 1 then total else 1) as real) <= clean as real
              && count as real > trigger;
            var m := Max(start, SpikeRatio(cfg, total, clean, count, base));
            if !eligible || count as real <= start * trigger then m == start
            else if cfg.maxSensitivity * trigger <= count as real then m == cfg.maxSensitivity
            else m * trigger == count as real
  {
    hide Max;
    hide Min;
    hide CleanRatio;
    hide Excess;
    var t := Trigger(cfg, base);
    TriggerExact(cfg, base);
    CleanExact(clean, total, cfg.cleanThreshold);
    if count as real > t {
      CappedQuotient(count as real, t, start, cfg.maxSensitivity);
      ExcessExact(count, t);
    }
    MaxOfOne(start);
  }

  lemma MaxOfOne(start: real)
    requires start >= 1.0
    ensures Max(start, 1.0) == start
  {
  }

  lemma TriggerExact(cfg: Config, base: int)
    ensures Trigger(cfg, base) ==
            if (base as real) * cfg.spikeFactor > 1.0 then (base as real) * cfg.spikeFactor else 1.0
  {
  }

  lemma CleanExact(clean: int, total: int, threshold: real)
    requires 0 <= total
    ensures CleanRatio(clean, total) >= threshold <==>
            threshold * ((if total > 1 then total else 1) as real) <= clean as real
  {
    QuotientCompare(clean as real, MaxInt(1, total) as real, threshold);
  }

  lemma ExcessExact(count: int, t: real)
    requires t >= 1.0
    ensures Excess(count, t) == (count as real) / t
  {
  }

  /** c/t, cut off below at start and above at top. */
  lemma CappedQuotient(c: real, t: real, start: real, top: real)
    requires t >= 1.0 && 1.0 <= start <= top
    ensures var m := Max(start, Min(top, c / t));
            if c <= start * t then m == start else if top * t <= c then m == top else m * t == c
  {
    QuotientCompare(c, t, start);
    QuotientCompare(c, t, top);
    QuotientCompare(c, t, c / t);
  }

  /** The limit that a request of this address gets. */
  ghost function LimitAfter(cfg: Config, s: State, ip: Word, base: int, now: int): (limit: int)
    requires cfg.Ok() && Inv(cfg, s)
    ensures limit >= 1 && (base >= 1 ==> limit <= base)
  {
    LimitFor(base, Asked(cfg, s, ip, base, now).multiplier)
  }

  function Seen(cfg: Config, s: State, isClean: bool, now: int): State {
    var r := Rotated(cfg, s, now);
    r.(total := r.total + 1, clean := r.clean + (if isClean then 1 else 0))
  }

  // ---------------------------------------------------------------------
  // The class
  // ---------------------------------------------------------------------

  class SelfHealingState {
    const cfg: Config
    var windowStart: int
    var total: int
    var clean: int
    var perIP: map<Word, int>
    var multiplier: real

    function Snapshot(): State
      reads this
    {
      State(windowStart, total, clean, perIP, multiplier)
    }

    ghost predicate Valid()
      reads this
    {
      cfg.Ok() && Inv(cfg, Snapshot())
    }

    constructor (cfg: Config, now: int)
      requires cfg.Ok()
      ensures Valid() && this.cfg == cfg && Snapshot() == State(now, 0, 0, map[], 1.0)
    {
      this.cfg := cfg;
      windowStart, total, clean, perIP, multiplier := now, 0, 0, map[], 1.0;
    }

    method RotateWindowIfNeeded(now: int)
      requires Valid()
      modifies this
      ensures Valid() && Snapshot() == Rotated(cfg, old(Snapshot()), now)
    {
      if now - windowStart < cfg.window {
        return;
      }
      windowStart := now;
      total := 0;
      clean := 0;
      perIP := map[];
      if multiplier > 1.0 {
        multiplier := multiplier - cfg.decayStep;
        if multiplier < 1.0 {
          multiplier := 1.0;
        }
      }
    }

    method EffectiveLimit(ip: Word, baseLimit: int, now: int) returns (limit: int)
      requires Valid()
      modifies this
      ensures Valid() && Snapshot() == Asked(cfg, old(Snapshot()), ip, baseLimit, now)
      ensures limit == LimitAfter(cfg, old(Snapshot()), ip, baseLimit, now)
      ensures baseLimit >= 1 ==> DividesInto(baseLimit, multiplier, limit)
    {
      hide Times;
      hide CleanRatio;
      hide Excess;
      hide LimitFor;
      RotateWindowIfNeeded(now);
      ghost var r := Snapshot();
      if ip != [] {
        perIP := perIP[ip := (if ip in perIP then perIP[ip] else 0) + 1];
        if total >= cfg.minSamples {
          var cleanRatio := CleanRatio(clean, total);
          if cleanRatio >= cfg.cleanThreshold {
            var ipCount := perIP[ip];
            var trigger := Times(baseLimit, cfg.spikeFactor);
            if trigger < 1.0 {
              trigger := 1.0;
            }
            assert trigger == Trigger(cfg, baseLimit);
            if (ipCount as real) > trigger {
              var spikeMultiplier := Excess(ipCount, trigger);
              if spikeMultiplier > multiplier {
                multiplier := Min(cfg.maxSensitivity, spikeMultiplier);
              }
            }
          }
        }
        assert perIP[ip] == CountOf(r, ip) + 1;
        assert multiplier == Max(r.multiplier, SpikeRatio(cfg, total, clean, perIP[ip], baseLimit));
      }
      assert Snapshot() == Asked(cfg, old(Snapshot()), ip, baseLimit, now);
      limit := LimitFor(baseLimit, multiplier);
      if baseLimit >= 1 {
        LimitDivides(baseLimit, multiplier);
      }
    }

    method Observe(isClean: bool, now: int)
      requires Valid()
      modifies this
      ensures Valid() && Snapshot() == Seen(cfg, old(Snapshot()), isClean, now)
    {
      RotateWindowIfNeeded(now);
      total := total + 1;
      if isClean {
        clean := clean + 1;
      }
    }
  }

  // ---------------------------------------------------------------------
  // Runs
  // ---------------------------------------------------------------------

  datatype Event =
    | Ask(ip: Word, base: int, now: int)
    | See(isClean: bool, now: int)

  function Step(cfg: Config, s: State, e: Event): State
  {
    match e
    case Ask(ip, base, now) => Asked(cfg, s, ip, base, now)
    case See(isClean, now) => Seen(cfg, s, isClean, now)
  }

  function Run(cfg: Config, s: State, events: seq<Event>): State
  {
    if events == [] then s else Step(cfg, Run(cfg, s, events[..|events| - 1]), events[|events| - 1])
  }

  /** Over every run the multiplier stays between 1 and MaxSensitivity, and the
      effective limit between 1 and the base limit. */
  lemma {:induction false} RunInv(cfg: Config, s: State, events: seq<Event>, base: int)
    requires cfg.Ok() && Inv(cfg, s) && base >= 1
    ensures Inv(cfg, Run(cfg, s, events))
    ensures 1 <= LimitFor(base, Run(cfg, s, events).multiplier) <= base
  {
    if events != [] {
      RunInv(cfg, s, events[..|events| - 1], base);
    }
  }

  /** A larger multiplier never gives a larger limit. */
  lemma LimitMonotone(base: int, m: real, n: real)
    requires base >= 1 && 1.0 <= m <= n
    ensures LimitFor(base, n) <= LimitFor(base, m)
  {
    QuotientShrinks(base as real, m, n);
  }

  lemma QuotientShrinks(b: real, m: real, n: real)
    requires b > 0.0 && 1.0 <= m <= n
    ensures b / n <= b / m
  {
    var p, q := b / m, b / n;
    assert p * m == b && q * n == b;
  }

  // ---------------------------------------------------------------------
  // Inside one window: the multiplier is a maximum
  // ---------------------------------------------------------------------

  ghost predicate InOneWindow(cfg: Config, s: State, events: seq<Event>) {
    forall i :: 0 <= i < |events| ==> !Expired(cfg, s, events[i].now)
  }

  function SeenCount(events: seq<Event>): int {
    if events == [] then 0
    else SeenCount(events[..|events| - 1]) + (if events[|events| - 1].See? then 1 else 0)
  }

  function CleanCount(events: seq<Event>): int {
    if events == [] then 0
    else
      var e := events[|events| - 1];
      CleanCount(events[..|events| - 1]) + (if e.See? && e.isClean then 1 else 0)
  }

  function AskCount(events: seq<Event>, ip: Word): int {
    if events == [] then 0
    else
      var e := events[|events| - 1];
      AskCount(events[..|events| - 1], ip) + (if e.Ask? && e.ip == ip then 1 else 0)
  }

  /** The capped spike ratio of the last event, from the history alone. */
  function RatioAt(cfg: Config, s: State, events: seq<Event>): (r: real)
    requires events != []
    ensures cfg.maxSensitivity > 1.0 ==> r >= 1.0
  {
    var e := events[|events| - 1];
    if e.Ask? && e.ip != [] then
      SpikeRatio(cfg, s.total + SeenCount(events), s.clean + CleanCount(events),
                 CountOf(s, e.ip) + AskCount(events, e.ip), e.base)
    else 1.0
  }

  lemma {:induction false} WindowCounts(cfg: Config, s: State, events: seq<Event>, ip: Word)
    requires cfg.Ok() && InOneWindow(cfg, s, events)
    ensures var r := Run(cfg, s, events);
            && r.windowStart == s.windowStart
            && r.total == s.total + SeenCount(events)
            && r.clean == s.clean + CleanCount(events)
            && (ip != [] ==> CountOf(r, ip) == CountOf(s, ip) + AskCount(events, ip))
  {
    if events != [] {
      WindowCounts(cfg, s, events[..|events| - 1], ip);
    }
  }

  /** The multiplier is at least every capped eligible ratio of the window and at
      least where it started, and it is one of these. */
  lemma {:induction false} MultiplierIsMaximum(cfg: Config, s: State, events: seq<Event>)
    requires cfg.Ok() && Inv(cfg, s) && InOneWindow(cfg, s, events)
    ensures var m := Run(cfg, s, events).multiplier;
            && m >= s.multiplier
            && (forall n :: 0 < n <= |events| ==> m >= RatioAt(cfg, s, events[..n]))
            && (m == s.multiplier || exists n :: 0 < n <= |events| && m == RatioAt(cfg, s, events[..n]))
  {
    if events != [] {
      var k := |events| - 1;
      var init := events[..k];
      MultiplierIsMaximum(cfg, s, init);
      assert forall n :: 0 < n <= k ==> init[..n] == events[..n];
      assert events[..k + 1] == events;
      MultiplierStep(cfg, s, events);
    }
  }

  lemma MultiplierStep(cfg: Config, s: State, events: seq<Event>)
    requires cfg.Ok() && Inv(cfg, s) && InOneWindow(cfg, s, events) && events != []
    ensures Run(cfg, s, events).multiplier ==
            Max(Run(cfg, s, events[..|events| - 1]).multiplier, RatioAt(cfg, s, events))
  {
    var k := |events| - 1;
    var init, e := events[..k], events[k];
    var r := Run(cfg, s, init);
    RunInv(cfg, s, init, 1);
    WindowCounts(cfg, s, init, if e.Ask? then e.ip else []);
    assert !Expired(cfg, r, e.now);
  }

  // ---------------------------------------------------------------------
  // Decay
  // ---------------------------------------------------------------------

  /** Rotations that happen during a run. */
  function Rotations(cfg: Config, s: State, events: seq<Event>): nat
  {
    if events == [] then 0
    else
      var init := events[..|events| - 1];
      Rotations(cfg, s, init) + (if Expired(cfg, Run(cfg, s, init), events[|events| - 1].now) then 1 else 0)
  }

  /** No event raises the multiplier. */
  ghost predicate NoSpike(cfg: Config, s: State, events: seq<Event>)
  {
    events == [] ||
    (var init := events[..|events| - 1];
     var e := events[|events| - 1];
     && NoSpike(cfg, s, init)
     && Run(cfg, s, events).multiplier <= Rotated(cfg, Run(cfg, s, init), e.now).multiplier)
  }

  function Scaled(n: nat, d: real): real {
    (n as real) * d
  }

  lemma ScaledNext(n: nat, d: real)
    ensures Scaled(0, d) == 0.0 && Scaled(n + 1, d) == Scaled(n, d) + d
  {
    assert ((n + 1) as real) == (n as real) + 1.0;
  }

  lemma StepAtLeastRotated(cfg: Config, s: State, e: Event)
    requires cfg.Ok()
    ensures Step(cfg, s, e).multiplier >= Rotated(cfg, s, e.now).multiplier
  {
  }

  /** Without spikes n rotations bring the multiplier from m to max(1, m - n*DecayStep);
      an idle time of any number of windows counts as one rotation. */
  lemma {:induction false} Decay(cfg: Config, s: State, events: seq<Event>)
    requires cfg.Ok() && Inv(cfg, s) && NoSpike(cfg, s, events)
    ensures Run(cfg, s, events).multiplier ==
            Max(1.0, s.multiplier - Scaled(Rotations(cfg, s, events), cfg.decayStep))
  {
    hide Scaled;
    hide Step;
    if events == [] {
      ScaledNext(0, cfg.decayStep);
    } else {
      var init := events[..|events| - 1];
      Decay(cfg, s, init);
      StepAtLeastRotated(cfg, Run(cfg, s, init), events[|events| - 1]);
      ScaledNext(Rotations(cfg, s, init), cfg.decayStep);
    }
  }

  /** The multiplier is back at 1, and the limit back at the base limit, exactly
      when DecayStep times the rotations covers what it was above 1. */
  lemma BackToNormal(cfg: Config, s: State, events: seq<Event>, base: int)
    requires cfg.Ok() && Inv(cfg, s) && NoSpike(cfg, s, events) && base >= 1
    ensures Run(cfg, s, events).multiplier == 1.0 <==>
            Scaled(Rotations(cfg, s, events), cfg.decayStep) >= s.multiplier - 1.0
    ensures Run(cfg, s, events).multiplier == 1.0 ==> LimitFor(base, Run(cfg, s, events).multiplier) == base
  {
    hide Scaled;
    hide Run;
    Decay(cfg, s, events);
  }

  /** When the window in force began, from the times of the events alone. */
  function StartAfter(cfg: Config, start: int, events: seq<Event>): int {
    if events == [] then start
    else
      var before, now := StartAfter(cfg, start, events[..|events| - 1]), events[|events| - 1].now;
      if now - before >= cfg.window then now else before
  }

  /** Requests of the address in the window in force, from the history alone. */
  function WindowAsks(cfg: Config, s: State, events: seq<Event>, ip: Word): int {
    if events == [] then CountOf(s, ip)
    else
      var init, e := events[..|events| - 1], events[|events| - 1];
      (if e.now - StartAfter(cfg, s.windowStart, init) >= cfg.window then 0 else WindowAsks(cfg, s, init, ip)) +
      (if e.Ask? && e.ip == ip then 1 else 0)
  }

  lemma {:induction false} WindowAsksExact(cfg: Config, s: State, events: seq<Event>, ip: Word)
    requires cfg.Ok() && ip != []
    ensures Run(cfg, s, events).windowStart == StartAfter(cfg, s.windowStart, events)
    ensures CountOf(Run(cfg, s, events), ip) == WindowAsks(cfg, s, events, ip)
  {
    hide SpikeRatio;
    if events != [] {
      WindowAsksExact(cfg, s, events[..|events| - 1], ip);
    }
  }

  /** No address ever exceeds its trigger inside a window. */
  ghost predicate BelowTrigger(cfg: Config, s: State, events: seq<Event>) {
    forall n: nat :: n < |events| ==> AskBelowTrigger(cfg, s, events, n)
  }

  ghost predicate AskBelowTrigger(cfg: Config, s: State, events: seq<Event>, n: nat)
    requires n < |events|
  {
    events[n].Ask? && events[n].ip != [] ==>
      WindowAsks(cfg, s, events[..n + 1], events[n].ip) as real <= Trigger(cfg, events[n].base)
  }

  lemma {:induction false} BelowTriggerMeansNoSpike(cfg: Config, s: State, events: seq<Event>)
    requires cfg.Ok() && Inv(cfg, s) && BelowTrigger(cfg, s, events)
    ensures NoSpike(cfg, s, events)
  {
    hide Trigger;
    hide Excess;
    if events != [] {
      var n := |events| - 1;
      var init, e := events[..n], events[n];
      forall m: nat | m < n
        ensures AskBelowTrigger(cfg, s, init, m)
      {
        assert AskBelowTrigger(cfg, s, events, m) && init[..m + 1] == events[..m + 1];
      }
      BelowTriggerMeansNoSpike(cfg, s, init);
      RunInv(cfg, s, init, 1);
      assert AskBelowTrigger(cfg, s, events, n) && events[..n + 1] == events;
      if e.Ask? && e.ip != [] {
        WindowAsksExact(cfg, s, events, e.ip);
      }
    }
  }

  /** Calm traffic decays: while no address exceeds its trigger, n rotations bring the
      multiplier from m to max(1, m - n*DecayStep), and back to 1 exactly when
      n*DecayStep covers what it was above 1. */
  lemma CalmTrafficDecays(cfg: Config, s: State, events: seq<Event>, base: int)
    requires cfg.Ok() && Inv(cfg, s) && BelowTrigger(cfg, s, events) && base >= 1
    ensures var n := Rotations(cfg, s, events);
            var m := Run(cfg, s, events).multiplier;
            && m == Max(1.0, s.multiplier - Scaled(n, cfg.decayStep))
            && (m == 1.0 <==> Scaled(n, cfg.decayStep) >= s.multiplier - 1.0)
            && (m == 1.0 ==> LimitFor(base, m) == base)
  {
    hide Scaled;
    hide Run;
    BelowTriggerMeansNoSpike(cfg, s, events);
    Decay(cfg, s, events);
    BackToNormal(cfg, s, events, base);
  }
}
