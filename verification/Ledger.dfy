/** Runs of the Redis store: any sequence of script calls, ban and penalty writes
    and waiting, by any number of clients. Rate limiting, escalation and the
    reputation sum are proved over every such run. */
module Ledger {
  import opened Words
  import opened Wrappers
  import opened Store
  import opened FixedWindow

  datatype Conf = Conf(prefix: Word, windowMs: int, rep: RepConfig, threatWindow: int)

  datatype Op =
    | Check(ip: Word, key: Word, limit: int)
    | Judge(ip: Word, field: Word, delta: real)
    | Ban(ip: Word, ttl: int)
    | Penalise(ip: Word, ttl: int)
    | Threat(ip: Word)
    | Wait(d: nat)

  /** History: counted checks by rate-limit key, threshold crossings by address,
      reputation updates. */
  datatype KeyHit = KeyHit(key: Word, hit: Hit)
  datatype Crossing = Crossing(ip: Word, hit: Hit, ttl: int)
  datatype Update = Update(time: int, field: Word, delta: real, score: real, action: int)

  datatype Ledger = Ledger(now: int, db: Db, hits: seq<KeyHit>, crossings: seq<Crossing>, updates: seq<Update>)

  function JudgeReply(conf: Conf, now: int, db: Db, ip: Word, field: Word, delta: real): RepReply {
    Reputation(db, now, RepKey(conf.prefix), AttemptsKey(conf.prefix, ip), field, delta, conf.rep)
  }

  function CheckReply(conf: Conf, now: int, db: Db, ip: Word, key: Word, limit: int): CriticalReply {
    Critical(db, now, BlKey(conf.prefix, ip), RlKey(conf.prefix, key), conf.windowMs, limit)
  }

  /** The effect of one operation on the store. */
  function OpDb(conf: Conf, now: int, db: Db, op: Op): Db {
    match op
    case Check(ip, key, _) => CriticalDb(db, now, BlKey(conf.prefix, ip), RlKey(conf.prefix, key), conf.windowMs)
    case Judge(ip, field, delta) =>
      ReputationDb(db, now, RepKey(conf.prefix), PboxKey(conf.prefix, ip), BlKey(conf.prefix, ip),
                   AttemptsKey(conf.prefix, ip), field, delta, conf.rep)
    case Ban(ip, ttl) =>
      db.(sets := db.sets[BlKey(conf.prefix, ip) := Marked(db, BlKey(conf.prefix, ip), now, ttl)])
    case Penalise(ip, ttl) =>
      db.(strings := db.strings[PboxKey(conf.prefix, ip) := Entry(MEMBER, Some(now + ttl))])
    case Threat(ip) =>
      db.(ints := db.ints[ThreatKey(conf.prefix, ip) :=
        Bumped(db, ThreatKey(conf.prefix, ip), now, conf.threatWindow).(expiry := Some(now + conf.threatWindow))])
    case Wait(_) => db
  }

  /** The entry that a counting script leaves behind, as a hit. */
  function AsHit(e: Entry<int>, now: int, w: int, limit: int): Hit {
    Hit(now, if e.expiry.Some? then e.expiry.value - w else now, e.value, limit)
  }

  function Next(conf: Conf, l: Ledger, op: Op): Ledger {
    var db := OpDb(conf, l.now, l.db, op);
    match op
    case Check(ip, key, limit) =>
      if Banned(l.db, BlKey(conf.prefix, ip), l.now) then l
      else
        var e := Bumped(l.db, RlKey(conf.prefix, key), l.now, conf.windowMs);
        l.(db := db, hits := l.hits + [KeyHit(key, AsHit(e, l.now, conf.windowMs, limit))])
    case Judge(ip, field, delta) =>
      var reply := JudgeReply(conf, l.now, l.db, ip, field, delta);
      var e := Bumped(l.db, AttemptsKey(conf.prefix, ip), l.now, conf.rep.backoffWindow);
      l.(db := db,
         updates := l.updates + [Update(l.now, field, delta, reply.score, reply.action)],
         crossings := if reply.action != 2 then l.crossings
                      else l.crossings +
                           [Crossing(ip, AsHit(e, l.now, conf.rep.backoffWindow, 0), reply.banTtl)])
    case Wait(d) => l.(now := l.now + d)
    case _ => l.(db := db)
  }

  function Run(conf: Conf, l: Ledger, ops: seq<Op>): Ledger {
    if ops == [] then l else Next(conf, Run(conf, l, ops[..|ops| - 1]), ops[|ops| - 1])
  }

  /** No counter and no score is alive; bans and penalties may be. */
  ghost predicate Quiet(db: Db, now: int) {
    && (forall k :: !Alive(db.ints, k, now))
    && (forall k :: !Alive(db.hashes, k, now))
  }

  function Start(db: Db, now: int): Ledger {
    Ledger(now, db, [], [], [])
  }

  // ---------------------------------------------------------------------
  // One counter key through a run
  // ---------------------------------------------------------------------

  function HitsOf(hits: seq<KeyHit>, key: Word): (r: seq<Hit>) {
    if hits == [] then []
    else
      var init := HitsOf(hits[..|hits| - 1], key);
      var h := hits[|hits| - 1];
      if h.key == key then init + [h.hit] else init
  }

  function CrossingsOf(cs: seq<Crossing>, ip: Word): (r: seq<Hit>) {
    if cs == [] then []
    else
      var init := CrossingsOf(cs[..|cs| - 1], ip);
      var c := cs[|cs| - 1];
      if c.ip == ip then init + [c.hit] else init
  }

  ghost predicate CounterShape(db: Db, k: Word, now: int) {
    Alive(db.ints, k, now) ==> db.ints[k].expiry.Some? && db.ints[k].value >= 1
  }

  ghost function CounterAt(db: Db, k: Word, now: int): Counter
    requires CounterShape(db, k, now)
  {
    if Alive(db.ints, k, now) then On(db.ints[k].value, db.ints[k].expiry.value) else Off
  }

  /** The stored counter k fits the hits that were recorded for it. */
  ghost predicate Fits(w: int, db: Db, k: Word, now: int, hits: seq<Hit>) {
    CounterShape(db, k, now) && Consistent(w, hits, CounterAt(db, k, now), now)
  }

  lemma BumpFits(w: int, db: Db, k: Word, now: int, hits: seq<Hit>, limit: int)
    requires w > 0 && Fits(w, db, k, now, hits)
    ensures var e := Bumped(db, k, now, w);
            Fits(w, db.(ints := db.ints[k := e]), k, now, hits + [AsHit(e, now, w, limit)])
  {
    HitKeeps(w, hits, CounterAt(db, k, now), now, limit);
  }

  lemma SameEntryFits(w: int, db: Db, db': Db, k: Word, now: int, hits: seq<Hit>)
    requires Fits(w, db, k, now, hits)
    requires k in db.ints <==> k in db'.ints
    requires k in db.ints ==> db.ints[k] == db'.ints[k]
    ensures Fits(w, db', k, now, hits)
  {
  }

  /** An operation leaves every counter alone that it does not bump. */
  lemma OtherCountersKept(conf: Conf, now: int, db: Db, op: Op, key: Word, addr: Word)
    ensures var db' := OpDb(conf, now, db, op);
            && (!(op.Check? && op.key == key) ==>
                  var k := RlKey(conf.prefix, key);
                  (k in db.ints <==> k in db'.ints) && (k in db.ints ==> db.ints[k] == db'.ints[k]))
            && (!(op.Judge? && op.ip == addr) ==>
                  var k := AttemptsKey(conf.prefix, addr);
                  (k in db.ints <==> k in db'.ints) && (k in db.ints ==> db.ints[k] == db'.ints[k]))
  {
    var p := conf.prefix;
    match op
    case Check(_, key2, _) => KeysInjective(p, key, key2); KeysApart(p, key2, addr);
    case Judge(ip, _, _) => KeysInjective(p, addr, ip); KeysApart(p, key, ip);
    case Threat(ip) => KeysApart(p, key, ip); KeysApart(p, addr, ip);
    case _ =>
  }

  ghost predicate RateInv(conf: Conf, l: Ledger, key: Word) {
    Fits(conf.windowMs, l.db, RlKey(conf.prefix, key), l.now, HitsOf(l.hits, key))
  }

  ghost predicate BackoffInv(conf: Conf, l: Ledger, ip: Word) {
    Fits(conf.rep.backoffWindow, l.db, AttemptsKey(conf.prefix, ip), l.now, CrossingsOf(l.crossings, ip))
  }

  lemma RateStep(conf: Conf, l: Ledger, op: Op, key: Word)
    requires conf.windowMs > 0 && RateInv(conf, l, key)
    ensures RateInv(conf, Next(conf, l, op), key)
  {
    var k, w, hits := RlKey(conf.prefix, key), conf.windowMs, HitsOf(l.hits, key);
    match op
    case Wait(d) =>
    case Check(ip, key2, limit) =>
      if !Banned(l.db, BlKey(conf.prefix, ip), l.now) {
        var e := Bumped(l.db, RlKey(conf.prefix, key2), l.now, w);
        if key2 == key {
          BumpFits(w, l.db, k, l.now, hits, limit);
        } else {
          OtherCountersKept(conf, l.now, l.db, op, key, []);
          SameEntryFits(w, l.db, OpDb(conf, l.now, l.db, op), k, l.now, hits);
        }
      }
    case _ =>
      OtherCountersKept(conf, l.now, l.db, op, key, []);
      SameEntryFits(w, l.db, OpDb(conf, l.now, l.db, op), k, l.now, hits);
  }

  lemma BackoffStep(conf: Conf, l: Ledger, op: Op, ip: Word)
    requires conf.rep.backoffWindow > 0 && BackoffInv(conf, l, ip)
    ensures BackoffInv(conf, Next(conf, l, op), ip)
  {
    var k, w, hits := AttemptsKey(conf.prefix, ip), conf.rep.backoffWindow, CrossingsOf(l.crossings, ip);
    var db' := OpDb(conf, l.now, l.db, op);
    match op
    case Wait(d) =>
    case Judge(ip2, field, delta) =>
      var reply := JudgeReply(conf, l.now, l.db, ip2, field, delta);
      if reply.action == 2 {
        var e := Bumped(l.db, AttemptsKey(conf.prefix, ip2), l.now, w);
        if ip2 == ip {
          BumpFits(w, l.db, k, l.now, hits, 0);
          SameEntryFits(w, l.db.(ints := l.db.ints[k := e]), db', k, l.now, hits + [AsHit(e, l.now, w, 0)]);
        } else {
          OtherCountersKept(conf, l.now, l.db, op, [], ip);
          SameEntryFits(w, l.db, db', k, l.now, hits);
        }
      } else {
        SameEntryFits(w, l.db, db', k, l.now, hits);
      }
    case _ =>
      OtherCountersKept(conf, l.now, l.db, op, [], ip);
      SameEntryFits(w, l.db, db', k, l.now, hits);
  }

  /** Over every run the rate counter of a key fits the key's recorded hits. */
  lemma {:induction false} RunKeepsRate(conf: Conf, db: Db, now: int, ops: seq<Op>, key: Word)
    requires conf.windowMs > 0 && Quiet(db, now)
    ensures RateInv(conf, Run(conf, Start(db, now), ops), key)
  {
    if ops != [] {
      var n := |ops| - 1;
      RunKeepsRate(conf, db, now, ops[..n], key);
      RateStep(conf, Run(conf, Start(db, now), ops[..n]), ops[n], key);
    }
  }

  /** Over every run the attempt counter of an address fits its recorded crossings. */
  lemma {:induction false} RunKeepsBackoff(conf: Conf, db: Db, now: int, ops: seq<Op>, ip: Word)
    requires conf.rep.backoffWindow > 0 && Quiet(db, now)
    ensures BackoffInv(conf, Run(conf, Start(db, now), ops), ip)
  {
    if ops != [] {
      var n := |ops| - 1;
      RunKeepsBackoff(conf, db, now, ops[..n], ip);
      BackoffStep(conf, Run(conf, Start(db, now), ops[..n]), ops[n], ip);
    }
  }

  // ---------------------------------------------------------------------
  // Rate limiting over every run
  // ---------------------------------------------------------------------

  /** Every check of this key uses a limit between 1 and `most`. */
  ghost predicate LimitsWithin(ops: seq<Op>, key: Word, most: int) {
    forall i :: 0 <= i < |ops| && ops[i].Check? && ops[i].key == key ==> 1 <= ops[i].limit <= most
  }

  lemma {:induction false} RunLimits(conf: Conf, l: Ledger, ops: seq<Op>, key: Word, most: int)
    requires l.hits == [] && LimitsWithin(ops, key, most)
    ensures LimitsUpTo(HitsOf(Run(conf, l, ops).hits, key), most)
  {
    if ops != [] {
      var n := |ops| - 1;
      RunLimits(conf, l, ops[..n], key, most);
    }
  }

  /** What the script answers is what the history records: a blacklisted check
      counts nothing and changes nothing; any other check is recorded, and is
      allowed exactly when its position in the window is within its limit. */
  lemma AnswerMatchesHistory(conf: Conf, db: Db, now: int, ops: seq<Op>, ip: Word, key: Word, limit: int)
    requires conf.windowMs > 0 && Quiet(db, now)
    ensures var l := Run(conf, Start(db, now), ops);
            var l' := Next(conf, l, Check(ip, key, limit));
            var reply := CheckReply(conf, l.now, l.db, ip, key, limit);
            if Banned(l.db, BlKey(conf.prefix, ip), l.now) then
              && reply.code == 2 && l' == l
              && var end := l.db.sets[BlKey(conf.prefix, ip)].expiry;
                 reply.ttl == if end.Some? then end.value - l.now else -1
            else
              && HitsOf(l'.hits, key) != []
              && var h := HitsOf(l'.hits, key)[|HitsOf(l'.hits, key)| - 1];
                 && h.time == l.now && h.limit == limit && reply.counter == h.counter
                 && h.counter == 1 + CountIn(HitsOf(l.hits, key), h.start)
                 && (reply.code == 0 <==> h.counter <= limit) && reply.code in {0, 1}
                 && reply.ttl == h.start + conf.windowMs - l.now && 0 < reply.ttl <= conf.windowMs
  {
    hide Run;
    hide RateInv;
    RunKeepsRate(conf, db, now, ops, key);
    AnswerAt(conf, Run(conf, Start(db, now), ops), ip, key, limit);
  }

  /** A counted check appends the hit that its script answer describes. */
  lemma AnswerAt(conf: Conf, l: Ledger, ip: Word, key: Word, limit: int)
    requires conf.windowMs > 0 && RateInv(conf, l, key)
    ensures var l' := Next(conf, l, Check(ip, key, limit));
            var reply := CheckReply(conf, l.now, l.db, ip, key, limit);
            if Banned(l.db, BlKey(conf.prefix, ip), l.now) then
              && reply.code == 2 && l' == l
              && var end := l.db.sets[BlKey(conf.prefix, ip)].expiry;
                 reply.ttl == if end.Some? then end.value - l.now else -1
            else
              && HitsOf(l'.hits, key) != []
              && var h := HitsOf(l'.hits, key)[|HitsOf(l'.hits, key)| - 1];
                 && h.time == l.now && h.limit == limit && reply.counter == h.counter
                 && h.counter == 1 + CountIn(HitsOf(l.hits, key), h.start)
                 && (reply.code == 0 <==> h.counter <= limit) && reply.code in {0, 1}
                 && reply.ttl == h.start + conf.windowMs - l.now && 0 < reply.ttl <= conf.windowMs
  {
    if !Banned(l.db, BlKey(conf.prefix, ip), l.now) {
      var e := Bumped(l.db, RlKey(conf.prefix, key), l.now, conf.windowMs);
      var h := AsHit(e, l.now, conf.windowMs, limit);
      RateStep(conf, l, Check(ip, key, limit), key);
      var hits := HitsOf(l.hits, key);
      assert HitOk(conf.windowMs, hits + [h], |hits|);
      assert (hits + [h])[..|hits|] == hits;
    }
  }

  /** Over every run, a key gets at most `most` requests through per counter
      window, and at most 2*most - 1 in any interval as long as the window. */
  lemma RateLimitHolds(conf: Conf, db: Db, now: int, ops: seq<Op>, key: Word, most: nat, start: int, from: int)
    requires conf.windowMs > 0 && Quiet(db, now)
    requires most > 0 && LimitsWithin(ops, key, most)
    ensures var hits := HitsOf(Run(conf, Start(db, now), ops).hits, key);
            && AllowedIn(hits, start) <= most
            && AllowedDuring(hits, from, conf.windowMs) <= 2 * most - 1
  {
    RunKeepsRate(conf, db, now, ops, key);
    RunLimits(conf, Start(db, now), ops, key, most);
    var hits := HitsOf(Run(conf, Start(db, now), ops).hits, key);
    WindowBound(conf.windowMs, hits, start, most);
    IntervalBound(conf.windowMs, hits, from, most);
  }

  /** A window below one millisecond reaches the script as 0: then nothing is
      ever limited, however many checks arrive and however small the limit. */
  lemma {:induction false} SubMillisecondWindowNeverLimits(
    conf: Conf, db: Db, now: int, ops: seq<Op>, ip: Word, key: Word, limit: int)
    requires conf.windowMs <= 0 && Quiet(db, now) && limit >= 1
    ensures var l := Run(conf, Start(db, now), ops);
            && !Alive(l.db.ints, RlKey(conf.prefix, key), l.now)
            && (!Banned(l.db, BlKey(conf.prefix, ip), l.now) ==>
                  CheckReply(conf, l.now, l.db, ip, key, limit).code == 0)
  {
    if ops != [] {
      var n := |ops| - 1;
      SubMillisecondWindowNeverLimits(conf, db, now, ops[..n], ip, key, limit);
      var l := Run(conf, Start(db, now), ops[..n]);
      OtherCountersKept(conf, l.now, l.db, ops[n], key, []);
    }
  }

  // ---------------------------------------------------------------------
  // Escalation over every run
  // ---------------------------------------------------------------------

  /** Ban levels as configured do not decrease. */
  ghost predicate LevelsOrdered(rep: RepConfig) {
    rep.ban1 <= rep.ban2 <= rep.ban3
  }

  /** The k-th threshold crossing of an address within one lifetime of its attempt
      counter, whatever the fingerprints, reports attempts = k and the ban time
      of level min(k, 3). */
  lemma Escalation(conf: Conf, db: Db, now: int, ops: seq<Op>, ip: Word, field: Word, delta: real)
    requires conf.rep.backoffWindow > 0 && Quiet(db, now)
    ensures var l := Run(conf, Start(db, now), ops);
            var reply := JudgeReply(conf, l.now, l.db, ip, field, delta);
            var l' := Next(conf, l, Judge(ip, field, delta));
            reply.action == 2 ==>
              && CrossingsOf(l'.crossings, ip) != []
              && var h := CrossingsOf(l'.crossings, ip)[|CrossingsOf(l'.crossings, ip)| - 1];
                 && h.time == l.now
                 && reply.attempts == 1 + CountIn(CrossingsOf(l.crossings, ip), h.start)
                 && reply.banTtl == (if reply.attempts == 1 then conf.rep.ban1
                                     else if reply.attempts == 2 then conf.rep.ban2 else conf.rep.ban3)
  {
    hide Run;
    hide BackoffInv;
    RunKeepsBackoff(conf, db, now, ops, ip);
    EscalationStep(conf, Run(conf, Start(db, now), ops), ip, field, delta);
  }

  lemma EscalationStep(conf: Conf, l: Ledger, ip: Word, field: Word, delta: real)
    requires conf.rep.backoffWindow > 0 && BackoffInv(conf, l, ip)
    ensures var reply := JudgeReply(conf, l.now, l.db, ip, field, delta);
            var hits := CrossingsOf(Next(conf, l, Judge(ip, field, delta)).crossings, ip);
            reply.action == 2 ==>
              && hits != [] && hits[|hits| - 1].time == l.now
              && reply.attempts == 1 + CountIn(CrossingsOf(l.crossings, ip), hits[|hits| - 1].start)
              && reply.banTtl == (if reply.attempts == 1 then conf.rep.ban1
                                  else if reply.attempts == 2 then conf.rep.ban2 else conf.rep.ban3)
  {
    var reply := JudgeReply(conf, l.now, l.db, ip, field, delta);
    if reply.action == 2 {
      var w := conf.rep.backoffWindow;
      var e := Bumped(l.db, AttemptsKey(conf.prefix, ip), l.now, w);
      var h := AsHit(e, l.now, w, 0);
      BackoffStep(conf, l, Judge(ip, field, delta), ip);
      var hits := CrossingsOf(l.crossings, ip);
      assert HitOk(w, hits + [h], |hits|);
      assert (hits + [h])[..|hits|] == hits;
    }
  }

  /** A crossing bans the address for exactly the reported time, and ends its penalty. */
  lemma CrossingBans(conf: Conf, l: Ledger, ip: Word, field: Word, delta: real, later: int)
    requires JudgeReply(conf, l.now, l.db, ip, field, delta).action == 2
    ensures var reply := JudgeReply(conf, l.now, l.db, ip, field, delta);
            var db := Next(conf, l, Judge(ip, field, delta)).db;
            && (Banned(db, BlKey(conf.prefix, ip), later) <==> later < l.now + reply.banTtl)
            && Ttl(db.strings, PboxKey(conf.prefix, ip), later) == -2
  {
  }

  /** The backoff window does not slide: a crossing starts it when no attempt counter
      is alive, and leaves its end unchanged otherwise. */
  lemma BackoffWindowIsFixed(conf: Conf, l: Ledger, ip: Word, field: Word, delta: real)
    requires CounterShape(l.db, AttemptsKey(conf.prefix, ip), l.now)
    requires JudgeReply(conf, l.now, l.db, ip, field, delta).action == 2
    ensures var k := AttemptsKey(conf.prefix, ip);
            var ints := Next(conf, l, Judge(ip, field, delta)).db.ints;
            && k in ints
            && ints[k].expiry == if Alive(l.db.ints, k, l.now) then l.db.ints[k].expiry
                                 else Some(l.now + conf.rep.backoffWindow)
  {
  }

  lemma {:induction false} CountGrows(hits: seq<Hit>, n: nat, start: int)
    requires n <= |hits|
    ensures CountIn(hits[..n], start) <= CountIn(hits, start)
  {
    if n == |hits| {
      assert hits[..n] == hits;
    } else {
      CountGrows(hits[..|hits| - 1], n, start);
      assert hits[..|hits| - 1][..n] == hits[..n];
    }
  }

  /** A crossing of the address has its place in the address's own history. */
  lemma {:induction false} CrossingAt(cs: seq<Crossing>, ip: Word, i: nat)
    requires i < |cs| && cs[i].ip == ip
    ensures var k := |CrossingsOf(cs[..i], ip)|;
            k < |CrossingsOf(cs, ip)| && CrossingsOf(cs, ip)[k] == cs[i].hit
  {
    var n := |cs| - 1;
    if i == n {
      assert cs[..i] == cs[..n];
    } else {
      CrossingAt(cs[..n], ip, i);
      assert cs[..n][..i] == cs[..i];
    }
  }

  /** Every recorded ban time is the one of the recorded level. */
  ghost predicate TtlsRecorded(rep: RepConfig, cs: seq<Crossing>) {
    forall i :: 0 <= i < |cs| ==> cs[i].ttl == BanTtl(rep, cs[i].hit.counter)
  }

  lemma {:induction false} RunTtls(conf: Conf, l: Ledger, ops: seq<Op>)
    requires l.crossings == []
    ensures TtlsRecorded(conf.rep, Run(conf, l, ops).crossings)
  {
    if ops != [] {
      RunTtls(conf, l, ops[..|ops| - 1]);
    }
  }

  /** With ordered levels, the reported ban times never go down within one lifetime
      of an address's attempt counter. */
  lemma LaterCrossingsBanLonger(conf: Conf, db: Db, now: int, ops: seq<Op>, i: nat, j: nat)
    requires conf.rep.backoffWindow > 0 && Quiet(db, now) && LevelsOrdered(conf.rep)
    ensures var cs := Run(conf, Start(db, now), ops).crossings;
            i < j < |cs| && cs[i].ip == cs[j].ip && cs[i].hit.start == cs[j].hit.start ==>
              cs[i].hit.counter < cs[j].hit.counter && cs[i].ttl <= cs[j].ttl
  {
    hide Run;
    hide BackoffInv;
    var cs := Run(conf, Start(db, now), ops).crossings;
    RunTtls(conf, Start(db, now), ops);
    if i < j < |cs| && cs[i].ip == cs[j].ip && cs[i].hit.start == cs[j].hit.start {
      RunKeepsBackoff(conf, db, now, ops, cs[i].ip);
      CountersGrow(conf, Run(conf, Start(db, now), ops), i, j);
    }
  }

  lemma CountersGrow(conf: Conf, l: Ledger, i: nat, j: nat)
    requires i < j < |l.crossings| && l.crossings[i].ip == l.crossings[j].ip
    requires l.crossings[i].hit.start == l.crossings[j].hit.start
    requires BackoffInv(conf, l, l.crossings[i].ip)
    ensures 1 <= l.crossings[i].hit.counter < l.crossings[j].hit.counter
  {
    var cs, ip := l.crossings, l.crossings[i].ip;
    CrossingAt(cs, ip, i);
    CrossingAt(cs, ip, j);
    CrossingAt(cs[..j], ip, i);
    assert cs[..j][..i] == cs[..i];
    LaterHitCountsMore(conf.rep.backoffWindow, CrossingsOf(cs, ip),
                       |CrossingsOf(cs[..i], ip)|, |CrossingsOf(cs[..j], ip)|);
  }

  /** Of two hits in one window the later one has the larger number. */
  lemma LaterHitCountsMore(w: int, hits: seq<Hit>, i: nat, j: nat)
    requires forall k :: 0 <= k < |hits| ==> HitOk(w, hits, k)
    requires i < j < |hits| && hits[i].start == hits[j].start
    ensures hits[j].counter > hits[i].counter >= 1
  {
    assert HitOk(w, hits, i) && HitOk(w, hits, j);
    CountGrows(hits[..j], i + 1, hits[i].start);
    assert hits[..j][..i + 1] == hits[..i + 1];
    assert hits[..i + 1][..i] == hits[..i];
  }
}
