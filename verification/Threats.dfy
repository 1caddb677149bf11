/** The adaptive threat counter over every run: its expiry slides with every threat. */
module Threats {
  import opened Words
  import opened Wrappers
  import opened Store
  import opened Ledger

  /** The clock after a sequence of operations. */
  function TimeAfter(now: int, ops: seq<Op>): int {
    if ops == [] then now
    else
      var op := ops[|ops| - 1];
      TimeAfter(now, ops[..|ops| - 1]) + (if op.Wait? then op.d else 0)
  }

  /** The times of the address's threats, from the operations alone. */
  function ThreatTimes(now: int, ops: seq<Op>, ip: Word): seq<int> {
    if ops == [] then []
    else
      var init, op := ops[..|ops| - 1], ops[|ops| - 1];
      ThreatTimes(now, init, ip) + (if op.Threat? && op.ip == ip then [TimeAfter(now, init)] else [])
  }

  /** How many threats there are since the last gap of at least w between two of them. */
  function Streak(times: seq<int>, w: int): nat {
    var n := |times|;
    if n == 0 then 0
    else if n == 1 || times[n - 1] - times[n - 2] >= w then 1
    else Streak(times[..n - 1], w) + 1
  }

  lemma StreakSnoc(times: seq<int>, t: int, w: int)
    ensures Streak(times + [t], w) ==
            if times != [] && t - times[|times| - 1] < w then Streak(times, w) + 1 else 1
  {
    assert (times + [t])[..|times|] == times;
  }

  /** The stored counter is alive exactly less than w after the last threat, and then
      it is the present streak. */
  ghost predicate CountsStreak(conf: Conf, l: Ledger, ip: Word, times: seq<int>) {
    var k := ThreatKey(conf.prefix, ip);
    && (Alive(l.db.ints, k, l.now) <==> times != [] && l.now - times[|times| - 1] < conf.threatWindow)
    && (Alive(l.db.ints, k, l.now) ==>
          l.db.ints[k] == Entry(Streak(times, conf.threatWindow), Some(times[|times| - 1] + conf.threatWindow)))
  }

  /** No other operation touches the counter. */
  lemma OthersKeepThreats(conf: Conf, l: Ledger, op: Op, ip: Word)
    requires !(op.Threat? && op.ip == ip)
    ensures var k, ints' := ThreatKey(conf.prefix, ip), Next(conf, l, op).db.ints;
            (k in l.db.ints <==> k in ints') && (k in l.db.ints ==> l.db.ints[k] == ints'[k])
    ensures Next(conf, l, op).now == TimeAfter(l.now, [op])
  {
    var p := conf.prefix;
    assert [op][..0] == [];
    match op
    case Check(_, key, _) => KeysApart(p, key, ip);
    case Judge(ip2, _, _) => KeysApart(p, ip2, ip);
    case Threat(ip2) => KeysInjective(p, ip, ip2);
    case _ =>
  }

  lemma ThreatStep(conf: Conf, l: Ledger, ip: Word, times: seq<int>)
    requires conf.threatWindow > 0 && CountsStreak(conf, l, ip, times)
    ensures CountsStreak(conf, Next(conf, l, Threat(ip)), ip, times + [l.now])
    ensures Bumped(l.db, ThreatKey(conf.prefix, ip), l.now, conf.threatWindow).value ==
            Streak(times + [l.now], conf.threatWindow)
  {
    StreakSnoc(times, l.now, conf.threatWindow);
  }

  /** Over every run the threat counter of an address is the number of its threats since
      the last gap of at least ThreatKeyWindow between two of them, and gone after such
      a gap. */
  lemma {:induction false} RunCountsStreak(conf: Conf, db: Db, now: int, ops: seq<Op>, ip: Word)
    requires conf.threatWindow > 0 && Quiet(db, now)
    ensures var l := Run(conf, Start(db, now), ops);
            && l.now == TimeAfter(now, ops)
            && CountsStreak(conf, l, ip, ThreatTimes(now, ops, ip))
            && (ThreatTimes(now, ops, ip) != [] ==> ThreatTimes(now, ops, ip)[|ThreatTimes(now, ops, ip)| - 1] <= l.now)
  {
    hide Next;
    hide Streak;
    if ops != [] {
      var init, op := ops[..|ops| - 1], ops[|ops| - 1];
      var l, times := Run(conf, Start(db, now), init), ThreatTimes(now, init, ip);
      RunCountsStreak(conf, db, now, init, ip);
      if op.Threat? && op.ip == ip {
        ThreatStep(conf, l, ip, times);
        ThreatKeepsTime(conf, l, ip);
      } else {
        OthersKeepThreats(conf, l, op, ip);
        assert [op][..0] == [];
        assert ThreatTimes(now, ops, ip) == times;
      }
    }
  }

  lemma ThreatKeepsTime(conf: Conf, l: Ledger, ip: Word)
    ensures Next(conf, l, Threat(ip)).now == l.now
  {
  }

  /** So after every run the count that decides on an adaptive ban is the address's
      streak of threats, this one included. */
  lemma AdaptiveCountIsStreak(conf: Conf, db: Db, now: int, ops: seq<Op>, ip: Word)
    requires conf.threatWindow > 0 && Quiet(db, now)
    ensures var l := Run(conf, Start(db, now), ops);
            Bumped(l.db, ThreatKey(conf.prefix, ip), l.now, conf.threatWindow).value ==
            Streak(ThreatTimes(now, ops + [Threat(ip)], ip), conf.threatWindow)
  {
    hide Run;
    RunCountsStreak(conf, db, now, ops, ip);
    assert (ops + [Threat(ip)])[..|ops|] == ops;
    ThreatStep(conf, Run(conf, Start(db, now), ops), ip, ThreatTimes(now, ops, ip));
  }
}
