/** Redis as the engine uses it: a keyed store with expiry, and the two Lua
    scripts, each one atomic step. Times and durations are whole milliseconds. */
module Store {
  import opened Words
  import opened Wrappers

  datatype Entry<T> = Entry(value: T, expiry: Option<int>)

  /** One map per Redis type. The keys of different kinds never coincide (KeysApart). */
  datatype Db = Db(
    sets: map<Word, Entry<set<Word>>>,
    ints: map<Word, Entry<int>>,
    strings: map<Word, Entry<Word>>,
    hashes: map<Word, Entry<map<Word, real>>>)

  const MEMBER: Word := [49]  // "1"

  predicate Alive<T>(m: map<Word, Entry<T>>, k: Word, now: int) {
    k in m && (m[k].expiry.None? || now < m[k].expiry.value)
  }

  /** PTTL: -2 without a key, -1 without an expiry. */
  function Ttl<T>(m: map<Word, Entry<T>>, k: Word, now: int): int {
    if !Alive(m, k, now) then -2
    else if m[k].expiry.None? then -1
    else m[k].expiry.value - now
  }

  // ---------------------------------------------------------------------
  // Keys
  // ---------------------------------------------------------------------

  const BL: Word := [58, 98, 108, 58]                    // :bl:
  const RL: Word := [58, 114, 108, 58]                   // :rl:
  const PBOX: Word := [58, 112, 98, 111, 120, 58]        // :pbox:
  const REP: Word := [58, 114, 101, 112]                 // :rep
  const THREAT: Word := [58, 116, 104, 114, 101, 97, 116, 58]   // :threat:
  const ATTEMPTS: Word := [58, 98, 97, 110, 95, 97, 116, 116, 101, 109, 112, 116, 115, 58]  // :ban_attempts:

  function BlKey(p: Word, ip: Word): Word { p + BL + ip }

  function RlKey(p: Word, key: Word): Word { p + RL + key }

  function PboxKey(p: Word, ip: Word): Word { p + PBOX + ip }

  function RepKey(p: Word): Word { p + REP }

  function ThreatKey(p: Word, ip: Word): Word { p + THREAT + ip }

  function AttemptsKey(p: Word, ip: Word): Word { p + ATTEMPTS + ip }

  lemma TailOfKey(p: Word, mark: Word, x: Word)
    ensures (p + mark + x)[|p|..] == mark + x
    ensures (p + mark + x)[|p| + |mark|..] == x
  {
  }

  /** Different addresses have different keys. */
  lemma KeysInjective(p: Word, x: Word, y: Word)
    ensures BlKey(p, x) == BlKey(p, y) ==> x == y
    ensures RlKey(p, x) == RlKey(p, y) ==> x == y
    ensures AttemptsKey(p, x) == AttemptsKey(p, y) ==> x == y
    ensures PboxKey(p, x) == PboxKey(p, y) ==> x == y
    ensures ThreatKey(p, x) == ThreatKey(p, y) ==> x == y
  {
    TailOfKey(p, BL, x);
    TailOfKey(p, BL, y);
    TailOfKey(p, RL, x);
    TailOfKey(p, RL, y);
    TailOfKey(p, ATTEMPTS, x);
    TailOfKey(p, ATTEMPTS, y);
    TailOfKey(p, PBOX, x);
    TailOfKey(p, PBOX, y);
    TailOfKey(p, THREAT, x);
    TailOfKey(p, THREAT, y);
  }

  /** Keys of different kinds never coincide, whatever the addresses. */
  lemma KeysApart(p: Word, x: Word, y: Word)
    ensures RlKey(p, x) != AttemptsKey(p, y)
    ensures RlKey(p, x) != ThreatKey(p, y)
    ensures AttemptsKey(p, x) != ThreatKey(p, y)
    ensures BlKey(p, x) != RlKey(p, y) && BlKey(p, x) != AttemptsKey(p, y)
    ensures BlKey(p, x) != ThreatKey(p, y) && BlKey(p, x) != PboxKey(p, y) && BlKey(p, x) != RepKey(p)
    ensures PboxKey(p, x) != RlKey(p, y) && PboxKey(p, x) != AttemptsKey(p, y) && PboxKey(p, x) != ThreatKey(p, y)
    ensures PboxKey(p, x) != RepKey(p)
    ensures RepKey(p) != RlKey(p, y) && RepKey(p) != AttemptsKey(p, y) && RepKey(p) != ThreatKey(p, y)
  {
    var n := |p|;
    assert BlKey(p, x)[n + 1] == 98 && BlKey(p, x)[n + 2] == 108;
    assert RlKey(p, x)[n + 1] == 114 && RlKey(p, x)[n + 2] == 108;
    assert RlKey(p, y)[n + 1] == 114 && RlKey(p, y)[n + 2] == 108;
    assert PboxKey(p, x)[n + 1] == 112 && PboxKey(p, y)[n + 1] == 112;
    assert RepKey(p)[n + 1] == 114 && RepKey(p)[n + 2] == 101;
    assert ThreatKey(p, y)[n + 1] == 116;
    assert AttemptsKey(p, x)[n + 1] == 98 && AttemptsKey(p, x)[n + 2] == 97;
    assert AttemptsKey(p, y)[n + 1] == 98 && AttemptsKey(p, y)[n + 2] == 97;
  }

  // ---------------------------------------------------------------------
  // What the scripts do to the store
  // ---------------------------------------------------------------------

  predicate Banned(db: Db, blKey: Word, now: int) {
    Alive(db.sets, blKey, now) && MEMBER in db.sets[blKey].value
  }

  /** INCR, and PEXPIRE when the count is then 1. */
  function Bumped(db: Db, k: Word, now: int, w: int): Entry<int> {
    var cur := if Alive(db.ints, k, now) then db.ints[k].value + 1 else 1;
    Entry(cur, if cur == 1 then Some(now + w) else if Alive(db.ints, k, now) then db.ints[k].expiry else None)
  }

  datatype CriticalReply = CriticalReply(code: int, counter: int, ttl: int)

  function CriticalDb(db: Db, now: int, blKey: Word, counterKey: Word, w: int): Db {
    if Banned(db, blKey, now) then db
    else db.(ints := db.ints[counterKey := Bumped(db, counterKey, now, w)])
  }

  function Critical(db: Db, now: int, blKey: Word, counterKey: Word, w: int, limit: int): CriticalReply {
    if Banned(db, blKey, now) then CriticalReply(2, 0, Ttl(db.sets, blKey, now))
    else
      var cur := Bumped(db, counterKey, now, w).value;
      var ttl := Ttl(CriticalDb(db, now, blKey, counterKey, w).ints, counterKey, now);
      CriticalReply(if cur > limit then 1 else 0, cur, ttl)
  }

  datatype RepConfig = RepConfig(
    scoreWindow: int, warning: real, threshold: real, penaltyTtl: int, backoffWindow: int,
    ban1: int, ban2: int, ban3: int)

  datatype RepReply = RepReply(score: real, action: int, banTtl: int, attempts: int)

  function Fields(db: Db, repKey: Word, now: int): map<Word, real> {
    if Alive(db.hashes, repKey, now) then db.hashes[repKey].value else map[]
  }

  function Score(db: Db, repKey: Word, field: Word, now: int): real {
    var fields := Fields(db, repKey, now);
    if field in fields then fields[field] else 0.0
  }

  function BanTtl(rep: RepConfig, attempts: int): int {
    if attempts == 2 then rep.ban2 else if attempts >= 3 then rep.ban3 else rep.ban1
  }

  function Marked(db: Db, blKey: Word, now: int, ttl: int): Entry<set<Word>> {
    Entry((if Alive(db.sets, blKey, now) then db.sets[blKey].value else {}) + {MEMBER}, Some(now + ttl))
  }

  function Reputation(
    db: Db, now: int, repKey: Word, attemptsKey: Word, field: Word, delta: real, rep: RepConfig): RepReply
  {
    var score := Score(db, repKey, field, now) + delta;
    if score >= rep.threshold then
      var attempts := Bumped(db, attemptsKey, now, rep.backoffWindow).value;
      RepReply(score, 2, BanTtl(rep, attempts), attempts)
    else if score >= rep.warning then RepReply(score, 1, 0, 0)
    else RepReply(score, 0, 0, 0)
  }

  function ReputationDb(
    db: Db, now: int, repKey: Word, penaltyKey: Word, blKey: Word, attemptsKey: Word,
    field: Word, delta: real, rep: RepConfig): Db
  {
    var reply := Reputation(db, now, repKey, attemptsKey, field, delta, rep);
    var scored := db.(hashes := db.hashes[repKey :=
      Entry(Fields(db, repKey, now)[field := reply.score], Some(now + rep.scoreWindow))]);
    match reply.action
    case 2 =>
      Db(db.sets[blKey := Marked(db, blKey, now, reply.banTtl)],
         db.ints[attemptsKey := Bumped(db, attemptsKey, now, rep.backoffWindow)],
         db.strings - {penaltyKey},
         scored.hashes)
    case 1 => scored.(strings := db.strings[penaltyKey := Entry(MEMBER, Some(now + rep.penaltyTtl))])
    case _ => scored
  }

  /** INCR followed, at 1, by PEXPIRE. */
  lemma IncrThenExpire(before: Db, after: Db, k: Word, now: int, w: int, cur: int)
    requires cur == if Alive(before.ints, k, now) then before.ints[k].value + 1 else 1
    requires var incremented := before.(ints := before.ints[k :=
               Entry(cur, if Alive(before.ints, k, now) then before.ints[k].expiry else None)]);
             after == if cur == 1 && Alive(incremented.ints, k, now)
                      then incremented.(ints := incremented.ints[k := Entry(cur, Some(now + w))]) else incremented
    ensures cur == Bumped(before, k, now, w).value
    ensures after == before.(ints := before.ints[k := Bumped(before, k, now, w)])
  {
  }

  lemma SameParts(a: Db, b: Db, k: Word, blKey: Word, now: int, w: int, ttl: int)
    ensures a.ints == b.ints ==> Bumped(a, k, now, w) == Bumped(b, k, now, w)
    ensures a.sets == b.sets ==> Marked(a, blKey, now, ttl) == Marked(b, blKey, now, ttl)
  {
  }

  /** SADD followed by PEXPIRE. */
  lemma AddThenExpire(before: Db, after: Db, k: Word, now: int, ttl: int)
    requires var added := before.(sets := before.sets[k :=
               Entry((if Alive(before.sets, k, now) then before.sets[k].value else {}) + {MEMBER},
                     if Alive(before.sets, k, now) then before.sets[k].expiry else None)]);
             after == if Alive(added.sets, k, now)
                      then added.(sets := added.sets[k := added.sets[k].(expiry := Some(now + ttl))]) else added
    ensures after == before.(sets := before.sets[k := Marked(before, k, now, ttl)])
  {
  }

  // ---------------------------------------------------------------------
  // The server: single commands, and the scripts as command sequences
  // ---------------------------------------------------------------------

  class Redis {
    var db: Db
    var now: int

    constructor (db: Db, now: int)
      ensures this.db == db && this.now == now
    {
      this.db, this.now := db, now;
    }

    method SIsMember(k: Word, m: Word) returns (r: int)
      ensures r == if Alive(db.sets, k, now) && m in db.sets[k].value then 1 else 0
    {
      r := if Alive(db.sets, k, now) && m in db.sets[k].value then 1 else 0;
    }

    method SAdd(k: Word, m: Word)
      modifies this`db
      ensures db == old(db).(sets := old(db).sets[k :=
        Entry((if Alive(old(db).sets, k, now) then old(db).sets[k].value else {}) + {m},
              if Alive(old(db).sets, k, now) then old(db).sets[k].expiry else None)])
    {
      var e := if Alive(db.sets, k, now) then db.sets[k] else Entry({}, None);
      db := db.(sets := db.sets[k := e.(value := e.value + {m})]);
    }

    method Incr(k: Word) returns (cur: int)
      modifies this`db
      ensures cur == if Alive(old(db).ints, k, now) then old(db).ints[k].value + 1 else 1
      ensures db == old(db).(ints := old(db).ints[k :=
        Entry(cur, if Alive(old(db).ints, k, now) then old(db).ints[k].expiry else None)])
    {
      var e := if Alive(db.ints, k, now) then db.ints[k] else Entry(0, None);
      cur := e.value + 1;
      db := db.(ints := db.ints[k := e.(value := cur)]);
    }

    method HIncrByFloat(k: Word, field: Word, delta: real) returns (score: real)
      modifies this`db
      ensures score == Score(old(db), k, field, now) + delta
      ensures db == old(db).(hashes := old(db).hashes[k :=
        Entry(Fields(old(db), k, now)[field := score],
              if Alive(old(db).hashes, k, now) then old(db).hashes[k].expiry else None)])
    {
      var e := if Alive(db.hashes, k, now) then db.hashes[k] else Entry(map[], None);
      score := (if field in e.value then e.value[field] else 0.0) + delta;
      db := db.(hashes := db.hashes[k := e.(value := e.value[field := score])]);
    }

    method PExpireSet(k: Word, ttl: int)
      modifies this`db
      ensures db == if Alive(old(db).sets, k, now)
                    then old(db).(sets := old(db).sets[k := old(db).sets[k].(expiry := Some(now + ttl))]) else old(db)
    {
      if Alive(db.sets, k, now) {
        db := db.(sets := db.sets[k := db.sets[k].(expiry := Some(now + ttl))]);
      }
    }

    method PExpireInt(k: Word, ttl: int)
      modifies this`db
      ensures db == if Alive(old(db).ints, k, now)
                    then old(db).(ints := old(db).ints[k := old(db).ints[k].(expiry := Some(now + ttl))]) else old(db)
    {
      if Alive(db.ints, k, now) {
        db := db.(ints := db.ints[k := db.ints[k].(expiry := Some(now + ttl))]);
      }
    }

    method PExpireHash(k: Word, ttl: int)
      modifies this`db
      ensures db == if Alive(old(db).hashes, k, now)
                    then old(db).(hashes := old(db).hashes[k := old(db).hashes[k].(expiry := Some(now + ttl))]) else old(db)
    {
      if Alive(db.hashes, k, now) {
        db := db.(hashes := db.hashes[k := db.hashes[k].(expiry := Some(now + ttl))]);
      }
    }

    method Del(k: Word)
      modifies this`db
      ensures db == old(db).(strings := old(db).strings - {k})
    {
      db := db.(strings := db.strings - {k});
    }

    method SetPx(k: Word, value: Word, ttl: int)
      modifies this`db
      ensures db == old(db).(strings := old(db).strings[k := Entry(value, Some(now + ttl))])
    {
      db := db.(strings := db.strings[k := Entry(value, Some(now + ttl))]);
    }

    /** The critical-path script. */
    method CriticalPath(blKey: Word, counterKey: Word, windowMs: int, limit: int)
      returns (code: int, counter: int, ttl: int)
      modifies this`db
      ensures CriticalReply(code, counter, ttl) == Critical(old(db), now, blKey, counterKey, windowMs, limit)
      ensures db == CriticalDb(old(db), now, blKey, counterKey, windowMs)
    {
      var isBl := SIsMember(blKey, MEMBER);
      if isBl == 1 {
        return 2, 0, Ttl(db.sets, blKey, now);
      }
      counter := Incr(counterKey);
      if counter == 1 {
        PExpireInt(counterKey, windowMs);
      }
      ttl := Ttl(db.ints, counterKey, now);
      if counter > limit {
        return 1, counter, ttl;
      }
      return 0, counter, ttl;
    }

    /** What the reputation script does from the threshold on. */
    method Cross(penaltyKey: Word, blKey: Word, attemptsKey: Word, rep: RepConfig) returns (banTtl: int, attempts: int)
      modifies this`db
      ensures attempts == Bumped(old(db), attemptsKey, now, rep.backoffWindow).value
      ensures banTtl == BanTtl(rep, attempts)
      ensures db == Db(old(db).sets[blKey := Marked(old(db), blKey, now, banTtl)],
                       old(db).ints[attemptsKey := Bumped(old(db), attemptsKey, now, rep.backoffWindow)],
                       old(db).strings - {penaltyKey},
                       old(db).hashes)
    {
      hide Bumped;
      hide Marked;
      ghost var before := db;
      attempts := Incr(attemptsKey);
      if attempts == 1 {
        PExpireInt(attemptsKey, rep.backoffWindow);
      }
      IncrThenExpire(before, db, attemptsKey, now, rep.backoffWindow, attempts);
      ghost var counted := db;
      banTtl := rep.ban1;
      if attempts == 2 {
        banTtl := rep.ban2;
      } else if attempts >= 3 {
        banTtl := rep.ban3;
      }
      SAdd(blKey, MEMBER);
      PExpireSet(blKey, banTtl);
      SameParts(before, counted, attemptsKey, blKey, now, 0, banTtl);
      AddThenExpire(counted, db, blKey, now, banTtl);
      Del(penaltyKey);
    }

    /** The reputation script. */
    method ReputationScript(
      repKey: Word, penaltyKey: Word, blKey: Word, attemptsKey: Word,
      field: Word, delta: real, rep: RepConfig)
      returns (score: real, action: int, banTtl: int, attempts: int)
      modifies this`db
      ensures RepReply(score, action, banTtl, attempts) ==
              Reputation(old(db), now, repKey, attemptsKey, field, delta, rep)
      ensures db == ReputationDb(old(db), now, repKey, penaltyKey, blKey, attemptsKey, field, delta, rep)
    {
      hide Bumped;
      hide Marked;
      ghost var before := db;
      score := HIncrByFloat(repKey, field, delta);
      PExpireHash(repKey, rep.scoreWindow);
      ghost var scored := before.(hashes :=
        before.hashes[repKey := Entry(Fields(before, repKey, now)[field := score], Some(now + rep.scoreWindow))]);
      assert db == scored;
      if score >= rep.threshold {
        banTtl, attempts := Cross(penaltyKey, blKey, attemptsKey, rep);
        SameParts(before, scored, attemptsKey, blKey, now, rep.backoffWindow, banTtl);
        return score, 2, banTtl, attempts;
      }
      if score >= rep.warning {
        SetPx(penaltyKey, MEMBER, rep.penaltyTtl);
        return score, 1, 0, 0;
      }
      return score, 0, 0, 0;
    }
  }
}
