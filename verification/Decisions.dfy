/** The decision payload (decision.go) and the decoding of script replies. */
module Decisions {
  datatype Reason = Allowed | RateLimited | Blacklisted | RedisError | FailOpen | PenaltyForbidden

  datatype Decision = Decision(
    allowed: bool, reason: Reason, counter: int, limit: int, remaining: int, resetAt: int, statusCode: int)
  {
    function StatusCodeOr(default: int): (code: int)
      ensures code != 0
      ensures statusCode != 0 ==> code == statusCode
    {
      if statusCode != 0 then statusCode else if default != 0 then default else 429
    }
  }

  /** Remaining never goes below zero and, within the limit, complements the
      counter; a reply without a lifetime resets after one window. */
  function NewDecisionWithTtl(
    allowed: bool, reason: Reason, counter: int, limit: int, now: int, ttlMs: int, windowMs: int): (d: Decision)
    ensures d.allowed == allowed && d.reason == reason && d.counter == counter && d.limit == limit
    ensures d.remaining >= 0
    ensures counter <= limit ==> d.counter + d.remaining == d.limit
    ensures counter >= limit ==> d.remaining == 0
    ensures windowMs > 0 ==> d.resetAt > now
    ensures d.resetAt == now + if ttlMs > 0 then ttlMs else windowMs
    ensures d.statusCode == 0
  {
    var ttl := if ttlMs <= 0 then windowMs else ttlMs;
    var left := limit - counter;
    Decision(allowed, reason, counter, limit, if left > 0 then left else 0, now + ttl, 0)
  }

  function NewDecision(allowed: bool, reason: Reason, limit: int, now: int, windowMs: int): (d: Decision)
  {
    NewDecisionWithTtl(allowed, reason, 0, limit, now, windowMs, windowMs)
  }

  /** A reply of the Redis client, before its type is known. */
  datatype LuaValue = LuaInt(n: int) | LuaOther

  datatype LuaReply = LuaArray(values: seq<LuaValue>) | NotAnArray

  function IntAt(values: seq<LuaValue>, i: nat): int {
    if i < |values| && values[i].LuaInt? then values[i].n else 0
  }

  method ParseLuaResult(v: LuaReply) returns (code: int, counter: int, ttlMs: int)
    ensures v.NotAnArray? || |v.values| < 2 ==> code == 0 && counter == 0 && ttlMs == 0
    ensures v.LuaArray? && |v.values| >= 2 ==>
              code == IntAt(v.values, 0) && counter == IntAt(v.values, 1) && ttlMs == IntAt(v.values, 2)
  {
    code, counter, ttlMs := 0, 0, 0;
    if v.NotAnArray? || |v.values| < 2 {
      return;
    }
    if v.values[0].LuaInt? {
      code := v.values[0].n;
    }
    if v.values[1].LuaInt? {
      counter := v.values[1].n;
    }
    if |v.values| > 2 {
      if v.values[2].LuaInt? {
        ttlMs := v.values[2].n;
      }
    }
  }
}
