/** The local blacklist: expiring entries in a bounded LRU (internal/blacklist/cache.go). */
module LruCache {
  import opened Words

  /** m holds nothing that n does not hold. */
  ghost predicate Submap(m: map<Word, int>, n: map<Word, int>) {
    forall k :: k in m ==> k in n && m[k] == n[k]
  }

  class Cache {
    const size: nat
    var lru: map<Word, int>

    ghost predicate Valid()
      reads this
    {
      size > 0 && |lru| <= size
    }

    constructor (size: nat)
      requires size > 0
      ensures Valid() && lru == map[] && this.size == size
    {
      this.size := size;
      lru := map[];
    }

    /** True exactly for an entry that has not expired; an expired one is removed. */
    method IsBlacklisted(key: Word, now: int) returns (hit: bool)
      requires Valid()
      modifies this
      ensures Valid()
      ensures hit <==> key in old(lru) && old(lru)[key] > now
      ensures lru == if key in old(lru) && old(lru)[key] <= now then old(lru) - {key} else old(lru)
    {
      if key !in lru {
        return false;
      }
      if lru[key] <= now {
        lru := lru - {key};
        return false;
      }
      return true;
    }

    /** The entry is in the cache afterwards; a full cache may lose other entries,
        and never gains any. */
    method Blacklist(key: Word, until: int)
      requires Valid()
      modifies this
      ensures Valid()
      ensures key in lru && lru[key] == until
      ensures Submap(lru, old(lru)[key := until])
    {
      ghost var full := lru[key := until];
      lru := lru[key := until];
      while |lru| > size
        invariant key in lru && lru[key] == until
        invariant Submap(lru, full)
        decreases |lru|
      {
        OtherKey(lru, key);
        var victim :| victim in lru && victim != key;
        lru := lru - {victim};
      }
    }
  }

  lemma OtherKey(m: map<Word, int>, k: Word)
    requires k in m && |m| > 1
    ensures exists v :: v in m && v != k
  {
    assert |m.Keys - {k}| == |m| - 1;
    var v :| v in m.Keys - {k};
    assert v in m && v != k;
  }
}
