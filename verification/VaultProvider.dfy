/**
 * One call of `_read_secret` as the code writes it: a class-level dictionary and a shared Redis,
 * both updated in place.  The steps of `VaultCache` are its lookups and stores, one by one.
 */
module VaultProvider {
  import opened Types
  import opened VaultCache

  // Redis, as far as the provider uses it.
  class SharedCache {
    var entries: map<string, Entry>

    constructor ()
      ensures entries == map[]
    {
      entries := map[];
    }

    // GET, which does not see expired entries, and fails when Redis or the stored text does.
    method Get(key: string, now: real, reachable: bool) returns (r: Option<Secret>)
      ensures r == if reachable then Hit(entries, key, now) else None
    {
      if reachable && key in entries && entries[key].expires > now {
        return Some(entries[key].secret);
      }
      return None;
    }

    // SETEX, whose failure the caller ignores.
    method SetEx(key: string, now: real, ttl: nat, secret: Secret, reachable: bool)
      modifies this
      ensures entries == if reachable then Put(old(entries), key, now, ttl as real, secret) else old(entries)
    {
      if reachable {
        entries := entries[key := Entry(now + ttl as real, secret)];
      }
    }
  }

  // What the clocks show and what the outside answers during one call.
  datatype Outside = Outside(
    checkTime: real, getTime: real, keepTime: real, setTime: real,
    getWorks: bool, setWorks: bool, vault: Option<Secret>)

  class Process {
    var cache: map<Ref, Entry>

    constructor ()
      ensures cache == map[]
    {
      cache := map[];
    }

    // `_read_secret`; None is the ValueError raised when Vault has no usable answer.
    method ReadSecret(redis: SharedCache, r: Ref, ttl: nat, o: Outside) returns (reply: Option<Secret>)
      modifies this, redis
      // With caching off the reply is Vault's and nothing is kept.
      ensures ttl == 0 ==> reply == o.vault && cache == old(cache) && redis.entries == old(redis.entries)
      // A live entry of the process answers, and nothing changes.
      ensures ttl > 0 && r in old(cache) && old(cache)[r].expires > o.checkTime ==>
                reply == Some(old(cache)[r].secret) && cache == old(cache) && redis.entries == old(redis.entries)
      // Without one a live shared entry answers, if Redis does; the process keeps it for ten seconds.
      ensures ttl > 0 && !(r in old(cache) && old(cache)[r].expires > o.checkTime)
              && o.getWorks && Key(r) in old(redis.entries) && old(redis.entries)[Key(r)].expires > o.getTime ==>
                && reply == Some(old(redis.entries)[Key(r)].secret)
                && cache == old(cache)[r := Entry(o.keepTime + 10.0, reply.value)]
                && redis.entries == old(redis.entries)
      // Without either Vault answers: the process keeps the answer for ten seconds and shares it for the
      // TTL under the key of the reference, if Redis lets it; a failure leaves both caches alone.
      ensures ttl > 0 && !(r in old(cache) && old(cache)[r].expires > o.checkTime)
              && !(o.getWorks && Key(r) in old(redis.entries) && old(redis.entries)[Key(r)].expires > o.getTime) ==>
                && reply == o.vault
                && cache == (if o.vault.None? then old(cache) else old(cache)[r := Entry(o.keepTime + 10.0, o.vault.value)])
                && redis.entries == (if o.vault.None? || !o.setWorks then old(redis.entries)
                                     else old(redis.entries)[Key(r) := Entry(o.setTime + ttl as real, o.vault.value)])
    {
      if ttl > 0 && r in cache && cache[r].expires > o.checkTime {
        return Some(cache[r].secret);
      }
      var redisKey := Key(r);
      if ttl > 0 {
        var cached := redis.Get(redisKey, o.getTime, o.getWorks);
        if cached.Some? {
          cache := cache[r := Entry(o.keepTime + L1_TTL, cached.value)];
          return cached;
        }
      }
      if o.vault.None? {
        return None;
      }
      if ttl > 0 {
        cache := cache[r := Entry(o.keepTime + L1_TTL, o.vault.value)];
        redis.SetEx(redisKey, o.setTime, ttl, o.vault.value, o.setWorks);
      }
      return o.vault;
    }
  }
}
