/** Places where the source's operations disagree with each other, stated as
    properties of the model as written. */
module Divergences {
  import opened Outcomes
  import opened CacheItem
  import opened FixedWidth
  import opened Engine
  import opened Numeric
  import opened Constructors

  /** `GetWithHit` reports an expired, not yet swept entry that every other
      lookup treats as absent. */
  lemma GetWithHitSeesExpiredEntries<K, V>(c: Cache<K, V>, k: K, now: int)
    requires k in c.items && c.items[k].InlineExpired(now)
    ensures GetWithHit(c, k) == Some((c.items[k].value, c.items[k].hit))
    ensures Get(c, k, now) == None
    ensures GetWithExpiration(c, k, now) == None
    ensures GetWithHitExpiration(c, k, now) == None
  {
  }

  /** An entry with a negative expiration, once the clock has passed it, is
      live for the engine but expired for the numeric extension: the lookups
      find it and `Add` refuses it, while `Increment` and `UpdateMax` fail
      with `NotFound` and `SetMax` overwrites it as if it were absent. */
  lemma NegativeExpirationSplitsTheModel<K>(nc: NumberCache<K>, k: K, n: int, v: int, d: int, now: int)
    requires nc.Valid() && InRange(nc.kind, n) && InRange(nc.kind, v)
    requires k in nc.cache.items && nc.cache.items[k].expiration < 0
    requires now > nc.cache.items[k].expiration
    ensures Get(nc.cache, k, now) == Some(nc.cache.items[k].value)
    ensures k in Items(nc.cache, now)
    ensures Add(nc.cache, k, n, d, now).status == Err(AlreadyExists)
    ensures Increment(nc, k, n, now).status == Err(NotFound)
    ensures UpdateMax(nc, k, v, now).status == Err(NotFound)
    ensures SetMax(nc, k, v, d, now) == Inserted(nc, k, v, d, now)
  {
  }

  /** A concrete instance: a cache installed with an entry expiring at -5 and
      read at instant 0. */
  lemma NegativeExpirationExample()
    ensures
      var nc := NewNumberFrom(Int64, 0, 0, map["k" := Item(7, 0, -5)]);
      && Get(nc.cache, "k", 0) == Some(7)
      && Increment(nc, "k", 1, 0).status == Err(NotFound)
  {
  }

  /** On a present key `SetMax` and `SetMin` ignore the duration they are given:
      any two durations produce the same cache, and the entry keeps its old
      expiration. */
  lemma SetMaxMinIgnoreDuration<K>(nc: NumberCache<K>, k: K, v: int, d1: int, d2: int, now: int)
    requires nc.Valid() && InRange(nc.kind, v) && Present(nc, k, now)
    ensures SetMax(nc, k, v, d1, now) == SetMax(nc, k, v, d2, now)
    ensures SetMin(nc, k, v, d1, now) == SetMin(nc, k, v, d2, now)
    ensures SetMax(nc, k, v, d1, now).cache.items[k].expiration == nc.cache.items[k].expiration
  {
  }
}
