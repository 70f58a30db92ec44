/** The numeric extension: an engine whose values are fixed-width integers of
    one kind, with read-modify-write operations that each hold the lock once.
    Unlike the engine's lookups, every operation here decides liveness with the
    item's own `Expired` test. */
module Numeric {
  import opened Outcomes
  import opened CacheItem
  import opened FixedWidth
  import Engine

  datatype NumberCache<K> = NumberCache(kind: IntKind, cache: Engine.Cache<K, int>) {

    /** Every stored value is representable in the cache's integer kind, as
        the value type of the source guarantees. */
    predicate Valid() {
      forall k | k in cache.items :: InRange(kind, cache.items[k].value)
    }
  }

  /** The result of a numeric operation. */
  datatype NumberStep<K> = NumberStep(nc: NumberCache<K>, status: Status)

  /** The numeric operations' view of a key: present and not expired by the
      item's own test. */
  predicate Present<K>(nc: NumberCache<K>, k: K, now: int) {
    k in nc.cache.items && !nc.cache.items[k].Expired(now)
  }

  /** `nc` with the value under the present key `k` replaced by `v`, keeping
      its expiration and hit count. */
  function WithValue<K>(nc: NumberCache<K>, k: K, v: int): (r: NumberCache<K>)
    requires k in nc.cache.items
  {
    var item := nc.cache.items[k];
    nc.(cache := nc.cache.(items := nc.cache.items[k := item.(value := v)]))
  }

  /** `nc` after a successful in-place update of `k` to `v`: the entry keeps its
      expiration and hit count, and nothing else changes. */
  ghost predicate UpdatedInPlace<K>(nc: NumberCache<K>, r: NumberCache<K>, k: K, v: int)
    requires k in nc.cache.items
  {
    && r.kind == nc.kind
    && r.cache.defaultExpiration == nc.cache.defaultExpiration
    && r.cache.onEvicted == nc.cache.onEvicted
    && k in r.cache.items
    && r.cache.items[k].value == v
    && r.cache.items[k].expiration == nc.cache.items[k].expiration
    && r.cache.items[k].hit == nc.cache.items[k].hit
    && r.cache.items - {k} == nc.cache.items - {k}
  }

  /** Adds `n` to the value under `k`, wrapping around at the width of the
      kind; fails with `NotFound` on an absent or expired key. */
  function Increment<K>(nc: NumberCache<K>, k: K, n: int, now: int): (r: NumberStep<K>)
    requires nc.Valid() && InRange(nc.kind, n)
    ensures r.nc.Valid()
    ensures r.status.Ok? <==> Present(nc, k, now)
    ensures r.status.Err? ==> r.status.error == NotFound && r.nc == nc
    ensures r.status.Ok? ==> UpdatedInPlace(nc, r.nc, k, Wrap(nc.kind, nc.cache.items[k].value + n))
  {
    if k !in nc.cache.items || nc.cache.items[k].Expired(now) then NumberStep(nc, Err(NotFound))
    else NumberStep(WithValue(nc, k, Wrap(nc.kind, nc.cache.items[k].value + n)), Ok)
  }

  /** Subtracts `n` from the value under `k`, wrapping around at the width of
      the kind; fails with `NotFound` on an absent or expired key. */
  function Decrement<K>(nc: NumberCache<K>, k: K, n: int, now: int): (r: NumberStep<K>)
    requires nc.Valid() && InRange(nc.kind, n)
    ensures r.nc.Valid()
    ensures r.status.Ok? <==> Present(nc, k, now)
    ensures r.status.Err? ==> r.status.error == NotFound && r.nc == nc
    ensures r.status.Ok? ==> UpdatedInPlace(nc, r.nc, k, Wrap(nc.kind, nc.cache.items[k].value - n))
  {
    if k !in nc.cache.items || nc.cache.items[k].Expired(now) then NumberStep(nc, Err(NotFound))
    else NumberStep(WithValue(nc, k, Wrap(nc.kind, nc.cache.items[k].value - n)), Ok)
  }

  function Max(a: int, b: int): (m: int)
    ensures m >= a && m >= b && (m == a || m == b)
  {
    if a >= b then a else b
  }

  function Min(a: int, b: int): (m: int)
    ensures m <= a && m <= b && (m == a || m == b)
  {
    if a <= b then a else b
  }

  /** The fresh item `SetMax`/`SetMin` insert on an absent or expired key. */
  function Inserted<K>(nc: NumberCache<K>, k: K, v: int, d: int, now: int): (r: NumberCache<K>) {
    nc.(cache := Engine.Set(nc.cache, k, v, d, now))
  }

  /** Raises the value under a present key to at least `v`, keeping the entry's
      expiration and hit count and ignoring `d`; on an absent or expired key,
      inserts `v` as `Set` would. Never fails. */
  function SetMax<K>(nc: NumberCache<K>, k: K, v: int, d: int, now: int): (r: NumberCache<K>)
    requires nc.Valid() && InRange(nc.kind, v)
    ensures r.Valid()
    ensures !Present(nc, k, now) ==> r == Inserted(nc, k, v, d, now)
    ensures Present(nc, k, now) ==> UpdatedInPlace(nc, r, k, Max(nc.cache.items[k].value, v))
  {
    if k !in nc.cache.items || nc.cache.items[k].Expired(now) then Inserted(nc, k, v, d, now)
    else WithValue(nc, k, Max(nc.cache.items[k].value, v))
  }

  /** Lowers the value under a present key to at most `v`, keeping the entry's
      expiration and hit count and ignoring `d`; on an absent or expired key,
      inserts `v` as `Set` would. Never fails. */
  function SetMin<K>(nc: NumberCache<K>, k: K, v: int, d: int, now: int): (r: NumberCache<K>)
    requires nc.Valid() && InRange(nc.kind, v)
    ensures r.Valid()
    ensures !Present(nc, k, now) ==> r == Inserted(nc, k, v, d, now)
    ensures Present(nc, k, now) ==> UpdatedInPlace(nc, r, k, Min(nc.cache.items[k].value, v))
  {
    if k !in nc.cache.items || nc.cache.items[k].Expired(now) then Inserted(nc, k, v, d, now)
    else WithValue(nc, k, Min(nc.cache.items[k].value, v))
  }

  /** `SetMax` without the insertion: fails with `NotFound` on an absent or
      expired key and leaves the cache unchanged. */
  function UpdateMax<K>(nc: NumberCache<K>, k: K, v: int, now: int): (r: NumberStep<K>)
    requires nc.Valid() && InRange(nc.kind, v)
    ensures r.nc.Valid()
    ensures r.status.Ok? <==> Present(nc, k, now)
    ensures r.status.Err? ==> r.status.error == NotFound && r.nc == nc
    ensures r.status.Ok? ==> UpdatedInPlace(nc, r.nc, k, Max(nc.cache.items[k].value, v))
  {
    if k !in nc.cache.items || nc.cache.items[k].Expired(now) then NumberStep(nc, Err(NotFound))
    else NumberStep(WithValue(nc, k, Max(nc.cache.items[k].value, v)), Ok)
  }

  /** `SetMin` without the insertion: fails with `NotFound` on an absent or
      expired key and leaves the cache unchanged. */
  function UpdateMin<K>(nc: NumberCache<K>, k: K, v: int, now: int): (r: NumberStep<K>)
    requires nc.Valid() && InRange(nc.kind, v)
    ensures r.nc.Valid()
    ensures r.status.Ok? <==> Present(nc, k, now)
    ensures r.status.Err? ==> r.status.error == NotFound && r.nc == nc
    ensures r.status.Ok? ==> UpdatedInPlace(nc, r.nc, k, Min(nc.cache.items[k].value, v))
  {
    if k !in nc.cache.items || nc.cache.items[k].Expired(now) then NumberStep(nc, Err(NotFound))
    else NumberStep(WithValue(nc, k, Min(nc.cache.items[k].value, v)), Ok)
  }
}
