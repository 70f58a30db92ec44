/** The public constructors, restricted to the map they start from. The
    cleanup interval only decides whether a background sweeper is started,
    which is not part of this model, so it is accepted and ignored. */
module Constructors {
  import opened CacheItem
  import opened FixedWidth
  import opened Engine
  import opened Numeric

  /** An empty engine. */
  function New<K, V>(defaultExpiration: int, cleanupInterval: int): (c: Cache<K, V>)
    ensures ItemCount(c) == 0 && !c.onEvicted
    ensures c == NewCache(defaultExpiration, map[])
  {
    NewCache(defaultExpiration, map[])
  }

  /** An engine holding `items` exactly as given: entries already expired are
      kept until a sweep removes them. */
  function NewFrom<K, V>(defaultExpiration: int, cleanupInterval: int, items: map<K, Item<V>>): (c: Cache<K, V>)
    ensures c.items == items && !c.onEvicted
    ensures c == NewCache(defaultExpiration, items)
  {
    NewCache(defaultExpiration, items)
  }

  /** The same as `New`; the source's `Any` wrapper adds no behaviour. */
  function NewAny<K, V>(defaultExpiration: int, cleanupInterval: int): (c: Cache<K, V>)
    ensures ItemCount(c) == 0 && !c.onEvicted
    ensures c == NewCache(defaultExpiration, map[])
  {
    New(defaultExpiration, cleanupInterval)
  }

  /** The same as `NewFrom`. */
  function NewAnyFrom<K, V>(defaultExpiration: int, cleanupInterval: int, items: map<K, Item<V>>): (c: Cache<K, V>)
    ensures c.items == items && !c.onEvicted
    ensures c == NewCache(defaultExpiration, items)
  {
    NewFrom(defaultExpiration, cleanupInterval, items)
  }

  /** An empty numeric cache whose values are integers of `kind`. */
  function NewNumber<K>(kind: IntKind, defaultExpiration: int, cleanupInterval: int): (nc: NumberCache<K>)
    ensures nc.Valid() && nc.kind == kind
    ensures ItemCount(nc.cache) == 0
    ensures nc.cache == NewCache(defaultExpiration, map[])
  {
    NumberCache(kind, NewCache(defaultExpiration, map[]))
  }

  /** A numeric cache holding `items` exactly as given. */
  function NewNumberFrom<K>(kind: IntKind, defaultExpiration: int, cleanupInterval: int, items: map<K, Item<int>>): (nc: NumberCache<K>)
    requires forall k | k in items :: InRange(kind, items[k].value)
    ensures nc.Valid() && nc.kind == kind
    ensures nc.cache.items == items
    ensures nc.cache == NewCache(defaultExpiration, items)
  {
    NumberCache(kind, NewCache(defaultExpiration, items))
  }
}
