/** The cache engine: a map from keys to items, a default time-to-live and an
    optional eviction callback. Every public method of the source changes the
    map inside one critical section, so each is modelled as one atomic
    transition from a state to a state. The source reads the clock outside
    that section in some methods (the deadline of a write, the sweep's
    instant) and inside it in others; the model uses one clock reading `now`
    per transition. The callback is represented by whether one is registered;
    the operations that would invoke it after unlocking return the evicted
    `(key, value, hit)` tuples instead. */
module Engine {
  import opened Outcomes
  import opened CacheItem
  import opened Durations

  datatype Cache<K, V> = Cache(
    items: map<K, Item<V>>,
    defaultExpiration: int,   // a time-to-live in nanoseconds, or a non-positive "never"
    onEvicted: bool           // an eviction callback is registered
  )

  /** One notification the eviction callback would receive. */
  datatype Eviction<K, V> = Eviction(key: K, value: V, hit: int)

  /** A `time.Time` as the lookups return it: the zero value, or an instant. */
  datatype Instant = ZeroTime | UnixNano(nanos: int)

  /** The result of an operation that returns an error. */
  datatype Step<K, V> = Step(cache: Cache<K, V>, status: Status)

  /** The lookups' view of a key: present and not expired by the inline test. */
  predicate Live<K, V>(c: Cache<K, V>, k: K, now: int) {
    k in c.items && !c.items[k].InlineExpired(now)
  }

  /** Builds the engine around `m`, turning a default of `DefaultExpiration`
      into `NoExpiration`, so that the default never refers back to itself. */
  function NewCache<K, V>(d: int, m: map<K, Item<V>>): (c: Cache<K, V>)
    ensures c.items == m && !c.onEvicted
    ensures c.defaultExpiration != DefaultExpiration
    ensures d != DefaultExpiration ==> c.defaultExpiration == d
    ensures d == DefaultExpiration ==> c.defaultExpiration == NoExpiration
  {
    Cache(m, if d == DefaultExpiration then NoExpiration else d, false)
  }

  /** Installs or removes the eviction callback. */
  function OnEvicted<K, V>(c: Cache<K, V>, registered: bool): (r: Cache<K, V>)
    ensures r.onEvicted == registered
    ensures r.items == c.items && r.defaultExpiration == c.defaultExpiration
  {
    c.(onEvicted := registered)
  }

  /** The time-to-live a write uses: the cache default when `d` asks for it. */
  function EffectiveDuration<K, V>(c: Cache<K, V>, d: int): int {
    if d == DefaultExpiration then c.defaultExpiration else d
  }

  /** The absolute expiration a write at `now` stores: `now` plus the effective
      time-to-live when that is positive, and 0 ("never") for every
      non-positive one, not only for `NoExpiration`. */
  function ExpirationFor<K, V>(c: Cache<K, V>, d: int, now: int): (e: int)
    ensures e == 0 || e > now
    ensures e != 0 ==> e - now == EffectiveDuration(c, d)
    ensures EffectiveDuration(c, d) <= 0 ==> e == 0
    ensures EffectiveDuration(c, d) > 0 ==> e == now + EffectiveDuration(c, d)
  {
    var ttl := EffectiveDuration(c, d);
    if ttl > 0 then now + ttl else 0
  }

  /** The item every `Set`-style write stores: the value, no hits, and the
      resolved expiration. */
  function Fresh<K, V>(c: Cache<K, V>, v: V, d: int, now: int): Item<V> {
    Item(v, 0, ExpirationFor(c, d, now))
  }

  /** Stores `v` under `k`, overwriting any entry and resetting its hit count;
      no other key changes and no eviction is reported. */
  function Set<K, V>(c: Cache<K, V>, k: K, v: V, d: int, now: int): (r: Cache<K, V>)
    ensures k in r.items
    ensures r.items[k].value == v && r.items[k].hit == 0
    ensures r.items[k].expiration == ExpirationFor(c, d, now)
    ensures r.items - {k} == c.items - {k}
    ensures r.defaultExpiration == c.defaultExpiration && r.onEvicted == c.onEvicted
  {
    c.(items := c.items[k := Fresh(c, v, d, now)])
  }

  /** `Set` with the cache's default expiration. */
  function SetDefault<K, V>(c: Cache<K, V>, k: K, v: V, now: int): (r: Cache<K, V>)
    ensures r == Set(c, k, v, c.defaultExpiration, now)
  {
    Set(c, k, v, DefaultExpiration, now)
  }

  /** Writes only when no live entry is present; otherwise fails with
      `AlreadyExists` and leaves the cache unchanged. */
  function Add<K, V>(c: Cache<K, V>, k: K, v: V, d: int, now: int): (r: Step<K, V>)
    ensures r.status.Err? <==> Live(c, k, now)
    ensures r.status.Err? ==> r.status.error == AlreadyExists && r.cache == c
    ensures r.status.Ok? ==> r.cache == Set(c, k, v, d, now)
  {
    if Get(c, k, now).Some? then Step(c, Err(AlreadyExists))
    else Step(Set(c, k, v, d, now), Ok)
  }

  /** Writes only when a live entry is present; otherwise fails with
      `DoesNotExist` and leaves the cache unchanged. */
  function Replace<K, V>(c: Cache<K, V>, k: K, v: V, d: int, now: int): (r: Step<K, V>)
    ensures r.status.Ok? <==> Live(c, k, now)
    ensures r.status.Err? ==> r.status.error == DoesNotExist && r.cache == c
    ensures r.status.Ok? ==> r.cache == Set(c, k, v, d, now)
  {
    if Get(c, k, now).Some? then Step(Set(c, k, v, d, now), Ok)
    else Step(c, Err(DoesNotExist))
  }

  /** Looks `k` up, treating an entry past its expiration as absent even
      though it is still stored. */
  function Get<K, V>(c: Cache<K, V>, k: K, now: int): (r: Option<V>)
    ensures r.Some? <==> Live(c, k, now)
    ensures r.Some? ==> r.value == c.items[k].value
  {
    if k !in c.items then None
    else if c.items[k].expiration > 0 && now > c.items[k].expiration then None
    else Some(c.items[k].value)
  }

  /** The instant a lookup reports for an item: the zero time for an item
      that never expires. */
  function ExpirationTime<V>(item: Item<V>): (t: Instant)
    ensures t == ZeroTime <==> item.expiration <= 0
    ensures t.UnixNano? ==> t.nanos == item.expiration
  {
    if item.expiration > 0 then UnixNano(item.expiration) else ZeroTime
  }

  /** `Get`, also reporting the expiration instant of the entry found. */
  function GetWithExpiration<K, V>(c: Cache<K, V>, k: K, now: int): (r: Option<(V, Instant)>)
    ensures r.Some? <==> Get(c, k, now).Some?
    ensures r.Some? ==> r.value.0 == Get(c, k, now).value
    ensures r.Some? ==> r.value.1 == ExpirationTime(c.items[k])
  {
    if k !in c.items then None
    else
      var item := c.items[k];
      if item.expiration > 0 then
        if now > item.expiration then None
        else Some((item.value, UnixNano(item.expiration)))
      else Some((item.value, ZeroTime))
  }

  /** Reports the value and hit count of any stored entry: unlike the other
      lookups it never looks at the expiration, so an expired entry that has
      not been swept is still found. */
  function GetWithHit<K, V>(c: Cache<K, V>, k: K): (r: Option<(V, int)>)
    ensures r.Some? <==> k in c.items
    ensures r.Some? ==> r.value == (c.items[k].value, c.items[k].hit)
  {
    if k !in c.items then None
    else Some((c.items[k].value, c.items[k].hit))
  }

  /** `GetWithExpiration`, also reporting the hit count. */
  function GetWithHitExpiration<K, V>(c: Cache<K, V>, k: K, now: int): (r: Option<(V, int, Instant)>)
    ensures r.Some? <==> Get(c, k, now).Some?
    ensures r.Some? ==> r.value.0 == Get(c, k, now).value
    ensures r.Some? ==> r.value.1 == c.items[k].hit
    ensures r.Some? ==> r.value.2 == ExpirationTime(c.items[k])
  {
    if k !in c.items then None
    else
      var item := c.items[k];
      if item.expiration > 0 then
        if now > item.expiration then None
        else Some((item.value, item.hit, UnixNano(item.expiration)))
      else Some((item.value, item.hit, ZeroTime))
  }

  /** Removes `k`. The removed entry is reported exactly when a callback is
      registered and the key was present; removing an absent key changes nothing. */
  function Delete<K, V>(c: Cache<K, V>, k: K): (r: (Cache<K, V>, Option<Eviction<K, V>>))
    ensures k !in r.0.items
    ensures r.0.items - {k} == c.items - {k}
    ensures r.0.defaultExpiration == c.defaultExpiration && r.0.onEvicted == c.onEvicted
    ensures k !in c.items ==> r.0 == c
    ensures r.1.Some? <==> c.onEvicted && k in c.items
    ensures r.1.Some? ==> r.1.value == Eviction(k, c.items[k].value, c.items[k].hit)
  {
    var evicted := if c.onEvicted && k in c.items
      then Some(Eviction(k, c.items[k].value, c.items[k].hit)) else None;
    (c.(items := c.items - {k}), evicted)
  }

  /** The keys a sweep at `now` removes. */
  ghost function ExpiredKeys<K, V>(c: Cache<K, V>, now: int): set<K> {
    set k | k in c.items && c.items[k].InlineExpired(now)
  }

  /** The keys a sequence of evictions reports. */
  ghost function EvictedKeys<K, V>(evicted: seq<Eviction<K, V>>): set<K> {
    set e | e in evicted :: e.key
  }

  /** Every eviction is reported once: no key occurs twice. */
  ghost predicate DistinctKeys<K, V>(evicted: seq<Eviction<K, V>>) {
    forall i, j | 0 <= i < j < |evicted| :: evicted[i].key != evicted[j].key
  }

  /** `e` carries the value and hit count `items` held for its key. */
  ghost predicate Reports<K, V>(items: map<K, Item<V>>, e: Eviction<K, V>) {
    e.key in items && e.value == items[e.key].value && e.hit == items[e.key].hit
  }

  /** Sweeps the map: removes exactly the entries expired by the inline test,
      in the arbitrary order of a map iteration, and reports each removed
      entry once when a callback is registered. */
  method DeleteExpired<K, V>(c: Cache<K, V>, now: int)
    returns (r: Cache<K, V>, evicted: seq<Eviction<K, V>>)
    ensures r.items == Items(c, now)
    ensures ItemCount(r) == ItemCount(c) - |ExpiredKeys(c, now)|
    ensures r.defaultExpiration == c.defaultExpiration && r.onEvicted == c.onEvicted
    ensures c.onEvicted ==> EvictedKeys(evicted) == ExpiredKeys(c, now)
    ensures !c.onEvicted ==> evicted == []
    ensures DistinctKeys(evicted)
    ensures forall e | e in evicted :: Reports(c.items, e)
  {
    r := c;
    evicted := [];
    var pending := c.items.Keys;
    while pending != {}
      invariant pending <= c.items.Keys
      invariant r.defaultExpiration == c.defaultExpiration && r.onEvicted == c.onEvicted
      invariant forall k | k in r.items :: k in c.items && r.items[k] == c.items[k]
      invariant forall k | k in pending :: k in r.items
      invariant forall k | k in c.items && k !in pending :: k in r.items <==> !c.items[k].InlineExpired(now)
      invariant c.onEvicted ==> EvictedKeys(evicted) == ExpiredKeys(c, now) - pending
      invariant !c.onEvicted ==> evicted == []
      invariant DistinctKeys(evicted)
      invariant forall e | e in evicted :: Reports(c.items, e) && e.key !in pending
      decreases pending
    {
      var k :| k in pending;
      if r.items[k].expiration > 0 && now > r.items[k].expiration {
        var (next, report) := Delete(r, k);
        if report.Some? {
          assert EvictedKeys(evicted + [report.value]) == EvictedKeys(evicted) + {k} by {
            assert forall e | e in evicted + [report.value] :: e in evicted || e == report.value;
          }
          evicted := evicted + [report.value];
        }
        r := next;
      }
      pending := pending - {k};
    }
    SnapshotCount(c, now);
  }

  /** The stored entries split into the live snapshot and the expired ones. */
  lemma SnapshotCount<K, V>(c: Cache<K, V>, now: int)
    ensures ItemCount(c) == |Items(c, now)| + |ExpiredKeys(c, now)|
  {
    var live := Items(c, now).Keys;
    var expired := ExpiredKeys(c, now);
    assert live !! expired;
    assert live + expired == c.items.Keys;
    assert |live + expired| == |live| + |expired|;
  }

  /** A snapshot of the entries not expired by the inline test. */
  function Items<K, V>(c: Cache<K, V>, now: int): (m: map<K, Item<V>>)
    ensures forall k | k in m :: k in c.items && m[k] == c.items[k]
    ensures forall k | k in c.items :: k in m <==> !c.items[k].InlineExpired(now)
  {
    map k | k in c.items && !c.items[k].InlineExpired(now) :: c.items[k]
  }

  /** The number of stored entries, expired or not. */
  function ItemCount<K, V>(c: Cache<K, V>): (n: nat)
    ensures n == 0 <==> c.items == map[]
    ensures forall k | k in c.items :: n >= 1
  {
    |c.items|
  }

  /** Empties the map without reporting any eviction. */
  function Flush<K, V>(c: Cache<K, V>): (r: Cache<K, V>)
    ensures ItemCount(r) == 0
    ensures r.defaultExpiration == c.defaultExpiration && r.onEvicted == c.onEvicted
  {
    c.(items := map[])
  }

  /** Merges a decoded snapshot into the cache: a loaded entry is installed
      when its key is absent from the cache or expired by the item's own test;
      live entries of the cache are never overwritten. A snapshot that could
      not be decoded (`None`) leaves the cache unchanged. */
  method Load<K, V>(c: Cache<K, V>, decoded: Option<map<K, Item<V>>>, now: int)
    returns (r: Cache<K, V>, status: Status)
    ensures decoded.None? ==> r == c && status == Err(DecodeError)
    ensures decoded.Some? ==> status == Ok
    ensures r.defaultExpiration == c.defaultExpiration && r.onEvicted == c.onEvicted
    ensures decoded.Some? ==> r.items.Keys == c.items.Keys + decoded.value.Keys
    ensures decoded.Some? ==> forall k | k in decoded.value && (k !in c.items || c.items[k].Expired(now)) ::
      r.items[k] == decoded.value[k]
    ensures forall k | k in c.items && (decoded.None? || k !in decoded.value || !c.items[k].Expired(now)) ::
      r.items[k] == c.items[k]
  {
    r := c;
    if decoded.None? {
      return r, Err(DecodeError);
    }
    var loaded := decoded.value;
    var pending := loaded.Keys;
    while pending != {}
      invariant pending <= loaded.Keys
      invariant r.defaultExpiration == c.defaultExpiration && r.onEvicted == c.onEvicted
      invariant r.items.Keys == c.items.Keys + (loaded.Keys - pending)
      invariant forall k | k in pending && k in c.items :: r.items[k] == c.items[k]
      invariant forall k | k in loaded && k !in pending && (k !in c.items || c.items[k].Expired(now)) ::
        r.items[k] == loaded[k]
      invariant forall k | k in c.items && (k !in loaded || !c.items[k].Expired(now)) ::
        r.items[k] == c.items[k]
      decreases pending
    {
      var k :| k in pending;
      if k !in r.items || r.items[k].Expired(now) {
        r := r.(items := r.items[k := loaded[k]]);
      }
      pending := pending - {k};
    }
    status := Ok;
  }
}
