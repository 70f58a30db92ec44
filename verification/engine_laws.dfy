/** Properties relating the engine's operations to each other. */
module EngineLaws {
  import opened Outcomes
  import opened CacheItem
  import opened Durations
  import opened Engine
  import opened Constructors

  /** Expiration boundary: an entry written at a non-negative `now` with a
      positive time-to-live is found at every instant up to and including
      `now` plus that time-to-live, and at no instant after it. */
  lemma SetThenGetBoundary<K, V>(c: Cache<K, V>, k: K, v: V, d: int, now: int, t: int)
    requires EffectiveDuration(c, d) > 0 && now >= 0
    ensures Get(Set(c, k, v, d, now), k, t) == (if t <= now + EffectiveDuration(c, d) then Some(v) else None)
  {
  }

  /** Every non-positive effective time-to-live, not only `NoExpiration`,
      stores a never-expiring entry. */
  lemma NonPositiveDurationNeverExpires<K, V>(c: Cache<K, V>, k: K, v: V, d: int, now: int, t: int)
    requires EffectiveDuration(c, d) <= 0
    ensures Set(c, k, v, d, now).items[k].expiration == 0
    ensures Get(Set(c, k, v, d, now), k, t) == Some(v)
  {
  }

  /** A cache created with `DefaultExpiration` as its default behaves as
      never-expiring: writing with `DefaultExpiration` stores expiration 0. */
  lemma DefaultCacheNeverExpires<K, V>(m: map<K, Item<V>>, k: K, v: V, now: int, t: int)
    ensures Set(NewCache(DefaultExpiration, m), k, v, DefaultExpiration, now).items[k].expiration == 0
    ensures Get(SetDefault(New(DefaultExpiration, 0), k, v, now), k, t) == Some(v)
  {
  }

  /** A write is a full overwrite: the last write to a key wins entirely. */
  lemma SetOverwrites<K, V>(c: Cache<K, V>, k: K, v1: V, d1: int, now1: int, v2: V, d2: int, now2: int)
    ensures Set(Set(c, k, v1, d1, now1), k, v2, d2, now2) == Set(c, k, v2, d2, now2)
  {
  }

  /** A write is invisible to the lookups of every other key. */
  lemma SetLeavesOtherKeys<K, V>(c: Cache<K, V>, k: K, v: V, d: int, now: int, j: K, t: int)
    requires j != k
    ensures Get(Set(c, k, v, d, now), j, t) == Get(c, j, t)
  {
  }

  /** On any key at any instant exactly one of `Add` and `Replace` succeeds,
      and a successful one leaves the key live at that instant. */
  lemma AddReplaceExclusive<K, V>(c: Cache<K, V>, k: K, v: V, d: int, now: int)
    ensures Add(c, k, v, d, now).status.Ok? != Replace(c, k, v, d, now).status.Ok?
    ensures Add(c, k, v, d, now).status.Ok? ==> Get(Add(c, k, v, d, now).cache, k, now) == Some(v)
    ensures Replace(c, k, v, d, now).status.Ok? ==> Get(Replace(c, k, v, d, now).cache, k, now) == Some(v)
  {
  }

  /** The lookups and the snapshot agree on which entries are live. */
  lemma GetAgreesWithItems<K, V>(c: Cache<K, V>, k: K, now: int)
    ensures Get(c, k, now).Some? <==> k in Items(c, now)
    ensures k in Items(c, now) ==> Get(c, k, now).value == Items(c, now)[k].value
    ensures GetWithExpiration(c, k, now).Some? <==> k in Items(c, now)
  {
  }

  /** A snapshot holds nothing a sweep would remove, so taking it twice gives
      the same map: the state a sweep leaves behind is already clean. */
  lemma SnapshotIsClean<K, V>(c: Cache<K, V>, now: int)
    ensures ExpiredKeys(c.(items := Items(c, now)), now) == {}
    ensures Items(c.(items := Items(c, now)), now) == Items(c, now)
    ensures ItemCount(c.(items := Items(c, now))) == |Items(c, now)|
  {
  }

  /** After a delete the key is not found, and deleting it again changes
      nothing and reports nothing. */
  lemma DeleteIsFinal<K, V>(c: Cache<K, V>, k: K, now: int)
    ensures Get(Delete(c, k).0, k, now) == None
    ensures GetWithHit(Delete(c, k).0, k) == None
    ensures Delete(Delete(c, k).0, k) == (Delete(c, k).0, None)
  {
  }

  /** After a flush no key is found and the snapshot is empty. */
  lemma FlushForgetsEverything<K, V>(c: Cache<K, V>, k: K, now: int)
    ensures Get(Flush(c), k, now) == None
    ensures GetWithHit(Flush(c), k) == None
    ensures Items(Flush(c), now) == map[]
  {
  }

  /** A snapshot reinstalled into a new engine reproduces the observable items. */
  lemma SnapshotRoundTrip<K, V>(c: Cache<K, V>, d: int, now: int, k: K)
    ensures NewFrom(d, 0, Items(c, now)).items == Items(c, now)
    ensures Get(NewFrom(d, 0, Items(c, now)), k, now) == Get(c, k, now)
  {
  }

  /** No stored entry carries a hit. */
  ghost predicate NoHits<K, V>(c: Cache<K, V>) {
    forall k | k in c.items :: !c.items[k].IsHit()
  }

  /** No operation of the engine records a hit: writes reset the counter to 0,
      removals drop it, the lookups do not change the state at all, and the
      map a sweep leaves (`Items`, by the contract of `DeleteExpired`) keeps
      only entries that were already stored. */
  lemma NoWriteRecordsAHit<K, V>(c: Cache<K, V>, k: K, v: V, d: int, now: int)
    requires NoHits(c)
    ensures NoHits(Set(c, k, v, d, now))
    ensures NoHits(SetDefault(c, k, v, now))
    ensures NoHits(Add(c, k, v, d, now).cache)
    ensures NoHits(Replace(c, k, v, d, now).cache)
    ensures NoHits(Delete(c, k).0)
    ensures NoHits(c.(items := Items(c, now)))
    ensures NoHits(Flush(c))
    ensures GetWithHit(c, k).Some? ==> GetWithHit(c, k).value.1 <= 0
    ensures GetWithHitExpiration(c, k, now).Some? ==> GetWithHitExpiration(c, k, now).value.1 <= 0
  {
  }

  /** The migration the source recommends in place of `Load`: a snapshot
      taken with `Items` and loaded into a new, empty engine reproduces the
      snapshot exactly, and its lookups agree with the original's. */
  method SnapshotLoadRoundTrip<K, V>(c: Cache<K, V>, d: int, now: int)
    returns (r: Cache<K, V>, status: Status)
    ensures status == Ok
    ensures r.items == Items(c, now)
    ensures forall k :: Get(r, k, now) == Get(c, k, now)
  {
    var snapshot := Items(c, now);
    r, status := Load(New(d, 0), Some(snapshot), now);
    assert r.items == snapshot by {
      assert r.items.Keys == snapshot.Keys;
      assert forall k | k in snapshot :: r.items[k] == snapshot[k];
    }
  }
}
