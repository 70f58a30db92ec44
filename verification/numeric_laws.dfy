/** Properties of the numeric extension, including the wraparound cases the
    repository's own tests check. */
module NumericLaws {
  import opened Outcomes
  import opened CacheItem
  import opened Durations
  import opened FixedWidth
  import opened Engine
  import opened Numeric
  import opened Constructors
  import opened EngineLaws

  /** A decrement by `n` undoes an increment by `n` on a present key, exactly,
      wraparound included. */
  lemma {:induction false} IncrementThenDecrement<K>(nc: NumberCache<K>, k: K, n: int, now: int)
    requires nc.Valid() && InRange(nc.kind, n) && Present(nc, k, now)
    ensures Decrement(Increment(nc, k, n, now).nc, k, n, now) == NumberStep(nc, Ok)
  {
    var v := nc.cache.items[k].value;
    var mid := Increment(nc, k, n, now).nc;
    WrapAddThenSubtract(nc.kind, v, n);
    assert mid.cache.items[k].value == Wrap(nc.kind, v + n);
    var back := Decrement(mid, k, n, now).nc;
    assert back.cache.items[k] == nc.cache.items[k];
    assert back.cache.items == nc.cache.items by {
      assert back.cache.items - {k} == nc.cache.items - {k};
    }
  }

  /** An increment by `n` undoes a decrement by `n` on a present key. */
  lemma {:induction false} DecrementThenIncrement<K>(nc: NumberCache<K>, k: K, n: int, now: int)
    requires nc.Valid() && InRange(nc.kind, n) && Present(nc, k, now)
    ensures Increment(Decrement(nc, k, n, now).nc, k, n, now) == NumberStep(nc, Ok)
  {
    var v := nc.cache.items[k].value;
    var mid := Decrement(nc, k, n, now).nc;
    WrapSubtractThenAdd(nc.kind, v, n);
    assert mid.cache.items[k].value == Wrap(nc.kind, v - n);
    var back := Increment(mid, k, n, now).nc;
    assert back.cache.items[k] == nc.cache.items[k];
    assert back.cache.items == nc.cache.items by {
      assert back.cache.items - {k} == nc.cache.items - {k};
    }
  }

  /** After `SetMax` the key holds at least `v`, and on a present key the
      stored value never decreases. */
  lemma SetMaxIsMonotone<K>(nc: NumberCache<K>, k: K, v: int, d: int, now: int)
    requires nc.Valid() && InRange(nc.kind, v)
    ensures k in SetMax(nc, k, v, d, now).cache.items
    ensures SetMax(nc, k, v, d, now).cache.items[k].value >= v
    ensures Present(nc, k, now) ==>
      SetMax(nc, k, v, d, now).cache.items[k].value >= nc.cache.items[k].value
  {
  }

  /** After `SetMin` the key holds at most `v`, and on a present key the
      stored value never increases. */
  lemma SetMinIsMonotone<K>(nc: NumberCache<K>, k: K, v: int, d: int, now: int)
    requires nc.Valid() && InRange(nc.kind, v)
    ensures k in SetMin(nc, k, v, d, now).cache.items
    ensures SetMin(nc, k, v, d, now).cache.items[k].value <= v
    ensures Present(nc, k, now) ==>
      SetMin(nc, k, v, d, now).cache.items[k].value <= nc.cache.items[k].value
  {
  }

  /** A `SetMax` with a value not above the present one changes nothing. */
  lemma {:induction false} SetMaxBelowIsNoOp<K>(nc: NumberCache<K>, k: K, v: int, d: int, now: int)
    requires nc.Valid() && InRange(nc.kind, v) && Present(nc, k, now)
    requires v <= nc.cache.items[k].value
    ensures SetMax(nc, k, v, d, now) == nc
  {
    var r := SetMax(nc, k, v, d, now);
    assert r.cache.items[k] == nc.cache.items[k];
    assert r.cache.items == nc.cache.items by {
      assert r.cache.items - {k} == nc.cache.items - {k};
    }
  }

  /** A `SetMin` with a value not below the present one changes nothing. */
  lemma {:induction false} SetMinAboveIsNoOp<K>(nc: NumberCache<K>, k: K, v: int, d: int, now: int)
    requires nc.Valid() && InRange(nc.kind, v) && Present(nc, k, now)
    requires v >= nc.cache.items[k].value
    ensures SetMin(nc, k, v, d, now) == nc
  {
    var r := SetMin(nc, k, v, d, now);
    assert r.cache.items[k] == nc.cache.items[k];
    assert r.cache.items == nc.cache.items by {
      assert r.cache.items - {k} == nc.cache.items - {k};
    }
  }

  /** The entry a `SetMax` or `SetMin` leaves is present at the same instant:
      a fresh expiration is never already in the past. */
  lemma InsertedIsPresent<K>(nc: NumberCache<K>, k: K, v: int, d: int, now: int)
    ensures Present(Inserted(nc, k, v, d, now), k, now)
  {
  }

  /** Repeating a `SetMax` at the same instant changes nothing. */
  lemma {:induction false} SetMaxIsIdempotent<K>(nc: NumberCache<K>, k: K, v: int, d: int, now: int)
    requires nc.Valid() && InRange(nc.kind, v)
    ensures SetMax(SetMax(nc, k, v, d, now), k, v, d, now) == SetMax(nc, k, v, d, now)
  {
    var once := SetMax(nc, k, v, d, now);
    if Present(nc, k, now) {
      SetMaxBelowIsNoOp(once, k, v, d, now);
    } else {
      InsertedIsPresent(nc, k, v, d, now);
      SetMaxBelowIsNoOp(once, k, v, d, now);
    }
  }

  /** Repeating a `SetMin` at the same instant changes nothing. */
  lemma {:induction false} SetMinIsIdempotent<K>(nc: NumberCache<K>, k: K, v: int, d: int, now: int)
    requires nc.Valid() && InRange(nc.kind, v)
    ensures SetMin(SetMin(nc, k, v, d, now), k, v, d, now) == SetMin(nc, k, v, d, now)
  {
    var once := SetMin(nc, k, v, d, now);
    if Present(nc, k, now) {
      SetMinAboveIsNoOp(once, k, v, d, now);
    } else {
      InsertedIsPresent(nc, k, v, d, now);
      SetMinAboveIsNoOp(once, k, v, d, now);
    }
  }

  /** On a present key the conditional and the upserting forms agree. */
  lemma UpdateAgreesWithSet<K>(nc: NumberCache<K>, k: K, v: int, d: int, now: int)
    requires nc.Valid() && InRange(nc.kind, v) && Present(nc, k, now)
    ensures UpdateMax(nc, k, v, now).nc == SetMax(nc, k, v, d, now)
    ensures UpdateMin(nc, k, v, now).nc == SetMin(nc, k, v, d, now)
  {
  }

  /** No numeric operation records a hit: an insertion resets the counter to
      0, and an in-place update keeps it. */
  lemma NoNumericWriteRecordsAHit<K>(nc: NumberCache<K>, k: K, n: int, v: int, d: int, now: int)
    requires nc.Valid() && InRange(nc.kind, n) && InRange(nc.kind, v)
    requires NoHits(nc.cache)
    ensures NoHits(Increment(nc, k, n, now).nc.cache)
    ensures NoHits(Decrement(nc, k, n, now).nc.cache)
    ensures NoHits(SetMax(nc, k, v, d, now).cache)
    ensures NoHits(SetMin(nc, k, v, d, now).cache)
    ensures NoHits(UpdateMax(nc, k, v, now).nc.cache)
    ensures NoHits(UpdateMin(nc, k, v, now).nc.cache)
  {
  }

  /** The numeric cache `kind` after `Set(k, v, DefaultExpiration)` on a new
      cache whose default is `DefaultExpiration`, as the tests build it. */
  function Seeded<K>(kind: IntKind, k: K, v: int, now: int): (nc: NumberCache<K>)
    requires InRange(kind, v)
    ensures nc.Valid() && Present(nc, k, now)
  {
    var nc := NewNumber(kind, DefaultExpiration, 0);
    nc.(cache := Set(nc.cache, k, v, DefaultExpiration, now))
  }

  /** int8: 127 + 1 wraps to -128. */
  lemma Int8IncrementOverflows(now: int, later: int)
    ensures Increment(Seeded(Int8, "int8", 127, now), "int8", 1, later).status == Ok
    ensures Get(Increment(Seeded(Int8, "int8", 127, now), "int8", 1, later).nc.cache, "int8", later) == Some(-128)
  {
  }

  /** uint8: 255 + 1 wraps to 0. */
  lemma Uint8IncrementOverflows(now: int, later: int)
    ensures Increment(Seeded(Uint8, "uint8", 255, now), "uint8", 1, later).status == Ok
    ensures Get(Increment(Seeded(Uint8, "uint8", 255, now), "uint8", 1, later).nc.cache, "uint8", later) == Some(0)
  {
  }

  /** uint8: 0 - 1 wraps to 255. */
  lemma Uint8DecrementUnderflows(now: int, later: int)
    ensures Decrement(Seeded(Uint8, "uint8", 0, now), "uint8", 1, later).status == Ok
    ensures Get(Decrement(Seeded(Uint8, "uint8", 0, now), "uint8", 1, later).nc.cache, "uint8", later) == Some(255)
  {
  }

  /** int: 1 + 2 is 3. */
  lemma IntIncrement(now: int, later: int)
    ensures Increment(Seeded(Int64, "tint", 1, now), "tint", 2, later).status == Ok
    ensures Get(Increment(Seeded(Int64, "tint", 1, now), "tint", 2, later).nc.cache, "tint", later) == Some(3)
  {
  }

  /** int: 5 - 2 is 3. */
  lemma IntDecrement(now: int, later: int)
    ensures Decrement(Seeded(Int64, "int", 5, now), "int", 2, later).status == Ok
    ensures Get(Decrement(Seeded(Int64, "int", 5, now), "int", 2, later).nc.cache, "int", later) == Some(3)
  {
  }

  /** An entry written with the 5-second default is gone 6 seconds later: the
      lookup misses it and an increment fails with `NotFound`. */
  lemma ExpiredEntryRejectsIncrement(t: int)
    requires t >= 0
    ensures
      var nc := NewNumber(Int64, 5_000_000_000, 0);
      var nc1 := nc.(cache := Set(nc.cache, "a", 10, DefaultExpiration, t));
      && Get(nc1.cache, "a", t + 6_000_000_000) == None
      && Increment(nc1, "a", 1, t + 6_000_000_000) == NumberStep(nc1, Err(NotFound))
  {
  }
}
