/** The stored unit of the cache: a value, a hit counter and an absolute
    expiration instant in nanoseconds, where 0 stands for "never expires".

    The source decides whether an item is expired in two different ways, and
    both are kept here side by side:
    - `Expired`, the method of the item record, treats only 0 as "never";
    - `InlineExpired`, the check the engine repeats inline in its lookups,
      its snapshot and its sweep, treats every non-positive instant as "never".
    They agree on every item whose expiration instant is not negative. */
module CacheItem {

  datatype Item<V> = Item(value: V, hit: int, expiration: int) {

    /** True iff the item has been hit at least once. */
    predicate IsHit(): (h: bool)
      ensures h <==> hit >= 1
    {
      hit > 0
    }

    /** The item record's own expiry test, evaluated at instant `now`: 0 means
        "never", and any other instant is an inclusive deadline. */
    predicate Expired(now: int): (x: bool)
      ensures expiration == 0 ==> !x
      ensures expiration != 0 ==> (x <==> now >= expiration + 1)
    {
      if expiration == 0 then false else now > expiration
    }

    /** The expiry test the engine inlines instead of calling `Expired`: every
        non-positive instant means "never". */
    predicate InlineExpired(now: int): (x: bool)
      ensures expiration <= 0 ==> !x
      ensures expiration > 0 ==> (x <==> now >= expiration + 1)
    {
      expiration > 0 && now > expiration
    }
  }

  /** An item whose expiration is 0 never expires, whatever the clock says. */
  lemma ZeroNeverExpires<V>(item: Item<V>, now: int)
    requires item.expiration == 0
    ensures !item.Expired(now) && !item.InlineExpired(now)
  {
  }

  /** A deadline is inclusive: at the very instant of its expiration the item
      is still live, and one nanosecond later it is expired. */
  lemma DeadlineIsInclusive<V>(item: Item<V>)
    requires item.expiration != 0
    ensures !item.Expired(item.expiration)
    ensures item.Expired(item.expiration + 1)
  {
  }

  /** Expiry is monotone in time: once expired, expired at every later instant. */
  lemma ExpiredIsMonotone<V>(item: Item<V>, now: int, later: int)
    requires now <= later
    ensures item.Expired(now) ==> item.Expired(later)
    ensures item.InlineExpired(now) ==> item.InlineExpired(later)
  {
  }

  /** The two expiry tests agree on every item with a non-negative expiration. */
  lemma ExpiryTestsAgree<V>(item: Item<V>, now: int)
    requires item.expiration >= 0
    ensures item.Expired(now) <==> item.InlineExpired(now)
  {
  }

  /** On a negative expiration the inline test says "never expires", while the
      item's own test says "expired" as soon as the clock is past that instant. */
  lemma ExpiryTestsDisagree<V>(item: Item<V>, now: int)
    requires item.expiration < 0
    ensures !item.InlineExpired(now)
    ensures item.Expired(now) <==> now > item.expiration
  {
  }
}
