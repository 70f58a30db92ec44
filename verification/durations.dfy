/** The two sentinel durations callers pass in place of a time-to-live.
    Durations and instants are nanoseconds, as unbounded integers. */
module Durations {

  /** The item never expires. */
  const NoExpiration: int := -1

  /** Use the cache's default expiration. */
  const DefaultExpiration: int := 0

  /** The sentinels are distinct, and neither is a positive time-to-live. */
  lemma SentinelsAreDistinctAndNotPositive()
    ensures NoExpiration != DefaultExpiration
    ensures NoExpiration <= 0 && DefaultExpiration <= 0
  {
  }
}
