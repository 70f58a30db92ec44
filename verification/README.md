# go-cache engine model

A Dafny model of the core of `go-cache`: an in-memory key/value cache with a
time-to-live per item, lazy expiration on lookup, an explicit sweep, eviction
reports, and a numeric extension with wrapping arithmetic and max/min updates.

The engine is a pure state machine. `Engine.Cache` holds the item map, the
default expiration and whether an eviction callback is registered. Every
public method of the source changes the map inside one critical section of
the engine's mutex, so each one is a single transition. Some work happens
outside that section: `Set`, `SetMax` and `SetMin` compute the deadline
before locking (cache_base.go:55-57, cache_number.go:67-69), `DeleteExpired`
reads the clock before locking and calls the callback after unlocking
(cache_base.go:225-239), `Delete` calls it after unlocking
(cache_base.go:258-261), and `Load` decodes before locking
(cache_base.go:308-312). The model takes one clock reading `now` per
transition, an explicit integer parameter (nanoseconds, unbounded). Every function, method and lemma
has a body; nothing is assumed.

Modules, following the source files:

- `CacheItem` (item.go): the `Item` record and its `IsHit` and `Expired`
  predicates. It also holds `InlineExpired`, the other expiry test, which the
  engine writes out inline instead of calling `Expired`.
- `Durations` (cache.go): the `NoExpiration` and `DefaultExpiration` sentinels.
- `Engine` (cache_base.go): `NewCache` and the whole engine surface. `Delete`
  and `DeleteExpired` return the `(key, value, hit)` tuples the callback
  would receive, and they return them only when a callback is registered.
- `Constructors` (cache.go): `New`, `NewFrom`, `NewAny`, `NewAnyFrom`,
  `NewNumber` and `NewNumberFrom`, limited to the map each one starts from.
- `FixedWidth` and `Numeric` (cache_number.go): values are integers of one
  `IntKind` (int8 to int64, uint8 to uint64), and `Wrap` implements
  two's-complement wraparound. Go's `int`, `uint` and `uintptr` are taken as
  64 bits wide.
- `EngineLaws`, `NumericLaws` and `Divergences` hold lemmas that relate the
  operations to each other. They include the wraparound cases from the
  repository's tests and the places where the code disagrees with itself.

Where the code disagrees with itself or with its own comments, the model
follows what the code does:

- The code has two expiry tests. `Item.Expired` (item.go:18) treats only an
  expiration of 0 as "never expires". The test the engine inlines
  (cache_base.go:93) treats every non-positive expiration as "never". The
  numeric operations and the `Load` merge use `Expired`. `Get`, `Items`,
  `Add`, `Replace` and `DeleteExpired` use the inline test. For a negative
  expiration the two tests disagree (`Divergences.NegativeExpirationSplitsTheModel`).
- The comment at cache_base.go:184 reads "Inlining of get and Expired", but
  `GetWithHit` never checks the expiration (cache_base.go:185-192). It
  finds an expired entry that has not been swept yet
  (`Divergences.GetWithHitSeesExpiredEntries`).
- A write stores "never expires" for every non-positive effective duration,
  not only for `NoExpiration`.
- `SetMax` and `SetMin` ignore the duration they are given when the key is
  live (`Divergences.SetMaxMinIgnoreDuration`).
- No operation increments the hit counter. Writes reset it to 0, in-place
  numeric updates keep it, and lookups only report it
  (`EngineLaws.NoWriteRecordsAHit`, `NumericLaws.NoNumericWriteRecordsAHit`).
  Only `Load` and the `NewFrom` constructors can bring in a positive count,
  copied from the map they are given.

## Model

| member | source | states |
|---|---|---|
| CacheItem.Item.IsHit | item.go:11-14 | an item counts as hit exactly when its counter is at least 1 |
| CacheItem.Item.Expired | item.go:16-22 | an expiration of 0 never expires; any other expiration is an inclusive deadline, expired from the next nanosecond on |
| CacheItem.Item.InlineExpired | cache_base.go:92-96 | every non-positive expiration never expires; a positive one is an inclusive deadline |
| CacheItem.ZeroNeverExpires | item.go:17-20 | an item whose expiration is 0 is live at every instant under both expiry tests |
| CacheItem.DeadlineIsInclusive | item.go:17-22 | a non-zero deadline is inclusive: the item is live at its own expiration instant and expired one nanosecond later |
| CacheItem.ExpiredIsMonotone | item.go:21 | once an item is expired it stays expired at every later instant, under both tests |
| CacheItem.ExpiryTestsAgree | cache_base.go:93-94 | for a non-negative expiration, the item's `Expired` test and the engine's inline test agree |
| CacheItem.ExpiryTestsDisagree | item.go:17-22 | for a negative expiration, the inline test never expires the item, while `Expired` does as soon as the clock passes the instant |
| Durations.SentinelsAreDistinctAndNotPositive | cache.go:7-13 | `NoExpiration` (-1) and `DefaultExpiration` (0) are distinct, and neither is positive |
| Engine.NewCache | cache_base.go:13-21 | the engine keeps the supplied map unchanged; a default of `DefaultExpiration` becomes `NoExpiration`, and any other default is kept; no callback is registered |
| Engine.OnEvicted | cache_base.go:32-36 | registering or removing the callback changes nothing else |
| Engine.ExpirationFor | cache_base.go:49-56 | a write's deadline is either 0 ("never") or strictly after `now`; a positive effective duration gives exactly `now` plus that duration; every non-positive effective duration gives 0 |
| Engine.Set | cache_base.go:49-64 | the key then holds the new value with hit count 0 and the resolved deadline; every other key and the cache settings are unchanged |
| Engine.SetDefault | cache_base.go:67-69 | the same as `Set` with the cache's default duration passed explicitly |
| Engine.Add | cache_base.go:103-113 | fails with `AlreadyExists` exactly when a live entry is present, and then leaves the cache unchanged; otherwise it is exactly `Set` |
| Engine.Replace | cache_base.go:117-127 | succeeds exactly when a live entry is present, and is then exactly `Set`; otherwise it fails with `DoesNotExist` and leaves the cache unchanged |
| Engine.Get | cache_base.go:131-148 | finds the key exactly when it is stored and not expired by the inline test, and returns the stored value |
| Engine.ExpirationTime | cache_base.go:164-178 | a lookup reports the zero time exactly when the expiration is not positive, and otherwise the stored instant |
| Engine.GetWithExpiration | cache_base.go:154-179 | finds exactly what `Get` finds, with the same value and with the entry's reported expiration time |
| Engine.GetWithHit | cache_base.go:181-193 | finds every stored key, expired or not, and reports its value and hit count |
| Engine.GetWithHitExpiration | cache_base.go:195-220 | finds exactly what `Get` finds, with the entry's value, hit count and reported expiration time |
| Engine.Delete | cache_base.go:242-262 | the key is then absent and nothing else changes; an eviction is reported exactly when a callback is registered and the key was present, and it carries the removed value and hit count; deleting an absent key changes nothing |
| Engine.DeleteExpired | cache_base.go:223-240 | the remaining map is exactly the live snapshot `Items`, so the count drops by the number of expired entries; with a callback, the reported keys are exactly the expired keys; without one, nothing is reported; no key is reported twice, and each report carries the removed value and hit count |
| Engine.Items | cache_base.go:343-358 | the snapshot holds exactly the stored entries not expired by the inline test, with their items unchanged |
| Engine.ItemCount | cache_base.go:360-367 | the count is 0 exactly when no entry is stored, and at least 1 while any key, live or expired, is stored |
| Engine.Flush | cache_base.go:370-374 | the map is then empty and the settings are kept |
| Engine.Load | cache_base.go:307-322 | a decode failure leaves the cache unchanged and returns `DecodeError`; otherwise the keys become the union of both maps, a loaded entry is installed where the key is absent or `Expired`, and every other entry of the cache is kept |
| Constructors.New | cache.go:15-18 | the cache starts with no entries, no callback, and the normalised default |
| Constructors.NewFrom | cache.go:20-22 | the cache holds the supplied map unchanged, expired entries included |
| Constructors.NewAny | cache.go:24-27 | the same as `New` |
| Constructors.NewAnyFrom | cache.go:29-31 | the same as `NewFrom` |
| Constructors.NewNumber | cache.go:33-36 | an empty numeric cache of the given integer kind |
| Constructors.NewNumberFrom | cache.go:38-40 | a numeric cache holding the supplied map unchanged |
| FixedWidth.Wrap | cache_number.go:35 | the wrapped result is representable in the kind, is congruent to the exact result modulo 2^width, and equals it when it is representable |
| FixedWidth.WrapAddThenSubtract | cache_number.go:35-52 | adding n and then subtracting n, both with wraparound, restores every representable value |
| FixedWidth.WrapSubtractThenAdd | cache_number.go:35-52 | subtracting n and then adding n, both with wraparound, restores every representable value |
| Numeric.Max | cache_number.go:80 | the larger of the two values: at least both, and equal to one of them |
| Numeric.Min | cache_number.go:107 | the smaller of the two values: at most both, and equal to one of them |
| Numeric.Increment | cache_number.go:28-39 | fails with `NotFound` and changes nothing exactly when the key is absent or `Expired`; otherwise stores `value + n` wrapped to the width, keeps the expiration and hit count, and changes no other key |
| Numeric.Decrement | cache_number.go:45-56 | the mirror of `Increment`, storing `value - n` wrapped to the width |
| Numeric.SetMax | cache_number.go:61-83 | never fails; on an absent or `Expired` key it inserts the value as `Set` would; on a present key it stores the maximum and keeps the expiration and hit count |
| Numeric.SetMin | cache_number.go:88-110 | the mirror of `SetMax`, storing the minimum |
| Numeric.UpdateMax | cache_number.go:113-123 | fails with `NotFound` and changes nothing on an absent or `Expired` key; otherwise stores the maximum and keeps the metadata |
| Numeric.UpdateMin | cache_number.go:126-136 | the mirror of `UpdateMax`, storing the minimum |
| EngineLaws.SetThenGetBoundary | cache_base.go:54-56 | with a non-negative clock and a positive effective duration, the written entry is found at every instant up to and including `now + d`, and at none after it |
| EngineLaws.NonPositiveDurationNeverExpires | cache_base.go:54-63 | any non-positive effective duration stores expiration 0, and the entry is found at every instant |
| EngineLaws.DefaultCacheNeverExpires | cache.go:33-35 | in a cache built with `DefaultExpiration` as its default, a write with `DefaultExpiration` stores expiration 0 and is never lost |
| EngineLaws.SetOverwrites | cache_base.go:59-63 | of two writes to the same key, the last one wins completely |
| EngineLaws.SetLeavesOtherKeys | cache_base.go:59 | a write does not change any other key's lookup |
| EngineLaws.AddReplaceExclusive | cache_base.go:103-127 | on any key, exactly one of `Add` and `Replace` succeeds, and the one that does leaves the new value live |
| EngineLaws.GetAgreesWithItems | cache_base.go:140-147 | `Get` and `GetWithExpiration` find a key exactly when the snapshot contains it, with the same value |
| Engine.SnapshotCount | cache_base.go:360-367 | the count includes the expired entries not yet swept: it equals the snapshot's size plus the number of expired entries |
| EngineLaws.SnapshotIsClean | cache_base.go:348-357 | a snapshot holds no expired entry, so a second snapshot returns the same map, and a swept cache's count equals the live count |
| EngineLaws.DeleteIsFinal | cache_base.go:254-262 | after a delete the key is not found; deleting it again changes nothing and reports nothing |
| EngineLaws.FlushForgetsEverything | cache_base.go:370-374 | after a flush no key is found and the snapshot is empty |
| EngineLaws.SnapshotRoundTrip | cache.go:20-22 | reinstalling a snapshot with `NewFrom` reproduces the same live entries and lookups |
| EngineLaws.NoWriteRecordsAHit | cache_base.go:59-63 | when no entry has a hit, none of `Set`, `SetDefault`, `Add`, `Replace`, `Delete`, the sweep (whose result is `Items`) or `Flush` creates one, and neither `GetWithHit` nor `GetWithHitExpiration` reports one |
| EngineLaws.SnapshotLoadRoundTrip | cache_base.go:302-322 | loading an `Items` snapshot into a new, empty engine succeeds and reproduces the snapshot exactly, with the same lookups as the original |
| NumericLaws.NoNumericWriteRecordsAHit | cache_number.go:28-136 | when no entry has a hit, none of `Increment`, `Decrement`, `SetMax`, `SetMin`, `UpdateMax` or `UpdateMin` creates one |
| NumericLaws.IncrementThenDecrement | cache_number.go:35-52 | on a present key, decrementing by n after incrementing by n restores the cache exactly |
| NumericLaws.DecrementThenIncrement | cache_number.go:35-52 | on a present key, incrementing by n after decrementing by n restores the cache exactly |
| NumericLaws.SetMaxIsMonotone | cache_number.go:80 | after `SetMax` the key holds at least v, and a present value never decreases |
| NumericLaws.SetMinIsMonotone | cache_number.go:107 | after `SetMin` the key holds at most v, and a present value never increases |
| NumericLaws.SetMaxBelowIsNoOp | cache_number.go:80-81 | a `SetMax` whose value is not above the present one leaves the cache unchanged |
| NumericLaws.SetMinAboveIsNoOp | cache_number.go:107-108 | a `SetMin` whose value is not below the present one leaves the cache unchanged |
| NumericLaws.InsertedIsPresent | cache_number.go:62-78 | the entry inserted by `SetMax`/`SetMin` is not `Expired` at the instant it was written |
| NumericLaws.SetMaxIsIdempotent | cache_number.go:61-83 | repeating the same `SetMax` at the same instant changes nothing |
| NumericLaws.SetMinIsIdempotent | cache_number.go:88-110 | repeating the same `SetMin` at the same instant changes nothing |
| NumericLaws.UpdateAgreesWithSet | cache_number.go:113-136 | on a present key, `UpdateMax`/`UpdateMin` produce the same cache as `SetMax`/`SetMin` |
| NumericLaws.Seeded | cache_number_test.go:6-7 | a new numeric cache after `Set(k, v, DefaultExpiration)` holds only valid values, and the key is present |
| NumericLaws.Int8IncrementOverflows | cache_number_test.go:424-437 | int8 127 + 1 succeeds and reads back as -128 |
| NumericLaws.Uint8IncrementOverflows | cache_number_test.go:439-451 | uint8 255 + 1 succeeds and reads back as 0 |
| NumericLaws.Uint8DecrementUnderflows | cache_number_test.go:453-465 | uint8 0 - 1 succeeds and reads back as 255 |
| NumericLaws.IntIncrement | cache_number_test.go:5-19 | int 1 + 2 succeeds and reads back as 3 |
| NumericLaws.IntDecrement | cache_number_test.go:216-230 | int 5 - 2 succeeds and reads back as 3 |
| NumericLaws.ExpiredEntryRejectsIncrement | cache_number.go:28-34 | an entry written with a 5-second default is not found 6 seconds later, and `Increment` then fails with `NotFound` and changes nothing |
| Divergences.GetWithHitSeesExpiredEntries | cache_base.go:181-220 | for an expired entry that has not been swept, `GetWithHit` reports it while `Get`, `GetWithExpiration` and `GetWithHitExpiration` do not |
| Divergences.NegativeExpirationSplitsTheModel | cache_number.go:31 | once the clock passes a negative expiration, the entry is live for `Get`, `Items` and `Add`, but absent for `Increment`, `UpdateMax` and `SetMax` |
| Divergences.NegativeExpirationExample | cache_base.go:140-147 | with an entry expiring at -5 read at instant 0, `Get` returns 7 and `Increment` fails with `NotFound` |
| Divergences.SetMaxMinIgnoreDuration | cache_number.go:80-81 | on a present key, `SetMax` and `SetMin` give the same cache whatever duration is passed, and the old expiration is kept |

## Left out

- Constructors.NewFrom: the supplied map is modelled as a value. In the source the cache keeps the caller's map itself (cache.go:20-22, cache_base.go:19), so writes through the cache appear in the caller's map and the caller's writes bypass the mutex; neither is modelled. A nil map is not modelled either: in the source it reads as empty, and the first write into it (`Set`, `Add`, `Replace`, an inserting `SetMax`/`SetMin`, the `Load` merge) panics. The same holds for `Constructors.NewAnyFrom` and `Constructors.NewNumberFrom`.
- The janitor (janitor.go), its ticker, its stop channel and the finalizers in the `New*` constructors. These are concurrency and garbage-collector behaviour. `Engine.DeleteExpired` models the sweep the janitor calls, and the constructors ignore `cleanupInterval`.
- The `sync.RWMutex`. Each public method is one atomic transition with one clock reading `now`, where the source reads the clock up to several times: before locking for a write's deadline and the sweep's instant, and again inside the lock for each `Expired` call (cache_number.go:67-72, cache_base.go:314-316). Between those readings a concurrent writer could run. The claim that concurrent increments lose no update is a concurrency property and is not modelled.
- Gob encoding, `Save`, `SaveFile` and `LoadFile`. These are I/O and a foreign library. `Engine.Load` takes the decoded map, or `None` for a decode failure, and models only the merge.
- Calling the eviction callback. The tuples it would receive are returned instead. The callback is represented only by whether one is registered.
- float32 and float64 value types. These would need floating-point arithmetic. Only the fixed-width integer kinds are modelled.
- `time.Now()`, the `time.Time` conversion, and int64 overflow in `time.Now().Add(d)`. The clock is a parameter, and instants are unbounded integers.
- Error message text. Errors are plain tags.
- The `Any` wrapper type and the `SetJanitor`/`StopJanitor` methods. They add no cache behaviour.
- NumericLaws.InsertedIsPresent: holds because the deadline and the `Expired` test read the same `now`. In the source the deadline is computed before locking and `Expired` reads the clock again, so with a time-to-live of a few nanoseconds an inserted entry can already be expired when it is written.
- EngineLaws.SetThenGetBoundary: requires a non-negative clock, so that `now + d` is a positive deadline. With a negative clock, a deadline of 0 or below would read as "never expires".
