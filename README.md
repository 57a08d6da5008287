# Upstream-quota shields of market-indicators: TTL cache and rate guards

The market-indicators web application forwards requests to two market-data
providers. Two pieces of process-wide state in `lib/` protect those providers:

- **TTL cache** (`lib/cache.ts`). It maps a string key to a payload and an
  absolute expiry time in milliseconds. A read returns the payload while the
  entry is fresh. A read that finds the entry expired deletes it and reports a
  miss (lazy expiration). A write overwrites the entry with
  `expires = now + ttlSec * 1000`. The cache key of a request is its URL.
- **Rate guards** (`lib/rate.ts`). There are two independent admission gates.
  The per-minute gate is a sliding 60-second window over the timestamps of
  granted calls: it drops stale timestamps from the front, refuses when the
  window is full, and otherwise records the call. The per-day gate is a counter
  anchored to a calendar-day string: it restarts at zero when the day changes,
  refuses at the limit, and otherwise counts the call.

The model is in two modules.

- `cache.dfy`, module `Cache`. The class `TtlCache<T>` holds the `store` map.
  Its methods are tied to the pure functions `Lookup`, `AfterLookup` and
  `Stored`, and lemmas about those functions state the read/write behaviour.
- `rate.dfy`, module `Rate`. The class `RateGuard` holds `minuteHits`,
  `dayCount` and `dayStart`. `GuardPerMinute` keeps the source's pruning
  `while` loop over the `seq<int>` field. The pure functions `Pruned`,
  `MinuteAdmits`/`MinuteAfter` and `CountOn`/`DayAdmits`/`DayCountAfter`
  specify the methods. `MinuteVerdicts` and `DayVerdicts` chain successive
  calls, and the lemmas are stated over these functions.

The clock is an input: `now: int` stands for `Date.now()` and
`today: string` stands for `new Date().toDateString()`.

Two boundaries follow the code exactly:

- Cache expiry is strict `now > expires` (lib/cache.ts:10), so a read at
  exactly `now == expires` is still a hit.
- Pruning drops a hit only when `now - hit > 60000` (lib/rate.ts:10), so a hit
  exactly 60 seconds old still occupies the window.

## Model

| member | source | states |
|---|---|---|
| Cache.CacheKeyInjective | lib/cache.ts:20 | two URLs have equal cache keys exactly when the URLs are equal (the key is deterministic and injective) |
| Cache.TtlCache.constructor | lib/cache.ts:1-2 | the store starts empty |
| Cache.TtlCache.GetCached | lib/cache.ts:4-13 | returns `Lookup` of the old store and leaves `AfterLookup` of it: no entry gives none with the store unchanged, `now <= expires` gives the stored payload with the store unchanged, `now > expires` gives none and removes exactly that key (the three cases are the lemmas below) |
| Cache.TtlCache.SetCached | lib/cache.ts:15-17 | afterwards `store[key]` is `Entry(now + ttlSec*1000, data)` whatever was there before; every other key keeps its entry, and no other key appears or disappears |
| Cache.LookupMissing | lib/cache.ts:6-8 | a read of a key with no entry misses and does not change the store |
| Cache.LookupFresh | lib/cache.ts:10-12 | a read at any time up to and including the expiry instant returns the stored payload and does not change the store |
| Cache.LookupExpired | lib/cache.ts:10 | a read after the expiry instant misses; the store loses that key and every remaining entry is unchanged |
| Cache.LookupIsolated | lib/cache.ts:4-13 | a read of one key, including one that drops it, never changes what a read of another key returns at any time |
| Cache.SetThenGet | lib/cache.ts:10-16 | after a write at `t0`, a read at any `t` with `t0 <= t <= t0 + ttlSec*1000` returns the written payload; a read at any later `t` misses and restores the store to the one without that key |
| Cache.SecondSetWins | lib/cache.ts:16 | two writes to one key equal the second write alone; later reads see the second payload until the second expiry, whatever the first TTL was |
| Cache.SetIsolated | lib/cache.ts:15-17 | a write to one key never changes what a read of another key returns |
| Cache.ExpiredStaysGone | lib/cache.ts:8-10 | once a read has found a key expired, every later read of it misses and leaves the store unchanged |
| Cache.ServeWithinTtl | app/api/indicators/route.ts:17-41 | in the cache-aside route, a request that misses serves and stores the payload it built; any request up to 120 seconds later serves that same payload instead of its own and leaves the store unchanged |
| Rate.PrunedSuffix | lib/rate.ts:10-12 | the pruning loop keeps a suffix of the hit list, and every hit it removes is more than 60000 ms older than `now` |
| Rate.PrunedHead | lib/rate.ts:10-12 | pruning stops at a head that is at most 60000 ms old |
| Rate.PrunedRecent | lib/rate.ts:10-12 | if the hit list is in non-decreasing order, then after pruning it is still ordered and every remaining hit `h` satisfies `now - h <= 60000` |
| Rate.PrunedKeepsRecent | lib/rate.ts:10-12 | a hit list with no hit older than 60000 ms is not changed by pruning |
| Rate.PrunedIdempotent | lib/rate.ts:10-12 | pruning again at the same instant removes nothing more |
| Rate.MinuteBounded | lib/rate.ts:15-18 | with a fixed limit, a hit list no longer than `limit` before a check is no longer than `limit` after it |
| Rate.MinuteOrdered | lib/rate.ts:10-20 | if the hits are ordered and none is later than `now`, then after the check they are still ordered, none is later than `now`, and all lie within the 60-second window |
| Rate.MinuteZeroLimitDenies | lib/rate.ts:15 | a limit of zero or below always refuses, and the list stays at its pruned form with nothing appended |
| Rate.MinuteSlotFrees | lib/rate.ts:10-20 | when the window holds at most `limit` hits and its oldest is more than 60000 ms old, the next call is granted |
| Rate.MinuteBurst | lib/rate.ts:5-21 | for some instant `base`, let every recorded hit be at or after `base` and every call fall within `[base, base + 60000]`; then the i-th call is granted exactly when the number of recorded hits plus `i` is below `limit` |
| Rate.MinuteBurstFromEmpty | lib/rate.ts:5-21 | from an empty window, exactly the first `limit` calls of a burst within 60 seconds are granted and the rest are refused |
| Rate.MinuteCapOfTwo | lib/rate.ts:5-21 | with limit 2, three calls at the same instant return granted, granted, refused |
| Rate.DayBounded | lib/rate.ts:36-38 | with a fixed limit, `dayCount <= limit` before a check implies it after the check |
| Rate.DayZeroLimitDenies | lib/rate.ts:36 | a limit of zero or below always refuses, and the counter stays where the day rollover left it |
| Rate.DayRollover | lib/rate.ts:28-40 | on a new day the counter is reset to zero before the admission test: the call is granted exactly when `0 < limit`, and the counter becomes 1 on a grant and 0 on a refusal |
| Rate.DayBurst | lib/rate.ts:23-41 | successive calls on the anchored day: the i-th is granted exactly when `dayCount + i < limit`, and the counter rises by one per grant up to `limit` and then stays |
| Rate.DayBurstAfterRollover | lib/rate.ts:23-41 | successive calls on a new day: exactly the first `limit` are granted, and the counter counts only that day's grants |
| Rate.RateGuard.constructor | lib/rate.ts:1-3 | at start-up there are no hits, the counter is zero and the counter is anchored at the start-up day |
| Rate.RateGuard.GuardPerMinute | lib/rate.ts:5-21 | grants exactly when `MinuteAdmits` holds, i.e. the pruned hit count is below `limit`; the hit list becomes `MinuteAfter`, the pruned list with `now` appended on a grant; keeps the hit list no longer than `limit` and the order-and-window invariant; does not touch `dayCount` or `dayStart` |
| Rate.RateGuard.GuardPerDay | lib/rate.ts:23-41 | grants exactly when `DayAdmits` holds, i.e. the counter after any new-day reset is below `limit`; the counter becomes `DayCountAfter`, one more on a grant and unchanged on a refusal; anchors at `today`; keeps `dayCount <= limit`; does not touch `minuteHits` |
| Rate.RateGuard.GetDailyCount | lib/rate.ts:43-45 | returns the current day counter and changes no state |

## Left out

- Clocks. `Date.now()` and `new Date().toDateString()` are inputs (`now`, `today`). Time zones, the day-string format and clocks that run backwards are not modelled. Ordering and recency of the hit list are stated under the precondition that `now` is not earlier than any recorded hit.
- Numbers. `ttlSec`, `limit` and timestamps are JavaScript numbers. The model uses unbounded integers, so fractional TTLs or limits, NaN and floating-point rounding of `now + ttlSec * 1000` are not modelled.
- Payload truthiness. `getCached` returns `null` on a miss and the stored payload on a hit. The routes test the result with `if (cached)`, so a stored payload that is itself falsy reads as a miss there. The model returns `Option<T>`, which always tells a hit from a miss. `Cache.ServeWithinTtl` treats every stored payload as truthy.
- The list route: only the cache decision of `app/api/indicators/route.ts` is modelled. The `NextResponse` construction, the `Cache-Control` headers and the hard-coded coin list are not.
- The upstream routes (`app/api/indicators/[id]/route.ts`, `app/api/search/route.ts`). Their HTTP calls, environment configuration, JSON reshaping and the order in which they consult the two gates are I/O plumbing and are not part of this model. The model only states that each gate leaves the other gate's state untouched.
- The React pages and components under `app/` are user-interface rendering and are not part of this model.
- Clock reads in the list route. The route reads the clock twice, once inside `getCached` and once inside `setCached`. The model's `Serve` uses one `now` for both. Under a clock that does not run backwards, the later write only moves the expiry later.
- Concurrency. The source relies on single-threaded execution, and each method is modelled as one atomic step.
- Unbounded cache growth. There is no eviction other than expiry-on-read, and the model has none either.
