# Time-tracker front end: the read-through page cache

This project models the record cache of the time-tracker front end, the
`TimeTrackerService` class. The front end shows pages of "time records" (an email,
a start and an end) held by a separate backend over HTTP. The service sits between
the two:

- **Read** (`getRecordsByEmail`). The cache key of a page request is
  `email:offset:length`. On a hit the cached page is returned and the backend is not
  asked. On a miss the backend is asked, and its answer is normalised: a missing body
  reads as no records, and missing elements are dropped. The page is cached only when
  it is not empty. A backend failure reaches the caller and writes nothing into the cache.
- **Write** (`createRecord`). The record is POSTed. Only if the POST succeeds is every
  key that starts with the record's email removed. A failed POST is caught and
  swallowed: the caller sees no error and the cache is unchanged.

Modules:

- `Wrappers`: `Option` and `Result`.
- `TimeRecords`: the record value, and Java's `int` as `Int32`.
- `CacheKeys`: the key format, a parser that reads a key back, and lemmas about both.
  The lemmas cover the round trip, injectivity and what the `startsWith` test reaches.
- `Fetch`: the backend's answer to a read and the null filtering applied to it.
- `Service`: the class `TimeTrackerService`. It holds the cache as a `map` field and a
  ghost log of the backend calls it makes. It also holds the invalidation footprint as a
  function on maps, with lemmas about that function.

The backend and the cache library are not called. Each read takes the backend's answer
as a `Response` parameter, and each write takes the POST's result as a `PostOutcome`
parameter. The ghost log lets the contracts say when the backend is actually asked.

Two alternatives to what the code does are worth naming. In both cases the model
follows the code:

- An owner-exact invalidation would clear only the pages whose owner equals the written
  email. The code clears every key that has the email as a string prefix. That also
  clears the pages of any owner whose email extends it, such as `a@x.com.evil` for
  `a@x.com`. With a colon in the written email, it can even clear pages of a shorter
  owner: `a:0` clears page `(a, 0, 20)`. `InvalidationFootprint`, `PrefixOverReach` and
  `ColonEmailReachesOtherOwner` state this over-reach. For calls that do not overlap,
  removing too much never serves a stale page; it only costs extra backend calls.
- A typed error would let the caller of `createRecord` see that a POST failed. The code
  catches the exception, prints its stack trace and returns normally. `CreateRecord`
  signals nothing.

## Model

| member | source | states |
|---|---|---|
| `CacheKeys.NatToDecimal` | src/main/java/com/timetracker/frontend/service/TimeTrackerService.java:56 | `%d` of a non-negative value is a nonempty string of decimal digits, one digit long exactly below ten |
| `CacheKeys.IntToDecimal` | src/main/java/com/timetracker/frontend/service/TimeTrackerService.java:56 | `%d` of any int is nonempty, never contains a colon, and starts with a minus sign exactly when the value is negative |
| `CacheKeys.NatToDecimalRoundTrip` | src/main/java/com/timetracker/frontend/service/TimeTrackerService.java:56 | reading the printed numeral of a natural number gives that number back |
| `CacheKeys.IntToDecimalRoundTrip` | src/main/java/com/timetracker/frontend/service/TimeTrackerService.java:56 | parsing what `%d` prints for any int gives that int back |
| `CacheKeys.StartsWith` | src/main/java/com/timetracker/frontend/service/TimeTrackerService.java:130 | Java's `startsWith`: true iff the prefix is no longer than the string and agrees with it at every position of the prefix; the empty prefix matches everything |
| `CacheKeys.Key` | src/main/java/com/timetracker/frontend/service/TimeTrackerService.java:56 | the key `email:offset:length` starts with the email, has a colon right after it, and is at least four characters longer than the email |
| `CacheKeys.LastIndexOf` | src/main/java/com/timetracker/frontend/service/TimeTrackerService.java:56 | a helper of the key parser, which exists only in the model and inverts the line-56 format: the result is absent exactly when the character does not occur; otherwise it is a position holding the character, with no occurrence after it |
| `CacheKeys.LastColonBeforeTail` | src/main/java/com/timetracker/frontend/service/TimeTrackerService.java:56 | a helper lemma for the key parser, which exists only in the model and inverts the line-56 format: the colon written in front of a colon-free numeral is the last colon of the string, wherever the text before it has colons |
| `CacheKeys.KeyRoundTrip` | src/main/java/com/timetracker/frontend/service/TimeTrackerService.java:55-56 | parsing the key `email:offset:length` gives back exactly (email, offset, length), for every email including ones with colons |
| `CacheKeys.KeyInjective` | src/main/java/com/timetracker/frontend/service/TimeTrackerService.java:55-56 | two page requests get the same cache key only if email, offset and length are all equal, so the key is unique per request as its comment claims |
| `CacheKeys.ColonFreePrefixFootprint` | src/main/java/com/timetracker/frontend/service/TimeTrackerService.java:128-131 | for an email with no colon, a page key starts with the email iff the page's owner starts with it, in both directions |
| `CacheKeys.ColonEmailReachesOtherOwner` | src/main/java/com/timetracker/frontend/service/TimeTrackerService.java:128-131 | an email containing a colon (`a:0`) is a prefix of the key of a page of a different, shorter owner (`a`, offset 0) |
| `Fetch.DropNulls` | src/main/java/com/timetracker/frontend/service/TimeTrackerService.java:92-95 | the filtered list is no longer than the array, and a record is in it iff it is a present element of the array |
| `Fetch.FetchRecordsFromApi` | src/main/java/com/timetracker/frontend/service/TimeTrackerService.java:80-96 | a read fails iff the backend call throws; a missing body gives the empty list; otherwise the list is no longer than the array and holds exactly its present elements |
| `Fetch.DropNullsAppend` | src/main/java/com/timetracker/frontend/service/TimeTrackerService.java:93-95 | filtering distributes over concatenation, so the records keep their original order |
| `Fetch.DropNullsKeepsPresent` | src/main/java/com/timetracker/frontend/service/TimeTrackerService.java:93-95 | an array without missing elements comes back whole: same length, same record at each position |
| `Fetch.EmptyOnlyWhenNothingPresent` | src/main/java/com/timetracker/frontend/service/TimeTrackerService.java:85-95 | a read yields the empty page iff the backend returns and its body is missing or every element of it is missing; these are exactly the answers that go uncached at lines 66-68 |
| `Service.CacheInvariant` | src/main/java/com/timetracker/frontend/service/TimeTrackerService.java:66-68 | every cached page is non-empty, because only non-empty fetched pages are put |
| `Service.WithoutPrefixed` | src/main/java/com/timetracker/frontend/service/TimeTrackerService.java:130 | the cache after `removeIf(key -> key.startsWith(email))`: a key stays iff it does not start with the email, no key is added, and every kept key keeps its page |
| `Service.InvalidationClearsOwnPages` | src/main/java/com/timetracker/frontend/service/TimeTrackerService.java:128-131 | after invalidating an email, no page of that email is cached, for any offset and length |
| `Service.InvalidationFootprint` | src/main/java/com/timetracker/frontend/service/TimeTrackerService.java:128-131 | for a colon-free email, a cached page survives invalidation iff its owner does not start with the email, and a surviving page is unchanged |
| `Service.PrefixOverReach` | src/main/java/com/timetracker/frontend/service/TimeTrackerService.java:130 | a write for `a@x.com` also removes every cached page of `a@x.com.evil` |
| `Service.TimeTrackerService.Valid` | src/main/java/com/timetracker/frontend/service/TimeTrackerService.java:66-68 | the object invariant: the cache field satisfies `CacheInvariant`; every method requires and keeps it |
| `Service.TimeTrackerService.constructor` | src/main/java/com/timetracker/frontend/service/TimeTrackerService.java:39-44 | a new service has an empty cache, has made no backend calls, and satisfies the invariant that every cached page is non-empty |
| `Service.TimeTrackerService.GetRecordsByEmail` | src/main/java/com/timetracker/frontend/service/TimeTrackerService.java:54-71 | on a hit it returns the stored page unchanged, calls no backend and changes nothing. On a miss it calls the backend once and returns the filtered answer or the failure. The key is cached afterwards iff the result is a non-empty page. Every other entry is untouched, and only non-empty pages are ever cached |
| `Service.TimeTrackerService.ReadTwice` | src/main/java/com/timetracker/frontend/service/TimeTrackerService.java:56-69 | two reads of one page in a row agree whenever the first gave a non-empty page, and then the second asks the backend nothing; with the same backend answer they always agree |
| `Service.TimeTrackerService.CreateRecord` | src/main/java/com/timetracker/frontend/service/TimeTrackerService.java:102-122 | always POSTs once. On success it removes exactly the keys that start with the record's email, so none of that email's pages remain. On failure it returns normally and leaves the cache exactly as it was |
| `Service.TimeTrackerService.InvalidateCacheForEmail` | src/main/java/com/timetracker/frontend/service/TimeTrackerService.java:128-131 | removes exactly the keys that start with the email, keeps every other entry unchanged, and makes no backend call |
| `Service.TimeTrackerService.Evict` | src/main/java/com/timetracker/frontend/service/TimeTrackerService.java:40-43 | entries may vanish between calls: the named keys go, everything else stays, and the invariant holds |

## Left out

- HTTP: the `RestTemplate` calls and URL building are not modelled. The backend's
  answers are parameters. The email is placed in the GET URL unescaped; this is not modelled.
- The cache library's policy (expire 10 minutes after access, at most 1000 entries, how
  it picks a victim) is not modelled. The model only says that entries may vanish
  between calls (`Evict`). Nothing bounds the map's size.
- Concurrency: the cache library is thread-safe, and two misses for one key may both call
  the backend. Each model method runs atomically. This hides one way the code can serve a
  stale page: a miss whose fetch overlaps a successful write for the same email can put
  the page it fetched before the write after the invalidation has run (lines 64-67
  against line 117). That page is then served until it is evicted.
- The POST body: start and end are formatted for the POST request, and the POST's
  response text is ignored. Only whether the POST succeeded is modelled.
- The stack trace printed for a failed POST.
- Null strings: an email of `null` would print as `null` in the key and make
  `startsWith` throw. Model strings are never null.
- `%d` is modelled with ASCII digits and a leading minus sign, as in the default locale.
  A locale with other digits is not modelled.
- The caller may mutate the list that a hit returns, and that list is also the cached
  one. This aliasing is not modelled: pages are immutable values.
- `TimeRecord` is a plain value. The text parsing in its constructor and its zoned times
  are not modelled. Timestamps are opaque numbers.
- The controller (`hasMore = size == RECORDS_LENGTH` and the session's offset) and
  `DateTimeUtils` are presentation code and are not part of this model.
