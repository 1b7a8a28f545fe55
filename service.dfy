/** The read-through page cache of the time-tracker front end (`TimeTrackerService`).
    Pages of records are cached under the key `email:offset:length`; a read returns a
    cached page without asking the backend, and otherwise asks the backend and caches what
    it got when that is not empty. A successful write removes every key that starts with
    the written record's email; a failed write is swallowed and changes nothing.

    The backend is not called from here: each operation receives the answer the backend
    gives if it is asked (a `Response` for a read, a `PostOutcome` for a write), and a
    ghost log records the calls the service actually makes. */
module Service {
  import opened Wrappers
  import opened TimeRecords
  import opened CacheKeys
  import opened Fetch

  /** The cache's contents: key to page of records. */
  type Cache = map<string, seq<TimeRecord>>

  /** A request the service sends to the backend. */
  datatype BackendCall =
    | GetRecords(email: string, offset: int, length: int)
    | PostRecord(record: TimeRecord)

  /** How the backend answers a `POST /records`: accepted, or refused with an exception. */
  datatype PostOutcome = Posted | PostFailed

  /** What the cache always holds: only non-empty pages. */
  ghost predicate CacheInvariant(cache: Cache) {
    forall k :: k in cache ==> cache[k] != []
  }

  /** The cache after every key that starts with `email` is removed (`removeIf` with
      `startsWith`): a key stays iff it does not start with `email`, nothing is added,
      and what stays keeps its page. */
  function WithoutPrefixed(cache: Cache, email: string): (after: Cache)
    ensures after.Keys <= cache.Keys
    ensures forall k :: k in cache ==> (k in after <==> !StartsWith(k, email))
    ensures forall k :: k in after ==> after[k] == cache[k]
  {
    map k | k in cache && !StartsWith(k, email) :: cache[k]
  }

  /** After invalidating `email`, no page of `email` is cached, whatever its offset and
      length. */
  lemma InvalidationClearsOwnPages(cache: Cache, email: string, offset: int, length: int)
    ensures Key(email, offset, length) !in WithoutPrefixed(cache, email)
  {
    assert StartsWith(Key(email, offset, length), email);
  }

  /** For a colon-free email, the invalidation footprint is every cached page whose owner
      starts with that email: the page of an owner that only extends it
      (`a@x.com.evil` for `a@x.com`) is cleared too, and every other page is kept
      unchanged. */
  lemma InvalidationFootprint(cache: Cache, email: string, owner: string, offset: int, length: int)
    requires ':' !in email
    requires Key(owner, offset, length) in cache
    ensures var after := WithoutPrefixed(cache, email);
      (Key(owner, offset, length) in after <==> !StartsWith(owner, email)) &&
      (Key(owner, offset, length) in after ==> after[Key(owner, offset, length)] == cache[Key(owner, offset, length)])
  {
    ColonFreePrefixFootprint(email, owner, offset, length);
  }

  /** A write for `a@x.com` clears every cached page of `a@x.com.evil`. */
  lemma PrefixOverReach(cache: Cache, offset: int, length: int)
    ensures Key("a@x.com.evil", offset, length) !in WithoutPrefixed(cache, "a@x.com")
  {
    assert StartsWith("a@x.com.evil", "a@x.com");
  }

  class TimeTrackerService {
    /** Key to cached page. Entries may also vanish between calls (see `Evict`). */
    var cache: Cache
    /** Every call made to the backend, oldest first. */
    ghost var log: seq<BackendCall>

    ghost predicate Valid()
      reads this
    {
      CacheInvariant(cache)
    }

    constructor ()
      ensures Valid() && cache == map[] && log == []
    {
      cache := map[];
      log := [];
    }

    /** A page of `email`'s records: the cached page when there is one, otherwise the
        backend's answer, cached when it is not empty. A backend failure reaches the caller
        and leaves the cache as it was. */
    method GetRecordsByEmail(email: string, offset: Int32, length: Int32, response: Response)
      returns (r: Result<seq<TimeRecord>, FetchError>)
      requires Valid()
      modifies this
      ensures Valid()
      ensures Key(email, offset, length) in old(cache) ==>
        && r == Success(old(cache)[Key(email, offset, length)])
        && cache == old(cache)
        && log == old(log)
      ensures Key(email, offset, length) !in old(cache) ==>
        && log == old(log) + [GetRecords(email, offset, length)]
        && r == FetchRecordsFromApi(response)
        && cache == if r.Success? && r.value != [] then old(cache)[Key(email, offset, length) := r.value]
                    else old(cache)
      ensures Key(email, offset, length) in cache <==> r.Success? && r.value != []
      ensures r.Success? && r.value != [] ==> cache[Key(email, offset, length)] == r.value
    {
      var key := Key(email, offset, length);
      if key in cache {
        r := Success(cache[key]);
      } else {
        log := log + [GetRecords(email, offset, length)];
        r := FetchRecordsFromApi(response);
        if r.Success? && r.value != [] {
          cache := cache[key := r.value];
        }
      }
    }

    /** Two reads of the same page in a row. The second returns what the first did whenever
        the first gave a non-empty page, and then asks the backend nothing; with the same
        backend answer both times, the two reads always agree. */
    method ReadTwice(email: string, offset: Int32, length: Int32, first: Response, second: Response)
      returns (r1: Result<seq<TimeRecord>, FetchError>, r2: Result<seq<TimeRecord>, FetchError>)
      requires Valid()
      modifies this
      ensures Valid()
      ensures r1.Success? && r1.value != [] ==> r2 == r1
      ensures first == second ==> r2 == r1
      ensures log == old(log)
        + (if Key(email, offset, length) in old(cache) then [] else [GetRecords(email, offset, length)])
        + (if r1.Success? && r1.value != [] then [] else [GetRecords(email, offset, length)])
    {
      r1 := GetRecordsByEmail(email, offset, length, first);
      r2 := GetRecordsByEmail(email, offset, length, second);
    }

    /** Submits `record`. Only when the backend accepts it are the keys starting with its
        email removed; a refusal is swallowed, so the caller sees no error and the cache is
        unchanged. */
    method CreateRecord(record: TimeRecord, outcome: PostOutcome)
      requires Valid()
      modifies this
      ensures Valid()
      ensures log == old(log) + [PostRecord(record)]
      ensures outcome == Posted ==> cache == WithoutPrefixed(old(cache), record.email)
      ensures outcome == PostFailed ==> cache == old(cache)
      ensures outcome == Posted ==>
        forall offset: int, length: int :: Key(record.email, offset, length) !in cache
    {
      log := log + [PostRecord(record)];
      if outcome == Posted {
        InvalidateCacheForEmail(record.email);
        forall offset: int, length: int
          ensures Key(record.email, offset, length) !in cache
        {
          InvalidationClearsOwnPages(old(cache), record.email, offset, length);
        }
      }
    }

    /** Removes every cached key that starts with `email`, one key at a time. */
    method InvalidateCacheForEmail(email: string)
      requires Valid()
      modifies this
      ensures Valid() && log == old(log)
      ensures cache == WithoutPrefixed(old(cache), email)
    {
      var todo := cache.Keys;
      while todo != {}
        invariant todo <= old(cache).Keys
        invariant forall k :: k in cache <==> k in old(cache) && (k in todo || !StartsWith(k, email))
        invariant forall k :: k in cache ==> cache[k] == old(cache)[k]
        invariant CacheInvariant(cache) && log == old(log)
        decreases todo
      {
        var k :| k in todo;
        if StartsWith(k, email) {
          cache := cache - {k};
        }
        todo := todo - {k};
      }
      assert cache.Keys == WithoutPrefixed(old(cache), email).Keys;
    }

    /** The cache library dropping entries on its own (idle expiry, size bound). Which
        entries go is the library's choice; the model only says that nothing else changes. */
    method Evict(keys: set<string>)
      requires Valid()
      modifies this
      ensures Valid() && log == old(log)
      ensures cache == old(cache) - keys
    {
      cache := cache - keys;
    }
  }
}
