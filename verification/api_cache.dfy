/** The single-slot, time-stamped list cache the Printful and YouTube
    services share, and the order in which their list fetches consult the
    configuration, the cache and the network. Time is the millisecond clock,
    passed in: `now` when a fetch starts and `done` when its request has
    completed. */
module ApiCache {
  import opened Js

  /** `cache` and `cacheTimestamp` of a service; `None` is `null`. */
  datatype Cache<T> = Cache(entries: Option<seq<T>>, timestamp: Option<int>)

  /** The 24-hour cache duration both services use, in milliseconds. */
  const DayMillis: int := 24 * 60 * 60 * 1000

  /** `isCacheValid()`: a list and a truthy time stamp are present (a stamp
      of 0 counts as absent) and strictly less than `duration` has passed. */
  predicate IsValid<T>(c: Cache<T>, now: int, duration: int) {
    c.entries.Some? && c.timestamp.Some? && c.timestamp.value != 0
    && now - c.timestamp.value < duration
  }

  /** `clearCache()`. */
  function Clear<T>(c: Cache<T>): (r: Cache<T>)
    ensures forall now: int, duration: int :: !IsValid(r, now, duration)
  {
    Cache(None, None)
  }

  /** Remembering a freshly fetched list at time `now`. */
  function Store<T>(entries: seq<T>, now: int): (r: Cache<T>)
    ensures r.entries == Some(entries)
    ensures now != 0 ==> forall t: int, duration: int :: IsValid(r, t, duration) <==> t < now + duration
  {
    Cache(Some(entries), Some(now))
  }

  /** The life of a cached list: a stamp of 0 is falsy and never valid; an
      empty list is still a cached answer; a valid cache was valid at every
      earlier time; and it expires exactly `duration` after its stamp. */
  lemma CacheLifetime<T>(c: Cache<T>, entries: seq<T>, stamp: int, t: int, t': int, duration: int)
    ensures !IsValid(Store(entries, 0), t, duration)
    ensures stamp != 0 && t < stamp + duration ==> IsValid(Store(entries[..0], stamp), t, duration)
    ensures IsValid(c, t, duration) && t' <= t ==> IsValid(c, t', duration)
    ensures c.timestamp.Some? ==> !IsValid(c, c.timestamp.value + duration, duration)
  {
  }

  /** Why a list fetch failed. */
  datatype FetchError = NotConfigured | RequestFailed(message: string)

  /** What a list fetch returns and the cache it leaves behind. */
  datatype Outcome<T> = Outcome(result: Result<seq<T>, FetchError>, cache: Cache<T>)

  /** The list fetch of either service, started at `now`. `response` is what
      the request, and the transformation of its body, would produce; it
      matters only when the service is configured and its cache is not
      valid, the one case in which the request is made. The new list is
      stamped with `done`, the clock once the request has completed. */
  function Fetch<T>(configured: bool, c: Cache<T>, now: int, done: int, duration: int,
                    response: Result<seq<T>, string>): (r: Outcome<T>)
    ensures !configured ==> r == Outcome(Failure(NotConfigured), c)
    ensures configured && IsValid(c, now, duration) ==> r == Outcome(Success(c.entries.value), c)
    ensures configured && !IsValid(c, now, duration) && response.Failure? ==>
      r == Outcome(Failure(RequestFailed(response.error)), c)
    ensures configured && !IsValid(c, now, duration) && response.Success? ==>
      r.result == Success(response.value) && r.cache.entries == Some(response.value)
      && r.cache.timestamp == Some(done)
  {
    if !configured then Outcome(Failure(NotConfigured), c)
    else if IsValid(c, now, duration) then Outcome(Success(c.entries.value), c)
    else match response
      case Failure(message) => Outcome(Failure(RequestFailed(message)), c)
      case Success(items) => Outcome(Success(items), Store(items, done))
  }

  /** A fetch served from the network, completing at a non-zero time
      `done`, is followed, for any later fetch started within `duration` of
      that, by the same list, whatever the network would have answered then. */
  lemma SecondFetchServedFromCache<T>(c: Cache<T>, now: int, done: int, duration: int,
                                      items: seq<T>, later: int, laterDone: int,
                                      second: Result<seq<T>, string>)
    requires done != 0 && done <= later < done + duration
    requires !IsValid(c, now, duration)
    ensures var first := Fetch(true, c, now, done, duration, Success(items));
      Fetch(true, first.cache, later, laterDone, duration, second) == Outcome(Success(items), first.cache)
  {
  }

  /** After `clearCache()` a configured fetch always goes to the network. */
  lemma ClearForcesRequest<T>(c: Cache<T>, now: int, done: int, duration: int, response: Result<seq<T>, string>)
    ensures var r := Fetch(true, Clear(c), now, done, duration, response);
      response.Success? ==> r.result == Success(response.value)
    ensures var r := Fetch(true, Clear(c), now, done, duration, response);
      response.Failure? ==> r.result == Failure(RequestFailed(response.error))
  {
  }
}
