/**
 * The bani catalogue: its entries and the module-level 24-hour cache the
 * search route keeps of it.
 */
module Catalog {
  import opened Wrappers

  /** A catalogue entry; an id of 0 and an empty name stand for a missing field. */
  datatype Entry = Entry(id: int, baniID: int, altID: int, name: string, transliteration: string)

  /** `b.id || b.baniID || b.ID`: the first id field that is set (0 when none is). */
  function EntryId(e: Entry): (r: int)
    ensures r != 0 ==> r == e.id || r == e.baniID || r == e.altID
    ensures e.id != 0 ==> r == e.id
  {
    if e.id != 0 then e.id else if e.baniID != 0 then e.baniID else e.altID
  }

  /** How long a fetched catalogue is served from memory, in milliseconds. */
  const TimeToLive: int := 86400000

  /** `cachedBaniList` and `lastFetchTime`. */
  datatype CacheState = CacheState(cached: Option<seq<Entry>>, lastFetchTime: int)

  /** The state before the first request. */
  const InitialCache: CacheState := CacheState(None, 0)

  /** The cached list may be served at time `now`. */
  predicate Fresh(st: CacheState, now: int) {
    st.cached.Some? && now - st.lastFetchTime < TimeToLive
  }

  /** One call of `getBaniList`: the new state, the list returned, and whether the network was asked. */
  datatype CacheStep = CacheStep(state: CacheState, list: seq<Entry>, fetched: bool)

  /**
   * `getBaniList` at time `now`, where `download` is what the catalogue
   * download would give if made (`None` for a failure or an empty body).
   */
  function GetBaniListStep(st: CacheState, now: int, download: Option<seq<Entry>>): (r: CacheStep)
    ensures r.fetched <==> !Fresh(st, now)
    ensures !r.fetched ==> r.state == st && r.list == st.cached.value
    ensures r.fetched && download.Some? ==> r.state == CacheState(download, now) && r.list == download.value
    ensures r.fetched && download.None? ==> r.state == st && r.list == []
  {
    if Fresh(st, now) then CacheStep(st, st.cached.value, false)
    else if download.Some? then CacheStep(CacheState(download, now), download.value, true)
    else CacheStep(st, [], true)
  }

  /**
   * Within 24 hours of a successful download every call returns that
   * download, whatever the network would now give, and leaves the cache
   * alone.
   */
  lemma ServedWithinTimeToLive(st: CacheState, t1: int, xs: seq<Entry>, t2: int, later: Option<seq<Entry>>)
    requires !Fresh(st, t1) && t1 <= t2 < t1 + TimeToLive
    ensures var s1 := GetBaniListStep(st, t1, Some(xs));
      var s2 := GetBaniListStep(s1.state, t2, later);
      !s2.fetched && s2.list == xs && s2.state == s1.state
  {
  }

  /**
   * A list is served from memory only while it is younger than 24 hours;
   * after that a failed download yields `[]`, never the stale list.
   */
  lemma NoStaleList(st: CacheState, now: int)
    requires st.cached.Some? && now - st.lastFetchTime >= TimeToLive
    ensures GetBaniListStep(st, now, None).list == []
    ensures GetBaniListStep(st, now, None).state == st
  {
  }

  /** Before the first download nothing is cached, so the first call always fetches. */
  lemma FirstCallFetches(now: int, download: Option<seq<Entry>>)
    ensures GetBaniListStep(InitialCache, now, download).fetched
  {
  }

  /** The module-level cache of the search route. */
  class BaniListCache {
    var cachedBaniList: Option<seq<Entry>>
    var lastFetchTime: int

    constructor ()
      ensures State() == InitialCache
    {
      cachedBaniList := None;
      lastFetchTime := 0;
    }

    function State(): CacheState
      reads this
    {
      CacheState(cachedBaniList, lastFetchTime)
    }

    /** `getBaniList`: serve the cached list while fresh, otherwise download and remember it. */
    method GetBaniList(now: int, download: Option<seq<Entry>>) returns (list: seq<Entry>)
      modifies this
      ensures var step := GetBaniListStep(old(State()), now, download);
        State() == step.state && list == step.list
    {
      if cachedBaniList.Some? && now - lastFetchTime < TimeToLive {
        return cachedBaniList.value;
      }
      if download.Some? {
        cachedBaniList := download;
        lastFetchTime := now;
        return cachedBaniList.value;
      }
      return [];
    }
  }
}
