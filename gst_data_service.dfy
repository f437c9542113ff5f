/**
 * The GSTIN lookup service: a cache of lookups shared by all callers, filled
 * at most once per GSTIN, and a sticky shutdown switch.
 *
 * The page fetch and its parse (`GstExtractor(...).extract()`) are a parameter
 * `fetch`: for a GSTIN it gives the parsed records or the exception raised.
 * Random delays and the lock are not modelled; calls are sequential.
 */
module GstService {
  import opened Wrappers

  /** One parsed GST record: field name to value. */
  type Record = map<string, string>

  /** What the extractor gives for a GSTIN: its records, or the exception it raised. */
  type Fetch = string -> Result<seq<Record>, string>

  /** The cache: a GSTIN to its record, or to `None` for a lookup that failed. */
  type Cache = map<string, Option<Record>>

  /** What a lookup that reaches the extractor stores and returns (source lines 89-108). */
  function Outcome(r: Result<seq<Record>, string>): (data: Option<Record>)
    ensures data.Some? <==> r.Ok? && |r.value| > 0
    ensures data.Some? ==> data.value == r.value[0]
  {
    match r
    case Ok(records) => if |records| > 0 then Some(records[0]) else None
    case Err(_) => None
  }

  /** `later` keeps every entry of `earlier` unchanged. */
  ghost predicate Extends(earlier: Cache, later: Cache) {
    forall k :: k in earlier ==> k in later && later[k] == earlier[k]
  }

  /** The counters of `get_cache_stats`. */
  datatype CacheStats = CacheStats(total: nat, successful: nat, failed: int)

  function SuccessKeys(c: Cache): set<string> {
    set k | k in c && c[k].Some?
  }

  function FailureKeys(c: Cache): set<string> {
    set k | k in c && c[k].None?
  }

  /** Every entry is either a success or a failure, never both. */
  lemma {:induction false} StatsPartition(c: Cache)
    ensures |SuccessKeys(c)| + |FailureKeys(c)| == |c.Keys|
  {
    assert SuccessKeys(c) + FailureKeys(c) == c.Keys;
    assert SuccessKeys(c) * FailureKeys(c) == {};
  }

  class GstDataService {
    var cache: Cache
    var isShutdown: bool
    /** The GSTINs handed to the extractor so far, in call order (the network requests). */
    var requests: seq<string>

    /** Every GSTIN that was requested has an entry. */
    ghost predicate Valid()
      reads this
    {
      forall k :: k in requests ==> k in cache
    }

    constructor (initial: Cache)
      ensures Valid()
      ensures cache == initial && !isShutdown && requests == []
    {
      cache := initial;
      isShutdown := false;
      requests := [];
    }

    /** Stop answering: every later lookup returns `None`. */
    method Shutdown()
      requires Valid()
      modifies this
      ensures Valid()
      ensures isShutdown && cache == old(cache) && requests == old(requests)
    {
      isShutdown := true;
    }

    /**
     * `get_gst_data`: after shutdown, `None` and nothing changes; on a cache hit
     * the stored value, even a stored `None`, with no request; otherwise one
     * request, whose outcome is stored under the GSTIN and returned.
     */
    method GetGstData(gstin: string, fetch: Fetch) returns (data: Option<Record>)
      requires Valid()
      modifies this
      ensures Valid() && isShutdown == old(isShutdown) && Extends(old(cache), cache)
      ensures old(isShutdown) ==> data.None? && cache == old(cache) && requests == old(requests)
      ensures !old(isShutdown) && gstin in old(cache) ==>
        data == old(cache)[gstin] && cache == old(cache) && requests == old(requests)
      ensures !old(isShutdown) && gstin !in old(cache) ==>
        data == Outcome(fetch(gstin)) && cache == old(cache)[gstin := data]
        && requests == old(requests) + [gstin]
      ensures !isShutdown ==> gstin in cache && data == cache[gstin]
    {
      if isShutdown {
        return None;
      }
      if gstin in cache {
        return cache[gstin];
      }
      requests := requests + [gstin];
      data := Outcome(fetch(gstin));
      cache := cache[gstin := data];
    }

    /**
     * `get_cache_stats`: the number of entries, the entries holding a record,
     * and the rest, which are exactly the cached failures.
     */
    function GetCacheStats(): (s: CacheStats)
      reads this
      ensures s.total == |cache.Keys| && s.successful == |SuccessKeys(cache)|
      ensures s.failed == |FailureKeys(cache)| && s.successful + s.failed == s.total
    {
      StatsPartition(cache);
      var total := |cache|;
      var successful := |SuccessKeys(cache)|;
      CacheStats(total, successful, total - successful)
    }
  }
}
