/**
 * The benchmark's HTTP cache (bench/src/bench/urlcache/cache.go): what a
 * cacheable response left behind, keyed by URL, and the conditional headers
 * it adds to the next request for that URL.
 */
module UrlCache {
  import opened Base

  /** A cached response: its validators and the MD5 of its body. */
  datatype UrlCacheEntry = UrlCacheEntry(lastModified: string, etag: string, md5: string)

  /** The cache, keyed by URL. */
  class CacheStore {
    var items: map<string, UrlCacheEntry>

    /** NewCacheStore. */
    constructor ()
      ensures items == map[]
    {
      items := map[];
    }

    /** Get: the entry for key, or nothing when there is none. */
    function Get(key: string): (r: Option<UrlCacheEntry>)
      reads this
      ensures r.None? <==> key !in items
      ensures r.Some? ==> r.value == items[key]
    {
      if key in items then Some(items[key]) else None
    }

    /** Set: a nil value removes the key, anything else replaces its entry; other keys keep theirs. */
    method Set(key: string, value: Option<UrlCacheEntry>)
      modifies this
      ensures Get(key) == value
      ensures value.Some? ==> items == old(items)[key := value.value]
      ensures value.None? ==> items == old(items) - {key}
      ensures forall k :: k != key ==> Get(k) == old(Get(k))
    {
      if value.None? {
        items := items - {key};
      } else {
        items := items[key := value.value];
      }
    }

    /** Del: the key is gone; other keys keep their entries. */
    method Del(key: string)
      modifies this
      ensures Get(key).None?
      ensures items == old(items) - {key}
      ensures forall k :: k != key ==> Get(k) == old(Get(k))
    {
      items := items - {key};
    }
  }

  /** An outgoing request: its headers, in the order they were added. */
  class Request {
    var headers: seq<(string, string)>

    constructor (headers0: seq<(string, string)>)
      ensures headers == headers0
    {
      headers := headers0;
    }

    /** Header.Add. */
    method AddHeader(name: string, value: string)
      modifies this
      ensures headers == old(headers) + [(name, value)]
    {
      headers := headers + [(name, value)];
    }
  }

  /** The conditional headers an entry adds: each validator only when it is present. */
  function ConditionalHeaders(c: UrlCacheEntry): (h: seq<(string, string)>)
    ensures ("If-Modified-Since", c.lastModified) in h <==> c.lastModified != ""
    ensures ("If-None-Match", c.etag) in h <==> c.etag != ""
    ensures forall x :: x in h ==> x == ("If-Modified-Since", c.lastModified) || x == ("If-None-Match", c.etag)
  {
    (if c.lastModified != "" then [("If-Modified-Since", c.lastModified)] else [])
    + (if c.etag != "" then [("If-None-Match", c.etag)] else [])
  }

  /** ApplyRequest: the request gains the entry's conditional headers and keeps its own. */
  method ApplyRequest(c: UrlCacheEntry, req: Request)
    modifies req
    ensures req.headers == old(req.headers) + ConditionalHeaders(c)
  {
    if c.lastModified != "" {
      req.AddHeader("If-Modified-Since", c.lastModified);
    }
    if c.etag != "" {
      req.AddHeader("If-None-Match", c.etag);
    }
  }
}
