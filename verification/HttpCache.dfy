/** The caching transport in sequential use, with real header objects. */
module HttpCache {
  import opened RateLimit
  import opened Wrappers

  /** A mutable header collection, as responses carry it. */
  class Header {
    var fields: map<string, string>

    constructor (fields: map<string, string>)
      ensures this.fields == fields
    {
      this.fields := fields;
    }

    method Clone() returns (copy: Header)
      ensures fresh(copy) && copy.fields == fields
    {
      copy := new Header(fields);
    }
  }

  datatype Response = Response(status: int, header: Header, body: string)

  datatype Answer = Got(resp: Response) | Failed(reason: Reason)

  function HeaderOf(m: Message): map<string, string> {
    map["Retry-After" := m.retryAfter, "X-RateLimit-Reset" := m.rateLimitReset]
  }

  /** The response says what the message says. */
  ghost predicate Says(r: Response, m: Message)
    reads r.header
  {
    r.status == m.status && r.header.fields == HeaderOf(m) && r.body == m.body
  }

  /** Status, body and both headers. */
  lemma SaysExactly(r: Response, m: Message)
    requires Says(r, m)
    ensures r.status == m.status && r.body == m.body
    ensures r.header.fields == map["Retry-After" := m.retryAfter, "X-RateLimit-Reset" := m.rateLimitReset]
  {
  }

  /** A stored response. `source` is the message it was made from. */
  class CachedResponse {
    const status: int
    const header: Header
    const body: string
    ghost const source: Message

    constructor (status: int, header: Header, body: string, ghost source: Message)
      ensures this.status == status && this.header == header && this.body == body && this.source == source
    {
      this.status, this.header, this.body, this.source := status, header, body, source;
    }

    ghost predicate Faithful() reads header {
      Says(Response(status, header, body), source)
    }

    /** A copy with a header of its own. */
    method ToResponse() returns (resp: Response)
      ensures fresh(resp.header)
      ensures resp == Response(status, resp.header, body) && resp.header.fields == header.fields
    {
      var copy := header.Clone();
      resp := Response(status, copy, body);
    }
  }

  /** A round trip of t that was really made, by calls on record, answered url with m. */
  ghost predicate Gave(t: RateLimitTransport, asked: seq<string>, url: string, m: Message) {
    exists n: nat, now: int :: AnsweredAt(t, asked, url, m, n, now)
  }

  ghost predicate AnsweredAt(t: RateLimitTransport, asked: seq<string>, url: string, m: Message, n: nat, now: int) {
    var (out, made, _) := t.Trip(url, now, n);
    out == Reply(m, true) && AskedFrom(asked, url, n, made)
  }

  lemma GaveStays(t: RateLimitTransport, asked: seq<string>, more: seq<string>, url: string, m: Message)
    requires Gave(t, asked, url, m) && asked <= more
    ensures Gave(t, more, url, m)
  {
    hide RoundTripOf;
    var n: nat, now: int :| AnsweredAt(t, asked, url, m, n, now);
    assert AnsweredAt(t, more, url, m, n, now);
  }

  lemma NewSource(t: RateLimitTransport, before: seq<string>, url: string, now: int, m: Message)
    requires t.Trip(url, now, |before|).0 == Reply(m, true)
    requires |before| + t.Trip(url, now, |before|).1 <= |t.wrapped.asked|
    requires AskedFrom(t.wrapped.asked, url, |before|, t.Trip(url, now, |before|).1)
    ensures Gave(t, t.wrapped.asked, url, m)
  {
    assert AnsweredAt(t, t.wrapped.asked, url, m, |before|, now);
  }

  class CachingTransport {
    const wrapped: RateLimitTransport
    var cache: map<string, CachedResponse>
    var hits: nat
    var misses: nat

    ghost function Headers(): set<Header> reads this {
      set url | url in cache :: cache[url].header
    }

    /** Every entry holds what some round trip for its URL was answered with. */
    ghost predicate Sourced(asked: seq<string>) reads this {
      forall url :: url in cache ==> Gave(wrapped, asked, url, cache[url].source)
    }

    ghost predicate Valid() reads this, wrapped.wrapped, Headers() {
      && (forall url :: url in cache ==> cache[url].Faithful())
      && Sourced(wrapped.wrapped.asked)
      && |cache| == misses
    }

    constructor (wrapped: RateLimitTransport)
      ensures Valid() && this.wrapped == wrapped && cache == map[] && hits == misses == 0
    {
      this.wrapped, cache, hits, misses := wrapped, map[], 0, 0;
    }

    /** A cached URL is answered from the cache: no call is made and nothing is slept. Any other request
        is one round trip on the wrapped transport, and to a GET its complete answer is cached, whatever
        its status. Entries stay as they are, and the header handed out is never one the cache keeps. */
    method RoundTrip(isGet: bool, url: string, now: int) returns (answer: Answer)
      requires Valid()
      modifies this, wrapped, wrapped.wrapped
      ensures Valid()
      ensures forall u :: u in old(cache) ==> u in cache && cache[u] == old(cache)[u]
      ensures cache.Keys == old(cache).Keys + if isGet && answer.Got? then {url} else {}
      ensures answer.Got? ==> fresh(answer.resp.header) && answer.resp.header !in Headers()
      ensures isGet && answer.Got? ==> Says(answer.resp, cache[url].source)
      ensures hits == old(hits) + if isGet && url in old(cache) then 1 else 0
      ensures misses == old(misses) + if isGet && url !in old(cache) && answer.Got? then 1 else 0
      ensures if isGet && url in old(cache) then
                answer.Got? && wrapped.wrapped.asked == old(wrapped.wrapped.asked) && wrapped.slept == old(wrapped.slept)
              else
                var out := wrapped.Trip(url, now, |old(wrapped.wrapped.asked)|).0;
                && wrapped.Ran(old(wrapped.wrapped.asked), old(wrapped.slept), url, now)
                && (answer.Got? <==> out.Reply? && (isGet ==> out.intact))
                && (answer.Got? ==> Says(answer.resp, out.msg) && (isGet ==> cache[url].source == out.msg))
    {
      hide HeaderOf, Gave, RoundTripOf, Says, RateLimitTransport.Ran;
      if !isGet {
        answer := PassThrough(url, now);
      } else if url in cache {
        hits := hits + 1;
        var resp := ServeHit(cache[url]);
        answer := Got(resp);
      } else {
        answer := Fetch(url, now);
      }
    }

    method ServeHit(cached: CachedResponse) returns (resp: Response)
      requires cached.Faithful()
      ensures fresh(resp.header) && Says(resp, cached.source)
    {
      resp := cached.ToResponse();
    }

    method PassThrough(url: string, now: int) returns (answer: Answer)
      requires Valid()
      modifies wrapped, wrapped.wrapped
      ensures Valid()
      ensures wrapped.Ran(old(wrapped.wrapped.asked), old(wrapped.slept), url, now)
      ensures var out := wrapped.Trip(url, now, |old(wrapped.wrapped.asked)|).0;
              && (answer.Got? <==> out.Reply?)
              && (answer.Got? ==> fresh(answer.resp.header) && Says(answer.resp, out.msg))
    {
      hide HeaderOf, RoundTripOf, Gave;
      ghost var before := wrapped.wrapped.asked;
      var out := wrapped.RoundTrip(url, now);
      SourcesStay(before, wrapped.wrapped.asked);
      if out.Error? {
        return Failed(out.reason);
      }
      hide RateLimitTransport.Ran;
      var resp := MakeResponse(out.msg);
      answer := Got(resp);
    }

    lemma SourcesStay(asked: seq<string>, more: seq<string>)
      requires Sourced(asked) && asked <= more
      ensures Sourced(more)
    {
      hide Gave;
      forall url | url in cache ensures Gave(wrapped, more, url, cache[url].source) {
        GaveStays(wrapped, asked, more, url, cache[url].source);
      }
    }

    method Fetch(url: string, now: int) returns (answer: Answer)
      requires Valid() && url !in cache
      modifies this, wrapped, wrapped.wrapped
      ensures Valid() && hits == old(hits)
      ensures wrapped.Ran(old(wrapped.wrapped.asked), old(wrapped.slept), url, now)
      ensures var out := wrapped.Trip(url, now, |old(wrapped.wrapped.asked)|).0;
              && (answer.Got? <==> out.Reply? && out.intact)
              && (answer.Got? ==>
                    && url in cache && cache == old(cache)[url := cache[url]] && misses == old(misses) + 1
                    && cache[url].source == out.msg && Says(answer.resp, out.msg)
                    && fresh(answer.resp.header) && answer.resp.header !in Headers())
              && (answer.Failed? ==>
                    && cache == old(cache) && misses == old(misses)
                    && answer.reason == if out.Error? then out.reason else UnreadableBody)
    {
      hide HeaderOf, RoundTripOf, Gave, Says;
      ghost var before := wrapped.wrapped.asked;
      var out := wrapped.RoundTrip(url, now);
      SourcesStay(before, wrapped.wrapped.asked);
      if out.Error? {
        return Failed(out.reason);
      }
      if !out.intact {
        return Failed(UnreadableBody);
      }
      NewSource(wrapped, before, url, now, out.msg);
      hide RateLimitTransport.Ran;
      var resp := MakeResponse(out.msg);
      Store(url, resp, out.msg);
      answer := Got(resp);
    }

    method MakeResponse(m: Message) returns (resp: Response)
      ensures fresh(resp.header) && Says(resp, m)
    {
      var header := new Header(HeaderOf(m));
      resp := Response(m.status, header, m.body);
    }

    /** Keeps a copy of a response under its URL and counts the network call. */
    method Store(url: string, resp: Response, ghost m: Message)
      requires Valid() && url !in cache && resp.header !in Headers() && Says(resp, m)
      requires Gave(wrapped, wrapped.wrapped.asked, url, m)
      modifies this
      ensures Valid() && hits == old(hits) && misses == old(misses) + 1
      ensures url in cache && cache == old(cache)[url := cache[url]] && cache[url].source == m
      ensures resp.header !in Headers() && Says(resp, m)
    {
      hide HeaderOf, Gave, Says;
      var kept := resp.header.Clone();
      var entry := new CachedResponse(resp.status, kept, resp.body, m);
      CopySays(resp, kept, m);
      assert entry.Faithful();
      hide CachedResponse.Faithful;
      cache := cache[url := entry];
      misses := misses + 1;
    }

    lemma CopySays(resp: Response, kept: Header, m: Message)
      requires Says(resp, m) && kept.fields == resp.header.fields
      ensures Says(Response(resp.status, kept, resp.body), m)
    {
    }

    /** In sequential use the number of cached URLs is the number of network calls that succeeded. */
    method Stats() returns (n: nat)
      requires Valid()
      ensures n == |cache| == misses
    {
      n := |cache|;
    }
  }

  /** A caller that overwrites the header of its response does not change what a later request for
      the same URL is given. */
  method MutationStaysPrivate(t: CachingTransport, url: string, now: int, scribble: map<string, string>, later: int)
    returns (first: Answer, second: Answer)
    requires t.Valid()
    modifies t, t.wrapped, t.wrapped.wrapped
    ensures t.Valid()
    ensures first.Got? ==> second.Got? && url in t.cache && first.resp.header.fields == scribble
                           && Says(second.resp, t.cache[url].source)
  {
    hide HeaderOf, Gave, Says, CachingTransport.Valid;
    first := t.RoundTrip(true, url, now);
    second := first;
    if first.Got? {
      first.resp.header.fields := scribble;
      second := t.RoundTrip(true, url, later);
    }
  }

  /** What a GET through both transports costs at most, and when it leaves a rate-limit 403 in the cache:
      exactly when the first answer is a rate limit with an acceptable wait and the second is one too. */
  method RateLimitIsCachedExactlyWhen(t: CachingTransport, url: string, now: int) returns (answer: Answer)
    requires t.Valid() && url !in t.cache
    modifies t, t.wrapped, t.wrapped.wrapped
    ensures t.Valid()
    ensures |old(t.wrapped.wrapped.asked)| < |t.wrapped.wrapped.asked| <= |old(t.wrapped.wrapped.asked)| + 2
    ensures t.wrapped.slept <= old(t.wrapped.slept) + EffectiveMaxWait(t.wrapped.maxWait)
    ensures var n := |old(t.wrapped.wrapped.asked)|;
            var first, second := t.wrapped.wrapped.answers(url, n), t.wrapped.wrapped.answers(url, n + 1);
            url in t.cache && t.cache[url].source.RateLimited() <==>
            Limited(first) && WaitAccepted(t.wrapped.maxWait, now, first.msg) && Limited(second)
  {
    hide HeaderOf, Gave, Says, CachingTransport.Valid, RoundTripOf, WaitAccepted;
    ghost var n := |t.wrapped.wrapped.asked|;
    RoundTripIsBounded(t.wrapped.maxWait, now, t.wrapped.wrapped.answers(url, n), t.wrapped.wrapped.answers(url, n + 1));
    answer := t.RoundTrip(true, url, now);
  }

  /** So a rate-limit 403 in the cache is the second of two calls that were made for its URL, one right
      after the other, and both were rate-limited. */
  lemma CachedRateLimitWasTwice(t: CachingTransport, url: string)
    requires t.Valid() && url in t.cache && t.cache[url].source.RateLimited()
    ensures exists n: nat, now: int :: LimitedTwice(t, url, n, now)
  {
    hide ParseRetryWait;
    var m, asked := t.cache[url].source, t.wrapped.wrapped.asked;
    assert Gave(t.wrapped, asked, url, m);
    var n: nat, now: int :| AnsweredAt(t.wrapped, asked, url, m, n, now);
    RoundTripIsBounded(t.wrapped.maxWait, now, t.wrapped.wrapped.answers(url, n), t.wrapped.wrapped.answers(url, n + 1));
    assert LimitedTwice(t, url, n, now);
  }

  ghost predicate LimitedTwice(t: CachingTransport, url: string, n: nat, now: int)
    requires url in t.cache
    reads t, t.wrapped.wrapped, t.cache[url]
  {
    var first, second := t.wrapped.wrapped.answers(url, n), t.wrapped.wrapped.answers(url, n + 1);
    && AskedFrom(t.wrapped.wrapped.asked, url, n, 2)
    && Limited(first) && WaitAccepted(t.wrapped.maxWait, now, first.msg)
    && Limited(second) && second.msg == t.cache[url].source
  }

  const BUSY := Message(403, "0", "", "", true)

  lemma BusyAgain()
    ensures RoundTripOf(0, 0, Reply(BUSY, true), Reply(BUSY, true)) == (Reply(BUSY, true), 2, 0)
  {
    assert Digits("0") == Some(0);
    assert ParseRetryWait(BUSY, 0) == Some(0);
  }

  /** A concrete case: an origin that asks to retry at once, twice. The second 403 is cached, and the next
      request is answered with it although the origin would answer by then. */
  method BusyTwice(url: string) returns (t: CachingTransport, first: Answer, second: Answer)
    ensures t.Valid() && t.wrapped.wrapped.asked == [url, url]
    ensures url in t.cache && t.cache[url].source == BUSY
    ensures first.Got? && second.Got? && first.resp.status == second.resp.status == 403
    ensures t.wrapped.wrapped.answers(url, 2) == Reply(Message(200, "", "", "", false), true)
  {
    var wire := new Wire((u, n) => Reply(if n < 2 then BUSY else Message(200, "", "", "", false), true));
    var limiter := new RateLimitTransport(wire, 0);
    t := new CachingTransport(limiter);
    hide CachingTransport.Valid, HeaderOf, Gave, RoundTripOf;
    BusyAgain();
    first := t.RoundTrip(true, url, 0);
    second := t.RoundTrip(true, url, 0);
  }

  /** With an origin that always gives one answer per URL, a cached answer is the uncached one. */
  lemma StableOriginCachesFaithfully(t: CachingTransport, url: string)
    requires t.Valid() && url in t.cache
    requires forall n: nat :: t.wrapped.wrapped.answers(url, n) == t.wrapped.wrapped.answers(url, 0)
    ensures t.wrapped.wrapped.answers(url, 0) == Reply(t.cache[url].source, true)
  {
    var m, asked := t.cache[url].source, t.wrapped.wrapped.asked;
    assert Gave(t.wrapped, asked, url, m);
    var n: nat, now: int :| AnsweredAt(t.wrapped, asked, url, m, n, now);
  }
}
