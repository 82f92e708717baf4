/** Why the retry tail has a client of its own: what a retried GET is answered with. */
module RetryClient {
  import opened RateLimit
  import opened HttpCache

  /** The answer is an origin's answer to one of the calls from n on, or an error of the transport. */
  ghost predicate FromOrigin(w: Wire, url: string, n: nat, out: Outcome) {
    out.Reply? ==> out == w.answers(url, n) || out == w.answers(url, n + 1)
  }

  /** Through the sweep's caching client a retry replays the first pass's answer, whatever its status. */
  method RetryThroughCache(t: CachingTransport, url: string, now: int, later: int) returns (first: Answer, second: Answer)
    requires t.Valid()
    modifies t, t.wrapped, t.wrapped.wrapped
    ensures t.Valid()
    ensures first.Got? ==> second.Got? && second.resp.status == first.resp.status && second.resp.body == first.resp.body
    ensures first.Got? && url in old(t.cache) ==> t.wrapped.wrapped.asked == old(t.wrapped.wrapped.asked)
  {
    hide HeaderOf, Gave, CachingTransport.Valid, RoundTripOf;
    first := FirstPass(t, url, now);
    second := first;
    if first.Got? {
      second := t.RoundTrip(true, url, later);
    }
  }

  method FirstPass(t: CachingTransport, url: string, now: int) returns (answer: Answer)
    requires t.Valid()
    modifies t, t.wrapped, t.wrapped.wrapped
    ensures t.Valid()
    ensures answer.Got? ==> url in t.cache && Says(answer.resp, t.cache[url].source) && fresh(answer.resp.header)
    ensures url in old(t.cache) ==> t.wrapped.wrapped.asked == old(t.wrapped.wrapped.asked)
  {
    hide HeaderOf, Gave, CachingTransport.Valid, RoundTripOf, Says;
    answer := t.RoundTrip(true, url, now);
  }

  /** Through the tail's own client the answer comes from the origin, on at least one new call, and
      the sweep's cache is neither read nor written. */
  method RetryThroughTail(t: CachingTransport, tail: RateLimitTransport, url: string, now: int, later: int)
    returns (first: Answer, second: Outcome)
    requires t.Valid() && tail != t.wrapped && tail.wrapped != t.wrapped.wrapped
    modifies t, t.wrapped, t.wrapped.wrapped, tail, tail.wrapped
    ensures FromOrigin(tail.wrapped, url, |old(tail.wrapped.asked)|, second)
    ensures |old(tail.wrapped.asked)| < |tail.wrapped.asked| <= |old(tail.wrapped.asked)| + 2
    ensures first.Got? ==> url in t.cache
    ensures t.misses + t.hits <= old(t.misses + t.hits) + 1
  {
    hide HeaderOf, Gave, CachingTransport.Valid, Says;
    first := t.RoundTrip(true, url, now);
    second := tail.RoundTrip(url, later);
  }
}
