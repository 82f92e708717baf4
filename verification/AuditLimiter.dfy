/** The per-repo rate limiter of the audit endpoint. */
module AuditLimiter {

  /** The entries of h later than cutoff. */
  function After(h: seq<int>, cutoff: int): seq<int> {
    if h == [] then []
    else
      var rest, t := After(h[..|h| - 1], cutoff), h[|h| - 1];
      if t > cutoff then rest + [t] else rest
  }

  /** How many entries of h lie in the window that ends at x. */
  function InWindow(h: seq<int>, window: int, x: int): nat {
    if h == [] then 0
    else
      var t := h[|h| - 1];
      InWindow(h[..|h| - 1], window, x) + if x - window < t <= x then 1 else 0
  }

  function Of(m: map<string, seq<int>>, repo: string): seq<int> {
    if repo in m then m[repo] else []
  }

  ghost predicate Ordered(h: seq<int>) {
    forall i, j :: 0 <= i < j < |h| ==> h[i] <= h[j]
  }

  ghost predicate UpTo(h: seq<int>, now: int) {
    forall i :: 0 <= i < |h| ==> h[i] <= now
  }

  /** Every entry found fewer than limit entries in the window that ended with it. */
  ghost predicate EachFitted(h: seq<int>, limit: int, window: int) {
    forall j :: 0 <= j < |h| ==> InWindow(h[..j], window, h[j]) < limit
  }

  class AuditRateLimiter {
    var requests: map<string, seq<int>>
    const limit: int
    const window: int
    /** The accepted requests of each repo since the start, and the latest clock reading. */
    ghost var accepted: map<string, seq<int>>
    ghost var clock: int

    ghost predicate Valid() reads this {
      forall repo :: Fits(Of(requests, repo), Of(accepted, repo), clock)
    }

    /** stored is what is left of h after pruning at some time up to now. */
    ghost predicate Fits(stored: seq<int>, h: seq<int>, now: int) {
      && Ordered(h)
      && UpTo(h, now)
      && EachFitted(h, limit, window)
      && After(stored, now - window) == After(h, now - window)
    }

    constructor (limit: int, window: int, ghost now: int)
      ensures Valid() && accepted == map[] && clock == now
      ensures this.limit == limit && this.window == window
    {
      this.limit, this.window := limit, window;
      requests, accepted, clock := map[], map[], now;
    }

    /** A request is let through exactly if fewer than limit accepted ones of its repo lie in the
        window that ends now; no other repo is affected. */
    method Allow(repo: string, now: int) returns (allowed: bool)
      requires Valid() && now >= clock
      modifies this
      ensures Valid() && clock == now
      ensures allowed <==> InWindow(Of(old(accepted), repo), window, now) < limit
      ensures accepted == if allowed then old(accepted)[repo := Of(old(accepted), repo) + [now]] else old(accepted)
      ensures forall other :: other != repo ==> Of(requests, other) == Of(old(requests), other)
    {
      hide Fits, InWindow;
      ghost var h := Of(accepted, repo);
      var cutoff := now - window;
      var stored, valid := Of(requests, repo), [];
      for i := 0 to |stored|
        invariant valid == After(stored[..i], cutoff)
      {
        assert stored[..i + 1][..i] == stored[..i];
        if stored[i] > cutoff {
          valid := valid + [stored[i]];
        }
      }
      assert stored[..|stored|] == stored;
      AdvanceClock(now);
      Pruned(stored, h, now);
      clock := now;
      ghost var requests0, accepted0 := requests, accepted;
      assert forall r :: Fits(Of(requests0, r), Of(accepted0, r), now);
      if |valid| >= limit {
        requests := requests[repo := valid];
        forall r ensures Fits(Of(requests, r), Of(accepted, r), now) {
          assert r != repo ==> Fits(Of(requests0, r), Of(accepted0, r), now);
        }
        return false;
      }
      if |valid| == 0 {
        requests := requests - {repo};
      }
      requests := requests[repo := valid + [now]];
      Accepted(valid, h, now);
      accepted := accepted[repo := h + [now]];
      forall r ensures Fits(Of(requests, r), Of(accepted, r), now) {
        assert r != repo ==> Fits(Of(requests0, r), Of(accepted0, r), now);
      }
      allowed := true;
    }

    lemma AdvanceClock(now: int)
      requires Valid() && now >= clock
      ensures forall repo :: Fits(Of(requests, repo), Of(accepted, repo), now)
    {
      forall repo ensures Fits(Of(requests, repo), Of(accepted, repo), now) {
        assert Fits(Of(requests, repo), Of(accepted, repo), clock);
        PruningIsHarmless(Of(requests, repo), Of(accepted, repo), clock - window, now - window);
      }
    }

    /** Pruning leaves as many entries as the window that ends now holds accepted requests. */
    lemma Pruned(stored: seq<int>, h: seq<int>, now: int)
      requires Fits(stored, h, now)
      ensures Fits(After(stored, now - window), h, now)
      ensures |After(stored, now - window)| == InWindow(h, window, now)
    {
      AfterAfter(stored, now - window, now - window);
      CountIsLength(h, window, now);
    }

    lemma Accepted(valid: seq<int>, h: seq<int>, now: int)
      requires Fits(valid, h, now) && InWindow(h, window, now) < limit
      ensures Fits(valid + [now], h + [now], now)
    {
      hide After, InWindow, EachFitted, Ordered;
      AddedEntry(valid, now, now - window);
      AddedEntry(h, now, now - window);
      FittedOneMore(h, limit, window, now);
    }
  }

  lemma {:induction false} AfterAfter(h: seq<int>, c: int, d: int)
    requires c <= d
    ensures After(After(h, c), d) == After(h, d)
  {
    if h != [] {
      var rest, t := h[..|h| - 1], h[|h| - 1];
      AfterAfter(rest, c, d);
      if t > c {
        AddedEntry(After(rest, c), t, d);
      }
    }
  }

  lemma AddedEntry(h: seq<int>, t: int, cutoff: int)
    ensures After(h + [t], cutoff) == if t > cutoff then After(h, cutoff) + [t] else After(h, cutoff)
  {
    assert (h + [t])[..|h|] == h;
  }

  /** Dropping entries before an earlier cutoff does not change what a later cutoff leaves. */
  lemma PruningIsHarmless(stored: seq<int>, h: seq<int>, c: int, d: int)
    requires c <= d && After(stored, c) == After(h, c)
    ensures After(stored, d) == After(h, d)
  {
    AfterAfter(stored, c, d);
    AfterAfter(h, c, d);
  }

  lemma {:induction false} CountIsLength(h: seq<int>, window: int, x: int)
    requires UpTo(h, x)
    ensures InWindow(h, window, x) == |After(h, x - window)|
  {
    if h != [] {
      CountIsLength(h[..|h| - 1], window, x);
    }
  }

  lemma FittedOneMore(h: seq<int>, limit: int, window: int, now: int)
    requires Ordered(h) && EachFitted(h, limit, window) && UpTo(h, now)
    requires InWindow(h, window, now) < limit
    ensures Ordered(h + [now]) && EachFitted(h + [now], limit, window)
  {
    hide InWindow;
    var after := h + [now];
    forall j | 0 <= j < |after| ensures InWindow(after[..j], window, after[j]) < limit {
      assert after[..j] == h[..j];
      if j == |h| {
        assert h[..j] == h;
      }
    }
  }

  /** The count is of the entries later than one window ago and not later than now. */
  lemma {:induction false} WindowExactly(h: seq<int>, window: int, now: int)
    ensures InWindow(h, window, now) == |set i | 0 <= i < |h| && now - window < h[i] <= now|
  {
    var all := set i | 0 <= i < |h| && now - window < h[i] <= now;
    if h == [] {
      assert all == {};
    } else {
      var last := |h| - 1;
      var rest := set i | 0 <= i < |h[..last]| && now - window < h[..last][i] <= now;
      WindowExactly(h[..last], window, now);
      assert all == rest + if now - window < h[last] <= now then {last} else {};
    }
  }

  /** The sliding window law: at no instant x do more than limit accepted requests of a repo lie in
      the window that ends at x. */
  lemma {:induction false} WindowNeverOverfull(h: seq<int>, limit: int, window: int, x: int)
    requires Ordered(h) && EachFitted(h, limit, window)
    ensures InWindow(h, window, x) <= if limit > 0 then limit else 0
  {
    if h != [] {
      var rest, t := h[..|h| - 1], h[|h| - 1];
      assert forall j :: 0 <= j < |rest| ==> rest[..j] == h[..j];
      if t > x {
        WindowNeverOverfull(rest, limit, window, x);
      } else {
        LaterWindowHoldsLess(rest, window, t, x);
        assert InWindow(rest, window, t) < limit;
        if x - window >= t {
          WindowNeverOverfull(rest, limit, window, x);
        }
      }
    }
  }

  lemma {:induction false} LaterWindowHoldsLess(h: seq<int>, window: int, x: int, y: int)
    requires x <= y && UpTo(h, x)
    ensures InWindow(h, window, y) <= InWindow(h, window, x)
  {
    if h != [] {
      LaterWindowHoldsLess(h[..|h| - 1], window, x, y);
    }
  }

  /** A rejection finds exactly limit accepted requests in the window, for a positive limit. */
  lemma RejectedExactlyAtLimit(h: seq<int>, limit: int, window: int, now: int)
    requires Ordered(h) && EachFitted(h, limit, window) && limit >= 0
    ensures InWindow(h, window, now) >= limit <==> InWindow(h, window, now) == limit
  {
    WindowNeverOverfull(h, limit, window, now);
  }
}
