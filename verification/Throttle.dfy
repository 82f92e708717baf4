/** Slot reservation of the throttling transport, and its whole-run timing. */
module Throttle {

  /** The n-th lock section read the clock at nows[n] and reserved slots[n]. `base` is the initial
      value of `last`, the zero time. */
  datatype History = History(base: int, interval: int, nows: seq<int>, slots: seq<int>)

  function Max(a: int, b: int): int {
    if a < b then b else a
  }

  function Last(h: History): int {
    if h.slots == [] then h.base else h.slots[|h.slots| - 1]
  }

  /** The value of `last` that the i-th lock section finds. */
  function Previous(h: History, i: nat): int
    requires i <= |h.slots|
  {
    if i == 0 then h.base else h.slots[i - 1]
  }

  /** Lock sections follow one another, so the clock does not run backwards between them, and every
      slot is the later of the clock and the previous slot plus the interval. The zero time lies
      further back than any interval. */
  ghost predicate Paced(h: History) {
    && h.interval > 0
    && |h.nows| == |h.slots|
    && (forall i :: 0 <= i < |h.nows| ==> h.nows[i] >= h.base + h.interval)
    && (forall i, j :: 0 <= i < j < |h.nows| ==> h.nows[i] <= h.nows[j])
    && (forall i {:trigger Previous(h, i)} :: 0 <= i < |h.slots| ==>
          h.slots[i] == Max(h.nows[i], Previous(h, i) + h.interval))
  }

  class ThrottleTransport {
    const minInterval: int
    var last: int
    ghost var history: History

    ghost predicate Valid() reads this {
      && history.interval == minInterval
      && (minInterval > 0 ==> Paced(history))
      && last == Last(history)
    }

    constructor (minInterval: int, zeroTime: int)
      ensures Valid() && this.minInterval == minInterval
      ensures history == History(zeroTime, minInterval, [], [])
    {
      this.minInterval, last, history := minInterval, zeroTime, History(zeroTime, minInterval, [], []);
    }

    /** The lock section of RoundTrip: it reserves a slot and says how long to sleep after it. */
    method Reserve(now: int) returns (wait: int)
      requires Valid()
      requires now >= history.base + minInterval
      requires forall t :: t in history.nows ==> t <= now
      modifies this
      ensures Valid()
      ensures minInterval <= 0 ==> wait == 0 && history == old(history)
      ensures minInterval > 0 ==>
                && history == old(history).(nows := old(history).nows + [now], slots := old(history).slots + [now + wait])
                && wait == Max(0, old(last) + minInterval - now)
    {
      wait := 0;
      if minInterval > 0 {
        var nextAllowed := last + minInterval;
        if now < nextAllowed {
          wait := nextAllowed - now;
          last := nextAllowed;
        } else {
          last := now;
        }
        Pace(history, now);
        history := history.(nows := history.nows + [now], slots := history.slots + [last]);
      }
    }
  }

  lemma Pace(h: History, now: int)
    requires Paced(h) && now >= h.base + h.interval
    requires forall t :: t in h.nows ==> t <= now
    ensures Paced(h.(nows := h.nows + [now], slots := h.slots + [Max(now, Last(h) + h.interval)]))
  {
    var after := h.(nows := h.nows + [now], slots := h.slots + [Max(now, Last(h) + h.interval)]);
    var n := |h.nows|;
    forall i, j | 0 <= i < j < |after.nows| ensures after.nows[i] <= after.nows[j] {
      if j == n {
        assert h.nows[i] in h.nows;
      }
    }
    forall i | 0 <= i < |after.slots|
      ensures after.slots[i] == Max(after.nows[i], Previous(after, i) + h.interval)
    {
      assert Previous(after, i) == Previous(h, i);
    }
  }

  // ---- Whole runs ----

  /** Slots are at least an interval apart. */
  lemma {:induction false} SlotsSpread(h: History, i: nat, j: nat)
    requires Paced(h) && i <= j < |h.slots|
    ensures h.slots[j] >= h.slots[i] + (j - i) * h.interval
    decreases j
  {
    if i < j {
      SlotsSpread(h, i, j - 1);
      assert Previous(h, j) == h.slots[j - 1];
      assert (j - i) * h.interval == (j - 1 - i) * h.interval + h.interval;
    }
  }

  /** The callers whose request is dispatched by time t; dispatch[i] is when caller i wakes up and sends. */
  ghost function DispatchedBy(h: History, dispatch: seq<int>, t: int): set<nat>
    requires |dispatch| == |h.slots|
  {
    set i: nat | i < |dispatch| && dispatch[i] <= t
  }

  lemma {:induction false} NaturalsBelow(s: set<nat>, n: nat)
    requires forall i :: i in s ==> i < n
    ensures |s| <= n
  {
    if n == 0 {
      assert s == {};
    } else {
      NaturalsBelow(s - {n - 1}, n - 1);
    }
  }

  /** However callers interleave and however long they oversleep, by time t at most
      1 + (t - first slot) / interval requests have been dispatched. */
  lemma RateIsBounded(h: History, dispatch: seq<int>, t: int)
    requires Paced(h) && |dispatch| == |h.slots|
    requires forall i :: 0 <= i < |dispatch| ==> dispatch[i] >= h.slots[i]
    ensures DispatchedBy(h, dispatch, t) != {} ==>
              |h.slots| > 0 && t >= h.slots[0] && |DispatchedBy(h, dispatch, t)| <= 1 + (t - h.slots[0]) / h.interval
  {
    var sent := DispatchedBy(h, dispatch, t);
    if sent != {} {
      var some :| some in sent;
      SlotsSpread(h, 0, some);
      assert some * h.interval >= 0;
      var bound := (t - h.slots[0]) / h.interval;
      forall i | i in sent ensures i < bound + 1 {
        SlotsSpread(h, 0, i);
        QuotientBound(i, h.interval, t - h.slots[0]);
      }
      NaturalsBelow(sent, bound + 1);
    }
  }

  lemma QuotientBound(i: nat, d: int, n: int)
    requires d > 0 && n >= 0
    ensures i > n / d ==> i * d > n
  {
    var q := n / d;
    assert n < q * d + d;
    if i > q {
      TimesGrows(q + 1, i, d);
      assert (q + 1) * d == q * d + d;
    }
  }

  lemma TimesGrows(a: int, b: int, d: int)
    requires a <= b && d > 0
    ensures a * d <= b * d
  {
    assert (b - a) * d >= 0;
    assert b * d == a * d + (b - a) * d;
  }

  /** The earlier slots that lie later than one interval before caller i's clock reading. */
  ghost function Recent(h: History, i: nat): set<nat>
    requires i < |h.slots| && |h.nows| == |h.slots|
  {
    set k: nat | k < i && h.slots[k] > h.nows[i] - h.interval
  }

  /** Slot k + n lies at most n intervals after the clock reading of a later caller, if slot k is
      not after that reading. */
  lemma {:induction false} ChainStaysClose(h: History, k: nat, n: nat, i: nat)
    requires Paced(h) && k + n < i < |h.slots|
    requires h.slots[k] <= h.nows[i]
    ensures h.slots[k + n] <= h.nows[i] + n * h.interval
    decreases n
  {
    if n > 0 {
      ChainStaysClose(h, k, n - 1, i);
      assert Previous(h, k + n) == h.slots[k + n - 1];
      assert n * h.interval == (n - 1) * h.interval + h.interval;
      assert h.nows[k + n] <= h.nows[i];
      assert n * h.interval >= 0;
    }
  }

  lemma {:induction false} FirstRecent(h: History, i: nat, hi: nat) returns (k: nat)
    requires Paced(h) && i < |h.slots|
    requires hi < i && h.slots[hi] > h.nows[i] - h.interval
    ensures k <= hi && h.slots[k] > h.nows[i] - h.interval
    ensures k == 0 || h.slots[k - 1] <= h.nows[i] - h.interval
  {
    k := hi;
    if hi > 0 && h.slots[hi - 1] > h.nows[i] - h.interval {
      k := FirstRecent(h, i, hi - 1);
    }
  }

  lemma {:induction false} IntervalCount(s: set<nat>, k: nat, n: nat)
    requires forall x :: x in s <==> k <= x < n
    requires k <= n
    ensures |s| == n - k
    decreases n - k
  {
    if k == n {
      assert s == {};
    } else {
      IntervalCount(s - {k}, k + 1, n);
    }
  }

  lemma RecentFrom(h: History, i: nat, k: nat, x: nat)
    requires Paced(h) && k < i < |h.slots|
    requires h.slots[k] > h.nows[i] - h.interval
    requires k == 0 || h.slots[k - 1] <= h.nows[i] - h.interval
    ensures x in Recent(h, i) <==> k <= x < i
  {
    if k <= x < i {
      SlotsSpread(h, k, x);
      assert (x - k) * h.interval >= 0;
    } else if x < k {
      SlotsSpread(h, x, k - 1);
      assert (k - 1 - x) * h.interval >= 0;
    }
  }

  lemma RecentIsRange(h: History, i: nat, k: nat)
    requires Paced(h) && k < i < |h.slots|
    requires h.slots[k] > h.nows[i] - h.interval
    requires k == 0 || h.slots[k - 1] <= h.nows[i] - h.interval
    ensures |Recent(h, i)| == i - k
  {
    forall x: nat ensures x in Recent(h, i) <==> k <= x < i {
      RecentFrom(h, i, k, x);
    }
    hide Recent, Paced;
    IntervalCount(Recent(h, i), k, i);
  }

  lemma FirstRecentIsPast(h: History, i: nat, k: nat)
    requires Paced(h) && k < i < |h.slots|
    requires k == 0 || h.slots[k - 1] <= h.nows[i] - h.interval
    ensures h.slots[k] <= h.nows[i]
  {
    assert h.nows[0] >= h.base + h.interval;
    assert h.nows[k] <= h.nows[i];
    assert h.slots[k] == Max(h.nows[k], Previous(h, k) + h.interval);
  }

  /** No caller waits longer than one interval for each earlier slot that lies later than one
      interval before its clock reading. */
  lemma WaitIsBounded(h: History, i: nat)
    requires Paced(h) && i < |h.slots|
    ensures 0 <= h.slots[i] - h.nows[i] <= h.interval * |Recent(h, i)|
  {
    hide Recent;
    var now := h.nows[i];
    assert h.slots[i] == Max(now, Previous(h, i) + h.interval);
    assert h.interval * |Recent(h, i)| >= 0;
    if i > 0 && h.slots[i - 1] > now - h.interval {
      var k := FirstRecent(h, i, i - 1);
      FirstRecentIsPast(h, i, k);
      ChainStaysClose(h, k, i - 1 - k, i);
      RecentIsRange(h, i, k);
      assert (i - 1 - k) * h.interval + h.interval == h.interval * (i - k);
    } else {
      assert h.nows[i] >= h.base + h.interval;
    }
  }
}
