/** Reconciliation without a bound on the open issues: what one page of them leaves undone. */
module C4Overflow {
  import opened IssueTitles
  import opened IssueTracker
  import opened C4Routing
  import opened C4Convergence

  // ---- Closing moves the later entries up ----

  /** The list without the k-th open issue's entry. */
  ghost predicate LosesOnly(issues: seq<Issue>, n: nat, k: nat)
    requires n < |issues|
  {
    var all := OpenListed(issues);
    k < |all| && OpenListed(issues[n := issues[n].(open := false)]) == all[..k] + all[k + 1..]
  }

  lemma {:induction false} ClosedLeavesList(issues: seq<Issue>, k: nat)
    requires k < |OpenListed(issues)| && OpenListed(issues)[k].number < |issues|
    ensures LosesOnly(issues, OpenListed(issues)[k].number, k)
  {
    hide LosesOnly;
    var last := |issues| - 1;
    if issues[last].Tracked() && k == 0 {
      ClosedLast(issues);
    } else {
      var i := if issues[last].Tracked() then k - 1 else k;
      var rest := OpenListed(issues[..last]);
      assert rest[i] == OpenListed(issues)[k];
      ListedExactly(issues[..last], rest[i]);
      ClosedLeavesList(issues[..last], i);
      ClosedBefore(issues, rest[i].number, i);
    }
  }

  lemma ClosedLast(issues: seq<Issue>)
    requires issues != [] && issues[|issues| - 1].Tracked()
    ensures OpenListed(issues)[0].number == |issues| - 1 && LosesOnly(issues, |issues| - 1, 0)
  {
    var last := |issues| - 1;
    assert issues[last := issues[last].(open := false)][..last] == issues[..last];
    assert OpenListed(issues)[1..] == OpenListed(issues[..last]);
  }

  lemma ClosedBefore(issues: seq<Issue>, n: nat, i: nat)
    requires n < |issues| - 1 && LosesOnly(issues[..|issues| - 1], n, i)
    ensures LosesOnly(issues, n, if issues[|issues| - 1].Tracked() then i + 1 else i)
  {
    var last := |issues| - 1;
    var front, after := issues[..last], issues[n := issues[n].(open := false)];
    assert after[..last] == front[n := front[n].(open := false)];
    assert after[last] == issues[last];
    ShiftOne(Listed(last, issues[last].title), OpenListed(front), i);
  }

  lemma ShiftOne(head: Listed, rest: seq<Listed>, i: nat)
    requires i < |rest|
    ensures [head] + (rest[..i] + rest[i + 1..]) == ([head] + rest)[..i + 1] + ([head] + rest)[i + 2..]
  {
  }

  lemma {:induction false} CountListedSum(a: seq<Listed>, b: seq<Listed>, id: string)
    ensures CountListed(a + b, id) == CountListed(a, id) + CountListed(b, id)
  {
    hide IdFromTitle;
    if a == [] {
      assert a + b == b;
    } else {
      CountListedSum(a[1..], b, id);
      assert (a + b)[1..] == a[1..] + b;
    }
  }

  lemma CountListedWithout(page: seq<Listed>, k: nat, id: string)
    requires k < |page|
    ensures CountListed(page[..k] + page[k + 1..], id) ==
      CountListed(page, id) - if IdFromTitle(page[k].title) == id then 1 else 0
  {
    hide IdFromTitle;
    assert page == page[..k] + ([page[k]] + page[k + 1..]);
    CountListedSum(page[..k], [page[k]] + page[k + 1..], id);
    CountListedSum(page[..k], page[k + 1..], id);
    assert ([page[k]] + page[k + 1..])[1..] == page[k + 1..];
  }

  /** After one entry of the page is closed the page has lost at most that entry. */
  lemma PageLosesOne(issues: seq<Issue>, k: nat, id: string)
    requires k < |Page(issues)|
    ensures Page(issues)[k].number < |issues|
    ensures var n := Page(issues)[k].number;
      CountListed(Page(issues[n := issues[n].(open := false)]), id)
        >= CountListed(Page(issues), id) - if IdFromTitle(Page(issues)[k].title) == id then 1 else 0
  {
    hide IdFromTitle, OpenListed, CountListed;
    PageEntry(issues, k);
    var all, page := OpenListed(issues), Page(issues);
    assert page[k] == all[k];
    var n := all[k].number;
    ClosedLeavesList(issues, k);
    assert LosesOnly(issues, n, k);
    var after := Page(issues[n := issues[n].(open := false)]);
    var kept := page[..k] + page[k + 1..];
    KeptIsPrefix(all, page, k, after);
    CountListedSum(kept, after[|kept|..], id);
    assert after == kept + after[|kept|..];
    CountListedWithout(page, k, id);
  }

  lemma KeptIsPrefix(all: seq<Listed>, page: seq<Listed>, k: nat, after: seq<Listed>)
    requires page == FirstPage(all) && k < |page| && after == FirstPage(all[..k] + all[k + 1..])
    ensures page[..k] + page[k + 1..] <= after
  {
  }

  // ---- The close loop ----

  /** Every entry still in the snapshot of an ID that is to be closed is still on the page. */
  ghost predicate OnPage(issues: seq<Issue>, snapshot: seq<Listed>, current: set<string>) {
    forall id :: id !in current ==> CountListed(snapshot, id) <= CountListed(Page(issues), id)
  }

  lemma {:induction false} ListedHas(page: seq<Listed>, id: string)
    requires CountListed(page, id) > 0
    ensures exists e :: e in page && IdFromTitle(e.title) == id
  {
    hide IdFromTitle;
    if IdFromTitle(page[0].title) == id {
      assert page[0] in page;
    } else {
      ListedHas(page[1..], id);
    }
  }

  lemma {:induction false} HasListed(page: seq<Listed>, k: nat)
    requires k < |page|
    ensures CountListed(page, IdFromTitle(page[k].title)) > 0
  {
    hide IdFromTitle;
    if k > 0 { HasListed(page[1..], k - 1); }
  }

  /** An ID with an entry on the page loses exactly one issue to an error-free Close. */
  lemma CloseOnPage(r: Remote, id: string, script: nat -> Fate, c: string)
    requires ErrorFree(script, r.calls) && AllRaised(r.issues) && ColonFree(id)
    requires CountListed(Page(r.issues), id) > 0
    ensures var after := Close(r, id, script);
      && after.calls >= r.calls && AllRaised(after.issues)
      && Count(after.issues, c) == Count(r.issues, c) - (if c == id then 1 else 0)
      && CountListed(Page(after.issues), c) >= CountListed(Page(r.issues), c) - (if c == id then 1 else 0)
  {
    hide IdFromTitle, Prefix, Raised, Count, CountListed;
    var page := Page(r.issues);
    ListedHas(page, id);
    var e :| e in page && IdFromTitle(e.title) == id;
    var j :| 0 <= j < |page| && page[j] == e;
    PageEntry(r.issues, j);
    PrefixFindsItsId(id, e.title);
    FirstMatchFinds(page, e, Prefix(id));
    var k := FirstMatch(page, Prefix(id));
    PageEntry(r.issues, k);
    var n := page[k].number;
    PrefixFindsItsId(id, r.issues[n].title);
    CloseCounts(r.issues, n, c);
    PageLosesOne(r.issues, k, c);
  }

  /** Each snapshot entry of a stale ID closes one issue of that ID; no other count changes. */
  lemma {:induction false} CloseAllOnPage(r: Remote, snapshot: seq<Listed>, current: set<string>, script: nat -> Fate, c: string)
    requires ErrorFree(script, r.calls) && AllRaised(r.issues) && OnPage(r.issues, snapshot, current)
    ensures Count(CloseAll(r, snapshot, current, script).issues, c) ==
      Count(r.issues, c) - if c in current then 0 else CountListed(snapshot, c)
    ensures AllRaised(CloseAll(r, snapshot, current, script).issues)
    decreases |snapshot|
  {
    hide IdFromTitle, Close, Count;
    if snapshot != [] {
      var id := IdFromTitle(snapshot[0].title);
      if id in current {
        assert OnPage(r.issues, snapshot[1..], current);
        CloseAllOnPage(r, snapshot[1..], current, script, c);
      } else {
        IdIsColonFree(snapshot[0].title);
        var next := Close(r, id, script);
        forall x | x !in current ensures CountListed(snapshot[1..], x) <= CountListed(Page(next.issues), x) {
          CloseOnPage(r, id, script, x);
        }
        CloseOnPage(r, id, script, c);
        CloseAllOnPage(next, snapshot[1..], current, script, c);
      }
    }
  }

  lemma IdIsColonFree(title: string)
    ensures ColonFree(IdFromTitle(title))
  {
  }

  lemma {:induction false} MatchingIsFewer(page: seq<Listed>, id: string)
    ensures CountListed(Matching(page), id) <= CountListed(page, id)
  {
    hide IdFromTitle, IsC4;
    if page != [] {
      var rest := Matching(page[1..]);
      MatchingIsFewer(page[1..], id);
      assert Matching(page) == if IsC4(page[0].title) then [page[0]] + rest else rest;
      assert ([page[0]] + rest)[1..] == rest;
    }
  }

  /** An error-free reconciliation closes, of each stale "c4-" ID, exactly the issues on the page. */
  lemma ReconcileClosesThePage(e: Remote, current: set<string>, script: nat -> Fate, c: string)
    requires ErrorFree(script, e.calls) && AllRaised(e.issues) && ID_PREFIX <= c
    ensures Count(Reconcile(e, current, script).issues, c) ==
      Count(e.issues, c) - if c in current then 0 else CountListed(Page(e.issues), c)
    ensures AllRaised(Reconcile(e, current, script).issues)
  {
    hide IdFromTitle, IsC4, CloseAll, Count, CountListed, Matching, Raised;
    var page := Page(e.issues);
    var snapshot := Matching(page);
    forall id ensures CountListed(snapshot, id) <= CountListed(page, id) {
      MatchingIsFewer(page, id);
    }
    forall x | x in page ensures Raised(x.title) {
      var k :| 0 <= k < |page| && page[k] == x;
      PageEntry(e.issues, k);
    }
    SnapshotCounts(page, c);
    CloseAllOnPage(Remote(e.issues, e.calls + 1), snapshot, current, script, c);
  }

  // ---- The whole routing of one repo ----

  lemma EnsureStaysRaised(r: Remote, id: string, script: nat -> Fate)
    requires ErrorFree(script, r.calls) && AllRaised(r.issues)
    ensures var after := Ensure(r, id, script);
      && after.calls >= r.calls && AllRaised(after.issues)
      && Count(after.issues, Cut(id)) > 0
      && forall c :: Count(after.issues, c) >= Count(r.issues, c)
  {
    TitleGivesCut(id, DESCRIPTION);
    var after := Ensure(r, id, script);
    var k := FirstMatch(Page(r.issues), Prefix(id));
    if k < |Page(r.issues)| {
      PageEntry(r.issues, k);
      var n := Page(r.issues)[k].number;
      MatchGivesCut(id, r.issues[n].title);
      CountAtLeast(r.issues, n, Cut(id));
    } else {
      assert after.issues[..|r.issues|] == r.issues;
    }
  }

  lemma {:induction false} EnsureAllRaises(r: Remote, divs: seq<Divergence>, script: nat -> Fate, c: string)
    requires ErrorFree(script, r.calls) && AllRaised(r.issues)
    ensures var after := EnsureAll(r, divs, script);
      && after.calls >= r.calls && AllRaised(after.issues) && Count(after.issues, c) >= Count(r.issues, c)
      && ((exists d :: d in divs && Cut(d.id) == c) ==> Count(after.issues, c) > 0)
    decreases |divs|
  {
    hide Ensure, AllRaised, Count, Cut;
    if divs != [] {
      EnsureStaysRaised(r, divs[0].id, script);
      EnsureAllRaises(Ensure(r, divs[0].id, script), divs[1..], script, c);
    }
  }

  /** Without any bound, after an error-free routing of one repo: a colon-free current ID is open; any
      other "c4-" ID is open exactly if, once the current ones were raised, it had an open issue off the
      page. */
  lemma RouteBeyondOnePage(r: Remote, divs: seq<Divergence>, script: nat -> Fate, c: string)
    requires ErrorFree(script, r.calls) && AllRaised(r.issues) && ID_PREFIX <= c
    ensures var e, after := EnsureAll(r, divs, script).issues, RouteRepo(r, divs, script).issues;
      if c in Ids(divs) then c in OpenC4Ids(after) <==> ColonFree(c)
      else c in OpenC4Ids(after) <==> Count(e, c) > CountListed(Page(e), c)
  {
    hide EnsureAll, Reconcile, Count, CountListed, Cut, ColonFree;
    var e := EnsureAll(r, divs, script);
    EnsureAllRaises(r, divs, script, c);
    ReconcileClosesThePage(e, Ids(divs), script, c);
    var after := RouteRepo(r, divs, script).issues;
    OpenC4IdsByCount(after, c);
    if Count(after, c) > 0 {
      CountedIsColonFree(after, c);
    }
    if c in Ids(divs) && ColonFree(c) {
      CutOfColonFree(c);
      var d :| d in divs && d.id == c;
      assert Cut(d.id) == c;
    }
  }

  /** So the routing converges exactly when no stale "c4-" issue is off the page. */
  lemma ConvergesExactlyWhen(r: Remote, divs: seq<Divergence>, script: nat -> Fate)
    requires ErrorFree(script, r.calls) && AllRaised(r.issues)
    requires forall d :: d in divs ==> ID_PREFIX <= d.id
    ensures var e := EnsureAll(r, divs, script).issues;
      OpenC4Ids(RouteRepo(r, divs, script).issues) == (set c | c in Ids(divs) && ColonFree(c))
      <==> forall c :: ID_PREFIX <= c && c !in Ids(divs) ==> Count(e, c) <= CountListed(Page(e), c)
  {
    hide EnsureAll, RouteRepo, Count, CountListed, ColonFree;
    var after := RouteRepo(r, divs, script).issues;
    EnsureAllRaises(r, divs, script, "");
    ReconcileClosesThePage(EnsureAll(r, divs, script), Ids(divs), script, ID_PREFIX);
    RouteIsReconcile(r, divs, script);
    forall c ensures c in OpenC4Ids(after) ==> ID_PREFIX <= c {
      OpenC4IdsByCount(after, c);
    }
    forall c | ID_PREFIX <= c
      ensures var e := EnsureAll(r, divs, script).issues;
        if c in Ids(divs) then c in OpenC4Ids(after) <==> ColonFree(c)
        else c in OpenC4Ids(after) <==> Count(e, c) > CountListed(Page(e), c)
    {
      RouteBeyondOnePage(r, divs, script, c);
    }
  }

  lemma RouteIsReconcile(r: Remote, divs: seq<Divergence>, script: nat -> Fate)
    ensures RouteRepo(r, divs, script) == Reconcile(EnsureAll(r, divs, script), Ids(divs), script)
  {
  }
}
