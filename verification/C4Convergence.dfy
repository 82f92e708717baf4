/** What an error-free reconciliation establishes, and what any reconciliation leaves alone. */
module C4Convergence {
  import opened IssueTitles
  import opened IssueTracker
  import opened C4Routing

  ghost predicate ErrorFree(script: nat -> Fate, from: nat) {
    forall n :: from <= n ==> script(n).Good?
  }

  predicate Has(issue: Issue, id: string) {
    issue.Tracked() && IdFromTitle(issue.title) == id
  }

  /** How many open labelled issues read back as id. */
  function Count(issues: seq<Issue>, id: string): nat {
    if issues == [] then 0
    else Count(issues[..|issues| - 1], id) + if Has(issues[|issues| - 1], id) then 1 else 0
  }

  function CountListed(page: seq<Listed>, id: string): nat {
    if page == [] then 0
    else (if IdFromTitle(page[0].title) == id then 1 else 0) + CountListed(page[1..], id)
  }

  ghost function OpenC4Ids(issues: seq<Issue>): set<string> {
    set i | 0 <= i < |issues| && issues[i].Tracked() && IsC4(issues[i].title) :: IdFromTitle(issues[i].title)
  }

  predicate OnePage(issues: seq<Issue>) {
    |OpenListed(issues)| <= PER_PAGE
  }

  // ---- Counting ----

  lemma {:induction false} CountAtLeast(issues: seq<Issue>, i: nat, id: string)
    requires i < |issues| && Has(issues[i], id)
    ensures Count(issues, id) > 0
  {
    if i < |issues| - 1 {
      CountAtLeast(issues[..|issues| - 1], i, id);
    }
  }

  lemma {:induction false} CountWitness(issues: seq<Issue>, id: string) returns (i: nat)
    requires Count(issues, id) > 0
    ensures i < |issues| && Has(issues[i], id)
  {
    i := |issues| - 1;
    if !Has(issues[i], id) {
      i := CountWitness(issues[..i], id);
    }
  }

  lemma {:induction false} CloseCounts(issues: seq<Issue>, n: nat, id: string)
    requires n < |issues|
    ensures var after := issues[n := issues[n].(open := false)];
            && Count(after, id) == Count(issues, id) - (if Has(issues[n], id) then 1 else 0)
            && |OpenListed(after)| <= |OpenListed(issues)|
  {
    var last := |issues| - 1;
    var after := issues[n := issues[n].(open := false)];
    if n == last {
      assert after[..last] == issues[..last];
    } else {
      assert after[..last] == issues[..last][n := issues[n].(open := false)];
      CloseCounts(issues[..last], n, id);
    }
  }

  lemma {:induction false} SnapshotCounts(page: seq<Listed>, id: string)
    requires ID_PREFIX <= id
    requires forall e :: e in page ==> Raised(e.title)
    ensures CountListed(Matching(page), id) == CountListed(page, id)
  {
    if page != [] {
      var e := page[0];
      SnapshotCounts(page[1..], id);
      if IdFromTitle(e.title) == id {
        IdShowsC4(e.title);
      }
      var rest := Matching(page[1..]);
      if IsC4(e.title) {
        assert ([e] + rest)[1..] == rest;
      } else {
        assert [] + rest == rest;
      }
    }
  }

  lemma {:induction false} ListedCounts(issues: seq<Issue>, id: string)
    ensures CountListed(OpenListed(issues), id) == Count(issues, id)
  {
    if issues != [] {
      var last := |issues| - 1;
      var rest := OpenListed(issues[..last]);
      ListedCounts(issues[..last], id);
      var e := Listed(last, issues[last].title);
      if issues[last].Tracked() {
        assert ([e] + rest)[1..] == rest;
      } else {
        assert [] + rest == rest;
      }
    }
  }

  /** A raised title lies in the "c4-" namespace exactly when its ID does. */
  lemma IdShowsC4(title: string)
    requires Raised(title)
    ensures IsC4(title) <==> ID_PREFIX <= IdFromTitle(title)
  {
    var rest := title[|TAG|..];
    assert title == TAG + rest;
    TagThenPrefix(rest);
    CutKeepsPrefix(ID_PREFIX, rest);
  }

  lemma TagThenPrefix(rest: string)
    ensures TAG + ID_PREFIX <= TAG + rest <==> ID_PREFIX <= rest
  {
    if TAG + ID_PREFIX <= TAG + rest {
      assert (TAG + ID_PREFIX)[|TAG|..] == ID_PREFIX;
      assert (TAG + rest)[|TAG|..|TAG| + |ID_PREFIX|] == rest[..|ID_PREFIX|];
    }
  }

  // ---- The two loops, call by call ----

  lemma EnsureCounts(r: Remote, id: string, script: nat -> Fate, c: string)
    requires ErrorFree(script, r.calls) && AllRaised(r.issues) && OnePage(r.issues)
    ensures var after := Ensure(r, id, script);
            && after.calls >= r.calls
            && AllRaised(after.issues)
            && |OpenListed(after.issues)| <= |OpenListed(r.issues)| + 1
            && Count(after.issues, c) >= Count(r.issues, c)
            && (c != Cut(id) ==> Count(after.issues, c) == Count(r.issues, c))
            && Count(after.issues, Cut(id)) > 0
  {
    TitleGivesCut(id, DESCRIPTION);
    var after := Ensure(r, id, script);
    var k := FirstMatch(Page(r.issues), Prefix(id));
    if k < |Page(r.issues)| {
      PageEntry(r.issues, k);
      var n := Page(r.issues)[k].number;
      MatchGivesCut(id, r.issues[n].title);
      CountAtLeast(r.issues, n, Cut(id));
    } else {
      assert after.issues[..|r.issues|] == r.issues;
    }
  }

  lemma MatchGivesCut(id: string, title: string)
    requires Prefix(id) <= title
    ensures IdFromTitle(title) == Cut(id)
  {
    var tail := title[|Prefix(id)|..];
    assert title == TAG + (id + ":" + tail);
    assert title[|TAG|..] == id + ":" + tail;
    CutIgnoresTail(id, tail);
  }

  lemma {:induction false} EnsureAllCounts(r: Remote, divs: seq<Divergence>, script: nat -> Fate, c: string)
    requires ErrorFree(script, r.calls) && AllRaised(r.issues)
    requires |OpenListed(r.issues)| + |divs| <= PER_PAGE
    ensures var after := EnsureAll(r, divs, script);
            && after.calls >= r.calls
            && AllRaised(after.issues) && OnePage(after.issues)
            && Count(after.issues, c) >= Count(r.issues, c)
            && ((exists d :: d in divs && Cut(d.id) == c) ==> Count(after.issues, c) > 0)
    decreases |divs|
  {
    if divs != [] {
      var next := Ensure(r, divs[0].id, script);
      EnsureCounts(r, divs[0].id, script, c);
      EnsureAllCounts(next, divs[1..], script, c);
    }
  }

  lemma CloseOneCounts(r: Remote, id: string, script: nat -> Fate, c: string)
    requires ErrorFree(script, r.calls) && AllRaised(r.issues) && OnePage(r.issues) && ColonFree(id)
    ensures var after := Close(r, id, script);
            && after.calls >= r.calls
            && AllRaised(after.issues) && OnePage(after.issues)
            && Count(after.issues, c) ==
               if c == id && Count(r.issues, c) > 0 then Count(r.issues, c) - 1 else Count(r.issues, c)
  {
    var k := FirstMatch(Page(r.issues), Prefix(id));
    if k < |Page(r.issues)| {
      PageEntry(r.issues, k);
      var n := Page(r.issues)[k].number;
      PrefixFindsItsId(id, r.issues[n].title);
      CloseCounts(r.issues, n, c);
      CountAtLeast(r.issues, n, id);
    } else if Count(r.issues, id) > 0 {
      var i := CountWitness(r.issues, id);
      OpenIdIsFound(r.issues, id);
    }
  }

  /** k snapshot entries of a stale ID drive k closes of it; no other ID is affected. */
  lemma {:induction false} CloseAllCounts(r: Remote, snapshot: seq<Listed>, current: set<string>, script: nat -> Fate, c: string)
    requires ErrorFree(script, r.calls) && AllRaised(r.issues) && OnePage(r.issues)
    ensures var before, k := Count(r.issues, c), CountListed(snapshot, c);
            var after := CloseAll(r, snapshot, current, script);
            && AllRaised(after.issues) && OnePage(after.issues)
            && Count(after.issues, c) == if c in current then before else if k <= before then before - k else 0
    decreases |snapshot|
  {
    if snapshot != [] {
      var id := IdFromTitle(snapshot[0].title);
      if id in current {
        CloseAllCounts(r, snapshot[1..], current, script, c);
      } else {
        CloseOneCounts(r, id, script, c);
        CloseAllCounts(Close(r, id, script), snapshot[1..], current, script, c);
      }
    }
  }

  lemma RouteCounts(r: Remote, divs: seq<Divergence>, script: nat -> Fate, c: string)
    requires ErrorFree(script, r.calls) && AllRaised(r.issues)
    requires |OpenListed(r.issues)| + |divs| <= PER_PAGE
    requires ID_PREFIX <= c
    ensures AllRaised(RouteRepo(r, divs, script).issues) && OnePage(RouteRepo(r, divs, script).issues)
    ensures Count(RouteRepo(r, divs, script).issues, c) ==
            if c in Ids(divs) then Count(EnsureAll(r, divs, script).issues, c) else 0
  {
    var e := EnsureAll(r, divs, script);
    EnsureAllCounts(r, divs, script, c);
    ReconcileCounts(e, Ids(divs), script, c);
  }

  lemma ReconcileCounts(e: Remote, current: set<string>, script: nat -> Fate, c: string)
    requires ErrorFree(script, e.calls) && AllRaised(e.issues) && OnePage(e.issues)
    requires ID_PREFIX <= c
    ensures var after := Reconcile(e, current, script).issues;
            AllRaised(after) && OnePage(after) && Count(after, c) == if c in current then Count(e.issues, c) else 0
  {
    hide Raised, IdFromTitle, IsC4, EnsureStep, CloseStep;
    var snapshot := Matching(Page(e.issues));
    assert CountListed(snapshot, c) == Count(e.issues, c) by {
      SnapshotHolds(e.issues, c);
    }
    var listed := Remote(e.issues, e.calls + 1);
    assert Reconcile(e, current, script) == CloseAll(listed, snapshot, current, script);
    CloseAllCounts(listed, snapshot, current, script, c);
  }

  lemma SnapshotHolds(issues: seq<Issue>, c: string)
    requires AllRaised(issues) && OnePage(issues) && ID_PREFIX <= c
    ensures CountListed(Matching(Page(issues)), c) == Count(issues, c)
  {
    var page := OpenListed(issues);
    assert Page(issues) == page;
    forall x | x in page ensures Raised(x.title) {
      ListedExactly(issues, x);
    }
    SnapshotCounts(page, c);
    ListedCounts(issues, c);
  }

  lemma OpenC4IdsByCount(issues: seq<Issue>, c: string)
    requires AllRaised(issues)
    ensures c in OpenC4Ids(issues) <==> ID_PREFIX <= c && Count(issues, c) > 0
  {
    if c in OpenC4Ids(issues) {
      var i :| 0 <= i < |issues| && issues[i].Tracked() && IsC4(issues[i].title) && IdFromTitle(issues[i].title) == c;
      IdShowsC4(issues[i].title);
      CountAtLeast(issues, i, c);
    }
    if ID_PREFIX <= c && Count(issues, c) > 0 {
      var i := CountWitness(issues, c);
      IdShowsC4(issues[i].title);
    }
  }

  lemma CountedIsColonFree(issues: seq<Issue>, c: string)
    requires Count(issues, c) > 0
    ensures ColonFree(c)
  {
    var i := CountWitness(issues, c);
  }

  // ---- Main results ----

  /** After an error-free reconciliation of one repo, its open "c4-" issues carry exactly the
      colon-free ones among the current divergence IDs: duplicates of a stale ID are all closed. */
  lemma RouteConverges(r: Remote, divs: seq<Divergence>, script: nat -> Fate)
    requires ErrorFree(script, r.calls) && AllRaised(r.issues)
    requires |OpenListed(r.issues)| + |divs| <= PER_PAGE
    requires forall d :: d in divs ==> ID_PREFIX <= d.id
    ensures OpenC4Ids(RouteRepo(r, divs, script).issues) == set c | c in Ids(divs) && ColonFree(c)
    ensures OpenC4Ids(RouteRepo(r, divs, script).issues) == Ids(divs) <==> forall d :: d in divs ==> ColonFree(d.id)
  {
    var after := RouteRepo(r, divs, script).issues;
    RouteCounts(r, divs, script, ID_PREFIX);
    forall c ensures c in OpenC4Ids(after) <==> c in Ids(divs) && ColonFree(c) {
      OpenC4IdsByCount(after, c);
      if ID_PREFIX <= c {
        RouteCounts(r, divs, script, c);
        EnsureAllCounts(r, divs, script, c);
        if Count(after, c) > 0 {
          CountedIsColonFree(after, c);
        }
        if c in Ids(divs) && ColonFree(c) {
          var d :| d in divs && d.id == c;
          assert Cut(d.id) == c by { CutOfColonFree(c); }
        }
      }
    }
    if d :| d in divs && !ColonFree(d.id) {
      assert d.id in Ids(divs) && d.id !in OpenC4Ids(after);
    }
    forall d | d in divs ensures d.id in Ids(divs) {}
  }

  /** A repo whose open "c4-" issues are exactly the current ones is left as it is: nothing is
      created and nothing closed. */
  lemma ConvergedIsFixed(r: Remote, divs: seq<Divergence>, script: nat -> Fate)
    requires ErrorFree(script, r.calls) && AllRaised(r.issues) && OnePage(r.issues)
    requires OpenC4Ids(r.issues) == Ids(divs)
    ensures RouteRepo(r, divs, script).issues == r.issues
  {
    forall d | d in divs ensures ColonFree(d.id) && d.id in OpenIds(r.issues) {
      assert d.id in Ids(divs);
    }
    var e := EnsureFixed(r, divs, script);
    ReconcileFixed(e, Ids(divs), script);
  }

  lemma ReconcileFixed(e: Remote, current: set<string>, script: nat -> Fate)
    requires OnePage(e.issues) && OpenC4Ids(e.issues) <= current
    ensures Reconcile(e, current, script).issues == e.issues
  {
    SnapshotIsCurrent(e.issues, current);
    CloseFixed(Remote(e.issues, e.calls + 1), Matching(Page(e.issues)), current, script);
  }

  lemma SnapshotIsCurrent(issues: seq<Issue>, current: set<string>)
    requires OnePage(issues) && OpenC4Ids(issues) <= current
    ensures forall x :: x in Matching(Page(issues)) ==> IdFromTitle(x.title) in current
  {
    forall x | x in Matching(Page(issues)) ensures IdFromTitle(x.title) in current {
      MatchingExactly(Page(issues), x);
      ListedExactly(issues, x);
      assert IdFromTitle(x.title) in OpenC4Ids(issues);
    }
  }

  lemma {:induction false} EnsureFixed(r: Remote, divs: seq<Divergence>, script: nat -> Fate) returns (e: Remote)
    requires ErrorFree(script, r.calls) && AllRaised(r.issues) && OnePage(r.issues)
    requires forall d :: d in divs ==> ColonFree(d.id) && d.id in OpenIds(r.issues)
    ensures e == EnsureAll(r, divs, script) && e.issues == r.issues && e.calls >= r.calls
    decreases |divs|
  {
    e := r;
    if divs != [] {
      OpenIdIsFound(r.issues, divs[0].id);
      e := EnsureFixed(Ensure(r, divs[0].id, script), divs[1..], script);
    }
  }

  lemma {:induction false} CloseFixed(r: Remote, snapshot: seq<Listed>, current: set<string>, script: nat -> Fate)
    requires forall x :: x in snapshot ==> IdFromTitle(x.title) in current
    ensures CloseAll(r, snapshot, current, script) == r
    decreases |snapshot|
  {
    if snapshot != [] {
      CloseFixed(r, snapshot[1..], current, script);
    }
  }

  lemma {:induction false} MatchingExactly(page: seq<Listed>, x: Listed)
    ensures x in Matching(page) <==> x in page && IsC4(x.title)
  {
    if page != [] {
      MatchingExactly(page[1..], x);
    }
  }

  /** A second identical run changes nothing when no current ID has a colon. */
  lemma SecondRunIsIdle(r: Remote, divs: seq<Divergence>, script: nat -> Fate, calls: nat, script': nat -> Fate)
    requires ErrorFree(script, r.calls) && ErrorFree(script', calls) && AllRaised(r.issues)
    requires |OpenListed(r.issues)| + |divs| <= PER_PAGE
    requires forall d :: d in divs ==> ID_PREFIX <= d.id && ColonFree(d.id)
    ensures var once := RouteRepo(r, divs, script).issues;
            RouteRepo(Remote(once, calls), divs, script').issues == once
  {
    RouteConverges(r, divs, script);
    RouteCounts(r, divs, script, ID_PREFIX);
    ConvergedIsFixed(Remote(RouteRepo(r, divs, script).issues, calls), divs, script');
  }

  /** An ID with a colon, as a webhook host with a port gives, never settles: every run raises one
      more issue for it and closes that issue again. */
  lemma ColonIdFlaps(r: Remote, d: Divergence, script: nat -> Fate)
    requires ErrorFree(script, r.calls) && AllRaised(r.issues)
    requires |OpenListed(r.issues)| < PER_PAGE
    requires ID_PREFIX <= d.id && !ColonFree(d.id) && Count(r.issues, Cut(d.id)) == 0
    ensures var after := RouteRepo(r, [d], script).issues;
            |after| == |r.issues| + 1 && Count(after, Cut(d.id)) == 0
  {
    var c := Cut(d.id);
    CutKeepsPrefix(ID_PREFIX, d.id);
    RouteCounts(r, [d], script, c);
    EnsureRaisesAbsent(r, d.id, script);
    RouteOfOne(r, d, script);
    hide IdFromTitle, Raised, IsC4, EnsureStep, CloseStep, RouteRepo, Reconcile, Ensure;
    ReconcileLength(Ensure(r, d.id, script), {d.id}, script);
    assert d.id in Ids([d]) && c !in Ids([d]);
  }

  lemma RouteOfOne(r: Remote, d: Divergence, script: nat -> Fate)
    ensures RouteRepo(r, [d], script) == Reconcile(Ensure(r, d.id, script), {d.id}, script)
  {
    hide EnsureStep, CloseStep, Reconcile, Ensure;
    assert Ids([d]) == {d.id};
    assert EnsureAll(r, [d], script) == EnsureAll(Ensure(r, d.id, script), [d][1..], script);
  }

  lemma ReconcileLength(e: Remote, current: set<string>, script: nat -> Fate)
    ensures |Reconcile(e, current, script).issues| == |e.issues|
  {
    hide EnsureStep, CloseStep, IsC4, IdFromTitle;
    CloseAllLength(Remote(e.issues, e.calls + 1), Matching(Page(e.issues)), current, script);
  }

  lemma EnsureRaisesAbsent(r: Remote, id: string, script: nat -> Fate)
    requires ErrorFree(script, r.calls) && Count(r.issues, Cut(id)) == 0
    ensures |Ensure(r, id, script).issues| == |r.issues| + 1
  {
    hide IdFromTitle, Raised, IsC4;
    var k := FirstMatch(Page(r.issues), Prefix(id));
    if k < |Page(r.issues)| {
      PageEntry(r.issues, k);
      var n := Page(r.issues)[k].number;
      MatchGivesCut(id, r.issues[n].title);
      CountAtLeast(r.issues, n, Cut(id));
    }
  }

  lemma {:induction false} CloseAllLength(r: Remote, snapshot: seq<Listed>, current: set<string>, script: nat -> Fate)
    ensures |CloseAll(r, snapshot, current, script).issues| == |r.issues|
    decreases |snapshot|
  {
    hide IdFromTitle, IsC4;
    if snapshot != [] {
      var id := IdFromTitle(snapshot[0].title);
      var next := if id in current then r else Close(r, id, script);
      StepTouchesOnlyItsId(r.issues, CloseOp(id, script(r.calls), script(r.calls + 1)));
      CloseAllLength(next, snapshot[1..], current, script);
    }
  }

  // ---- Every candidate repo ----

  lemma {:induction false} RouteAllConverges(w: World, order: seq<string>, divs: seq<Divergence>, script: nat -> Fate, repo: string)
    requires forall i, j :: 0 <= i < j < |order| ==> order[i] != order[j]
    requires ErrorFree(script, w.calls)
    requires forall q :: q in order ==>
               AllRaised(Of(w.repos, q)) && |OpenListed(Of(w.repos, q))| + |ForRepo(divs, q)| <= PER_PAGE
    requires forall d :: d in divs ==> ID_PREFIX <= d.id
    ensures var after := Of(RouteAll(w, order, divs, script).repos, repo);
            if repo in order then OpenC4Ids(after) == set c | c in Ids(ForRepo(divs, repo)) && ColonFree(c)
            else after == Of(w.repos, repo)
    decreases |order|
  {
    if order != [] {
      var q := order[0];
      var r := Remote(Of(w.repos, q), w.calls);
      ForRepoExactly(divs, q);
      RouteConverges(r, ForRepo(divs, q), script);
      RouteCallsGrow(r, ForRepo(divs, q), script);
      var next := RouteOne(w, q, divs, script);
      RouteAllConverges(next, order[1..], divs, script, repo);
    }
  }

  lemma {:induction false} ForRepoExactly(divs: seq<Divergence>, repo: string)
    ensures forall d :: d in ForRepo(divs, repo) <==> d in divs && d.repo == repo
  {
    if divs != [] {
      ForRepoExactly(divs[1..], repo);
    }
  }

  lemma RouteCallsGrow(r: Remote, divs: seq<Divergence>, script: nat -> Fate)
    ensures RouteRepo(r, divs, script).calls >= r.calls
  {
    hide IdFromTitle, EnsureStep, CloseStep, IsC4;
    EnsureAllCallsGrow(r, divs, script);
    var e := EnsureAll(r, divs, script);
    CloseAllCallsGrow(Remote(e.issues, e.calls + 1), Matching(Page(e.issues)), Ids(divs), script);
  }

  lemma {:induction false} EnsureAllCallsGrow(r: Remote, divs: seq<Divergence>, script: nat -> Fate)
    ensures EnsureAll(r, divs, script).calls >= r.calls
    decreases |divs|
  {
    if divs != [] {
      EnsureAllCallsGrow(Ensure(r, divs[0].id, script), divs[1..], script);
    }
  }

  lemma {:induction false} CloseAllCallsGrow(r: Remote, snapshot: seq<Listed>, current: set<string>, script: nat -> Fate)
    ensures CloseAll(r, snapshot, current, script).calls >= r.calls
    decreases |snapshot|
  {
    if snapshot != [] {
      var id := IdFromTitle(snapshot[0].title);
      CloseAllCallsGrow(if id in current then r else Close(r, id, script), snapshot[1..], current, script);
    }
  }

  // ---- Whatever fails, only stale "c4-" issues are closed and only "c4-" issues are raised ----

  ghost predicate OnlyC4Changed(before: seq<Issue>, after: seq<Issue>, current: set<string>) {
    && |before| <= |after|
    && (forall k :: 0 <= k < |before| && after[k] != before[k] ==>
          && before[k].Tracked() && IsC4(before[k].title) && IdFromTitle(before[k].title) !in current
          && after[k] == before[k].(open := false))
    && (forall k :: |before| <= k < |after| ==> IsC4(after[k].title))
  }

  lemma RouteTouchesOnlyC4(r: Remote, divs: seq<Divergence>, script: nat -> Fate)
    requires forall d :: d in divs ==> ID_PREFIX <= d.id
    ensures OnlyC4Changed(r.issues, RouteRepo(r, divs, script).issues, Ids(divs))
  {
    hide IdFromTitle, IsC4, EnsureStep, CloseStep;
    var e := EnsureAll(r, divs, script);
    EnsureAllTouches(r, divs, script, Ids(divs));
    ReconcileTouches(e, Ids(divs), script);
  }

  /** And so for the whole routing: on every repo, candidate or not, only "c4-" issues change, whatever
      calls fail. */
  lemma {:induction false} RouteAllTouchesOnlyC4(w: World, order: seq<string>, divs: seq<Divergence>, script: nat -> Fate, repo: string)
    requires forall i, j :: 0 <= i < j < |order| ==> order[i] != order[j]
    requires forall d :: d in divs ==> ID_PREFIX <= d.id
    ensures var before, after := Of(w.repos, repo), Of(RouteAll(w, order, divs, script).repos, repo);
            if repo in order then OnlyC4Changed(before, after, Ids(ForRepo(divs, repo))) else after == before
    decreases |order|
  {
    hide RouteRepo, OnlyC4Changed, ForRepo;
    if order != [] {
      var r := Remote(Of(w.repos, order[0]), w.calls);
      ForRepoExactly(divs, order[0]);
      RouteTouchesOnlyC4(r, ForRepo(divs, order[0]), script);
      var next := RouteOne(w, order[0], divs, script);
      assert order == [order[0]] + order[1..];
      RouteAllTouchesOnlyC4(next, order[1..], divs, script, repo);
    }
  }

  lemma ReconcileTouches(e: Remote, current: set<string>, script: nat -> Fate)
    ensures OnlyC4Changed(e.issues, Reconcile(e, current, script).issues, current)
  {
    hide IdFromTitle, IsC4, EnsureStep, CloseStep;
    var snapshot := Matching(Page(e.issues));
    forall x | x in snapshot ensures IsC4(x.title) {
      MatchingExactly(Page(e.issues), x);
    }
    CloseAllTouches(Remote(e.issues, e.calls + 1), snapshot, current, script);
  }

  lemma C4Prefix(id: string, rest: string)
    requires ID_PREFIX <= id
    ensures IsC4(Prefix(id) + rest)
  {
    assert Prefix(id) + rest == TAG + (id + ":" + rest);
    TagThenPrefix(id + ":" + rest);
  }

  lemma {:induction false} EnsureAllTouches(r: Remote, divs: seq<Divergence>, script: nat -> Fate, current: set<string>)
    requires forall d :: d in divs ==> ID_PREFIX <= d.id
    ensures OnlyC4Changed(r.issues, EnsureAll(r, divs, script).issues, current)
    decreases |divs|
  {
    if divs != [] {
      C4Prefix(divs[0].id, " " + DESCRIPTION);
      assert Prefix(divs[0].id) + (" " + DESCRIPTION) == Title(divs[0].id, DESCRIPTION);
      EnsureAllTouches(Ensure(r, divs[0].id, script), divs[1..], script, current);
    }
  }

  lemma MatchIsC4(title: string, t: string)
    requires IsC4(title) && Prefix(IdFromTitle(title)) <= t
    ensures IsC4(t) && IdFromTitle(t) == IdFromTitle(title)
  {
    var id := IdFromTitle(title);
    MatchGivesCut(id, t);
    CutOfColonFree(id);
    assert title == TAG + title[|TAG|..];
    TagThenPrefix(title[|TAG|..]);
    CutKeepsPrefix(ID_PREFIX, title[|TAG|..]);
    C4Prefix(id, t[|Prefix(id)|..]);
    assert t == Prefix(id) + t[|Prefix(id)|..];
  }

  lemma CloseTouches(r: Remote, title: string, current: set<string>, script: nat -> Fate)
    requires IsC4(title) && IdFromTitle(title) !in current
    ensures OnlyC4Changed(r.issues, Close(r, IdFromTitle(title), script).issues, current)
  {
    hide IdFromTitle, IsC4, Prefix, Cut;
    var k := FirstMatch(Page(r.issues), Prefix(IdFromTitle(title)));
    if k < |Page(r.issues)| {
      PageEntry(r.issues, k);
      MatchIsC4(title, Page(r.issues)[k].title);
    }
  }

  lemma {:induction false} CloseAllTouches(r: Remote, snapshot: seq<Listed>, current: set<string>, script: nat -> Fate)
    requires forall x :: x in snapshot ==> IsC4(x.title)
    ensures OnlyC4Changed(r.issues, CloseAll(r, snapshot, current, script).issues, current)
    decreases |snapshot|
  {
    if snapshot != [] {
      var id := IdFromTitle(snapshot[0].title);
      if id in current {
        CloseAllTouches(r, snapshot[1..], current, script);
      } else {
        CloseTouches(r, snapshot[0].title, current, script);
        CloseAllTouches(Close(r, id, script), snapshot[1..], current, script);
      }
    }
  }
}
