/** When a routing converges, read off the open issues before it. */
module C4OffPage {
  import opened IssueTitles
  import opened IssueTracker
  import opened IssueOverflow
  import opened C4Routing
  import opened C4Convergence
  import opened C4Overflow

  /** The open issues, newest first, once the divergences are raised on a repo where `all` are open.
      The next new issue gets number `next`. */
  function RaisedOn(all: seq<Listed>, next: nat, divs: seq<Divergence>): seq<Listed>
    decreases |divs|
  {
    if divs == [] then all
    else if FirstMatch(FirstPage(all), Prefix(divs[0].id)) < |FirstPage(all)| then RaisedOn(all, next, divs[1..])
    else RaisedOn([Listed(next, Title(divs[0].id, "C4 model divergence"))] + all, next + 1, divs[1..])
  }

  /** A "c4-" issue of no current divergence. */
  predicate Stale(e: Listed, divs: seq<Divergence>) {
    ID_PREFIX <= IdFromTitle(e.title) && IdFromTitle(e.title) !in Ids(divs)
  }

  /** No entry behind the first page is stale. */
  predicate CleanBehind(all: seq<Listed>, divs: seq<Divergence>) {
    forall k :: PER_PAGE <= k < |all| ==> !Stale(all[k], divs)
  }

  lemma {:induction false} EnsuresRaise(r: Remote, divs: seq<Divergence>, script: nat -> Fate)
    requires ErrorFree(script, r.calls)
    ensures OpenListed(EnsureAll(r, divs, script).issues) == RaisedOn(OpenListed(r.issues), |r.issues|, divs)
    decreases |divs|
  {
    hide FirstPage, Prefix, Title;
    if divs != [] {
      var next := Ensure(r, divs[0].id, script);
      if next.issues != r.issues {
        assert next.issues[..|r.issues|] == r.issues;
      }
      EnsuresRaise(next, divs[1..], script);
    }
  }

  lemma BehindThePage(issues: seq<Issue>, c: string)
    ensures Count(issues, c) > CountListed(Page(issues), c) <==>
            exists k :: PER_PAGE <= k < |OpenListed(issues)| && IdFromTitle(OpenListed(issues)[k].title) == c
    ensures Count(issues, c) >= CountListed(Page(issues), c)
  {
    hide IdFromTitle, CountListed, Count, OpenListed;
    var all := OpenListed(issues);
    ListedCounts(issues, c);
    if |all| > PER_PAGE {
      var rest := all[PER_PAGE..];
      assert all == all[..PER_PAGE] + rest;
      CountListedSum(all[..PER_PAGE], rest, c);
      if CountListed(rest, c) > 0 {
        ListedHas(rest, c);
        var e :| e in rest && IdFromTitle(e.title) == c;
        var i :| 0 <= i < |rest| && rest[i] == e;
        assert all[PER_PAGE + i] == e;
      }
      if k :| PER_PAGE <= k < |all| && IdFromTitle(all[k].title) == c {
        HasListed(rest, k - PER_PAGE);
      }
    }
  }

  /** An error-free routing of a repo converges if and only if, once its divergences stand in front of
      the open issues it had, no stale "c4-" issue is behind the first hundred. */
  lemma ConvergesByOpenIssues(r: Remote, divs: seq<Divergence>, script: nat -> Fate)
    requires ErrorFree(script, r.calls) && AllRaised(r.issues)
    requires forall d :: d in divs ==> ID_PREFIX <= d.id
    ensures OpenC4Ids(RouteRepo(r, divs, script).issues) == (set c | c in Ids(divs) && ColonFree(c))
            <==> CleanBehind(RaisedOn(OpenListed(r.issues), |r.issues|, divs), divs)
  {
    hide EnsureAll, RouteRepo, Count, CountListed, ColonFree, OpenListed, IdFromTitle, OpenC4Ids, RaisedOn;
    var e := EnsureAll(r, divs, script).issues;
    ConvergesExactlyWhen(r, divs, script);
    EnsuresRaise(r, divs, script);
    var all := OpenListed(e);
    forall c
      ensures Count(e, c) > CountListed(Page(e), c) <==> exists k :: PER_PAGE <= k < |all| && IdFromTitle(all[k].title) == c
    {
      BehindThePage(e, c);
    }
  }

  lemma {:induction false} RaisedInFront(all: seq<Listed>, next: nat, divs: seq<Divergence>)
    ensures var after := RaisedOn(all, next, divs);
            |all| <= |after| && after[|after| - |all|..] == all
    decreases |divs|
  {
    hide FirstMatch, FirstPage;
    if divs != [] {
      var more := [Listed(next, Title(divs[0].id, DESCRIPTION))] + all;
      RaisedInFront(all, next, divs[1..]);
      RaisedInFront(more, next + 1, divs[1..]);
      assert more[1..] == all;
    }
  }

  lemma {:induction false} NothingToRaise(all: seq<Listed>, next: nat, divs: seq<Divergence>)
    requires forall d :: d in divs ==> FirstMatch(FirstPage(all), Prefix(d.id)) < |FirstPage(all)|
    ensures RaisedOn(all, next, divs) == all
    decreases |divs|
  {
    hide FirstMatch, FirstPage;
    if divs != [] {
      assert divs == [divs[0]] + divs[1..];
      NothingToRaise(all, next, divs[1..]);
    }
  }

  /** A stale issue that is off the page when the routing starts keeps it from converging; and where all
      current divergences are on the page already, only such an issue does. */
  lemma OffPageBlocks(r: Remote, divs: seq<Divergence>, script: nat -> Fate)
    requires ErrorFree(script, r.calls) && AllRaised(r.issues)
    requires forall d :: d in divs ==> ID_PREFIX <= d.id
    ensures var page := Page(r.issues);
      var converges := OpenC4Ids(RouteRepo(r, divs, script).issues) == (set c | c in Ids(divs) && ColonFree(c));
      && (converges ==> CleanBehind(OpenListed(r.issues), divs))
      && ((forall d :: d in divs ==> FirstMatch(page, Prefix(d.id)) < |page|) ==>
            (converges <==> CleanBehind(OpenListed(r.issues), divs)))
  {
    hide RouteRepo, ColonFree, OpenListed, OpenC4Ids, RaisedOn, FirstMatch, FirstPage, Stale;
    var all := OpenListed(r.issues);
    var after := RaisedOn(all, |r.issues|, divs);
    ConvergesByOpenIssues(r, divs, script);
    RaisedInFront(all, |r.issues|, divs);
    if CleanBehind(after, divs) {
      forall k | PER_PAGE <= k < |all| ensures !Stale(all[k], divs) {
        assert after[|after| - |all|..][k] == after[|after| - |all| + k];
      }
    }
    if forall d :: d in divs ==> FirstMatch(Page(r.issues), Prefix(d.id)) < |Page(r.issues)| {
      NothingToRaise(all, |r.issues|, divs);
    }
  }

  /** A concrete case: a hundred younger issues hide a stale "c4-" issue, and a routing without any
      current divergence, though every call succeeds, leaves it open. */
  lemma HundredYoungerHideStale(script: nat -> Fate)
    requires ErrorFree(script, 0)
    ensures OLDEST in OpenC4Ids(RouteRepo(Remote(Younger(100), 0), [], script).issues)
  {
    hide Younger, OpenListed, Count, CountListed, IdFromTitle, Title, IdAt, RouteRepo, AllRaised, OnePerId, OpenIds, Raised, OpenC4Ids;
    var r := Remote(Younger(PER_PAGE), 0);
    YoungerIsTidy(PER_PAGE);
    YoungerListed(PER_PAGE);
    OldestIsFirst();
    IdAtReads(0);
    BehindThePage(r.issues, OLDEST);
    assert IdFromTitle(OpenListed(r.issues)[PER_PAGE].title) == OLDEST;
    RouteBeyondOnePage(r, [], script, OLDEST);
  }
}
