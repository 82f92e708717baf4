/** The GitHub issue tracker as the audit tool sees it, and the Ensure/Close protocol on it. */
module IssueTracker {
  import opened IssueTitles

  /** An entry of one repo's issue list; `labelled` tells whether it has the audit-finding label.
      An issue's number is its position, so a repo's entries are oldest first. */
  datatype Issue = Issue(title: string, open: bool, labelled: bool) {
    predicate Tracked() { open && labelled }
  }

  datatype Listed = Listed(number: nat, title: string)

  /** What happens to one API call. `Lost`: the tracker acts on it but the reply never arrives. */
  datatype Fate = Good | Lost | Refused | Unavailable

  datatype Outcome = Url(number: nat) | Nothing | Failed | IssuesUnavailable {
    predicate IsError() { Failed? || IssuesUnavailable? }
  }

  function ErrorOf(f: Fate): Outcome {
    if f.Unavailable? then IssuesUnavailable else Failed
  }

  const PER_PAGE: nat := 100

  /** Every open labelled issue, newest first. */
  function OpenListed(issues: seq<Issue>): seq<Listed> {
    if issues == [] then []
    else
      var last := |issues| - 1;
      (if issues[last].Tracked() then [Listed(last, issues[last].title)] else []) + OpenListed(issues[..last])
  }

  function FirstPage(all: seq<Listed>): seq<Listed> {
    if |all| <= PER_PAGE then all else all[..PER_PAGE]
  }

  /** The one page that the list call asks for. */
  function Page(issues: seq<Issue>): seq<Listed> {
    FirstPage(OpenListed(issues))
  }

  /** Position of the first entry whose title starts with prefix; |page| if there is none. */
  function FirstMatch(page: seq<Listed>, prefix: string): (k: nat)
    ensures k <= |page|
    ensures k < |page| ==> prefix <= page[k].title
    ensures forall j :: 0 <= j < k ==> !(prefix <= page[j].title)
  {
    if page == [] || prefix <= page[0].title then 0 else 1 + FirstMatch(page[1..], prefix)
  }

  function Create(issues: seq<Issue>, title: string, fate: Fate): (seq<Issue>, Outcome) {
    (if fate.Good? || fate.Lost? then issues + [Issue(title, true, true)] else issues,
     if fate.Good? then Url(|issues|) else ErrorOf(fate))
  }

  function CloseNumber(issues: seq<Issue>, number: nat, fate: Fate): (seq<Issue>, Outcome)
    requires number < |issues|
  {
    (if fate.Good? || fate.Lost? then issues[number := issues[number].(open := false)] else issues,
     if fate.Good? then Nothing else ErrorOf(fate))
  }

  lemma {:induction false} ListedExactly(issues: seq<Issue>, e: Listed)
    ensures e in OpenListed(issues) <==>
            e.number < |issues| && issues[e.number].Tracked() && issues[e.number].title == e.title
  {
    if issues != [] {
      ListedExactly(issues[..|issues| - 1], e);
    }
  }

  /** Newer issues are listed first. */
  lemma {:induction false} NewestFirst(issues: seq<Issue>)
    ensures forall i, j :: 0 <= i < j < |OpenListed(issues)| ==> OpenListed(issues)[i].number > OpenListed(issues)[j].number
  {
    if issues != [] {
      var last := |issues| - 1;
      NewestFirst(issues[..last]);
      forall e | e in OpenListed(issues[..last]) ensures e.number < last {
        ListedExactly(issues[..last], e);
      }
    }
  }

  /** One list call sees the open labelled issues, newest first, up to a hundred. */
  lemma PageExactly(issues: seq<Issue>, i: nat)
    ensures |Page(issues)| == if |OpenListed(issues)| <= 100 then |OpenListed(issues)| else 100
    ensures i < |Page(issues)| ==> Page(issues)[i] == OpenListed(issues)[i]
    ensures forall n: nat, t: string :: Listed(n, t) in OpenListed(issues) <==>
      n < |issues| && issues[n].open && issues[n].labelled && issues[n].title == t
    ensures forall j, k :: 0 <= j < k < |Page(issues)| ==> Page(issues)[j].number > Page(issues)[k].number
  {
    hide OpenListed;
    NewestFirst(issues);
    forall n: nat, t: string ensures Listed(n, t) in OpenListed(issues) <==>
      n < |issues| && issues[n].open && issues[n].labelled && issues[n].title == t
    {
      ListedExactly(issues, Listed(n, t));
    }
  }

  lemma PageEntry(issues: seq<Issue>, k: nat)
    requires k < |Page(issues)|
    ensures var e := Page(issues)[k];
            e.number < |issues| && issues[e.number].Tracked() && issues[e.number].title == e.title
  {
    assert Page(issues)[k] in OpenListed(issues);
    ListedExactly(issues, Page(issues)[k]);
  }

  /** One call of EnsureIssueExists: the new issue list, the answer, and the number of calls made. */
  function EnsureStep(issues: seq<Issue>, id: string, description: string, list: Fate, create: Fate)
    : (seq<Issue>, Outcome, nat)
  {
    if !list.Good? then (issues, ErrorOf(list), 1)
    else
      var k := FirstMatch(Page(issues), Prefix(id));
      if k < |Page(issues)| then (issues, Url(Page(issues)[k].number), 1)
      else
        var (after, out) := Create(issues, Title(id, description), create);
        (after, out, 2)
  }

  /** One call of CloseIssueIfOpen. */
  function CloseStep(issues: seq<Issue>, id: string, list: Fate, close: Fate): (seq<Issue>, Outcome, nat) {
    if !list.Good? then (issues, ErrorOf(list), 1)
    else
      var k := FirstMatch(Page(issues), Prefix(id));
      if k < |Page(issues)| then
        PageEntry(issues, k);
        var (after, out) := CloseNumber(issues, Page(issues)[k].number, close);
        (after, out, 2)
      else (issues, Nothing, 1)
  }

  function Of(repos: map<string, seq<Issue>>, repo: string): seq<Issue> {
    if repo in repos then repos[repo] else []
  }

  function Put(repos: map<string, seq<Issue>>, repo: string, issues: seq<Issue>): (after: map<string, seq<Issue>>)
    ensures Of(after, repo) == issues
    ensures forall other :: other != repo ==> Of(after, other) == Of(repos, other)
  {
    repos[repo := issues]
  }

  /** The remote tracker. The n-th API call ever made meets the fate script(n). */
  class GitHub {
    var repos: map<string, seq<Issue>>
    var calls: nat
    const script: nat -> Fate

    constructor (repos: map<string, seq<Issue>>, script: nat -> Fate)
      ensures this.repos == repos && calls == 0 && this.script == script
    {
      this.repos, calls, this.script := repos, 0, script;
    }

    /** A repo without an entry has no issues; asking about it gives it an empty entry. */
    method FetchIssuesList(repo: string) returns (err: Outcome, page: seq<Listed>)
      modifies this
      ensures repos == Put(old(repos), repo, Of(old(repos), repo))
      ensures calls == old(calls) + 1
      ensures script(old(calls)).Good? ==> err == Nothing && page == Page(Of(repos, repo))
      ensures !script(old(calls)).Good? ==> err == ErrorOf(script(old(calls))) && page == []
    {
      var fate := script(calls);
      calls := calls + 1;
      repos := Put(repos, repo, Of(repos, repo));
      if fate.Good? {
        return Nothing, Page(Of(repos, repo));
      }
      return ErrorOf(fate), [];
    }

    method CreateIssue(repo: string, title: string) returns (out: Outcome)
      modifies this
      ensures calls == old(calls) + 1
      ensures var (after, answer) := Create(Of(old(repos), repo), title, script(old(calls)));
              repos == Put(old(repos), repo, after) && out == answer
    {
      var fate := script(calls);
      calls := calls + 1;
      var (after, answer) := Create(Of(repos, repo), title, fate);
      repos := Put(repos, repo, after);
      out := answer;
    }

    method CloseIssue(repo: string, number: nat) returns (out: Outcome)
      requires number < |Of(repos, repo)|
      modifies this
      ensures calls == old(calls) + 1
      ensures var (after, answer) := CloseNumber(Of(old(repos), repo), number, script(old(calls)));
              repos == Put(old(repos), repo, after) && out == answer
    {
      var fate := script(calls);
      calls := calls + 1;
      var (after, answer) := CloseNumber(Of(repos, repo), number, fate);
      repos := Put(repos, repo, after);
      out := answer;
    }

    /** First open labelled issue whose title starts with the convention's prefix. */
    method FindOpenIssueObject(repo: string, id: string) returns (err: Outcome, found: bool, issue: Listed)
      modifies this
      ensures repos == Put(old(repos), repo, Of(old(repos), repo))
      ensures calls == old(calls) + 1
      ensures !script(old(calls)).Good? ==> err == ErrorOf(script(old(calls)))
      ensures script(old(calls)).Good? ==>
                && err == Nothing
                && var page := Page(Of(repos, repo));
                   var k := FirstMatch(page, Prefix(id));
                   (found <==> k < |page|) && (found ==> issue == page[k])
    {
      found, issue := false, Listed(0, "");
      var page;
      err, page := FetchIssuesList(repo);
      if err.IsError() { return; }
      var prefix := Prefix(id);
      for i := 0 to |page|
        invariant !found
        invariant FirstMatch(page, prefix) == i + FirstMatch(page[i..], prefix)
      {
        assert page[i..][1..] == page[i + 1..];
        if prefix <= page[i].title {
          return err, true, page[i];
        }
      }
    }

    method EnsureIssueExists(repo: string, id: string, description: string) returns (out: Outcome)
      modifies this
      ensures var (after, answer, n) :=
                EnsureStep(Of(old(repos), repo), id, description, script(old(calls)), script(old(calls) + 1));
              repos == Put(old(repos), repo, after) && out == answer && calls == old(calls) + n
    {
      var err, found, issue := FindOpenIssueObject(repo, id);
      if err.IsError() { return err; }
      if found { return Url(issue.number); }
      out := CreateIssue(repo, Title(id, description));
    }

    method CloseIssueIfOpen(repo: string, id: string) returns (out: Outcome)
      modifies this
      ensures var (after, answer, n) :=
                CloseStep(Of(old(repos), repo), id, script(old(calls)), script(old(calls) + 1));
              repos == Put(old(repos), repo, after) && out == answer && calls == old(calls) + n
    {
      var err, found, issue := FindOpenIssueObject(repo, id);
      if err.IsError() { return err; }
      if !found { return Nothing; }
      PageEntry(Of(repos, repo), FirstMatch(Page(Of(repos, repo)), Prefix(id)));
      out := CloseIssue(repo, issue.number);
    }
  }

  // ---- Safety over every run of Ensure and Close steps on one repo ----

  datatype Op =
    | EnsureOp(id: string, description: string, list: Fate, write: Fate)
    | CloseOp(id: string, list: Fate, write: Fate)

  function Step(issues: seq<Issue>, op: Op): seq<Issue> {
    match op
    case EnsureOp(id, d, list, create) => EnsureStep(issues, id, d, list, create).0
    case CloseOp(id, list, close) => CloseStep(issues, id, list, close).0
  }

  function Run(issues: seq<Issue>, ops: seq<Op>): seq<Issue>
    decreases |ops|
  {
    if ops == [] then issues else Run(Step(issues, ops[0]), ops[1..])
  }

  ghost predicate AllRaised(issues: seq<Issue>) {
    forall i :: 0 <= i < |issues| && issues[i].Tracked() ==> Raised(issues[i].title)
  }

  ghost predicate OnePerId(issues: seq<Issue>) {
    forall i, j :: 0 <= i < j < |issues| && issues[i].Tracked() && issues[j].Tracked()
                   ==> IdFromTitle(issues[i].title) != IdFromTitle(issues[j].title)
  }

  ghost function OpenIds(issues: seq<Issue>): set<string> {
    set i | 0 <= i < |issues| && issues[i].Tracked() :: IdFromTitle(issues[i].title)
  }

  lemma OpenIdsOfLast(issues: seq<Issue>)
    requires issues != []
    ensures var last := issues[|issues| - 1];
            OpenIds(issues) == OpenIds(issues[..|issues| - 1]) + if last.Tracked() then {IdFromTitle(last.title)} else {}
  {
    hide IdFromTitle;
    var n := |issues| - 1;
    var rest := issues[..n];
    forall id | id in OpenIds(issues)
      ensures id in OpenIds(rest) || (issues[n].Tracked() && id == IdFromTitle(issues[n].title))
    {
      var i :| 0 <= i < |issues| && issues[i].Tracked() && IdFromTitle(issues[i].title) == id;
      assert i < n ==> rest[i] == issues[i];
    }
    forall id | id in OpenIds(rest) ensures id in OpenIds(issues) {
      var i :| 0 <= i < n && rest[i].Tracked() && IdFromTitle(rest[i].title) == id;
      assert issues[i] == rest[i];
    }
  }

  /** With one open issue per ID there are as many listed issues as open IDs. */
  lemma {:induction false} AsManyAsIds(issues: seq<Issue>)
    requires OnePerId(issues)
    ensures |OpenListed(issues)| == |OpenIds(issues)|
  {
    if issues == [] {
      assert OpenIds(issues) == {};
    } else {
      var last := |issues| - 1;
      var rest := issues[..last];
      AsManyAsIds(rest);
      OpenIdsOfLast(issues);
      if issues[last].Tracked() {
        assert IdFromTitle(issues[last].title) !in OpenIds(rest);
      }
    }
  }

  lemma {:induction false} SubsetCardinality(a: set<string>, b: set<string>)
    requires a <= b
    ensures |a| <= |b|
  {
    if a != {} {
      var x :| x in a;
      SubsetCardinality(a - {x}, b - {x});
    }
  }

  /** The state that every run keeps. */
  ghost predicate Tidy(issues: seq<Issue>, ids: set<string>) {
    && AllRaised(issues)
    && OnePerId(issues)
    && OpenIds(issues) <= ids
  }

  /** By pigeonhole the single page then holds every open labelled issue. */
  lemma PageIsComplete(issues: seq<Issue>, ids: set<string>)
    requires Tidy(issues, ids) && |ids| <= PER_PAGE
    ensures Page(issues) == OpenListed(issues)
  {
    AsManyAsIds(issues);
    SubsetCardinality(OpenIds(issues), ids);
  }

  /** On a complete page the prefix search finds every open ID. */
  lemma OpenIdIsFound(issues: seq<Issue>, id: string)
    requires ColonFree(id) && AllRaised(issues)
    requires Page(issues) == OpenListed(issues)
    requires id in OpenIds(issues)
    ensures FirstMatch(Page(issues), Prefix(id)) < |Page(issues)|
  {
    var i :| 0 <= i < |issues| && issues[i].Tracked() && IdFromTitle(issues[i].title) == id;
    var e := Listed(i, issues[i].title);
    PrefixFindsItsId(id, e.title);
    ListedExactly(issues, e);
    FirstMatchFinds(Page(issues), e, Prefix(id));
  }

  lemma FirstMatchFinds(page: seq<Listed>, e: Listed, prefix: string)
    requires e in page && prefix <= e.title
    ensures FirstMatch(page, prefix) < |page|
  {
    var j :| 0 <= j < |page| && page[j] == e;
  }

  lemma AddKeepsTidy(issues: seq<Issue>, id: string, description: string, ids: set<string>)
    requires Tidy(issues, ids)
    requires id in ids && ColonFree(id) && id !in OpenIds(issues)
    ensures Tidy(issues + [Issue(Title(id, description), true, true)], ids)
  {
    TitleGivesCut(id, description);
    TitleRoundTrip(id, description);
    var after := issues + [Issue(Title(id, description), true, true)];
    assert after[..|after| - 1] == issues;
    OpenIdsOfLast(after);
    forall i | 0 <= i < |issues| && issues[i].Tracked() ensures IdFromTitle(issues[i].title) != id {
      assert IdFromTitle(issues[i].title) in OpenIds(issues);
    }
  }

  lemma CloseKeepsTidy(issues: seq<Issue>, n: nat, ids: set<string>)
    requires Tidy(issues, ids) && n < |issues|
    ensures Tidy(issues[n := issues[n].(open := false)], ids)
  {
    var after := issues[n := issues[n].(open := false)];
    forall id | id in OpenIds(after) ensures id in ids {
      var i :| 0 <= i < |after| && after[i].Tracked() && IdFromTitle(after[i].title) == id;
      assert after[i] == issues[i];
      assert id in OpenIds(issues);
    }
  }

  lemma StepKeepsTidy(issues: seq<Issue>, op: Op, ids: set<string>)
    requires Tidy(issues, ids) && |ids| <= PER_PAGE
    requires op.id in ids && ColonFree(op.id)
    ensures Tidy(Step(issues, op), ids)
  {
    StepTouchesOnlyItsId(issues, op);
    var after := Step(issues, op);
    if |after| > |issues| {
      PageIsComplete(issues, ids);
      if op.id in OpenIds(issues) {
        OpenIdIsFound(issues, op.id);
      }
      AddKeepsTidy(issues, op.id, op.description, ids);
    } else if after != issues {
      var n :| 0 <= n < |issues| && after == issues[n := issues[n].(open := false)];
      CloseKeepsTidy(issues, n, ids);
    }
  }

  // ---- What an Ensure answers ----

  /** Issue n is open, labelled, and of this ID. */
  predicate IsOpenIssue(issues: seq<Issue>, n: nat, id: string) {
    n < |issues| && issues[n].open && issues[n].labelled && IdFromTitle(issues[n].title) == id
  }

  /** Some issue on the page is of this ID. */
  ghost predicate OnFirstPage(issues: seq<Issue>, id: string) {
    exists e :: e in Page(issues) && IdFromTitle(e.title) == id
  }

  lemma FoundOnPage(issues: seq<Issue>, id: string)
    requires AllRaised(issues) && ColonFree(id)
    ensures var k := FirstMatch(Page(issues), Prefix(id));
      && (k < |Page(issues)| <==> OnFirstPage(issues, id))
      && (k < |Page(issues)| ==> IsOpenIssue(issues, Page(issues)[k].number, id))
  {
    hide IdFromTitle;
    var page := Page(issues);
    var k := FirstMatch(page, Prefix(id));
    if k < |page| {
      PageEntry(issues, k);
      PrefixFindsItsId(id, page[k].title);
      assert page[k] in page;
    }
    if e :| e in page && IdFromTitle(e.title) == id {
      var i :| 0 <= i < |page| && page[i] == e;
      PageEntry(issues, i);
      PrefixFindsItsId(id, e.title);
      FirstMatchFinds(page, e, Prefix(id));
    }
  }

  /** What an Ensure answers names an open issue of its own ID: one that was on the page, and then nothing
      was written, or the one it created, with the given title. It answers with an error exactly when a
      call it needed did not go through, and says that issues are unavailable exactly when that call did. */
  lemma EnsureNamesItsIssue(issues: seq<Issue>, id: string, description: string, list: Fate, create: Fate)
    requires AllRaised(issues) && ColonFree(id)
    ensures var (after, out, _) := EnsureStep(issues, id, description, list, create);
      var decisive := if list.Good? && !OnFirstPage(issues, id) then create else list;
      && (out.Url? <==> decisive.Good?)
      && (out.IssuesUnavailable? <==> decisive.Unavailable?)
      && (out.Failed? <==> decisive.Lost? || decisive.Refused?)
      && (out.Url? ==>
            && IsOpenIssue(after, out.number, id)
            && (OnFirstPage(issues, id) ==> after == issues)
            && (!OnFirstPage(issues, id) ==> out.number == |issues| && after[out.number].title == Title(id, description)))
  {
    FoundOnPage(issues, id);
    TitleRoundTrip(id, description);
  }

  /** A Close errs exactly when a call it needed did not go through, in the same two ways. */
  lemma CloseAnswers(issues: seq<Issue>, id: string, list: Fate, close: Fate)
    requires AllRaised(issues) && ColonFree(id)
    ensures var (after, out, _) := CloseStep(issues, id, list, close);
      var decisive := if list.Good? && OnFirstPage(issues, id) then close else list;
      && (out.Nothing? <==> decisive.Good?)
      && (out.IssuesUnavailable? <==> decisive.Unavailable?)
      && (out.Failed? <==> decisive.Lost? || decisive.Refused?)
  {
    FoundOnPage(issues, id);
  }

  /** However the calls of a run fail, and also when replies get lost, a repo never has two open
      audit-finding issues for one ID. */
  lemma {:induction false} RunsNeverDuplicate(issues: seq<Issue>, ops: seq<Op>, ids: set<string>)
    requires Tidy(issues, ids) && |ids| <= 100
    requires forall op :: op in ops ==> op.id in ids && ColonFree(op.id)
    ensures OnePerId(Run(issues, ops))
    ensures Page(Run(issues, ops)) == OpenListed(Run(issues, ops))
    ensures OpenIds(Run(issues, ops)) <= ids
    decreases |ops|
  {
    if ops == [] {
      PageIsComplete(issues, ids);
    } else {
      StepKeepsTidy(issues, ops[0], ids);
      RunsNeverDuplicate(Step(issues, ops[0]), ops[1..], ids);
    }
  }

  /** Without the bound on IDs: an acknowledged Ensure keeps one issue per ID exactly when the
      ID's open issue, if it has one, is on the first page. */
  lemma EnsureDuplicatesOffPage(issues: seq<Issue>, id: string, description: string)
    requires AllRaised(issues) && OnePerId(issues) && ColonFree(id)
    ensures OnePerId(EnsureStep(issues, id, description, Good, Good).0) <==>
            (id in OpenIds(issues) ==> FirstMatch(Page(issues), Prefix(id)) < |Page(issues)|)
  {
    var after := EnsureStep(issues, id, description, Good, Good).0;
    if FirstMatch(Page(issues), Prefix(id)) == |Page(issues)| {
      TitleRoundTrip(id, description);
      var n := |issues|;
      assert after[n] == Issue(Title(id, description), true, true);
      if id in OpenIds(issues) {
        var i :| 0 <= i < |issues| && issues[i].Tracked() && IdFromTitle(issues[i].title) == id;
        assert after[i] == issues[i];
      } else {
        forall i | 0 <= i < n && issues[i].Tracked() ensures IdFromTitle(issues[i].title) != id {
          assert IdFromTitle(issues[i].title) in OpenIds(issues);
        }
      }
    }
  }

  /** A step adds at most one issue, titled for its own ID, or closes one tracked issue of its own
      prefix; nothing else changes, whatever the fates and the ID. */
  lemma StepTouchesOnlyItsId(issues: seq<Issue>, op: Op)
    ensures var after := Step(issues, op);
            || after == issues
            || (op.EnsureOp? && after == issues + [Issue(Title(op.id, op.description), true, true)])
            || (op.CloseOp? && exists n :: 0 <= n < |issues| && issues[n].Tracked()
                                           && Prefix(op.id) <= issues[n].title
                                           && after == issues[n := issues[n].(open := false)])
  {
    var k := FirstMatch(Page(issues), Prefix(op.id));
    if k < |Page(issues)| {
      PageEntry(issues, k);
    }
  }
}
