/** From the sources of the model to the tracked issues, end to end. */
module C4Tracked {
  import opened IssueTitles
  import opened IssueTracker
  import opened C4Routing
  import opened C4Convergence
  import opened C4Producers
  import opened C4Webhooks
  import opened C4Model
  import opened Sorting
  import opened Wrappers

  /** After an error-free routing of an assembled model's divergences, each colon-free one is open
      on the repo it names, and every open "c4-" issue of a candidate repo is a current divergence. */
  lemma EveryDivergenceIsTracked(s: Estate, m: Model, w: World, order: seq<string>, script: nat -> Fate)
    requires Assembled(s, m) && Enumerates(order, Candidates(s.org, SystemIds(m.systems)))
    requires ErrorFree(script, w.calls)
    requires forall q :: q in order ==>
      AllRaised(Of(w.repos, q)) && |OpenListed(Of(w.repos, q))| + |ForRepo(m.divergences, q)| <= 100
    ensures forall q :: q in order <==> q == s.org + "/lucos_loganne" || exists x :: x in s.systems && q == s.org + "/" + x.id
    ensures var after := RouteAll(w, order, m.divergences, script).repos;
      && (forall d :: d in m.divergences && ColonFree(d.id) ==> d.id in OpenC4Ids(Of(after, d.repo)))
      && (forall repo, c :: repo in order && c in OpenC4Ids(Of(after, repo)) ==>
          exists d :: d in m.divergences && d.repo == repo && d.id == c)
  {
    hide Assembled, RouteAll, OpenC4Ids, ColonFree, AllRaised, OpenListed, ForRepo;
    DivergencesLandOnCandidates(s, m);
    CandidatesExactly(s, m);
    var after := RouteAll(w, order, m.divergences, script).repos;
    forall d | d in m.divergences && ColonFree(d.id) ensures d.id in OpenC4Ids(Of(after, d.repo)) {
      RouteAllConverges(w, order, m.divergences, script, d.repo);
      ForRepoExactly(m.divergences, d.repo);
    }
    forall repo, c | repo in order && c in OpenC4Ids(Of(after, repo))
      ensures exists d :: d in m.divergences && d.repo == repo && d.id == c
    {
      RouteAllConverges(w, order, m.divergences, script, repo);
      ForRepoExactly(m.divergences, repo);
    }
  }

  /** The candidate repos are those of the systems, and loganne's. */
  lemma CandidatesExactly(s: Estate, m: Model)
    requires Assembled(s, m)
    ensures forall q :: q in Candidates(s.org, SystemIds(m.systems)) <==>
      q == s.org + "/lucos_loganne" || exists x :: x in s.systems && q == s.org + "/" + x.id
  {
    hide SyncAssembled, AllNames, AllMissing, SystemLe, MessageLe, ElementsBuilt, ProducersParsed, Domains, WebhooksParsed;
    SystemIdsAre(m.systems);
    SameElements(m.systems, s.systems);
  }

  /** Exactly which unknown webhook targets get an ID that survives its title: no colon in the event
      name, and none in the host, so no port either. */
  lemma TargetIdSurvivesTitle(event: string, host: string, description: string)
    ensures IdFromTitle(Title(TargetId(event, host), description)) == TargetId(event, host)
      <==> ':' !in event && ':' !in host
  {
    hide IdFromTitle, Title, DslIdent;
    TitleRoundTrip(TargetId(event, host), description);
    TargetIdColons(event, host);
  }

  lemma TargetIdColons(event: string, host: string)
    ensures ColonFree(TargetId(event, host)) <==> ':' !in event && ':' !in host
  {
    hide DslIdent;
    IdentKeepsColons(event);
    IdentKeepsColons(host);
    assert TargetId(event, host) == TARGET_ID + (DslIdent(event) + "-" + DslIdent(host));
  }

  lemma IdentKeepsColons(s: string)
    ensures ':' in DslIdent(s) <==> ':' in s
  {
    if ':' in s {
      var i :| 0 <= i < |s| && s[i] == ':';
      assert DslIdent(s)[i] == ':';
    }
    if ':' in DslIdent(s) {
      var i :| 0 <= i < |s| && DslIdent(s)[i] == ':';
      assert s[i] == ':';
    }
  }
}
