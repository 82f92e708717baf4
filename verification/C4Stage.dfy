/** The whole C4 stage: fetch the sources, assemble the model, route its divergences, write its texts back. */
module C4Stage {
  import opened C4Mermaid
  import opened C4Model
  import opened C4Producers
  import opened C4Report
  import opened C4Routing
  import opened IssueTracker
  import opened Sorting
  import opened Wrappers
  import WriteBack

  datatype ConfigFile = FetchFailed | Missing | Found

  datatype Writer = NotConfigured | NoToken | Ready

  /** What happens before there is anything to commit. `tracker` says whether divergences can be routed. */
  datatype Stages = Stages(token: bool, systems: bool, config: ConfigFile, tracker: bool, writer: Writer)

  datatype StageError = Nil | TokenError | SystemsError | ConfigError | WriterError | CommitErrors(paths: seq<string>)

  predicate SourcesFetched(st: Stages) {
    st.token && st.systems && st.config.Found?
  }

  predicate Reached(st: Stages) {
    SourcesFetched(st) && st.writer.Ready?
  }

  /** The whole routine, for any iteration orders. `model` and `names` are what it generated. Divergences are
      routed as soon as there is a model, also when nothing can be written back afterwards. */
  method GenerateAndCommit(st: Stages, gh: GitHub, api: WriteBack.ContentsApi, s: Estate, entryOrder: seq<string>,
      producerOrder: seq<string>, checkOrder: System -> seq<string>, repoOrder: seq<string>)
    returns (err: StageError, ghost model: Model, ghost names: seq<string>)
    requires forall x :: x in s.systems && s.probe(x).Answered? ==> Enumerates(checkOrder(x), s.probe(x).checks.Keys)
    requires s.config.Parsed? ==> Enumerates(entryOrder, s.config.entries.Keys)
    requires s.producers.Some? ==> Enumerates(producerOrder, s.producers.value.Keys)
    requires Enumerates(repoOrder, Candidates(s.org, SystemIds(s.systems)))
    modifies gh, api
    ensures SourcesFetched(st) ==> Assembled(s, model) && NodesOf(model, names)
    ensures World(gh.repos, gh.calls) ==
      if SourcesFetched(st) && st.tracker then RouteAll(World(old(gh.repos), old(gh.calls)), repoOrder, model.divergences, gh.script)
      else World(old(gh.repos), old(gh.calls))
    ensures api.View() ==
      if Reached(st) then WriteBack.CommitAll(old(api.View()), api.world, Artifacts(model, names)).0 else old(api.View())
    ensures err == TokenError <==> !st.token
    ensures err == SystemsError <==> st.token && !st.systems
    ensures err == ConfigError <==> st.token && st.systems && !st.config.Found?
    ensures err == WriterError <==> SourcesFetched(st) && !st.writer.Ready?
    ensures Reached(st) ==>
      var failed := WriteBack.CommitAll(old(api.View()), api.world, Artifacts(model, names)).1;
      err == if failed == [] then Nil else CommitErrors(failed)
  {
    hide Assembled, NodesOf, Artifacts, WriteBack.CommitAll, Enumerates, RouteAll;
    model, names := Model([], [], [], [], [], [], []), [];
    if !st.token { return TokenError, model, names; }
    if !st.systems { return SystemsError, model, names; }
    if !st.config.Found? { return ConfigError, model, names; }
    var m := AssembleModel(s, entryOrder, producerOrder, checkOrder);
    if st.tracker {
      SameCandidates(s, m);
      RouteDivergencesToIssues(gh, s.org, SystemIds(m.systems), m.divergences, repoOrder);
    }
    var artifacts, connected := GenerateArtifacts(m);
    model, names := m, connected;
    if !st.writer.Ready? { return WriterError, model, names; }
    var failed := api.Commit(artifacts);
    err := if failed == [] then Nil else CommitErrors(failed);
  }

  lemma SameCandidates(s: Estate, m: Model)
    requires Assembled(s, m)
    ensures Candidates(s.org, SystemIds(m.systems)) == Candidates(s.org, SystemIds(s.systems))
  {
    hide SyncAssembled, AllNames, AllMissing, SystemLe, ElementsBuilt, ProducersParsed, Domains, WebhooksParsed;
    SystemIdsAre(m.systems);
    SystemIdsAre(s.systems);
    SameElements(m.systems, s.systems);
  }
}
