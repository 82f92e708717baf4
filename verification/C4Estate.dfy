/** What an assembled model holds, in the estate's own fields: which edges, elements, divergences and
    unreachable systems there are, and in which order. */
module C4Estate {
  import opened C4Routing
  import opened C4Producers
  import opened C4Webhooks
  import opened C4WebhooksOrder
  import opened C4Model
  import opened Sorting
  import opened Wrappers

  // ---- Domains and URLs ----

  /** The last of the systems with this domain has this ID. */
  ghost predicate Owns(systems: seq<System>, domain: string, id: string) {
    && domain != ""
    && exists i :: 0 <= i < |systems| && systems[i].domain == domain && systems[i].id == id
                   && forall j :: i < j < |systems| ==> systems[j].domain != domain
  }

  lemma {:induction false} DomainsExactly(systems: seq<System>, hosts: map<string, string>, domain: string)
    ensures var owned := domain != "" && exists x :: x in systems && x.domain == domain;
            var all := Domains(systems, hosts);
            && (domain in all <==> owned || domain in hosts)
            && (owned ==> Owns(systems, domain, all[domain]))
            && (!owned && domain in hosts ==> all[domain] == hosts[domain])
    decreases |systems|
  {
    if systems != [] {
      var rest, next := systems[1..], if systems[0].domain != "" then hosts[systems[0].domain := systems[0].id] else hosts;
      DomainsExactly(rest, next, domain);
      assert systems == [systems[0]] + rest;
      if domain != "" && exists x :: x in rest && x.domain == domain {
        var i :| 0 <= i < |rest| && rest[i].domain == domain && rest[i].id == Domains(rest, next)[domain]
                 && forall j :: i < j < |rest| ==> rest[j].domain != domain;
        assert systems[i + 1] == rest[i];
      } else if systems[0].domain == domain {
        assert forall j :: 0 < j < |systems| ==> systems[j] in rest;
      }
    }
  }

  /** The lookup resolves a domain to the last system that has it. */
  lemma LookupExactly(systems: seq<System>, domain: string, id: string)
    ensures domain in Domains(systems, map[]) && Domains(systems, map[])[domain] == id <==> Owns(systems, domain, id)
    ensures domain in Domains(systems, map[]) <==> domain != "" && exists x :: x in systems && x.domain == domain
  {
    DomainsExactly(systems, map[], domain);
    if Owns(systems, domain, id) {
      var i :| 0 <= i < |systems| && systems[i].domain == domain && systems[i].id == id
               && forall j :: i < j < |systems| ==> systems[j].domain != domain;
      assert systems[i] in systems;
    }
  }

  /** The URL has this host between its second slash and its third, or its end. */
  ghost predicate HasHost(url: string, host: string) {
    exists scheme: string, between: string, path: string :: Splits(url, scheme, between, host, path)
  }

  ghost predicate Splits(url: string, scheme: string, between: string, host: string, path: string) {
    && url == scheme + "/" + between + "/" + host + path
    && '/' !in scheme && '/' !in between && '/' !in host && (path == "" || path[0] == '/')
  }

  lemma {:induction false} AfterSplits(c: char, s: string) returns (head: string)
    ensures After(c, s).None? ==> c !in s
    ensures After(c, s).Some? ==> s == head + [c] + After(c, s).value && c !in head
  {
    head := [];
    if s != [] && s[0] != c {
      var rest := AfterSplits(c, s[1..]);
      head := [s[0]] + rest;
    }
  }

  lemma {:induction false} UpToSlashSplits(s: string) returns (path: string)
    ensures s == UpToSlash(s) + path && '/' !in UpToSlash(s) && (path == "" || path[0] == '/')
  {
    path := s;
    if s != [] && s[0] != '/' {
      path := UpToSlashSplits(s[1..]);
    }
  }

  lemma HostExactly(url: string, host: string)
    ensures Host(url) == Some(host) <==> HasHost(url, host)
  {
    if Host(url) == Some(host) {
      var scheme := AfterSplits('/', url);
      var rest := After('/', url).value;
      var between := AfterSplits('/', rest);
      var path := UpToSlashSplits(After('/', rest).value);
      assert Splits(url, scheme, between, host, path);
    }
    if scheme: string, between: string, path: string :| Splits(url, scheme, between, host, path) {
      SplitGivesHost(url, scheme, between, host, path);
    }
  }

  lemma SplitGivesHost(url: string, scheme: string, between: string, host: string, path: string)
    requires Splits(url, scheme, between, host, path)
    ensures Host(url) == Some(host)
  {
    assert url == scheme + ['/'] + (between + "/" + host + path);
    AfterSkips('/', scheme, between + "/" + host + path);
    assert between + "/" + host + path == between + ['/'] + (host + path);
    AfterSkips('/', between, host + path);
    UpToSlashStops(host, path);
  }

  // ---- Event consumers ----

  /** The configuration lists a URL of this host for the event; the token table is no event. */
  ghost predicate Lists(s: Estate, event: string, host: string) {
    && s.config.Parsed? && event in s.config.entries && event != "consumerTokens"
    && s.config.entries[event].Urls?
    && exists url :: url in s.config.entries[event].urls && HasHost(url, host)
  }

  lemma {:induction false} ResolvingExactly(urls: seq<string>, hosts: map<string, string>, consumer: string)
    ensures Resolving(urls, hosts, consumer) > 0 <==> exists url :: url in urls && Resolves(url, hosts, consumer)
  {
    hide Resolves;
    if urls != [] {
      ResolvingExactly(urls[1..], hosts, consumer);
      assert urls == [urls[0]] + urls[1..];
    }
  }

  lemma ListedExactly(s: Estate, systems: seq<System>, entries: map<string, Entry>, event: string, consumer: string)
    requires s.config == Parsed(entries)
    ensures Resolving(Listed(entries, event), Domains(systems, map[]), consumer) > 0 <==>
      exists host :: Lists(s, event, host) && Owns(systems, host, consumer)
  {
    hide Domains, HasHost, Owns, Host, Resolving;
    var hosts, urls := Domains(systems, map[]), Listed(entries, event);
    ResolvingExactly(urls, hosts, consumer);
    assert CONSUMER_TOKENS == "consumerTokens";
    forall url, host ensures Host(url) == Some(host) <==> HasHost(url, host) {
      HostExactly(url, host);
    }
    if url :| url in urls && Resolves(url, hosts, consumer) {
      var host := Host(url).value;
      assert Host(url) == Some(host);
      LookupExactly(systems, host, consumer);
    }
    if host :| Lists(s, event, host) && Owns(systems, host, consumer) {
      LookupExactly(systems, host, consumer);
      var url :| url in urls && HasHost(url, host);
      assert Host(url) == Some(host);
      assert Resolves(url, hosts, consumer);
    }
  }

  /** A consumer edge is there exactly when the configuration lists, for its event, a URL of a host that
      is the consumer's domain. */
  lemma ConsumersExactly(s: Estate, m: Model, e: AsyncEdge)
    requires Assembled(s, m)
    ensures e in m.asyncEdges <==> exists host :: Lists(s, e.event, host) && Owns(m.systems, host, e.consumer)
  {
    hide SyncAssembled, AllNames, AllMissing, SyncLe, SystemLe, MessageLe, ElementsBuilt, ProducersParsed, Domains, MayReturn, HasHost, Owns, Resolving, Listed;
    var hosts := Domains(m.systems, map[]);
    var asyncDivs :| WebhooksParsed(s, hosts, m.asyncEdges, asyncDivs);
    if s.config.Parsed? {
      var entries := s.config.entries;
      var order :| Enumerates(order, entries.Keys) && MayReturn(order, entries, hosts, s.org, m.asyncEdges, asyncDivs);
      EveryUrlOneEdge(order, order, entries, hosts, s.org, m.asyncEdges, m.asyncEdges, asyncDivs, asyncDivs);
      ListedExactly(s, m.systems, entries, e.event, e.consumer);
      assert e in m.asyncEdges <==> multiset(m.asyncEdges)[e] > 0;
    }
  }

  // ---- Event producers ----

  /** Loganne is asked for producers, and answers: it is what some domain resolves to. */
  ghost predicate Probed(s: Estate, m: Model) {
    s.producers.Some? && exists domain :: Owns(m.systems, domain, "lucos_loganne")
  }

  /** Configy has a system, a component or a script of this ID. */
  ghost predicate Known(s: Estate, id: string) {
    || (exists x :: x in s.systems && x.id == id)
    || (s.components.Some? && id in s.components.value)
    || (s.scripts.Some? && id in s.scripts.value)
  }

  lemma ProbedExactly(s: Estate, m: Model)
    ensures var hosts := Domains(m.systems, map[]);
      Produced(s, hosts) == if Probed(s, m) then s.producers.value else map[]
    ensures forall id :: id in ValidSources(s) <==> Known(s, id)
  {
    hide Domains, Owns;
    var hosts := Domains(m.systems, map[]);
    assert LOGANNE == "lucos_loganne";
    if LOGANNE in hosts.Values {
      var domain :| domain in hosts && hosts[domain] == LOGANNE;
      LookupExactly(m.systems, domain, LOGANNE);
    }
    if domain :| Owns(m.systems, domain, LOGANNE) {
      LookupExactly(m.systems, domain, LOGANNE);
    }
  }

  /** An observed edge is drawn as often as it was observed exactly when configy knows its source. */
  lemma ProducersExactly(s: Estate, m: Model, e: ProducerEdge)
    requires Assembled(s, m)
    ensures multiset(m.producerEdges)[e] ==
      if Probed(s, m) && e.source in s.producers.value && Known(s, e.source) then multiset(s.producers.value[e.source])[e.event] else 0
  {
    hide SyncAssembled, AllNames, AllMissing, SyncLe, SystemLe, MessageLe, ElementsBuilt, ProducerLe, Domains, WebhooksParsed, ValidSources, Known, Probed, ProducerDivergence;
    ProbedExactly(s, m);
  }

  /** An element is declared for exactly the drawn sources that are no system, as the script or else the
      component that configy has. */
  lemma ElementsExactly(s: Estate, m: Model, x: ProducerElement)
    requires Assembled(s, m)
    ensures x in m.elements <==>
      && (exists e :: e in m.producerEdges && e.source == x.id)
      && (forall y :: y in s.systems ==> y.id != x.id)
      && x.kind == if s.scripts.Some? && x.id in s.scripts.value then "script" else "component"
  {
    hide SyncAssembled, AllNames, AllMissing, SyncLe, SystemLe, MessageLe, ElementLe, Domains, WebhooksParsed, ValidSources, ProducersParsed, Ordered;
    SameElements(m.systems, s.systems);
    assert x.id in IdSet(m.systems) <==> exists y :: y in s.systems && y.id == x.id;
    if e :| e in m.producerEdges && e.source == x.id {
      ProducersExactly(s, m, e);
      assert multiset(m.producerEdges)[e] > 0;
      KindExactly(s, x.id);
    }
  }

  lemma KindExactly(s: Estate, id: string)
    requires Known(s, id)
    ensures (exists y :: y in s.systems && y.id == id)
         || KindOf(Kinds(s), id) == if s.scripts.Some? && id in s.scripts.value then "script" else "component"
  {
  }

  // ---- Dependencies and unreachable systems ----

  /** The system has a domain, is not loganne, and some check in its answer names this dependency. */
  ghost predicate DependsOn(s: Estate, x: System, to: string) {
    && x.domain != "" && x.id != "lucos_loganne" && s.probe(x).Answered? && to != ""
    && exists check :: check in s.probe(x).checks && to in s.probe(x).checks[check]
  }

  lemma {:induction false} NonEmptyExactly(deps: seq<string>, to: string)
    ensures to in NonEmpty(deps) <==> to in deps && to != ""
  {
    if deps != [] {
      NonEmptyExactly(deps[1..], to);
      assert deps == [deps[0]] + deps[1..];
    }
  }

  lemma {:induction false} DepsExactly(order: seq<string>, checks: map<string, seq<string>>, to: string)
    ensures to in DepsOf(order, checks) <==>
      to != "" && exists check :: check in order && check in checks && to in checks[check]
  {
    hide NonEmpty;
    if order != [] {
      DepsExactly(order[1..], checks, to);
      assert order == [order[0]] + order[1..];
      if order[0] in checks { NonEmptyExactly(checks[order[0]], to); }
    }
  }

  lemma EdgesExactly(s: Estate, x: System, order: seq<string>, e: SyncEdge)
    requires s.probe(x).Answered? ==> Enumerates(order, s.probe(x).checks.Keys)
    ensures e in EdgesOf(x, s.probe(x), order) <==> e.from == x.id && DependsOn(s, x, e.to)
  {
    assert LOGANNE == "lucos_loganne";
    if s.probe(x).Answered? {
      var deps := DepsOf(order, s.probe(x).checks);
      DepEdgesCount(x.id, deps, e);
      DepsExactly(order, s.probe(x).checks, e.to);
      assert e in DepEdges(x.id, deps) <==> multiset(DepEdges(x.id, deps))[e] > 0;
      assert e.to in deps <==> multiset(deps)[e.to] > 0;
    }
  }

  lemma {:induction false} AllSyncExactly(s: Estate, systems: seq<System>, orders: seq<seq<string>>, e: SyncEdge)
    requires ChecksIterated(systems, s.probe, orders)
    ensures e in AllSync(systems, s.probe, orders) <==> exists x :: x in systems && e.from == x.id && DependsOn(s, x, e.to)
  {
    hide EdgesOf, DependsOn, Enumerates;
    if systems != [] {
      EdgesExactly(s, systems[0], orders[0], e);
      AllSyncExactly(s, systems[1..], orders[1..], e);
      assert systems == [systems[0]] + systems[1..];
    }
  }

  /** A dependency edge is there exactly when a system with that ID names the dependency. */
  lemma SyncExactly(s: Estate, m: Model, e: SyncEdge)
    requires Assembled(s, m)
    ensures e in m.syncEdges <==> exists x :: x in s.systems && e.from == x.id && DependsOn(s, x, e.to)
  {
    hide AllNames, AllMissing, SyncLe, SystemLe, MessageLe, ElementsBuilt, ProducersParsed, Domains, WebhooksParsed, AllSync, DependsOn, Enumerates;
    SameElements(m.systems, s.systems);
    var orders :| ChecksIterated(m.systems, s.probe, orders) && Sorts(m.syncEdges, AllSync(m.systems, s.probe, orders), SyncLe);
    SameElements(m.syncEdges, AllSync(m.systems, s.probe, orders));
    AllSyncExactly(s, m.systems, orders, e);
  }

  lemma {:induction false} MissingExactly(systems: seq<System>, probe: System -> Probe, id: string)
    ensures id in AllMissing(systems, probe) <==>
      exists x :: x in systems && x.id == id && x.domain != "" && probe(x) == Unreachable
  {
    if systems != [] {
      MissingExactly(systems[1..], probe, id);
      assert systems == [systems[0]] + systems[1..];
    }
  }

  /** Reported as unreachable are exactly the systems with a domain that gave no usable answer. */
  lemma UnreachableExactly(s: Estate, m: Model, id: string)
    requires Assembled(s, m)
    ensures id in m.unreachable <==>
      exists x :: x in s.systems && x.id == id && x.domain != "" && s.probe(x) == Unreachable
  {
    hide AllNames, AllMissing, SyncAssembled, SystemLe, MessageLe, ElementsBuilt, ProducersParsed, Domains, WebhooksParsed, StrLe;
    SameElements(m.systems, s.systems);
    SameElements(m.unreachable, AllMissing(m.systems, s.probe));
    MissingExactly(m.systems, s.probe, id);
  }

  // ---- Divergences ----

  /** A system that reports another name than its configy ID. */
  ghost predicate Misnamed(s: Estate, x: System, d: Divergence) {
    && x.domain != "" && s.probe(x).Answered?
    && s.probe(x).reported != "" && s.probe(x).reported != x.id
    && d.repo == s.org + "/" + x.id && d.id == "c4-" + "info-system-name-divergence"
    && d.message ==
      "- `" + x.id + "` (configy) reports `system: " + s.probe(x).reported + "` in /_info on " + x.domain
  }

  /** A listed URL whose host is no system's domain. */
  ghost predicate Unmatched(s: Estate, event: string, host: string) {
    Lists(s, event, host) && !exists x :: x in s.systems && x.domain == host && host != ""
  }

  ghost predicate Targets(s: Estate, event: string, host: string, d: Divergence) {
    && d.repo == s.org + "/lucos_loganne"
    && d.id == "c4-" + "loganne-webhook-target-" + DslIdent(event) + "-" + DslIdent(host)
    && d.message == "- loganne event `" + event + "` -> `" + host + "` has no matching configy system"
  }

  ghost predicate Garbled(s: Estate, d: Divergence) {
    && s.config.Unparseable?
    && d.repo == s.org + "/lucos_loganne" && d.id == "c4-" + "loganne-webhooks-config-unparseable"
    && d.message == "- failed" + " to parse loganne webhooks-config.json: " + s.config.reason
  }

  /** An observed source that configy knows as nothing. */
  ghost predicate Stray(s: Estate, m: Model, source: string, d: Divergence) {
    && Probed(s, m) && source in s.producers.value && !Known(s, source)
    && d.repo == s.org + "/lucos_loganne" && d.id == "c4-" + "loganne-producer-" + DslIdent(source)
    && d.message == "- loganne producer `" + source + "` is not a known configy system, component, or script"
  }

  lemma NameExactly(s: Estate, x: System, d: Divergence)
    ensures d in DivergencesOf(s.org, x, s.probe(x)) <==> Misnamed(s, x, d)
  {
    assert NAME_ID == "c4-" + "info-system-name-divergence";
    if Misnamed(s, x, d) {
      assert d == NameDivergence(s.org, x, s.probe(x).reported);
    }
  }

  lemma {:induction false} NamesExactly(s: Estate, systems: seq<System>, d: Divergence)
    ensures d in AllNames(s.org, systems, s.probe) <==> exists x :: x in systems && Misnamed(s, x, d)
  {
    hide DivergencesOf, Misnamed;
    if systems != [] {
      NameExactly(s, systems[0], d);
      NamesExactly(s, systems[1..], d);
      assert systems == [systems[0]] + systems[1..];
    }
  }

  lemma UnmatchedExactly(s: Estate, systems: seq<System>, event: string, host: string)
    requires s.config.Parsed? && multiset(systems) == multiset(s.systems)
    ensures UnknownTarget(s.config.entries, Domains(systems, map[]), event, host) <==> Unmatched(s, event, host)
  {
    hide Domains, HasHost, Host;
    SameElements(systems, s.systems);
    LookupExactly(systems, host, "");
    assert CONSUMER_TOKENS == "consumerTokens";
    forall url ensures Host(url) == Some(host) <==> HasHost(url, host) {
      HostExactly(url, host);
    }
  }

  /** The three parts that the divergences are sorted from. */
  lemma Parts(s: Estate, m: Model) returns (webhooks: seq<Divergence>, producers: seq<Divergence>)
    requires Assembled(s, m)
    ensures WebhooksParsed(s, Domains(m.systems, map[]), m.asyncEdges, webhooks)
    ensures forall d :: d in producers <==> exists source :: Stray(s, m, source, d)
    ensures forall d :: d in m.divergences <==>
      (exists x :: x in s.systems && Misnamed(s, x, d)) || d in webhooks || d in producers
  {
    hide SyncAssembled, AllMissing, AllNames, SyncLe, SystemLe, MessageLe, ElementsBuilt, ProducerLe, Domains, WebhooksParsed, ValidSources, Known, Probed, Misnamed, Ordered, Observed;
    var hosts := Domains(m.systems, map[]);
    webhooks, producers :|
      && WebhooksParsed(s, hosts, m.asyncEdges, webhooks)
      && ProducersParsed(Produced(s, hosts), ValidSources(s), s.org, m.producerEdges, producers)
      && Sorts(m.divergences, AllNames(s.org, m.systems, s.probe) + webhooks + producers, MessageLe);
    ProbedExactly(s, m);
    SameElements(m.systems, s.systems);
    SameElements(m.divergences, AllNames(s.org, m.systems, s.probe) + webhooks + producers);
    forall d ensures d in AllNames(s.org, m.systems, s.probe) <==> exists x :: x in s.systems && Misnamed(s, x, d) {
      NamesExactly(s, m.systems, d);
    }
    forall d ensures d in producers <==> exists source :: Stray(s, m, source, d) {
      StraysExactly(s, m, hosts, m.producerEdges, producers, d);
    }
  }

  lemma StraysExactly(s: Estate, m: Model, hosts: map<string, string>, edges: seq<ProducerEdge>, producers: seq<Divergence>, d: Divergence)
    requires ProducersParsed(Produced(s, hosts), ValidSources(s), s.org, edges, producers) && hosts == Domains(m.systems, map[])
    ensures d in producers <==> exists source :: Stray(s, m, source, d)
  {
    hide MessageLe, ProducerLe, Domains, ValidSources, Known, Probed, Ordered, Observed;
    ProbedExactly(s, m);
    if source :| source in Produced(s, hosts) && source !in ValidSources(s) && d == ProducerDivergence(s.org, source) {
      assert Stray(s, m, source, d);
    }
    if source :| Stray(s, m, source, d) {
      assert d == ProducerDivergence(s.org, source);
    }
  }

  /** Every divergence is a misnamed system's, an unmatched webhook target's, that of a configuration that
      does not parse, or a stray producer's. */
  lemma DivergencesAre(s: Estate, m: Model, d: Divergence)
    requires Assembled(s, m) && d in m.divergences
    ensures (exists x :: x in s.systems && Misnamed(s, x, d)) || Garbled(s, d)
      || (exists event, host :: Unmatched(s, event, host) && Targets(s, event, host, d))
      || (exists source :: Stray(s, m, source, d))
  {
    hide Assembled, Misnamed, Unmatched, Stray, Domains, MayReturn;
    var webhooks, producers := Parts(s, m);
    if s.config.Parsed? && d in webhooks {
      var entries, hosts := s.config.entries, Domains(m.systems, map[]);
      var order :| Enumerates(order, entries.Keys) && MayReturn(order, entries, hosts, s.org, m.asyncEdges, webhooks);
      OneDivergencePerId(order, entries, hosts, s.org, m.asyncEdges, webhooks);
      var event, host :| UnknownTarget(entries, hosts, event, host) && d == TargetDivergence(s.org, event, host);
      SystemsPermuted(s, m);
      UnmatchedExactly(s, m.systems, event, host);
      assert Targets(s, event, host, d);
    }
  }

  lemma SystemsPermuted(s: Estate, m: Model)
    requires Assembled(s, m)
    ensures multiset(m.systems) == multiset(s.systems)
  {
  }

  /** And each of these has its divergence; for a webhook target it is one of its ID. */
  lemma DivergencesCover(s: Estate, m: Model, d: Divergence)
    requires Assembled(s, m)
    ensures (exists x :: x in s.systems && Misnamed(s, x, d)) || Garbled(s, d) || (exists source :: Stray(s, m, source, d))
      ==> d in m.divergences
    ensures forall event, host :: Unmatched(s, event, host) ==>
      "c4-" + "loganne-webhook-target-" + DslIdent(event) + "-" + DslIdent(host) in Ids(m.divergences)
  {
    hide Assembled, Misnamed, Unmatched, Stray, Domains, MayReturn, DslIdent, UnknownTarget;
    var webhooks, producers := Parts(s, m);
    if Garbled(s, d) {
      assert d == UnparseableDivergence(s.org, s.config.reason);
    }
    forall event, host | Unmatched(s, event, host)
      ensures "c4-" + "loganne-webhook-target-" + DslIdent(event) + "-" + DslIdent(host) in Ids(m.divergences)
    {
      UnmatchedIsParsed(s, event, host);
      var entries, hosts := s.config.entries, Domains(m.systems, map[]);
      var order :| Enumerates(order, entries.Keys) && MayReturn(order, entries, hosts, s.org, m.asyncEdges, webhooks);
      OneDivergencePerId(order, entries, hosts, s.org, m.asyncEdges, webhooks);
      SystemsPermuted(s, m);
      UnmatchedExactly(s, m.systems, event, host);
      var e :| e in webhooks && e.id == TargetId(event, host);
      assert e in m.divergences;
    }
  }

  lemma UnmatchedIsParsed(s: Estate, event: string, host: string)
    requires Unmatched(s, event, host)
    ensures s.config.Parsed?
  {
  }

  // ---- Order ----

  /** a stands before b when the first keys say so, or, these being equal, the second. */
  predicate ByBoth(first: string, first': string, second: string, second': string) {
    if first != first' then StrLe(first, first') else StrLe(second, second')
  }

  /** Systems, elements and unreachable systems are sorted by ID, dependencies by dependent and then
      dependency, consumer edges by consumer and then event, producer edges by source and then event, and
      divergences by message. */
  lemma OrderExactly(s: Estate, m: Model, i: nat, j: nat)
    requires Assembled(s, m) && i < j
    ensures j < |m.systems| ==> StrLe(m.systems[i].id, m.systems[j].id)
    ensures j < |m.syncEdges| ==>
      ByBoth(m.syncEdges[i].from, m.syncEdges[j].from, m.syncEdges[i].to, m.syncEdges[j].to)
    ensures j < |m.asyncEdges| ==>
      ByBoth(m.asyncEdges[i].consumer, m.asyncEdges[j].consumer, m.asyncEdges[i].event, m.asyncEdges[j].event)
    ensures j < |m.producerEdges| ==>
      ByBoth(m.producerEdges[i].source, m.producerEdges[j].source, m.producerEdges[i].event, m.producerEdges[j].event)
    ensures j < |m.elements| ==> StrLe(m.elements[i].id, m.elements[j].id)
    ensures j < |m.divergences| ==> StrLe(m.divergences[i].message, m.divergences[j].message)
    ensures j < |m.unreachable| ==> StrLe(m.unreachable[i], m.unreachable[j])
  {
    hide StrLe, AllNames, AllMissing, AllSync, AllEdges, AllTargets, ChecksIterated, Domains, ValidSources, Enumerates, KindOf, ProducerDivergence;
  }
}
