/** Assembling the estate model from its sources. */
module C4Model {
  import opened C4Routing
  import opened C4Producers
  import opened C4Webhooks
  import opened C4WebhooksOrder
  import opened Sorting
  import opened Wrappers

  datatype System = System(id: string, domain: string)

  datatype SyncEdge = SyncEdge(from: string, to: string)

  /** A system's /_info: no usable answer, or its reported name and the dependencies of each check. */
  datatype Probe = Unreachable | Answered(reported: string, checks: map<string, seq<string>>)

  datatype Model = Model(
    systems: seq<System>,
    syncEdges: seq<SyncEdge>,
    asyncEdges: seq<AsyncEdge>,
    producerEdges: seq<ProducerEdge>,
    elements: seq<ProducerElement>,
    divergences: seq<Divergence>,
    unreachable: seq<string>)

  const LOGANNE: string := "lucos_loganne"

  /** Everything fetched: configy's systems, components and scripts (None when the fetch failed),
      the webhook configuration, the observed producers (None when that probe failed) and the
      answers of /_info. */
  datatype Estate = Estate(
    org: string,
    systems: seq<System>,
    components: Option<seq<string>>,
    scripts: Option<seq<string>>,
    config: Config,
    producers: Option<map<string, seq<string>>>,
    probe: System -> Probe)

  function SystemIds(systems: seq<System>): seq<string> {
    if systems == [] then [] else [systems[0].id] + SystemIds(systems[1..])
  }

  lemma {:induction false} SystemIdsAre(systems: seq<System>)
    ensures |SystemIds(systems)| == |systems|
    ensures forall i :: 0 <= i < |systems| ==> SystemIds(systems)[i] == systems[i].id
    ensures forall id :: id in SystemIds(systems) <==> exists s :: s in systems && s.id == id
  {
    if systems != [] {
      SystemIdsAre(systems[1..]);
      assert systems == [systems[0]] + systems[1..];
    }
  }

  function IdSet(systems: seq<System>): set<string> {
    set s | s in systems :: s.id
  }

  predicate SystemLe(a: System, b: System) {
    StrLe(a.id, b.id)
  }

  predicate SyncLe(a: SyncEdge, b: SyncEdge) {
    PairLe(a.from, a.to, b.from, b.to)
  }

  lemma SystemLeIsPreorder()
    ensures Preorder(SystemLe)
    ensures forall a, b :: SystemLe(a, b) && SystemLe(b, a) ==> a.id == b.id
  {
    hide StrLe;
    forall x: System, y: System ensures SystemLe(x, y) || SystemLe(y, x) {
      StrLeTotal(x.id, y.id);
    }
    forall x, y | SystemLe(x, y) && SystemLe(y, x) ensures x.id == y.id {
      StrLeTotal(x.id, y.id);
    }
    forall x, y, z | SystemLe(x, y) && SystemLe(y, z) ensures SystemLe(x, z) {
      StrLeTransitive(x.id, y.id, z.id);
    }
  }

  lemma SyncLeIsPreorder()
    ensures Preorder(SyncLe)
    ensures forall a, b :: SyncLe(a, b) && SyncLe(b, a) ==> a == b
  {
    hide PairLe;
    forall x: SyncEdge, y: SyncEdge ensures SyncLe(x, y) || SyncLe(y, x) {
      PairLeLaws(x.from, x.to, y.from, y.to, "", "");
    }
    forall x, y | SyncLe(x, y) && SyncLe(y, x) ensures x == y {
      PairLeLaws(x.from, x.to, y.from, y.to, "", "");
    }
    forall x, y, z | SyncLe(x, y) && SyncLe(y, z) ensures SyncLe(x, z) {
      PairLeLaws(x.from, x.to, y.from, y.to, z.from, z.to);
    }
  }

  // ---- Dependencies of one /_info answer ----

  function NonEmpty(deps: seq<string>): seq<string> {
    if deps == [] then [] else (if deps[0] != "" then [deps[0]] else []) + NonEmpty(deps[1..])
  }

  function DepsOfCheck(checks: map<string, seq<string>>, check: string): seq<string> {
    if check in checks then NonEmpty(checks[check]) else []
  }

  /** The dependencies of all checks, in the order the checks happen to be iterated. */
  function DepsOf(order: seq<string>, checks: map<string, seq<string>>): seq<string> {
    if order == [] then [] else DepsOfCheck(checks, order[0]) + DepsOf(order[1..], checks)
  }

  lemma {:induction false} DepsMoveFront(order: seq<string>, checks: map<string, seq<string>>, k: nat)
    requires k < |order|
    ensures multiset(DepsOf(order, checks)) ==
      multiset(DepsOfCheck(checks, order[k])) + multiset(DepsOf(order[..k] + order[k + 1..], checks))
  {
    hide DepsOfCheck;
    var rest := order[..k] + order[k + 1..];
    if k > 0 {
      DepsMoveFront(order[1..], checks, k - 1);
      assert order[1..][..k - 1] + order[1..][k..] == rest[1..];
    } else {
      assert rest == order[1..];
    }
  }

  /** Two iterations of the same checks give the same dependencies up to order. */
  lemma {:induction false} DepsIgnoreCheckOrder(order: seq<string>, order': seq<string>, checks: map<string, seq<string>>)
    requires multiset(order) == multiset(order')
    ensures multiset(DepsOf(order, checks)) == multiset(DepsOf(order', checks))
    decreases |order|
  {
    hide DepsOfCheck;
    SameElements(order, order');
    if order != [] {
      assert order[0] in order && order[0] in order';
      var k :| 0 <= k < |order'| && order'[k] == order[0];
      var rest := order'[..k] + order'[k + 1..];
      assert order' == order'[..k] + [order'[k]] + order'[k + 1..];
      assert order == [order[0]] + order[1..];
      assert multiset(rest) == multiset(order') - multiset{order[0]} == multiset(order[1..]);
      DepsMoveFront(order', checks, k);
      DepsIgnoreCheckOrder(order[1..], rest, checks);
    }
  }

  // ---- The sync probes ----

  const NAME_ID: string := ID_PREFIX + "info-system-name-divergence"

  function NameDivergence(org: string, s: System, reported: string): Divergence {
    Divergence(org + "/" + s.id, NAME_ID,
      "- `" + s.id + "` (configy) reports `system: " + reported + "` in /_info on " + s.domain)
  }

  function DepEdges(from: string, deps: seq<string>): seq<SyncEdge> {
    if deps == [] then [] else [SyncEdge(from, deps[0])] + DepEdges(from, deps[1..])
  }

  /** A system is probed when it has a domain; loganne's own dependencies are not sync edges. */
  function EdgesOf(s: System, p: Probe, order: seq<string>): seq<SyncEdge> {
    if s.domain != "" && p.Answered? && s.id != LOGANNE then DepEdges(s.id, DepsOf(order, p.checks)) else []
  }

  function DivergencesOf(org: string, s: System, p: Probe): seq<Divergence> {
    if s.domain != "" && p.Answered? && p.reported != "" && p.reported != s.id
    then [NameDivergence(org, s, p.reported)]
    else []
  }

  function MissingOf(s: System, p: Probe): seq<string> {
    if s.domain != "" && p.Unreachable? then [s.id] else []
  }

  /** orders[i] is the order in which the checks of the i-th system's answer are iterated. */
  function AllSync(systems: seq<System>, probe: System -> Probe, orders: seq<seq<string>>): seq<SyncEdge>
    requires |orders| == |systems|
  {
    if systems == [] then []
    else EdgesOf(systems[0], probe(systems[0]), orders[0]) + AllSync(systems[1..], probe, orders[1..])
  }

  /** Each order is one in which the checks of that system's answer may be iterated. */
  ghost predicate ChecksIterated(systems: seq<System>, probe: System -> Probe, orders: seq<seq<string>>) {
    && |orders| == |systems|
    && forall i :: 0 <= i < |systems| && probe(systems[i]).Answered? ==>
        Enumerates(orders[i], probe(systems[i]).checks.Keys)
  }

  lemma {:induction false} DepEdgesCount(from: string, deps: seq<string>, e: SyncEdge)
    ensures multiset(DepEdges(from, deps))[e] == if e.from == from then multiset(deps)[e.to] else 0
  {
    if deps != [] {
      DepEdgesCount(from, deps[1..], e);
      assert deps == [deps[0]] + deps[1..];
    }
  }

  lemma EdgesIgnoreCheckOrder(s: System, p: Probe, order: seq<string>, order': seq<string>)
    requires p.Answered? ==> Enumerates(order, p.checks.Keys) && Enumerates(order', p.checks.Keys)
    ensures multiset(EdgesOf(s, p, order)) == multiset(EdgesOf(s, p, order'))
  {
    if p.Answered? {
      SameSets(order, order');
      DepsIgnoreCheckOrder(order, order', p.checks);
      forall e ensures multiset(DepEdges(s.id, DepsOf(order, p.checks)))[e] == multiset(DepEdges(s.id, DepsOf(order', p.checks)))[e] {
        DepEdgesCount(s.id, DepsOf(order, p.checks), e);
        DepEdgesCount(s.id, DepsOf(order', p.checks), e);
      }
    }
  }

  /** The sync edges do not depend, up to order, on the iteration order of any answer's checks. */
  lemma {:induction false} SyncIgnoresCheckOrder(systems: seq<System>, probe: System -> Probe, orders: seq<seq<string>>, orders': seq<seq<string>>)
    requires ChecksIterated(systems, probe, orders) && ChecksIterated(systems, probe, orders')
    ensures multiset(AllSync(systems, probe, orders)) == multiset(AllSync(systems, probe, orders'))
  {
    hide EdgesOf, Enumerates;
    if systems != [] {
      EdgesIgnoreCheckOrder(systems[0], probe(systems[0]), orders[0], orders'[0]);
      SyncIgnoresCheckOrder(systems[1..], probe, orders[1..], orders'[1..]);
    }
  }

  function AllNames(org: string, systems: seq<System>, probe: System -> Probe): seq<Divergence> {
    if systems == [] then [] else DivergencesOf(org, systems[0], probe(systems[0])) + AllNames(org, systems[1..], probe)
  }

  function AllMissing(systems: seq<System>, probe: System -> Probe): seq<string> {
    if systems == [] then [] else MissingOf(systems[0], probe(systems[0])) + AllMissing(systems[1..], probe)
  }

  method ProbeSystems(org: string, systems: seq<System>, probe: System -> Probe, orders: seq<seq<string>>)
    returns (edges: seq<SyncEdge>, divs: seq<Divergence>, missing: seq<string>)
    requires |orders| == |systems|
    ensures edges == AllSync(systems, probe, orders)
    ensures divs == AllNames(org, systems, probe)
    ensures missing == AllMissing(systems, probe)
  {
    hide EdgesOf, DivergencesOf, MissingOf;
    edges, divs, missing := [], [], [];
    for i := 0 to |systems|
      invariant AllSync(systems, probe, orders) == edges + AllSync(systems[i..], probe, orders[i..])
      invariant AllNames(org, systems, probe) == divs + AllNames(org, systems[i..], probe)
      invariant AllMissing(systems, probe) == missing + AllMissing(systems[i..], probe)
    {
      assert systems[i..][1..] == systems[i + 1..] && orders[i..][1..] == orders[i + 1..];
      var e, d, m := ProbeSystem(org, systems[i], probe(systems[i]), orders[i]);
      edges, divs, missing := edges + e, divs + d, missing + m;
    }
  }

  method ProbeSystem(org: string, s: System, p: Probe, order: seq<string>)
    returns (edges: seq<SyncEdge>, divs: seq<Divergence>, missing: seq<string>)
    ensures edges == EdgesOf(s, p, order) && divs == DivergencesOf(org, s, p) && missing == MissingOf(s, p)
  {
    edges, divs, missing := [], [], [];
    if s.domain == "" {
      return;
    }
    match p
    case Unreachable =>
      missing := [s.id];
    case Answered(reported, checks) =>
      var deps := CollectDeps(checks, order);
      if reported != "" && reported != s.id {
        divs := [NameDivergence(org, s, reported)];
      }
      if s.id == LOGANNE {
        return;
      }
      for i := 0 to |deps|
        invariant DepEdges(s.id, deps) == edges + DepEdges(s.id, deps[i..])
      {
        assert deps[i..][1..] == deps[i + 1..];
        edges := edges + [SyncEdge(s.id, deps[i])];
      }
  }

  method CollectDeps(checks: map<string, seq<string>>, order: seq<string>) returns (deps: seq<string>)
    ensures deps == DepsOf(order, checks)
  {
    hide NonEmpty;
    deps := [];
    for i := 0 to |order|
      invariant DepsOf(order, checks) == deps + DepsOf(order[i..], checks)
    {
      assert order[i..][1..] == order[i + 1..];
      if order[i] in checks {
        deps := AddNamed(deps, checks[order[i]]);
      }
    }
  }

  /** One check's value: empty names are left out. */
  method AddNamed(before: seq<string>, named: seq<string>) returns (deps: seq<string>)
    ensures deps == before + NonEmpty(named)
  {
    deps := before;
    for k := 0 to |named|
      invariant before + NonEmpty(named) == deps + NonEmpty(named[k..])
    {
      assert named[k..][1..] == named[k + 1..];
      if named[k] != "" {
        deps := deps + [named[k]];
      }
    }
  }

  // ---- Lookups built from configy ----

  function Domains(systems: seq<System>, hosts: map<string, string>): map<string, string>
    decreases |systems|
  {
    if systems == [] then hosts
    else Domains(systems[1..], if systems[0].domain != "" then hosts[systems[0].domain := systems[0].id] else hosts)
  }

  lemma {:induction false} DomainsNameSystems(systems: seq<System>, hosts: map<string, string>)
    ensures forall d :: d in Domains(systems, hosts) ==>
      (d in hosts && Domains(systems, hosts)[d] == hosts[d]) || Domains(systems, hosts)[d] in SystemIds(systems)
    decreases |systems|
  {
    if systems != [] {
      DomainsNameSystems(systems[1..], if systems[0].domain != "" then hosts[systems[0].domain := systems[0].id] else hosts);
    }
  }

  function Elems(ids: Option<seq<string>>): set<string> {
    match ids
    case Some(list) => set id | id in list
    case None => {}
  }

  /** Systems, components and scripts may all produce events. */
  function ValidSources(s: Estate): set<string> {
    IdSet(s.systems) + Elems(s.components) + Elems(s.scripts)
  }

  /** A script's kind wins over a component's. */
  function Kinds(s: Estate): map<string, string> {
    map id | id in Elems(s.components) + Elems(s.scripts) :: if id in Elems(s.scripts) then "script" else "component"
  }

  /** The producers are probed only when some domain is loganne's. */
  function Produced(s: Estate, hosts: map<string, string>): map<string, seq<string>> {
    if s.producers.Some? && LOGANNE in hosts.Values then s.producers.value else map[]
  }

  // ---- The whole model ----

  /** What the generator may build from these sources, whatever order maps are iterated in. */
  ghost predicate Assembled(s: Estate, m: Model) {
    && Sorts(m.systems, s.systems, SystemLe)
    && (var hosts := Domains(m.systems, map[]);
        exists asyncDivs, producerDivs ::
          && WebhooksParsed(s, hosts, m.asyncEdges, asyncDivs)
          && ProducersParsed(Produced(s, hosts), ValidSources(s), s.org, m.producerEdges, producerDivs)
          && Sorts(m.divergences, AllNames(s.org, m.systems, s.probe) + asyncDivs + producerDivs, MessageLe))
    && ElementsBuilt(m.producerEdges, IdSet(m.systems), Kinds(s), m.elements)
    && SyncAssembled(s, m)
    && Sorts(m.unreachable, AllMissing(m.systems, s.probe), StrLe)
  }

  ghost predicate SyncAssembled(s: Estate, m: Model) {
    exists orders :: ChecksIterated(m.systems, s.probe, orders) && Sorts(m.syncEdges, AllSync(m.systems, s.probe, orders), SyncLe)
  }

  ghost predicate WebhooksParsed(s: Estate, hosts: map<string, string>, edges: seq<AsyncEdge>, divs: seq<Divergence>) {
    match s.config
    case Unparseable(reason) => edges == [] && divs == [UnparseableDivergence(s.org, reason)]
    case Parsed(entries) => exists order :: Enumerates(order, entries.Keys) && MayReturn(order, entries, hosts, s.org, edges, divs)
  }

  /** `entryOrder` and `producerOrder` are the orders in which the two decoded maps are iterated, and
      `checkOrder` those of the checks in each system's answer. */
  method AssembleModel(s: Estate, entryOrder: seq<string>, producerOrder: seq<string>, checkOrder: System -> seq<string>)
    returns (m: Model)
    requires forall x :: x in s.systems && s.probe(x).Answered? ==> Enumerates(checkOrder(x), s.probe(x).checks.Keys)
    requires s.config.Parsed? ==> Enumerates(entryOrder, s.config.entries.Keys)
    requires s.producers.Some? ==> Enumerates(producerOrder, s.producers.value.Keys)
    ensures Assembled(s, m)
  {
    hide MayReturn, ProducersParsed, ElementsBuilt, AllNames, AllSync, AllMissing, Domains, ValidSources, Kinds, Enumerates, IdSet;
    SystemLeIsPreorder();
    SyncLeIsPreorder();
    MessageLeIsPreorder();
    StrLeIsPreorder();
    var systems := SortSlice(s.systems, SystemLe);
    var hosts := BuildDomains(systems);
    var asyncEdges, asyncDivs := ParseLoganneWebhooks(s.config, hosts, s.org, entryOrder);
    var producerEdges, producerDivs := ProbeProducers(s, hosts, producerOrder);
    var elements := BuildProducerElements(producerEdges, IdSet(systems), Kinds(s));
    var orders := seq(|systems|, i requires 0 <= i < |systems| => checkOrder(systems[i]));
    SortedChecks(s, systems, checkOrder, orders);
    var sync, names, missing := ProbeSystems(s.org, systems, s.probe, orders);
    var syncEdges := SortSlice(sync, SyncLe);
    var divergences := SortSlice(names + asyncDivs + producerDivs, MessageLe);
    var unreachable := SortSlice(missing, StrLe);
    m := Model(systems, syncEdges, asyncEdges, producerEdges, elements, divergences, unreachable);
    assert WebhooksParsed(s, hosts, asyncEdges, asyncDivs);
    assert SyncAssembled(s, m);
  }

  lemma SortedChecks(s: Estate, systems: seq<System>, checkOrder: System -> seq<string>, orders: seq<seq<string>>)
    requires Sorts(systems, s.systems, SystemLe)
    requires forall x :: x in s.systems && s.probe(x).Answered? ==> Enumerates(checkOrder(x), s.probe(x).checks.Keys)
    requires |orders| == |systems| && forall i :: 0 <= i < |systems| ==> orders[i] == checkOrder(systems[i])
    ensures ChecksIterated(systems, s.probe, orders)
  {
    hide Enumerates;
    SameElements(systems, s.systems);
    forall i | 0 <= i < |systems| && s.probe(systems[i]).Answered? ensures Enumerates(orders[i], s.probe(systems[i]).checks.Keys) {
      assert systems[i] in s.systems;
    }
  }

  method ProbeProducers(s: Estate, hosts: map<string, string>, order: seq<string>)
    returns (edges: seq<ProducerEdge>, divs: seq<Divergence>)
    requires s.producers.Some? ==> Enumerates(order, s.producers.value.Keys)
    ensures ProducersParsed(Produced(s, hosts), ValidSources(s), s.org, edges, divs)
  {
    if s.producers.Some? && LOGANNE in hosts.Values {
      edges, divs := ParseLoganneProducers(s.producers.value, ValidSources(s), s.org, order);
    } else {
      edges, divs := [], [];
    }
  }

  method BuildDomains(systems: seq<System>) returns (hosts: map<string, string>)
    ensures hosts == Domains(systems, map[])
  {
    hosts := map[];
    for i := 0 to |systems|
      invariant Domains(systems, map[]) == Domains(systems[i..], hosts)
    {
      assert systems[i..][1..] == systems[i + 1..];
      if systems[i].domain != "" {
        hosts := hosts[systems[i].domain := systems[i].id];
      }
    }
  }

  // ---- What every assembled model satisfies ----

  function ElementIds(elements: seq<ProducerElement>): set<string> {
    set x | x in elements :: x.id
  }

  /** Edges start and end at something the model knows; no synchronous edge leaves loganne. */
  ghost predicate Grounded(m: Model) {
    && (forall e :: e in m.syncEdges ==> e.from in IdSet(m.systems) && e.from != LOGANNE)
    && (forall e :: e in m.asyncEdges ==> e.consumer in IdSet(m.systems))
    && ElementIds(m.elements) == Sources(m.producerEdges) - IdSet(m.systems)
    && (forall i, j :: 0 <= i < j < |m.elements| ==> m.elements[i].id != m.elements[j].id)
  }

  lemma {:induction false} AllSyncFrom(systems: seq<System>, probe: System -> Probe, orders: seq<seq<string>>)
    requires |orders| == |systems|
    ensures forall e :: e in AllSync(systems, probe, orders) ==> e.from in IdSet(systems) && e.from != LOGANNE
  {
    if systems != [] {
      AllSyncFrom(systems[1..], probe, orders[1..]);
      assert systems == [systems[0]] + systems[1..];
      if probe(systems[0]).Answered? {
        DepEdgesFrom(systems[0].id, DepsOf(orders[0], probe(systems[0]).checks));
      }
    }
  }

  lemma {:induction false} DepEdgesFrom(from: string, deps: seq<string>)
    ensures forall e :: e in DepEdges(from, deps) ==> e.from == from
  {
    if deps != [] {
      DepEdgesFrom(from, deps[1..]);
    }
  }

  lemma {:induction false} EventEdgesKnown(event: string, urls: seq<string>, hosts: map<string, string>)
    ensures forall e :: e in EventEdges(event, urls, hosts) ==> e.consumer in hosts.Values
  {
    hide Host;
    if urls != [] {
      EventEdgesKnown(event, urls[1..], hosts);
    }
  }

  lemma {:induction false} AllEdgesKnown(order: seq<string>, entries: map<string, Entry>, hosts: map<string, string>)
    ensures forall e :: e in AllEdges(order, entries, hosts) ==> e.consumer in hosts.Values
  {
    hide EventEdges, Listed;
    if order != [] {
      EventEdgesKnown(order[0], Listed(entries, order[0]), hosts);
      AllEdgesKnown(order[1..], entries, hosts);
    }
  }

  lemma WebhookEdgesKnown(s: Estate, hosts: map<string, string>, edges: seq<AsyncEdge>, divs: seq<Divergence>)
    requires WebhooksParsed(s, hosts, edges, divs)
    ensures forall e :: e in edges ==> e.consumer in hosts.Values
  {
    hide AllEdges, AllTargets, AsyncLe, MessageLe;
    if s.config.Parsed? {
      var entries := s.config.entries;
      var order :| Enumerates(order, entries.Keys) && MayReturn(order, entries, hosts, s.org, edges, divs);
      AllEdgesKnown(order, entries, hosts);
      SameElements(edges, AllEdges(order, entries, hosts));
    }
  }

  lemma AssembledIsGrounded(s: Estate, m: Model)
    requires Assembled(s, m)
    ensures Grounded(m)
  {
    hide AllSync, AllNames, AllMissing, SyncLe, SystemLe, MessageLe, ElementLe, ProducerLe, KindOf, Domains, ValidSources;
    var orders :| ChecksIterated(m.systems, s.probe, orders) && Sorts(m.syncEdges, AllSync(m.systems, s.probe, orders), SyncLe);
    AllSyncFrom(m.systems, s.probe, orders);
    SameElements(m.syncEdges, AllSync(m.systems, s.probe, orders));
    var hosts := Domains(m.systems, map[]);
    ConsumersAreSystems(s, m, hosts);
    ElementsCover(m, Kinds(s));
  }

  lemma ConsumersAreSystems(s: Estate, m: Model, hosts: map<string, string>)
    requires Assembled(s, m) && hosts == Domains(m.systems, map[])
    ensures forall e :: e in m.asyncEdges ==> e.consumer in IdSet(m.systems)
  {
    hide SyncAssembled, AllNames, AllMissing, SyncLe, SystemLe, MessageLe, ElementsBuilt, ProducersParsed, Domains, WebhooksParsed;
    var asyncDivs :| WebhooksParsed(s, hosts, m.asyncEdges, asyncDivs);
    WebhookEdgesKnown(s, hosts, m.asyncEdges, asyncDivs);
    DomainsNameSystems(m.systems, map[]);
    SystemIdsAre(m.systems);
    forall e | e in m.asyncEdges ensures e.consumer in IdSet(m.systems) {
      var d :| d in hosts && hosts[d] == e.consumer;
    }
  }

  lemma ElementsCover(m: Model, kinds: map<string, string>)
    requires ElementsBuilt(m.producerEdges, IdSet(m.systems), kinds, m.elements)
    ensures ElementIds(m.elements) == Sources(m.producerEdges) - IdSet(m.systems)
  {
    hide ElementLe, KindOf;
    forall id | id in Sources(m.producerEdges) - IdSet(m.systems) ensures id in ElementIds(m.elements) {
      assert ProducerElement(id, KindOf(kinds, id)) in m.elements;
    }
  }

  /** Every divergence the generators produce names a candidate repo and a "c4-" ID, so that
      reconciliation visits it. */
  lemma DivergencesLandOnCandidates(s: Estate, m: Model)
    requires Assembled(s, m)
    ensures forall d :: d in m.divergences ==>
      d.repo in Candidates(s.org, SystemIds(m.systems)) && ID_PREFIX <= d.id
  {
    hide SyncAssembled, AllNames, AllMissing, SyncLe, SystemLe, MessageLe, ElementsBuilt, ProducersParsed, Domains, WebhooksParsed;
    var hosts := Domains(m.systems, map[]);
    var asyncDivs, producerDivs :|
      && WebhooksParsed(s, hosts, m.asyncEdges, asyncDivs)
      && ProducersParsed(Produced(s, hosts), ValidSources(s), s.org, m.producerEdges, producerDivs)
      && Sorts(m.divergences, AllNames(s.org, m.systems, s.probe) + asyncDivs + producerDivs, MessageLe);
    SameElements(m.divergences, AllNames(s.org, m.systems, s.probe) + asyncDivs + producerDivs);
    NamesLand(s.org, m.systems, s.probe);
    WebhooksLand(s, hosts, m.asyncEdges, asyncDivs);
    ProducersLand(Produced(s, hosts), ValidSources(s), s.org, m.producerEdges, producerDivs);
  }

  predicate Lands(org: string, d: Divergence) {
    d.repo == org + "/lucos_loganne" && ID_PREFIX <= d.id
  }

  lemma {:induction false} NamesLand(org: string, systems: seq<System>, probe: System -> Probe)
    ensures forall d :: d in AllNames(org, systems, probe) ==>
      d.repo in Candidates(org, SystemIds(systems)) && ID_PREFIX <= d.id
  {
    if systems != [] {
      NamesLand(org, systems[1..], probe);
      assert SystemIds(systems) == [systems[0].id] + SystemIds(systems[1..]);
      assert Candidates(org, SystemIds(systems)) == Candidates(org, SystemIds(systems[1..])) + {org + "/" + systems[0].id};
    }
  }

  lemma WebhooksLand(s: Estate, hosts: map<string, string>, edges: seq<AsyncEdge>, divs: seq<Divergence>)
    requires WebhooksParsed(s, hosts, edges, divs)
    ensures forall d :: d in divs ==> Lands(s.org, d)
  {
    hide MayReturn, UnknownTarget;
    if s.config.Parsed? {
      var entries := s.config.entries;
      var order :| Enumerates(order, entries.Keys) && MayReturn(order, entries, hosts, s.org, edges, divs);
      OneDivergencePerId(order, entries, hosts, s.org, edges, divs);
      forall d | d in divs ensures Lands(s.org, d) {
        var event, host :| UnknownTarget(entries, hosts, event, host) && d == TargetDivergence(s.org, event, host);
        assert d.id == TARGET_ID + (DslIdent(event) + "-" + DslIdent(host));
      }
    }
  }

  lemma ProducersLand(raw: map<string, seq<string>>, valid: set<string>, org: string, edges: seq<ProducerEdge>, divs: seq<Divergence>)
    requires ProducersParsed(raw, valid, org, edges, divs)
    ensures forall d :: d in divs ==> Lands(org, d)
  {
  }
}
