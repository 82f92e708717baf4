/** Sources that are not unambiguous leave more than one model open: the condition is exact. */
module C4Ambiguity {
  import opened C4Routing
  import opened C4Producers
  import opened C4Webhooks
  import opened C4WebhooksOrder
  import opened C4Model
  import opened C4Determinism
  import opened Sorting
  import opened Wrappers

  // ---- Every choice of orders can be completed to a model ----

  lemma AnyOrder(keys: set<string>) returns (order: seq<string>)
    ensures Enumerates(order, keys)
  {
    if keys == {} {
      order := [];
    } else {
      var first :| first in keys;
      order := OrderStarting(keys, first);
    }
  }

  lemma {:induction false} AnyCheckOrders(systems: seq<System>, probe: System -> Probe) returns (orders: seq<seq<string>>)
    ensures ChecksIterated(systems, probe, orders)
  {
    hide Enumerates;
    if systems == [] {
      orders := [];
    } else {
      var first: seq<string> := [];
      match probe(systems[0]) {
        case Answered(_, checks) => first := AnyOrder(checks.Keys);
        case Unreachable =>
      }
      var rest := AnyCheckOrders(systems[1..], probe);
      orders := [first] + rest;
    }
  }

  lemma SomeProducers(raw: map<string, seq<string>>, valid: set<string>, org: string)
    returns (edges: seq<ProducerEdge>, divs: seq<Divergence>)
    ensures ProducersParsed(raw, valid, org, edges, divs)
  {
    hide ProducersParsed, ProducerLe, MessageLe;
    var order := AnyOrder(raw.Keys);
    ProducerLeIsPreorder();
    MessageLeIsPreorder();
    edges := Sorted(RawEdges(order, raw, valid), ProducerLe);
    divs := Sorted(RawDivergences(order, valid, org), MessageLe);
    SortedSorts(RawEdges(order, raw, valid), ProducerLe);
    SortedSorts(RawDivergences(order, valid, org), MessageLe);
    SortedIsParsed(order, raw, valid, org, edges, divs);
  }

  lemma SomeElements(edges: seq<ProducerEdge>, systems: set<string>, kinds: map<string, string>)
    returns (elements: seq<ProducerElement>)
    ensures ElementsBuilt(edges, systems, kinds, elements)
  {
    hide ElementLe, KindOf;
    var order := AnyOrder(Sources(edges) - systems);
    var built := seq(|order|, i requires 0 <= i < |order| => ProducerElement(order[i], KindOf(kinds, order[i])));
    forall x ensures x in built <==> x.kind == KindOf(kinds, x.id) && x.id !in systems && x.id in Sources(edges) {
      if x.kind == KindOf(kinds, x.id) && x.id in Sources(edges) - systems {
        var i :| 0 <= i < |order| && order[i] == x.id;
        assert built[i] == x;
      }
    }
    ElementLeIsPreorder();
    elements := Sorted(built, ElementLe);
    SortedSorts(built, ElementLe);
    SameElements(elements, built);
    SortingKeepsIdsApart(elements, built);
  }

  lemma SomeWebhooks(s: Estate, hosts: map<string, string>) returns (edges: seq<AsyncEdge>, divs: seq<Divergence>)
    ensures WebhooksParsed(s, hosts, edges, divs)
  {
    hide MayReturn;
    match s.config {
      case Unparseable(reason) =>
        edges, divs := [], [UnparseableDivergence(s.org, reason)];
      case Parsed(entries) =>
        var order := AnyOrder(entries.Keys);
        edges, divs := SomeResult(order, entries, hosts, s.org);
    }
  }

  /** The parts of a model in which orders and ties may show. */
  ghost predicate Parts(s: Estate, systems: seq<System>, asyncEdges: seq<AsyncEdge>, asyncDivs: seq<Divergence>,
      producerEdges: seq<ProducerEdge>, producerDivs: seq<Divergence>)
  {
    var hosts := Domains(systems, map[]);
    && Sorts(systems, s.systems, SystemLe)
    && WebhooksParsed(s, hosts, asyncEdges, asyncDivs)
    && ProducersParsed(Produced(s, hosts), ValidSources(s), s.org, producerEdges, producerDivs)
  }

  function All(s: Estate, systems: seq<System>, asyncDivs: seq<Divergence>, producerDivs: seq<Divergence>): seq<Divergence> {
    AllNames(s.org, systems, s.probe) + asyncDivs + producerDivs
  }

  lemma Complete(s: Estate, systems: seq<System>, asyncEdges: seq<AsyncEdge>, asyncDivs: seq<Divergence>,
      producerEdges: seq<ProducerEdge>, producerDivs: seq<Divergence>, divergences: seq<Divergence>) returns (m: Model)
    requires Parts(s, systems, asyncEdges, asyncDivs, producerEdges, producerDivs)
    requires Sorts(divergences, All(s, systems, asyncDivs, producerDivs), MessageLe)
    ensures Assembled(s, m) && m.systems == systems && m.divergences == divergences
  {
    hide SystemLe, MessageLe, SyncLe, StrLe, AllNames, AllMissing, AllSync, ChecksIterated, WebhooksParsed, ProducersParsed, ElementsBuilt, Domains, ValidSources, Kinds;
    var orders := AnyCheckOrders(systems, s.probe);
    ChecksFit(systems, s.probe, orders);
    SyncLeIsPreorder();
    StrLeIsPreorder();
    var sync := Sorted(AllSync(systems, s.probe, orders), SyncLe);
    SortedSorts(AllSync(systems, s.probe, orders), SyncLe);
    var missing := Sorted(AllMissing(systems, s.probe), StrLe);
    SortedSorts(AllMissing(systems, s.probe), StrLe);
    var elements := SomeElements(producerEdges, IdSet(systems), Kinds(s));
    m := Model(systems, sync, asyncEdges, producerEdges, elements, divergences, missing);
    assert SyncAssembled(s, m);
  }

  lemma ChecksFit(systems: seq<System>, probe: System -> Probe, orders: seq<seq<string>>)
    requires ChecksIterated(systems, probe, orders)
    ensures |orders| == |systems|
  {
  }

  /** From any sorting of the systems. */
  lemma SomeParts(s: Estate, systems: seq<System>)
    returns (asyncEdges: seq<AsyncEdge>, asyncDivs: seq<Divergence>, producerEdges: seq<ProducerEdge>, producerDivs: seq<Divergence>)
    requires Sorts(systems, s.systems, SystemLe)
    ensures Parts(s, systems, asyncEdges, asyncDivs, producerEdges, producerDivs)
  {
    hide SystemLe, WebhooksParsed, ProducersParsed, Domains, ValidSources;
    var hosts := Domains(systems, map[]);
    asyncEdges, asyncDivs := SomeWebhooks(s, hosts);
    producerEdges, producerDivs := SomeProducers(Produced(s, hosts), ValidSources(s), s.org);
  }

  lemma SomeModel(s: Estate, systems: seq<System>) returns (m: Model)
    requires Sorts(systems, s.systems, SystemLe)
    ensures Assembled(s, m) && m.systems == systems
  {
    hide SystemLe, Parts, MessageLe, Assembled, All;
    var asyncEdges, asyncDivs, producerEdges, producerDivs := SomeParts(s, systems);
    MessageLeIsPreorder();
    var all := All(s, systems, asyncDivs, producerDivs);
    SortedSorts(all, MessageLe);
    m := Complete(s, systems, asyncEdges, asyncDivs, producerEdges, producerDivs, Sorted(all, MessageLe));
  }

  /** However maps are iterated and ties are broken, the same model comes out. */
  ghost predicate Deterministic(s: Estate) {
    forall m, m' :: Assembled(s, m) && Assembled(s, m') ==> m == m'
  }

  lemma TwoModels(s: Estate, m: Model, m': Model)
    requires Assembled(s, m) && Assembled(s, m') && m != m'
    ensures !Deterministic(s)
  {
    hide Assembled;
  }

  // ---- Each way of not being unambiguous shows ----

  lemma SharedIdShows(s: Estate)
    requires !Tells(s.systems, SystemLe)
    ensures !Deterministic(s)
  {
    hide SystemLe, Tells, Assembled, Deterministic;
    SystemLeIsPreorder();
    var systems := Sorted(s.systems, SystemLe);
    SortedSorts(s.systems, SystemLe);
    SortingIsNotUnique(s.systems, systems, SystemLe);
    var other :| Sorts(other, s.systems, SystemLe) && other != systems;
    var m := SomeModel(s, systems);
    var m' := SomeModel(s, other);
    TwoModels(s, m, m');
  }

  lemma TieShows(s: Estate, systems: seq<System>, asyncEdges: seq<AsyncEdge>, asyncDivs: seq<Divergence>,
      producerEdges: seq<ProducerEdge>, producerDivs: seq<Divergence>)
    requires Parts(s, systems, asyncEdges, asyncDivs, producerEdges, producerDivs)
    requires !Tells(All(s, systems, asyncDivs, producerDivs), MessageLe)
    ensures !Deterministic(s)
  {
    hide Parts, MessageLe, Tells, Assembled, Deterministic, All;
    var all := All(s, systems, asyncDivs, producerDivs);
    MessageLeIsPreorder();
    SortedSorts(all, MessageLe);
    SortingIsNotUnique(all, Sorted(all, MessageLe), MessageLe);
    var other :| Sorts(other, all, MessageLe) && other != Sorted(all, MessageLe);
    var m := Complete(s, systems, asyncEdges, asyncDivs, producerEdges, producerDivs, Sorted(all, MessageLe));
    var m' := Complete(s, systems, asyncEdges, asyncDivs, producerEdges, producerDivs, other);
    TwoModels(s, m, m');
  }

  lemma TwoDivergencesTie(divs: seq<Divergence>, d: Divergence, e: Divergence)
    requires d in divs && e in divs && d.message == e.message && d != e
    ensures !Tells(divs, MessageLe)
  {
    StrLeTotal(d.message, e.message);
    assert MessageLe(d, e) && MessageLe(e, d);
  }

  lemma SharedNameMessageShows(s: Estate)
    requires Tells(s.systems, SystemLe) && !NamesApart(s)
    ensures !Deterministic(s)
  {
    hide SystemLe, MessageLe, Parts, Tells, Deterministic, DivergencesOf, AllNames, Sorts, Preorder, Ordered, NamesApart, All;
    var systems := Sorted(s.systems, SystemLe);
    SystemLeIsPreorder();
    SortedSorts(s.systems, SystemLe);
    var asyncEdges, asyncDivs, producerEdges, producerDivs := SomeParts(s, systems);
    NamesTie(s, systems, asyncDivs, producerDivs);
    TieShows(s, systems, asyncEdges, asyncDivs, producerEdges, producerDivs);
  }

  lemma NamesTie(s: Estate, systems: seq<System>, asyncDivs: seq<Divergence>, producerDivs: seq<Divergence>)
    requires Sorts(systems, s.systems, SystemLe) && !NamesApart(s)
    ensures !Tells(All(s, systems, asyncDivs, producerDivs), MessageLe)
  {
    hide SystemLe, MessageLe, Tells, DivergencesOf, Ordered;
    SameElements(systems, s.systems);
    var a, b, d, e :| a in s.systems && b in s.systems
      && d in DivergencesOf(s.org, a, s.probe(a)) && e in DivergencesOf(s.org, b, s.probe(b)) && d.message == e.message && d != e;
    hide Sorts, NamesApart;
    NameIsThere(s, systems, asyncDivs, producerDivs, a, d);
    NameIsThere(s, systems, asyncDivs, producerDivs, b, e);
    hide All;
    TwoDivergencesTie(All(s, systems, asyncDivs, producerDivs), d, e);
  }

  lemma NameIsThere(s: Estate, systems: seq<System>, asyncDivs: seq<Divergence>, producerDivs: seq<Divergence>, x: System, d: Divergence)
    requires x in systems && d in DivergencesOf(s.org, x, s.probe(x))
    ensures d in All(s, systems, asyncDivs, producerDivs)
  {
    hide DivergencesOf;
    NamesAreNames(s.org, systems, s.probe);
  }

  lemma WebhookClashShows(s: Estate)
    requires s.config.Parsed? && Clash(s.config.entries, Domains(Sorted(s.systems, SystemLe), map[]), s.org)
    ensures !Deterministic(s)
  {
    hide SystemLe, MessageLe, Tells, Deterministic, Assembled, Clash, MayReturn, ProducersParsed, Domains, Produced, ValidSources;
    var entries := s.config.entries;
    var systems := Sorted(s.systems, SystemLe);
    SystemLeIsPreorder();
    SortedSorts(s.systems, SystemLe);
    var hosts := Domains(systems, map[]);
    var _, _, producerEdges, producerDivs := SomeParts(s, systems);
    DeterminedUnlessClash(entries, hosts, s.org);
    var order, order', edges, edges', divs, divs' := TwoResults(entries, hosts, s.org);
    assert WebhooksParsed(s, hosts, edges, divs) && WebhooksParsed(s, hosts, edges', divs');
    assert Parts(s, systems, edges, divs, producerEdges, producerDivs);
    assert Parts(s, systems, edges', divs', producerEdges, producerDivs);
    if multiset(divs) == multiset(divs') {
      ResultsOrdered(order, entries, hosts, s.org, edges, divs);
      ResultsOrdered(order', entries, hosts, s.org, edges', divs');
      MessageLeIsPreorder();
      if Tells(divs, MessageLe) { SortingIsUnique(divs, divs', MessageLe); }
      MoreStillTies(divs, All(s, systems, divs, producerDivs));
      TieShows(s, systems, edges, divs, producerEdges, producerDivs);
    } else {
      DifferentDivergencesShow(s, systems, edges, divs, edges', divs', producerEdges, producerDivs);
    }
  }

  lemma TwoResults(entries: map<string, Entry>, hosts: map<string, string>, org: string)
    returns (order: seq<string>, order': seq<string>, edges: seq<AsyncEdge>, edges': seq<AsyncEdge>, divs: seq<Divergence>, divs': seq<Divergence>)
    requires !Determined(entries, hosts, org)
    ensures Enumerates(order, entries.Keys) && Enumerates(order', entries.Keys) && divs != divs'
    ensures MayReturn(order, entries, hosts, org, edges, divs) && MayReturn(order', entries, hosts, org, edges', divs')
  {
    hide MayReturn, Enumerates;
    order, order', edges, edges', divs, divs' :|
      && Enumerates(order, entries.Keys) && Enumerates(order', entries.Keys)
      && MayReturn(order, entries, hosts, org, edges, divs) && MayReturn(order', entries, hosts, org, edges', divs')
      && divs != divs';
  }

  lemma ResultsOrdered(order: seq<string>, entries: map<string, Entry>, hosts: map<string, string>, org: string,
      edges: seq<AsyncEdge>, divs: seq<Divergence>)
    requires MayReturn(order, entries, hosts, org, edges, divs)
    ensures Ordered(divs, MessageLe)
  {
    hide AllEdges, AllTargets, MessageLe, AsyncLe;
  }

  lemma MoreStillTies(divs: seq<Divergence>, all: seq<Divergence>)
    requires !Tells(divs, MessageLe) && forall d :: d in divs ==> d in all
    ensures !Tells(all, MessageLe)
  {
    hide MessageLe;
  }

  lemma DifferentDivergencesShow(s: Estate, systems: seq<System>, edges: seq<AsyncEdge>, divs: seq<Divergence>,
      edges': seq<AsyncEdge>, divs': seq<Divergence>, producerEdges: seq<ProducerEdge>, producerDivs: seq<Divergence>)
    requires Parts(s, systems, edges, divs, producerEdges, producerDivs)
    requires Parts(s, systems, edges', divs', producerEdges, producerDivs)
    requires multiset(divs) != multiset(divs')
    ensures !Deterministic(s)
  {
    hide Parts, MessageLe, Assembled, Deterministic, AllNames;
    MessageLeIsPreorder();
    var all, all' := All(s, systems, divs, producerDivs), All(s, systems, divs', producerDivs);
    SortedSorts(all, MessageLe);
    SortedSorts(all', MessageLe);
    var names := AllNames(s.org, systems, s.probe);
    assert multiset(all) == multiset(names) + multiset(divs) + multiset(producerDivs);
    assert multiset(all') == multiset(names) + multiset(divs') + multiset(producerDivs);
    SumsDiffer(multiset(names), multiset(divs), multiset(divs'), multiset(producerDivs));
    var m := Complete(s, systems, edges, divs, producerEdges, producerDivs, Sorted(all, MessageLe));
    var m' := Complete(s, systems, edges', divs', producerEdges, producerDivs, Sorted(all', MessageLe));
    TwoModels(s, m, m');
  }

  lemma SumsDiffer(a: multiset<Divergence>, b: multiset<Divergence>, c: multiset<Divergence>, d: multiset<Divergence>)
    requires b != c
    ensures a + b + d != a + c + d
  {
    if a + b + d == a + c + d {
      forall x ensures b[x] == c[x] {
        assert (a + b + d)[x] == (a + c + d)[x];
      }
    }
  }

  /** The model is independent of every map order and tie exactly when its sources are unambiguous. */
  lemma DeterministicExactlyWhen(s: Estate)
    ensures Deterministic(s) <==> Unambiguous(s)
  {
    hide SystemLe, Assembled, Clash, NamesApart, Domains, Tells, Sorted;
    if Unambiguous(s) {
      forall m, m' | Assembled(s, m) && Assembled(s, m') ensures m == m' {
        AssemblyIsDeterministic(s, m, m');
      }
    } else if !Tells(s.systems, SystemLe) {
      SharedIdShows(s);
    } else if !NamesApart(s) {
      SharedNameMessageShows(s);
    } else {
      WebhookClashShows(s);
    }
  }
}
