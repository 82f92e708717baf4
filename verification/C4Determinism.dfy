/** When the model depends on its sources alone, whatever order each map is iterated in and however
    each sort breaks ties. */
module C4Determinism {
  import opened C4Routing
  import opened C4Producers
  import opened C4Webhooks
  import opened C4WebhooksOrder
  import opened C4Model
  import opened Sorting
  import opened Wrappers

  ghost predicate NoClash(s: Estate, hosts: map<string, string>) {
    s.config.Parsed? ==> !Clash(s.config.entries, hosts, s.org)
  }

  /** Two systems whose reported names diverge do not give different divergences with one message. */
  ghost predicate NamesApart(s: Estate) {
    forall a, b, d, e ::
      && a in s.systems && b in s.systems
      && d in DivergencesOf(s.org, a, s.probe(a)) && e in DivergencesOf(s.org, b, s.probe(b))
      && d.message == e.message
      ==> d == e
  }

  /** A condition on the sources: an ID names one system, no two webhook events clash, and name
      divergences are told apart by their messages. */
  ghost predicate Unambiguous(s: Estate) {
    && Tells(s.systems, SystemLe)
    && NoClash(s, Domains(Sorted(s.systems, SystemLe), map[]))
    && NamesApart(s)
  }

  // ---- The messages tell the divergences apart ----

  predicate BacktickFree(id: string) {
    '`' !in id
  }

  /** System IDs without backticks are enough for the last part. */
  lemma BacktickFreeNamesApart(s: Estate)
    requires Tells(s.systems, SystemLe) && forall x :: x in s.systems ==> BacktickFree(x.id)
    ensures NamesApart(s)
  {
    hide Tells;
    forall a, b, d, e |
      && a in s.systems && b in s.systems
      && d in DivergencesOf(s.org, a, s.probe(a)) && e in DivergencesOf(s.org, b, s.probe(b))
      && d.message == e.message
      ensures d == e
    {
      NameMessageTells(s.org, a, s.probe(a).reported, b, s.probe(b).reported);
      SameIdSameSystem(s.systems, a, b);
    }
  }

  lemma SameIdSameSystem(systems: seq<System>, a: System, b: System)
    requires Tells(systems, SystemLe) && a in systems && b in systems && a.id == b.id
    ensures a == b
  {
    StrLeTotal(a.id, a.id);
    assert SystemLe(a, b) && SystemLe(b, a);
  }

  /** What follows the ID in the message of a name divergence, after its closing backtick. */
  function NameTail(x: System, reported: string): string {
    " (configy) reports `system: " + reported + "` in /_info on " + x.domain
  }

  lemma NameMessageReads(org: string, x: System, reported: string)
    ensures var m := NameDivergence(org, x, reported).message;
      |m| > 3 && m[3..] == x.id + ['`'] + NameTail(x, reported)
  {
    var m := NameDivergence(org, x, reported).message;
    assert m == "- `" + (x.id + ['`'] + NameTail(x, reported));
  }

  lemma NameMessageTells(org: string, a: System, reported: string, b: System, reported': string)
    requires BacktickFree(a.id) && BacktickFree(b.id)
    requires NameDivergence(org, a, reported).message == NameDivergence(org, b, reported').message
    ensures a.id == b.id
  {
    hide NameDivergence, NameTail;
    NameMessageReads(org, a, reported);
    NameMessageReads(org, b, reported');
    QuoteTells(a.id, NameTail(a, reported), b.id, NameTail(b, reported'));
  }

  lemma QuoteTells(a: string, tail: string, b: string, tail': string)
    requires BacktickFree(a) && BacktickFree(b) && a + ['`'] + tail == b + ['`'] + tail'
    ensures a == b
  {
    var x, y := a + ['`'] + tail, b + ['`'] + tail';
    AfterSkips('`', a, tail);
    AfterSkips('`', b, tail');
    assert |a| == |b|;
    assert a == x[..|a|] && b == y[..|b|];
  }

  /** Which of the three sources a divergence's message names. */
  datatype Kind = Name | Webhook | Producer

  predicate IsKind(k: Kind, d: Divergence) {
    && |d.message| > 10
    && match k
       case Name => d.message[2] == '`'
       case Webhook => d.message[2] == 'f' || (d.message[2] == 'l' && d.message[10] == 'e')
       case Producer => d.message[2] == 'l' && d.message[10] == 'p'
  }

  lemma {:induction false} NamesAreNames(org: string, systems: seq<System>, probe: System -> Probe)
    ensures forall d :: d in AllNames(org, systems, probe) <==>
      exists x :: x in systems && d in DivergencesOf(org, x, probe(x))
    ensures forall d :: d in AllNames(org, systems, probe) ==> IsKind(Name, d)
  {
    if systems != [] {
      NamesAreNames(org, systems[1..], probe);
      assert systems == [systems[0]] + systems[1..];
      if DivergencesOf(org, systems[0], probe(systems[0])) != [] {
        NameIsName(org, systems[0], probe(systems[0]).reported);
      }
      hide DivergencesOf;
    }
  }

  lemma NameIsName(org: string, x: System, reported: string)
    ensures IsKind(Name, NameDivergence(org, x, reported))
  {
    var rest := x.id + "` (configy) reports `system: " + reported + "` in /_info on " + x.domain;
    assert NameDivergence(org, x, reported).message == "- `" + rest;
  }

  lemma TargetIsWebhook(org: string, event: string, host: string)
    ensures IsKind(Webhook, TargetDivergence(org, event, host))
  {
    var rest := event + "` -> `" + host + "` has no matching configy system";
    assert TargetMessage(event, host) == "- loganne event `" + rest;
  }

  lemma WebhooksTell(s: Estate, hosts: map<string, string>, edges: seq<AsyncEdge>, divs: seq<Divergence>)
    requires WebhooksParsed(s, hosts, edges, divs) && NoClash(s, hosts)
    ensures forall d :: d in divs ==> IsKind(Webhook, d)
    ensures forall d, e :: d in divs && e in divs && d.message == e.message ==> d == e
  {
    hide MayReturn, Clash;
    match s.config
    case Unparseable(reason) =>
      UnparseableIsWebhook(s.org, reason);
    case Parsed(entries) =>
      var order :| Enumerates(order, entries.Keys) && MayReturn(order, entries, hosts, s.org, edges, divs);
      TargetsAreWebhooks(order, entries, hosts, s.org, edges, divs);
      OwnMessagesTell(order, entries, hosts, s.org, edges, divs);
  }

  lemma UnparseableIsWebhook(org: string, reason: string)
    ensures IsKind(Webhook, UnparseableDivergence(org, reason))
  {
    assert UNPARSEABLE_HEAD[2] == "- failed"[2] == 'f' && |UNPARSEABLE_HEAD| > 10;
    assert UnparseableDivergence(org, reason).message[2] == UNPARSEABLE_HEAD[2];
  }

  lemma TargetsAreWebhooks(order: seq<string>, entries: map<string, Entry>, hosts: map<string, string>, org: string,
      edges: seq<AsyncEdge>, divs: seq<Divergence>)
    requires Enumerates(order, entries.Keys) && MayReturn(order, entries, hosts, org, edges, divs)
    ensures forall d :: d in divs ==> IsKind(Webhook, d)
  {
    hide MayReturn, UnknownTarget, IsKind, TargetDivergence;
    OneDivergencePerId(order, entries, hosts, org, edges, divs);
    forall d | d in divs ensures IsKind(Webhook, d) {
      var event, host :| UnknownTarget(entries, hosts, event, host) && d == TargetDivergence(org, event, host);
      TargetIsWebhook(org, event, host);
    }
  }

  lemma OwnMessagesTell(order: seq<string>, entries: map<string, Entry>, hosts: map<string, string>, org: string,
      edges: seq<AsyncEdge>, divs: seq<Divergence>)
    requires Enumerates(order, entries.Keys) && MayReturn(order, entries, hosts, org, edges, divs) && !Clash(entries, hosts, org)
    ensures forall d, e :: d in divs && e in divs && d.message == e.message ==> d == e
  {
    hide Own, AllTargets, AllEdges, AsyncLe, MessageLe;
    forall event, event' | event in entries && event' in entries && event != event'
      ensures Fresh(Own(entries, hosts, org, event), entries, hosts, org, event')
    {
    }
    ApartIsUnion(order, entries, hosts, org);
    SameElements(divs, AllTargets([], order, entries, hosts, org));
    forall d, e | d in divs && e in divs && d.message == e.message ensures d == e {
      var event :| event in entries && d in Own(entries, hosts, org, event);
      var event' :| event' in entries && e in Own(entries, hosts, org, event');
      if event == event' { SameMessageSameEvent(event, d, e, entries, hosts, org); }
    }
  }

  lemma ProducersTell(raw: map<string, seq<string>>, valid: set<string>, org: string, edges: seq<ProducerEdge>, divs: seq<Divergence>)
    requires ProducersParsed(raw, valid, org, edges, divs)
    ensures forall d :: d in divs ==> IsKind(Producer, d)
    ensures forall d, e :: d in divs && e in divs && d.message == e.message ==> d == e
  {
    hide ProducerLe, MessageLe, Observed, ProducerDivergence;
    forall d | d in divs ensures IsKind(Producer, d) {
      var x :| x in raw && x !in valid && d == ProducerDivergence(org, x);
      ProducerIsProducer(org, x);
    }
    forall d, e | d in divs && e in divs && d.message == e.message ensures d == e {
      var x :| x in raw && x !in valid && d == ProducerDivergence(org, x);
      var y :| y in raw && y !in valid && e == ProducerDivergence(org, y);
      ProducerMessageTells(org, x, y);
    }
  }

  lemma ProducerIsProducer(org: string, x: string)
    ensures IsKind(Producer, ProducerDivergence(org, x))
  {
    assert ProducerDivergence(org, x).message == PRODUCER_HEAD + (x + PRODUCER_TAIL);
  }

  lemma NamesTell(s: Estate, systems: seq<System>)
    requires NamesApart(s) && forall x :: x in systems ==> x in s.systems
    ensures forall d :: d in AllNames(s.org, systems, s.probe) ==> IsKind(Name, d)
    ensures var divs := AllNames(s.org, systems, s.probe);
      forall d, e :: d in divs && e in divs && d.message == e.message ==> d == e
  {
    hide DivergencesOf, AllNames, IsKind;
    NamesAreNames(s.org, systems, s.probe);
    var divs := AllNames(s.org, systems, s.probe);
    forall d, e | d in divs && e in divs && d.message == e.message ensures d == e {
      var a :| a in systems && d in DivergencesOf(s.org, a, s.probe(a));
      var b :| b in systems && e in DivergencesOf(s.org, b, s.probe(b));
    }
  }

  lemma MessagesTell(s: Estate, m: Model)
    requires Assembled(s, m) && NamesApart(s) && NoClash(s, Domains(m.systems, map[]))
    ensures Tells(m.divergences, MessageLe)
  {
    hide SyncAssembled, AllNames, AllMissing, SystemLe, StrLe, MessageLe, ElementsBuilt, ProducersParsed, Domains, WebhooksParsed, NamesApart, NoClash, ValidSources;
    var hosts := Domains(m.systems, map[]);
    var names := AllNames(s.org, m.systems, s.probe);
    var asyncDivs, producerDivs :|
      && WebhooksParsed(s, hosts, m.asyncEdges, asyncDivs)
      && ProducersParsed(Produced(s, hosts), ValidSources(s), s.org, m.producerEdges, producerDivs)
      && Sorts(m.divergences, names + asyncDivs + producerDivs, MessageLe);
    SameElements(m.divergences, names + asyncDivs + producerDivs);
    SameElements(m.systems, s.systems);
    NamesTell(s, m.systems);
    WebhooksTell(s, hosts, m.asyncEdges, asyncDivs);
    ProducersTell(Produced(s, hosts), ValidSources(s), s.org, m.producerEdges, producerDivs);
    MessageLeIsPreorder();
    KindsTell(m.divergences, names, asyncDivs, producerDivs);
  }

  lemma KindsTell(divs: seq<Divergence>, names: seq<Divergence>, webhooks: seq<Divergence>, producers: seq<Divergence>)
    requires forall d :: d in divs <==> d in names + webhooks + producers
    requires forall d :: d in names ==> IsKind(Name, d)
    requires forall d :: d in webhooks ==> IsKind(Webhook, d)
    requires forall d :: d in producers ==> IsKind(Producer, d)
    requires forall d, e :: d in names && e in names && d.message == e.message ==> d == e
    requires forall d, e :: d in webhooks && e in webhooks && d.message == e.message ==> d == e
    requires forall d, e :: d in producers && e in producers && d.message == e.message ==> d == e
    ensures forall d, e :: d in divs && e in divs && d.message == e.message ==> d == e
  {
    forall d, e | d in divs && e in divs && d.message == e.message ensures d == e {
      assert d in names || d in webhooks || d in producers;
      assert e in names || e in webhooks || e in producers;
    }
  }

  lemma SortedSystems(s: Estate, m: Model)
    requires Sorts(m.systems, s.systems, SystemLe) && Tells(s.systems, SystemLe)
    ensures m.systems == Sorted(s.systems, SystemLe)
  {
    hide SystemLe;
    SystemLeIsPreorder();
    SameElements(m.systems, s.systems);
    SortedSorts(s.systems, SystemLe);
    SortingIsUnique(m.systems, Sorted(s.systems, SystemLe), SystemLe);
  }

  lemma WebhooksDetermined(s: Estate, hosts: map<string, string>, edges: seq<AsyncEdge>, divs: seq<Divergence>,
      edges': seq<AsyncEdge>, divs': seq<Divergence>)
    requires WebhooksParsed(s, hosts, edges, divs) && WebhooksParsed(s, hosts, edges', divs')
    requires NoClash(s, hosts)
    ensures edges == edges' && divs == divs'
  {
    hide MayReturn, Clash, Determined;
    if s.config.Parsed? {
      var entries := s.config.entries;
      var order :| Enumerates(order, entries.Keys) && MayReturn(order, entries, hosts, s.org, edges, divs);
      var order' :| Enumerates(order', entries.Keys) && MayReturn(order', entries, hosts, s.org, edges', divs');
      EveryUrlOneEdge(order, order', entries, hosts, s.org, edges, edges', divs, divs');
      DeterminedUnlessClash(entries, hosts, s.org);
      UseDetermined(order, order', entries, hosts, s.org, edges, edges', divs, divs');
    }
  }

  lemma UseDetermined(order: seq<string>, order': seq<string>, entries: map<string, Entry>, hosts: map<string, string>,
      org: string, edges: seq<AsyncEdge>, edges': seq<AsyncEdge>, divs: seq<Divergence>, divs': seq<Divergence>)
    requires Determined(entries, hosts, org)
    requires Enumerates(order, entries.Keys) && Enumerates(order', entries.Keys)
    requires MayReturn(order, entries, hosts, org, edges, divs) && MayReturn(order', entries, hosts, org, edges', divs')
    ensures divs == divs'
  {
    hide MayReturn, Enumerates;
  }

  lemma SameSync(s: Estate, m: Model, m': Model)
    requires SyncAssembled(s, m) && SyncAssembled(s, m') && m.systems == m'.systems
    ensures m.syncEdges == m'.syncEdges
  {
    hide SyncLe, AllSync;
    var orders :| ChecksIterated(m.systems, s.probe, orders) && Sorts(m.syncEdges, AllSync(m.systems, s.probe, orders), SyncLe);
    var orders' :| ChecksIterated(m'.systems, s.probe, orders') && Sorts(m'.syncEdges, AllSync(m'.systems, s.probe, orders'), SyncLe);
    SyncIgnoresCheckOrder(m.systems, s.probe, orders, orders');
    SyncLeIsPreorder();
    SortingIsUnique(m.syncEdges, m'.syncEdges, SyncLe);
  }

  lemma SameProbes(s: Estate, m: Model, m': Model)
    requires Assembled(s, m) && Assembled(s, m') && m.systems == m'.systems
    ensures m.syncEdges == m'.syncEdges && m.unreachable == m'.unreachable
  {
    hide StrLe, SyncAssembled, AllMissing, AllNames, ElementsBuilt, ProducersParsed, WebhooksParsed, Domains;
    StrLeIsPreorder();
    SameSync(s, m, m');
    SortingIsUnique(m.unreachable, m'.unreachable, StrLe);
  }

  lemma SameDivergences(s: Estate, m: Model, m': Model)
    requires Assembled(s, m) && Assembled(s, m') && m.systems == m'.systems
    requires NoClash(s, Domains(m.systems, map[])) && Tells(m.divergences, MessageLe)
    ensures m.divergences == m'.divergences && m.asyncEdges == m'.asyncEdges && m.producerEdges == m'.producerEdges
  {
    hide SyncLe, StrLe, SystemLe, MessageLe, SyncAssembled, AllMissing, AllNames, ElementsBuilt, ProducersParsed, WebhooksParsed, Domains, Clash;
    var hosts := Domains(m.systems, map[]);
    var raw, valid := Produced(s, hosts), ValidSources(s);
    var names := AllNames(s.org, m.systems, s.probe);
    var asyncDivs, producerDivs :| WebhooksParsed(s, hosts, m.asyncEdges, asyncDivs)
      && ProducersParsed(raw, valid, s.org, m.producerEdges, producerDivs)
      && Sorts(m.divergences, names + asyncDivs + producerDivs, MessageLe);
    var asyncDivs', producerDivs' :| WebhooksParsed(s, hosts, m'.asyncEdges, asyncDivs')
      && ProducersParsed(raw, valid, s.org, m'.producerEdges, producerDivs')
      && Sorts(m'.divergences, names + asyncDivs' + producerDivs', MessageLe);
    WebhooksDetermined(s, hosts, m.asyncEdges, asyncDivs, m'.asyncEdges, asyncDivs');
    ProducersIgnoreMapOrder(raw, valid, s.org, m.producerEdges, producerDivs, m'.producerEdges, producerDivs');
    MessageLeIsPreorder();
    SortingIsUnique(m.divergences, m'.divergences, MessageLe);
  }

  /** From the same sources, any two assemblies are the same model, whatever order each iterated the
      webhook entries, the producers and every answer's checks in. */
  lemma AssemblyIsDeterministic(s: Estate, m: Model, m': Model)
    requires Unambiguous(s) && Assembled(s, m) && Assembled(s, m')
    ensures m == m'
  {
    hide NoClash, NamesApart, ProducersParsed, WebhooksParsed, Domains, ElementsBuilt, SyncAssembled, AllMissing, AllNames, SystemLe, MessageLe, StrLe, Sorted;
    SortedSystems(s, m);
    SortedSystems(s, m');
    SameProbes(s, m, m');
    MessagesTell(s, m);
    SameDivergences(s, m, m');
    ElementsAreDetermined(m.producerEdges, m'.producerEdges, IdSet(m.systems), Kinds(s), m.elements, m'.elements);
  }
}
