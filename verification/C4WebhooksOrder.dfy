/** What the webhook parse returns, and exactly when it does not depend on map iteration order. */
module C4WebhooksOrder {
  import opened C4Routing
  import opened C4Producers
  import opened C4Webhooks
  import opened Sorting
  import opened Wrappers

  // ---- Edges ----

  function Resolving(urls: seq<string>, hosts: map<string, string>, consumer: string): nat {
    if urls == [] then 0
    else (if Resolves(urls[0], hosts, consumer) then 1 else 0) + Resolving(urls[1..], hosts, consumer)
  }

  lemma {:induction false} EventEdgesCount(event: string, urls: seq<string>, hosts: map<string, string>, e: AsyncEdge)
    ensures multiset(EventEdges(event, urls, hosts))[e] == if e.event == event then Resolving(urls, hosts, e.consumer) else 0
  {
    hide Host;
    if urls != [] {
      EventEdgesCount(event, urls[1..], hosts, e);
    }
  }

  lemma {:induction false} AllEdgesCount(order: seq<string>, entries: map<string, Entry>, hosts: map<string, string>, e: AsyncEdge)
    requires forall i, j :: 0 <= i < j < |order| ==> order[i] != order[j]
    ensures multiset(AllEdges(order, entries, hosts))[e] ==
      if e.event in order then Resolving(Listed(entries, e.event), hosts, e.consumer) else 0
  {
    hide EventEdges, Resolving, Listed;
    if order != [] {
      AllEdgesCount(order[1..], entries, hosts, e);
      EventEdgesCount(order[0], Listed(entries, order[0]), hosts, e);
      assert order == [order[0]] + order[1..];
    }
  }

  /** Every listed URL of a known host gives one edge of its event, in every iteration order, and
      the sorted edges are the same whatever the order. */
  lemma EveryUrlOneEdge(order: seq<string>, order': seq<string>, entries: map<string, Entry>, hosts: map<string, string>,
      org: string, edges: seq<AsyncEdge>, edges': seq<AsyncEdge>, divs: seq<Divergence>, divs': seq<Divergence>)
    requires Enumerates(order, entries.Keys) && Enumerates(order', entries.Keys)
    requires MayReturn(order, entries, hosts, org, edges, divs) && MayReturn(order', entries, hosts, org, edges', divs')
    ensures forall e :: multiset(edges)[e] == Resolving(Listed(entries, e.event), hosts, e.consumer)
    ensures edges == edges'
  {
    hide AllEdges, AllTargets, AsyncLe;
    forall e ensures multiset(edges)[e] == multiset(edges')[e] == Resolving(Listed(entries, e.event), hosts, e.consumer) {
      AllEdgesCount(order, entries, hosts, e);
      AllEdgesCount(order', entries, hosts, e);
    }
    AsyncLeIsPreorder();
    SortingIsUnique(edges, edges', AsyncLe);
  }

  // ---- Divergences ----

  /** Some URL listed for the event has this host, and no system has it as its domain. */
  ghost predicate UnknownTarget(entries: map<string, Entry>, hosts: map<string, string>, event: string, host: string) {
    exists url :: url in Listed(entries, event) && Unknown(url, hosts) && Host(url) == Some(host)
  }

  /** No two divergences share an ID. */
  ghost predicate IdsApart(divs: seq<Divergence>) {
    forall i, j :: 0 <= i < j < |divs| ==> divs[i].id != divs[j].id
  }

  /** Every divergence is that of an unknown host of this event. */
  ghost predicate AllFrom(divs: seq<Divergence>, event: string, urls: seq<string>, hosts: map<string, string>, org: string) {
    forall d :: d in divs ==>
      exists url :: url in urls && Unknown(url, hosts) && d == TargetDivergence(org, event, Host(url).value)
  }

  ghost predicate Covers(divs: seq<Divergence>, event: string, urls: seq<string>, hosts: map<string, string>) {
    forall url :: url in urls && Unknown(url, hosts) ==> TargetId(event, Host(url).value) in Ids(divs)
  }

  lemma AddTargetFacts(divs: seq<Divergence>, event: string, url: string, hosts: map<string, string>, org: string)
    requires IdsApart(divs)
    ensures var after := AddTarget(divs, event, url, hosts, org);
      divs <= after && IdsApart(after) && Ids(divs) <= Ids(after) && Covers(after, event, [url], hosts)
    ensures var after := AddTarget(divs, event, url, hosts, org); AllFrom(after[|divs|..], event, [url], hosts, org)
  {
    hide TargetId, Host;
    if Unknown(url, hosts) && TargetId(event, Host(url).value) !in Ids(divs) {
      forall i | 0 <= i < |divs| ensures divs[i].id in Ids(divs) {
      }
      var d := TargetDivergence(org, event, Host(url).value);
      var after := AddTarget(divs, event, url, hosts, org);
      assert after == divs + [d];
      assert after[|divs|..] == [d];
      assert d in after;
    } else {
      assert divs[|divs|..] == [];
    }
  }

  lemma {:induction false} AddTargetsFacts(divs: seq<Divergence>, event: string, urls: seq<string>, hosts: map<string, string>, org: string)
    requires IdsApart(divs)
    ensures var after := AddTargets(divs, event, urls, hosts, org);
      divs <= after && IdsApart(after) && Ids(divs) <= Ids(after) && Covers(after, event, urls, hosts)
    ensures var after := AddTargets(divs, event, urls, hosts, org); AllFrom(after[|divs|..], event, urls, hosts, org)
    decreases |urls|
  {
    hide Unknown, TargetId, Host, AddTarget, IdsApart, Ids;
    if urls == [] {
      assert divs[|divs|..] == [];
    } else {
      var mid := AddTarget(divs, event, urls[0], hosts, org);
      AddTargetFacts(divs, event, urls[0], hosts, org);
      AddTargetsFacts(mid, event, urls[1..], hosts, org);
      var after := AddTargets(divs, event, urls, hosts, org);
      assert after[|divs|..] == mid[|divs|..] + after[|mid|..];
      assert urls == [urls[0]] + urls[1..];
    }
  }

  /** The divergences one event gives on its own. */
  function Own(entries: map<string, Entry>, hosts: map<string, string>, org: string, event: string): seq<Divergence> {
    AddTargets([], event, Listed(entries, event), hosts, org)
  }

  lemma OwnFacts(entries: map<string, Entry>, hosts: map<string, string>, org: string, event: string)
    ensures IdsApart(Own(entries, hosts, org, event))
    ensures forall d :: d in Own(entries, hosts, org, event) ==>
      exists host :: UnknownTarget(entries, hosts, event, host) && d == TargetDivergence(org, event, host)
    ensures forall host :: UnknownTarget(entries, hosts, event, host) ==>
      TargetId(event, host) in Ids(Own(entries, hosts, org, event))
  {
    hide TargetId, Host, Ids;
    var own := Own(entries, hosts, org, event);
    AddTargetsFacts([], event, Listed(entries, event), hosts, org);
    assert own[0..] == own;
    forall d | d in own ensures exists host :: UnknownTarget(entries, hosts, event, host) && d == TargetDivergence(org, event, host) {
      var url :| url in Listed(entries, event) && Unknown(url, hosts) && d == TargetDivergence(org, event, Host(url).value);
      UnknownIsSome(url, hosts);
      assert UnknownTarget(entries, hosts, event, Host(url).value);
    }
  }

  lemma UnknownIsSome(url: string, hosts: map<string, string>)
    requires Unknown(url, hosts)
    ensures Host(url) == Some(Host(url).value)
  {
  }

  lemma {:induction false} AllTargetsFacts(divs: seq<Divergence>, order: seq<string>, entries: map<string, Entry>,
      hosts: map<string, string>, org: string)
    requires IdsApart(divs)
    ensures var after := AllTargets(divs, order, entries, hosts, org);
      divs <= after && IdsApart(after) && Ids(divs) <= Ids(after)
    ensures forall event, host :: event in order && UnknownTarget(entries, hosts, event, host) ==>
      TargetId(event, host) in Ids(AllTargets(divs, order, entries, hosts, org))
    ensures forall d :: d in AllTargets(divs, order, entries, hosts, org) && d !in divs ==>
      exists event, host :: event in order && UnknownTarget(entries, hosts, event, host) && d == TargetDivergence(org, event, host)
    decreases |order|
  {
    hide TargetId, Host, AddTargets, IdsApart, Ids, UnknownTarget, Listed, Unknown;
    if order != [] {
      assert order == [order[0]] + order[1..];
      var mid := AddTargets(divs, order[0], Listed(entries, order[0]), hosts, org);
      OneEventFacts(divs, order[0], entries, hosts, org);
      AllTargetsFacts(mid, order[1..], entries, hosts, org);
    }
  }

  lemma OneEventFacts(divs: seq<Divergence>, event: string, entries: map<string, Entry>, hosts: map<string, string>, org: string)
    requires IdsApart(divs)
    ensures var mid := AddTargets(divs, event, Listed(entries, event), hosts, org);
      && divs <= mid && IdsApart(mid) && Ids(divs) <= Ids(mid)
      && (forall host :: UnknownTarget(entries, hosts, event, host) ==> TargetId(event, host) in Ids(mid))
      && (forall d :: d in mid && d !in divs ==>
          exists host :: UnknownTarget(entries, hosts, event, host) && d == TargetDivergence(org, event, host))
  {
    hide TargetId, Host, AddTargets, IdsApart, Ids, Listed;
    var mid := AddTargets(divs, event, Listed(entries, event), hosts, org);
    AddTargetsFacts(divs, event, Listed(entries, event), hosts, org);
    forall d | d in mid && d !in divs
      ensures exists host :: UnknownTarget(entries, hosts, event, host) && d == TargetDivergence(org, event, host)
    {
      assert mid == divs + mid[|divs|..];
      var url :| url in Listed(entries, event) && Unknown(url, hosts) && d == TargetDivergence(org, event, Host(url).value);
      UnknownIsSome(url, hosts);
      assert UnknownTarget(entries, hosts, event, Host(url).value);
    }
  }

  /** One divergence for every ID an unknown target of a listed event has, and no other. */
  lemma OneDivergencePerId(order: seq<string>, entries: map<string, Entry>, hosts: map<string, string>, org: string,
      edges: seq<AsyncEdge>, divs: seq<Divergence>)
    requires Enumerates(order, entries.Keys) && MayReturn(order, entries, hosts, org, edges, divs)
    ensures IdsApart(divs)
    ensures forall event, host :: UnknownTarget(entries, hosts, event, host) ==> TargetId(event, host) in Ids(divs)
    ensures forall d :: d in divs ==>
      exists event, host :: UnknownTarget(entries, hosts, event, host) && d == TargetDivergence(org, event, host)
  {
    hide TargetId, Host, AllTargets, AllEdges, Unknown, UnknownTarget;
    var raw := AllTargets([], order, entries, hosts, org);
    AllTargetsFacts([], order, entries, hosts, org);
    SameElements(divs, raw);
    assert Ids(divs) == Ids(raw);
    PermutedIdsApart(divs, raw);
    forall event, host | UnknownTarget(entries, hosts, event, host) ensures event in order {
      UnknownIsListed(entries, hosts, event, host);
    }
  }

  lemma UnknownIsListed(entries: map<string, Entry>, hosts: map<string, string>, event: string, host: string)
    requires UnknownTarget(entries, hosts, event, host)
    ensures event in entries
  {
  }

  lemma PermutedIdsApart(a: seq<Divergence>, b: seq<Divergence>)
    requires multiset(a) == multiset(b) && IdsApart(b)
    ensures IdsApart(a)
  {
    NoRepeats(b);
    NoRepeats(a);
    SameElements(a, b);
    forall i, j | 0 <= i < j < |a| ensures a[i].id != a[j].id {
      assert a[i] in b && a[j] in b && a[i] != a[j];
    }
  }

  /** When no two unknown targets share an ID there is one divergence for each of them. */
  lemma OneDivergencePerTarget(order: seq<string>, entries: map<string, Entry>, hosts: map<string, string>, org: string,
      edges: seq<AsyncEdge>, divs: seq<Divergence>)
    requires Enumerates(order, entries.Keys) && MayReturn(order, entries, hosts, org, edges, divs)
    requires forall event, host, event', host' ::
      UnknownTarget(entries, hosts, event, host) && UnknownTarget(entries, hosts, event', host') ==>
      TargetId(event, host) == TargetId(event', host') ==> event == event' && host == host'
    ensures forall event, host :: UnknownTarget(entries, hosts, event, host) ==> TargetDivergence(org, event, host) in divs
  {
    hide TargetId, Host, AllTargets, AllEdges, Unknown, UnknownTarget, MayReturn;
    OneDivergencePerId(order, entries, hosts, org, edges, divs);
    forall event, host | UnknownTarget(entries, hosts, event, host) ensures TargetDivergence(org, event, host) in divs {
      var d :| d in divs && d.id == TargetId(event, host);
      var event', host' :| UnknownTarget(entries, hosts, event', host') && d == TargetDivergence(org, event', host');
    }
  }

  // ---- When the divergences depend on the order ----

  /** Two different events each give a divergence, and these share an ID or a message. */
  ghost predicate Clash(entries: map<string, Entry>, hosts: map<string, string>, org: string) {
    exists event, event', d, d' ::
      && event in entries && event' in entries && event != event'
      && d in Own(entries, hosts, org, event) && d' in Own(entries, hosts, org, event')
      && (d.id == d'.id || d.message == d'.message)
  }

  lemma {:induction false} AddTargetsShift(divs: seq<Divergence>, own: seq<Divergence>, event: string, urls: seq<string>,
      hosts: map<string, string>, org: string)
    requires forall url :: url in urls && Unknown(url, hosts) ==> TargetId(event, Host(url).value) !in Ids(divs)
    ensures AddTargets(divs + own, event, urls, hosts, org) == divs + AddTargets(own, event, urls, hosts, org)
    decreases |urls|
  {
    hide Host, TargetId, Unknown;
    if urls != [] {
      assert Ids(divs + own) == Ids(divs) + Ids(own);
      assert AddTarget(divs + own, event, urls[0], hosts, org) == divs + AddTarget(own, event, urls[0], hosts, org);
      AddTargetsShift(divs, AddTarget(own, event, urls[0], hosts, org), event, urls[1..], hosts, org);
    }
  }

  /** No divergence collected so far shares an ID with one the event gives on its own. */
  ghost predicate Fresh(divs: seq<Divergence>, entries: map<string, Entry>, hosts: map<string, string>, org: string, event: string) {
    forall d, d' :: d in divs && d' in Own(entries, hosts, org, event) ==> d.id != d'.id
  }

  lemma FreshAdds(divs: seq<Divergence>, event: string, entries: map<string, Entry>, hosts: map<string, string>, org: string)
    requires Fresh(divs, entries, hosts, org, event)
    ensures AddTargets(divs, event, Listed(entries, event), hosts, org) == divs + Own(entries, hosts, org, event)
  {
    hide Host, TargetId, AddTargets;
    var urls := Listed(entries, event);
    OwnFacts(entries, hosts, org, event);
    forall url | url in urls && Unknown(url, hosts) ensures TargetId(event, Host(url).value) !in Ids(divs) {
      UnknownIsSome(url, hosts);
      assert UnknownTarget(entries, hosts, event, Host(url).value);
    }
    AddTargetsShift(divs, [], event, urls, hosts, org);
    assert divs + [] == divs;
  }

  lemma {:induction false} UnionOfOwn(divs: seq<Divergence>, order: seq<string>, entries: map<string, Entry>,
      hosts: map<string, string>, org: string)
    requires forall i, j :: 0 <= i < j < |order| ==> order[i] != order[j]
    requires forall event :: event in order ==> Fresh(divs, entries, hosts, org, event)
    requires forall event, event' :: event in order && event' in order && event != event' ==>
      Fresh(Own(entries, hosts, org, event), entries, hosts, org, event')
    ensures forall d :: d in AllTargets(divs, order, entries, hosts, org) <==>
      d in divs || exists event :: event in order && d in Own(entries, hosts, org, event)
    decreases |order|
  {
    hide AddTargets, Own, Listed;
    if order != [] {
      var own := Own(entries, hosts, org, order[0]);
      assert order == [order[0]] + order[1..];
      FreshAdds(divs, order[0], entries, hosts, org);
      forall event | event in order[1..] ensures Fresh(divs + own, entries, hosts, org, event) {
        assert event in order && event != order[0];
        assert Fresh(divs, entries, hosts, org, event) && Fresh(own, entries, hosts, org, event);
        forall d, d' | d in divs + own && d' in Own(entries, hosts, org, event) ensures d.id != d'.id {
          assert d in divs || d in own;
        }
      }
      assert forall event :: event in order[1..] ==> event in order;
      UnionOfOwn(divs + own, order[1..], entries, hosts, org);
    }
  }

  /** Two events share no ID: the divergences are those of each event, in every order. */
  lemma ApartIsUnion(order: seq<string>, entries: map<string, Entry>, hosts: map<string, string>, org: string)
    requires Enumerates(order, entries.Keys)
    requires forall event, event' :: event in entries && event' in entries && event != event' ==>
      Fresh(Own(entries, hosts, org, event), entries, hosts, org, event')
    ensures forall d :: d in AllTargets([], order, entries, hosts, org) <==>
      exists event :: event in entries && d in Own(entries, hosts, org, event)
    ensures IdsApart(AllTargets([], order, entries, hosts, org))
  {
    hide Own, AllTargets;
    UnionOfOwn([], order, entries, hosts, org);
    AllTargetsFacts([], order, entries, hosts, org);
  }

  /** The event that gave a divergence can be read off it, up to what an ID and a message tell. */
  lemma SameEvent(event: string, event': string, d: Divergence, entries: map<string, Entry>, hosts: map<string, string>, org: string)
    requires d in Own(entries, hosts, org, event) && d in Own(entries, hosts, org, event')
    ensures event == event'
  {
    hide Own;
    OwnFacts(entries, hosts, org, event);
    OwnFacts(entries, hosts, org, event');
    var host :| UnknownTarget(entries, hosts, event, host) && d == TargetDivergence(org, event, host);
    var host' :| UnknownTarget(entries, hosts, event', host') && d == TargetDivergence(org, event', host');
    assert TargetId(event, host) == d.id == TargetId(event', host');
    assert TargetMessage(event, host) == d.message == TargetMessage(event', host');
    TargetIdTells(event, host, event', host');
    DslIdentCollides(event, event');
    TargetMessageTells(event, host, event', host');
  }

  lemma SameMessageSameEvent(event: string, d: Divergence, d': Divergence, entries: map<string, Entry>, hosts: map<string, string>, org: string)
    requires d in Own(entries, hosts, org, event) && d' in Own(entries, hosts, org, event) && d.message == d'.message
    ensures d == d'
  {
    hide Own;
    OwnFacts(entries, hosts, org, event);
    var host :| UnknownTarget(entries, hosts, event, host) && d == TargetDivergence(org, event, host);
    var host' :| UnknownTarget(entries, hosts, event, host') && d' == TargetDivergence(org, event, host');
    TargetMessageTells(event, host, event, host');
  }

  lemma NoClashIsDetermined(order: seq<string>, order': seq<string>, entries: map<string, Entry>, hosts: map<string, string>,
      org: string, divs: seq<Divergence>, divs': seq<Divergence>)
    requires Enumerates(order, entries.Keys) && Enumerates(order', entries.Keys) && !Clash(entries, hosts, org)
    requires Sorts(divs, AllTargets([], order, entries, hosts, org), MessageLe)
    requires Sorts(divs', AllTargets([], order', entries, hosts, org), MessageLe)
    ensures divs == divs'
  {
    hide Own, AllTargets, MessageLe;
    forall event, event' | event in entries && event' in entries && event != event'
      ensures Fresh(Own(entries, hosts, org, event), entries, hosts, org, event')
    {
    }
    ApartIsUnion(order, entries, hosts, org);
    ApartIsUnion(order', entries, hosts, org);
    var raw, raw' := AllTargets([], order, entries, hosts, org), AllTargets([], order', entries, hosts, org);
    SameSets(raw, raw');
    SameElements(divs, raw);
    MessageLeIsPreorder();
    forall d, d' | d in divs && d' in divs && MessageLe(d, d') && MessageLe(d', d) ensures d == d' {
      var event :| event in entries && d in Own(entries, hosts, org, event);
      var event' :| event' in entries && d' in Own(entries, hosts, org, event');
      if event == event' { SameMessageSameEvent(event, d, d', entries, hosts, org); }
    }
    SortingIsUnique(divs, divs', MessageLe);
  }

  /** The order that visits one event first. */
  lemma {:induction false} OrderStarting(keys: set<string>, first: string) returns (order: seq<string>)
    requires first in keys
    ensures Enumerates(order, keys) && order[0] == first
    decreases keys
  {
    var rest := keys - {first};
    if rest == {} {
      order := [first];
    } else {
      var next :| next in rest;
      var tail := OrderStarting(rest, next);
      order := [first] + tail;
    }
  }

  lemma FirstEventWins(order: seq<string>, event: string, d: Divergence, entries: map<string, Entry>, hosts: map<string, string>, org: string)
    requires Enumerates(order, entries.Keys) && order != [] && order[0] == event && d in Own(entries, hosts, org, event)
    ensures d in AllTargets([], order, entries, hosts, org) && IdsApart(AllTargets([], order, entries, hosts, org))
  {
    hide AddTargets, Listed, IdsApart;
    var own := Own(entries, hosts, org, event);
    OwnFacts(entries, hosts, org, event);
    AllTargetsFacts(own, order[1..], entries, hosts, org);
    NoneApart();
    AllTargetsFacts([], order, entries, hosts, org);
  }

  lemma NoneApart()
    ensures IdsApart([])
  {
  }

  lemma SharedIdIsUndetermined(event: string, event': string, d: Divergence, d': Divergence, entries: map<string, Entry>,
      hosts: map<string, string>, org: string)
    requires event in entries && event' in entries && event != event' && d.id == d'.id
    requires d in Own(entries, hosts, org, event) && d' in Own(entries, hosts, org, event')
    ensures !Determined(entries, hosts, org)
  {
    hide Own, AllTargets, AllEdges, AsyncLe, MessageLe;
    var order := OrderStarting(entries.Keys, event);
    var order' := OrderStarting(entries.Keys, event');
    FirstEventWins(order, event, d, entries, hosts, org);
    FirstEventWins(order', event', d', entries, hosts, org);
    var edges, divs := SomeResult(order, entries, hosts, org);
    var edges', divs' := SomeResult(order', entries, hosts, org);
    SameElements(divs, AllTargets([], order, entries, hosts, org));
    SameElements(divs', AllTargets([], order', entries, hosts, org));
    if divs == divs' {
      assert d in AllTargets([], order', entries, hosts, org);
      assert d == d';
      SameEvent(event, event', d, entries, hosts, org);
    }
  }

  lemma SomeResult(order: seq<string>, entries: map<string, Entry>, hosts: map<string, string>, org: string)
    returns (edges: seq<AsyncEdge>, divs: seq<Divergence>)
    ensures MayReturn(order, entries, hosts, org, edges, divs)
  {
    AsyncLeIsPreorder();
    MessageLeIsPreorder();
    edges := Sorted(AllEdges(order, entries, hosts), AsyncLe);
    divs := Sorted(AllTargets([], order, entries, hosts, org), MessageLe);
    SortedSorts(AllEdges(order, entries, hosts), AsyncLe);
    SortedSorts(AllTargets([], order, entries, hosts, org), MessageLe);
  }

  lemma SharedMessageIsUndetermined(event: string, event': string, d: Divergence, d': Divergence, entries: map<string, Entry>,
      hosts: map<string, string>, org: string)
    requires event in entries && event' in entries && event != event' && d.message == d'.message
    requires d in Own(entries, hosts, org, event) && d' in Own(entries, hosts, org, event')
    requires forall e, e' :: e in entries && e' in entries && e != e' ==>
      Fresh(Own(entries, hosts, org, e), entries, hosts, org, e')
    ensures !Determined(entries, hosts, org)
  {
    hide Own, AllTargets, AllEdges, AsyncLe;
    var order := OrderStarting(entries.Keys, event);
    ApartIsUnion(order, entries, hosts, org);
    var raw := AllTargets([], order, entries, hosts, org);
    MessageLeIsPreorder();
    assert Fresh(Own(entries, hosts, org, event), entries, hosts, org, event');
    assert d in raw && d' in raw && d != d' && MessageLe(d, d') && MessageLe(d', d);
    var edges, divs := SomeResult(order, entries, hosts, org);
    SortingIsNotUnique(raw, divs, MessageLe);
    var other :| Sorts(other, raw, MessageLe) && other != divs;
    assert MayReturn(order, entries, hosts, org, edges, other);
  }

  /** However the map is iterated and ties are broken, the same divergences come back. */
  ghost predicate Determined(entries: map<string, Entry>, hosts: map<string, string>, org: string) {
    forall order, order', edges, edges', divs, divs' ::
      && Enumerates(order, entries.Keys) && Enumerates(order', entries.Keys)
      && MayReturn(order, entries, hosts, org, edges, divs) && MayReturn(order', entries, hosts, org, edges', divs')
      ==> divs == divs'
  }

  /** The result is independent of map order exactly when no two events' own divergences clash. */
  lemma DeterminedUnlessClash(entries: map<string, Entry>, hosts: map<string, string>, org: string)
    ensures Determined(entries, hosts, org) <==> !Clash(entries, hosts, org)
  {
    hide Own, AllTargets, AllEdges, AsyncLe, MessageLe;
    if !Clash(entries, hosts, org) {
      forall order, order', edges, edges', divs, divs' |
        && Enumerates(order, entries.Keys) && Enumerates(order', entries.Keys)
        && MayReturn(order, entries, hosts, org, edges, divs) && MayReturn(order', entries, hosts, org, edges', divs')
        ensures divs == divs'
      {
        NoClashIsDetermined(order, order', entries, hosts, org, divs, divs');
      }
    } else {
      ClashIsUndetermined(entries, hosts, org);
    }
  }

  lemma ClashIsUndetermined(entries: map<string, Entry>, hosts: map<string, string>, org: string)
    requires Clash(entries, hosts, org)
    ensures !Determined(entries, hosts, org)
  {
    hide Own, Determined;
    if forall e, e' :: e in entries && e' in entries && e != e' ==> Fresh(Own(entries, hosts, org, e), entries, hosts, org, e') {
      var event, event', d, d' :| event in entries && event' in entries && event != event'
        && d in Own(entries, hosts, org, event) && d' in Own(entries, hosts, org, event')
        && (d.id == d'.id || d.message == d'.message);
      assert Fresh(Own(entries, hosts, org, event), entries, hosts, org, event');
      SharedMessageIsUndetermined(event, event', d, d', entries, hosts, org);
    } else {
      var event, event' :| event in entries && event' in entries && event != event'
        && !Fresh(Own(entries, hosts, org, event), entries, hosts, org, event');
      var d, d' :| d in Own(entries, hosts, org, event) && d' in Own(entries, hosts, org, event') && d.id == d'.id;
      SharedIdIsUndetermined(event, event', d, d', entries, hosts, org);
    }
  }

  /** Two events that differ in a separator only, each with one URL of the same unknown host. */
  function HyphenAndDot(): map<string, Entry> {
    map["a-b" := Urls(["https://x"]), "a.b" := Urls(["https://x"])]
  }

  lemma OwnOfOne(event: string, entries: map<string, Entry>, org: string)
    requires Listed(entries, event) == ["https://x"]
    ensures Own(entries, map[], org, event) == [TargetDivergence(org, event, "x")]
  {
    hide Host, TargetId, TargetDivergence;
    HostOfUrl("https:", "x", "");
    assert "https:" + "//" + "x" + "" == "https://x";
    assert ["https://x"][1..] == [];
    assert Ids([]) == {};
    assert AddTarget([], event, "https://x", map[], org) == [TargetDivergence(org, event, "x")];
  }

  /** A concrete clash: which of the two events is reported depends on the map order. */
  lemma HyphenAndDotClash(org: string)
    ensures Clash(HyphenAndDot(), map[], org) && !Determined(HyphenAndDot(), map[], org)
  {
    hide Own, TargetDivergence, TargetId, TargetMessage, Determined, MayReturn;
    var entries := HyphenAndDot();
    var e, e' := "a-b", "a.b";
    assert e[1] != e'[1] && e[0] != CONSUMER_TOKENS[0] && e'[0] != CONSUMER_TOKENS[0];
    OwnOfOne(e, entries, org);
    OwnOfOne(e', entries, org);
    assert DslIdent(e) == DslIdent(e') by { DslIdentCollides(e, e'); }
    TargetIdTells(e, "x", e', "x");
    SameIds(org, e, e');
    var d, d' := TargetDivergence(org, e, "x"), TargetDivergence(org, e', "x");
    assert d in Own(entries, map[], org, e) && d' in Own(entries, map[], org, e');
    DeterminedUnlessClash(entries, map[], org);
  }

  lemma SameIds(org: string, e: string, e': string)
    requires TargetId(e, "x") == TargetId(e', "x")
    ensures TargetDivergence(org, e, "x").id == TargetDivergence(org, e', "x").id
  {
  }
}
