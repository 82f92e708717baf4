/** Loganne's observed producers: edges, divergences and the elements declared for non-systems. */
module C4Producers {
  import opened C4Routing
  import opened Sorting
  import opened Wrappers

  datatype ProducerEdge = ProducerEdge(source: string, event: string)

  datatype ProducerElement = ProducerElement(id: string, kind: string)

  /** A name with hyphens and dots replaced by underscores. */
  function DslIdent(s: string): string {
    seq(|s|, i requires 0 <= i < |s| => if s[i] == '-' || s[i] == '.' then '_' else s[i])
  }

  predicate Separator(c: char) {
    c == '-' || c == '.' || c == '_'
  }

  /** Exactly which names share an identifier: those differing only in which separator they use. */
  lemma DslIdentCollides(a: string, b: string)
    ensures DslIdent(a) == DslIdent(b) <==>
      |a| == |b| && forall i :: 0 <= i < |a| ==> a[i] == b[i] || (Separator(a[i]) && Separator(b[i]))
    ensures '-' !in DslIdent(a) && '.' !in DslIdent(a)
    ensures DslIdent(DslIdent(a)) == DslIdent(a)
  {
    if |a| == |b| {
      if forall i :: 0 <= i < |a| ==> a[i] == b[i] || (Separator(a[i]) && Separator(b[i])) {
        forall i | 0 <= i < |a| ensures DslIdent(a)[i] == DslIdent(b)[i] {
        }
      }
      if DslIdent(a) == DslIdent(b) {
        forall i | 0 <= i < |a| ensures a[i] == b[i] || (Separator(a[i]) && Separator(b[i])) {
          assert DslIdent(a)[i] == DslIdent(b)[i];
        }
      }
    }
  }

  const PRODUCER_ID: string := ID_PREFIX + "loganne-producer-"
  const PRODUCER_HEAD: string := "- loganne producer `"
  const PRODUCER_TAIL: string := "` is not a known configy system, component, or script"

  function ProducerDivergence(org: string, source: string): Divergence {
    Divergence(org + "/lucos_loganne", PRODUCER_ID + DslIdent(source), PRODUCER_HEAD + source + PRODUCER_TAIL)
  }

  predicate MessageLe(a: Divergence, b: Divergence) {
    StrLe(a.message, b.message)
  }

  lemma MessageLeIsPreorder()
    ensures Preorder(MessageLe)
    ensures forall a, b :: MessageLe(a, b) && MessageLe(b, a) ==> a.message == b.message
  {
    hide StrLe;
    forall x: Divergence, y: Divergence ensures MessageLe(x, y) || MessageLe(y, x) {
      StrLeTotal(x.message, y.message);
    }
    forall x, y | MessageLe(x, y) && MessageLe(y, x) ensures x.message == y.message {
      StrLeTotal(x.message, y.message);
    }
    forall x, y, z | MessageLe(x, y) && MessageLe(y, z) ensures MessageLe(x, z) {
      StrLeTransitive(x.message, y.message, z.message);
    }
  }

  predicate ProducerLe(a: ProducerEdge, b: ProducerEdge) {
    PairLe(a.source, a.event, b.source, b.event)
  }

  lemma ProducerLeIsPreorder()
    ensures Preorder(ProducerLe)
    ensures forall a, b :: ProducerLe(a, b) && ProducerLe(b, a) ==> a == b
  {
    hide PairLe;
    forall x: ProducerEdge, y: ProducerEdge ensures ProducerLe(x, y) || ProducerLe(y, x) {
      PairLeLaws(x.source, x.event, y.source, y.event, "", "");
    }
    forall x, y | ProducerLe(x, y) && ProducerLe(y, x) ensures x == y {
      PairLeLaws(x.source, x.event, y.source, y.event, "", "");
    }
    forall x, y, z | ProducerLe(x, y) && ProducerLe(y, z) ensures ProducerLe(x, z) {
      PairLeLaws(x.source, x.event, y.source, y.event, z.source, z.event);
    }
  }

  // ---- Parsing the producers ----

  function EdgesFrom(source: string, types: seq<string>): seq<ProducerEdge> {
    if types == [] then [] else [ProducerEdge(source, types[0])] + EdgesFrom(source, types[1..])
  }

  function RawEdges(order: seq<string>, raw: map<string, seq<string>>, valid: set<string>): seq<ProducerEdge>
    requires forall s :: s in order ==> s in raw
  {
    if order == [] then []
    else (if order[0] in valid then EdgesFrom(order[0], raw[order[0]]) else []) + RawEdges(order[1..], raw, valid)
  }

  function RawDivergences(order: seq<string>, valid: set<string>, org: string): seq<Divergence> {
    if order == [] then []
    else (if order[0] in valid then [] else [ProducerDivergence(org, order[0])]) + RawDivergences(order[1..], valid, org)
  }

  /** How often the observed map gives this edge from a recognised source. */
  function Observed(raw: map<string, seq<string>>, valid: set<string>, e: ProducerEdge): nat {
    if e.source in raw && e.source in valid then multiset(raw[e.source])[e.event] else 0
  }

  /** The observed map alone fixes the parse: every edge of a recognised source as often as it was
      observed, every unrecognised source one divergence, both sorted. */
  ghost predicate ProducersParsed(raw: map<string, seq<string>>, valid: set<string>, org: string,
      edges: seq<ProducerEdge>, divs: seq<Divergence>)
  {
    && Ordered(edges, ProducerLe)
    && (forall e :: multiset(edges)[e] == Observed(raw, valid, e))
    && Ordered(divs, MessageLe)
    && (forall d :: d in divs <==> exists s :: s in raw && s !in valid && d == ProducerDivergence(org, s))
    && (forall i, j :: 0 <= i < j < |divs| ==> divs[i] != divs[j])
  }

  /** `order` is the order in which the map happens to be iterated. */
  method ParseLoganneProducers(raw: map<string, seq<string>>, valid: set<string>, org: string, order: seq<string>)
    returns (edges: seq<ProducerEdge>, divs: seq<Divergence>)
    requires Enumerates(order, raw.Keys)
    ensures ProducersParsed(raw, valid, org, edges, divs)
  {
    hide RawEdges, RawDivergences, ProducersParsed, ProducerLe, MessageLe;
    ProducerLeIsPreorder();
    MessageLeIsPreorder();
    var unsortedEdges, unsortedDivs := CollectProducers(raw, valid, org, order);
    edges := SortSlice(unsortedEdges, ProducerLe);
    divs := SortSlice(unsortedDivs, MessageLe);
    SortedIsParsed(order, raw, valid, org, edges, divs);
  }

  method CollectProducers(raw: map<string, seq<string>>, valid: set<string>, org: string, order: seq<string>)
    returns (edges: seq<ProducerEdge>, divs: seq<Divergence>)
    requires forall s :: s in order ==> s in raw
    ensures edges == RawEdges(order, raw, valid)
    ensures divs == RawDivergences(order, valid, org)
  {
    hide ProducerDivergence, EdgesFrom, RawEdges, RawDivergences;
    edges, divs := [], [];
    assert order[0..] == order;
    for i := 0 to |order|
      invariant forall s :: s in order[i..] ==> s in raw
      invariant RawEdges(order, raw, valid) == edges + RawEdges(order[i..], raw, valid)
      invariant RawDivergences(order, valid, org) == divs + RawDivergences(order[i..], valid, org)
    {
      RawStep(order, i, raw, valid, org);
      if order[i] !in valid {
        divs := divs + [ProducerDivergence(org, order[i])];
      } else {
        edges := AppendEdges(edges, order[i], raw[order[i]]);
      }
    }
    RawEnd(raw, valid, org);
    assert order[|order|..] == [];
    assert edges + [] == edges && divs + [] == divs;
  }

  lemma RawEnd(raw: map<string, seq<string>>, valid: set<string>, org: string)
    ensures RawEdges([], raw, valid) == [] && RawDivergences([], valid, org) == []
  {
  }

  lemma RawStep(order: seq<string>, i: nat, raw: map<string, seq<string>>, valid: set<string>, org: string)
    requires i < |order| && forall s :: s in order ==> s in raw
    ensures forall s :: s in order[i + 1..] ==> s in raw
    ensures RawEdges(order[i..], raw, valid) ==
      (if order[i] in valid then EdgesFrom(order[i], raw[order[i]]) else []) + RawEdges(order[i + 1..], raw, valid)
    ensures RawDivergences(order[i..], valid, org) ==
      (if order[i] in valid then [] else [ProducerDivergence(org, order[i])]) + RawDivergences(order[i + 1..], valid, org)
  {
    hide ProducerDivergence, EdgesFrom;
    assert order[i..][1..] == order[i + 1..];
  }

  method AppendEdges(before: seq<ProducerEdge>, source: string, types: seq<string>) returns (edges: seq<ProducerEdge>)
    ensures edges == before + EdgesFrom(source, types)
  {
    edges := before;
    for j := 0 to |types|
      invariant before + EdgesFrom(source, types) == edges + EdgesFrom(source, types[j..])
    {
      assert types[j..][1..] == types[j + 1..];
      edges := edges + [ProducerEdge(source, types[j])];
    }
  }

  lemma {:induction false} EdgesFromCount(source: string, types: seq<string>, e: ProducerEdge)
    ensures multiset(EdgesFrom(source, types))[e] == if e.source == source then multiset(types)[e.event] else 0
  {
    if types != [] {
      EdgesFromCount(source, types[1..], e);
      assert types == [types[0]] + types[1..];
    }
  }

  lemma {:induction false} RawEdgesCount(order: seq<string>, raw: map<string, seq<string>>, valid: set<string>, e: ProducerEdge)
    requires forall s :: s in order ==> s in raw
    requires forall i, j :: 0 <= i < j < |order| ==> order[i] != order[j]
    ensures multiset(RawEdges(order, raw, valid))[e] == if e.source in order then Observed(raw, valid, e) else 0
  {
    if order != [] {
      RawEdgesCount(order[1..], raw, valid, e);
      EdgesFromCount(order[0], raw[order[0]], e);
      assert order == [order[0]] + order[1..];
    }
  }

  lemma ProducerMessageTells(org: string, a: string, b: string)
    requires ProducerDivergence(org, a).message == ProducerDivergence(org, b).message
    ensures a == b
  {
    var m, n := ProducerDivergence(org, a).message, ProducerDivergence(org, b).message;
    assert |m| == |PRODUCER_HEAD| + |a| + |PRODUCER_TAIL| && |n| == |PRODUCER_HEAD| + |b| + |PRODUCER_TAIL|;
    assert a == m[|PRODUCER_HEAD|..|PRODUCER_HEAD| + |a|];
    assert b == n[|PRODUCER_HEAD|..|PRODUCER_HEAD| + |b|];
  }

  lemma {:induction false} RawDivergencesAre(order: seq<string>, valid: set<string>, org: string)
    requires forall i, j :: 0 <= i < j < |order| ==> order[i] != order[j]
    ensures forall d :: d in RawDivergences(order, valid, org) <==>
      exists s :: s in order && s !in valid && d == ProducerDivergence(org, s)
    ensures forall d :: multiset(RawDivergences(order, valid, org))[d] <= 1
  {
    hide ProducerDivergence;
    if order != [] {
      var rest := RawDivergences(order[1..], valid, org);
      RawDivergencesAre(order[1..], valid, org);
      assert order == [order[0]] + order[1..];
      if order[0] !in valid {
        var d := ProducerDivergence(org, order[0]);
        if d in rest {
          var s :| s in order[1..] && s !in valid && d == ProducerDivergence(org, s);
          ProducerMessageTells(org, s, order[0]);
          assert false;
        }
        assert multiset(rest)[d] == 0;
      }
    }
  }

  lemma SortedIsParsed(order: seq<string>, raw: map<string, seq<string>>, valid: set<string>, org: string,
      edges: seq<ProducerEdge>, divs: seq<Divergence>)
    requires Enumerates(order, raw.Keys)
    requires Sorts(edges, RawEdges(order, raw, valid), ProducerLe)
    requires Sorts(divs, RawDivergences(order, valid, org), MessageLe)
    ensures ProducersParsed(raw, valid, org, edges, divs)
  {
    hide ProducerDivergence, ProducerLe, MessageLe, RawEdges, RawDivergences;
    forall e ensures multiset(edges)[e] == Observed(raw, valid, e) {
      RawEdgesCount(order, raw, valid, e);
    }
    RawDivergencesAre(order, valid, org);
    SameElements(divs, RawDivergences(order, valid, org));
    NoRepeats(divs);
  }

  /** Whatever order the map was iterated in and however the sort broke ties, the result is the same. */
  lemma ProducersIgnoreMapOrder(raw: map<string, seq<string>>, valid: set<string>, org: string,
      edges: seq<ProducerEdge>, divs: seq<Divergence>, edges': seq<ProducerEdge>, divs': seq<Divergence>)
    requires ProducersParsed(raw, valid, org, edges, divs)
    requires ProducersParsed(raw, valid, org, edges', divs')
    ensures edges == edges' && divs == divs'
  {
    hide ProducerDivergence, ProducerLe, MessageLe, Observed;
    ProducerLeIsPreorder();
    assert multiset(edges) == multiset(edges');
    SortingIsUnique(edges, edges', ProducerLe);
    MessageLeIsPreorder();
    forall d, d' | d in divs && d' in divs && MessageLe(d, d') && MessageLe(d', d) ensures d == d' {
      var s :| s in raw && s !in valid && d == ProducerDivergence(org, s);
      var s' :| s' in raw && s' !in valid && d' == ProducerDivergence(org, s');
      ProducerMessageTells(org, s, s');
    }
    SameSets(divs, divs');
    SortingIsUnique(divs, divs', MessageLe);
  }

  // ---- Elements for producers that are not systems ----

  function Sources(edges: seq<ProducerEdge>): set<string> {
    set e | e in edges :: e.source
  }

  predicate ElementLe(a: ProducerElement, b: ProducerElement) {
    StrLe(a.id, b.id)
  }

  function KindOf(kinds: map<string, string>, id: string): string {
    if id in kinds && kinds[id] != "" then kinds[id] else "producer"
  }

  /** One element, of its recorded kind, for each producing source that is not a system; none twice. */
  ghost predicate ElementsBuilt(edges: seq<ProducerEdge>, systems: set<string>, kinds: map<string, string>,
      elements: seq<ProducerElement>)
  {
    && Ordered(elements, ElementLe)
    && (forall i, j :: 0 <= i < j < |elements| ==> elements[i].id != elements[j].id)
    && (forall x :: x in elements <==>
        x.kind == KindOf(kinds, x.id) && x.id !in systems && x.id in Sources(edges))
  }

  lemma ElementLeIsPreorder()
    ensures Preorder(ElementLe)
    ensures forall a, b :: ElementLe(a, b) && ElementLe(b, a) ==> a.id == b.id
  {
    hide StrLe;
    forall x: ProducerElement, y: ProducerElement ensures ElementLe(x, y) || ElementLe(y, x) {
      StrLeTotal(x.id, y.id);
    }
    forall x, y | ElementLe(x, y) && ElementLe(y, x) ensures x.id == y.id {
      StrLeTotal(x.id, y.id);
    }
    forall x, y, z | ElementLe(x, y) && ElementLe(y, z) ensures ElementLe(x, z) {
      StrLeTransitive(x.id, y.id, z.id);
    }
  }

  method BuildProducerElements(edges: seq<ProducerEdge>, systems: set<string>, kinds: map<string, string>)
    returns (elements: seq<ProducerElement>)
    ensures ElementsBuilt(edges, systems, kinds, elements)
  {
    elements := [];
    var seen: set<string> := {};
    for i := 0 to |edges|
      invariant forall id :: id in seen <==> exists x :: x in elements && x.id == id
      invariant forall j, k :: 0 <= j < k < |elements| ==> elements[j].id != elements[k].id
      invariant forall x :: x in elements <==>
        x.kind == KindOf(kinds, x.id) && x.id !in systems && x.id in Sources(edges[..i])
    {
      var source := edges[i].source;
      assert edges[..i + 1] == edges[..i] + [edges[i]];
      assert Sources(edges[..i + 1]) == Sources(edges[..i]) + {source};
      if source !in systems && source !in seen {
        seen := seen + {source};
        elements := elements + [ProducerElement(source, KindOf(kinds, source))];
      }
    }
    assert edges[..|edges|] == edges;
    ElementLeIsPreorder();
    var built := elements;
    elements := SortSlice(elements, ElementLe);
    SameElements(elements, built);
    SortingKeepsIdsApart(elements, built);
  }

  lemma SortingKeepsIdsApart(sorted: seq<ProducerElement>, built: seq<ProducerElement>)
    requires multiset(sorted) == multiset(built)
    requires forall i, j :: 0 <= i < j < |built| ==> built[i].id != built[j].id
    ensures forall i, j :: 0 <= i < j < |sorted| ==> sorted[i].id != sorted[j].id
  {
    NoRepeats(built);
    NoRepeats(sorted);
    SameElements(sorted, built);
    forall i, j | 0 <= i < j < |sorted| ensures sorted[i].id != sorted[j].id {
      assert sorted[i] in built && sorted[j] in built;
    }
  }

  /** Which elements there are and of what kind: one whose kind is not recorded is a "producer". */
  lemma BuiltExactly(edges: seq<ProducerEdge>, systems: set<string>, kinds: map<string, string>,
      elements: seq<ProducerElement>, x: ProducerElement)
    requires ElementsBuilt(edges, systems, kinds, elements)
    ensures x in elements <==>
      && (exists e :: e in edges && e.source == x.id) && x.id !in systems
      && x.kind == if x.id in kinds && kinds[x.id] != "" then kinds[x.id] else "producer"
  {
    hide ElementLe;
    assert x.id in Sources(edges) <==> exists e :: e in edges && e.source == x.id;
  }

  /** The elements depend only on which sources the edges have. */
  lemma ElementsAreDetermined(edges: seq<ProducerEdge>, edges': seq<ProducerEdge>, systems: set<string>,
      kinds: map<string, string>, a: seq<ProducerElement>, b: seq<ProducerElement>)
    requires ElementsBuilt(edges, systems, kinds, a) && ElementsBuilt(edges', systems, kinds, b)
    requires Sources(edges) == Sources(edges')
    ensures a == b
  {
    hide ElementLe, KindOf;
    ElementLeIsPreorder();
    forall x ensures x in a <==> x in b {
      assert (x.id in Sources(edges)) <==> (exists e :: e in edges' && e.source == x.id);
    }
    SameSets(a, b);
    SortingIsUnique(a, b, ElementLe);
  }
}
