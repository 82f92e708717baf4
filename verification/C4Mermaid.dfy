/** The Mermaid chart: its nodes against the endpoints of its links, and its links against the DSL. */
module C4Mermaid {
  import opened C4Producers
  import opened C4Webhooks
  import opened C4Model
  import opened C4Render
  import opened Sorting
  import opened Text
  import opened Wrappers

  function SyncLinks(edges: seq<SyncEdge>, known: set<string>): seq<Line> {
    if edges == [] then []
    else
      (if edges[0].to in known then [Link(DslIdent(edges[0].from), DslIdent(edges[0].to), None)] else [])
      + SyncLinks(edges[1..], known)
  }

  function ProducerLinks(edges: seq<ProducerEdge>): seq<Line> {
    if edges == [] then [] else [Link(DslIdent(edges[0].source), LOGANNE, Some(edges[0].event))] + ProducerLinks(edges[1..])
  }

  function AsyncLinks(edges: seq<AsyncEdge>): seq<Line> {
    if edges == [] then [] else [Link(LOGANNE, DslIdent(edges[0].consumer), Some(edges[0].event))] + AsyncLinks(edges[1..])
  }

  function Links(m: Model): seq<Line> {
    SyncLinks(m.syncEdges, IdSet(m.systems)) + ProducerLinks(m.producerEdges) + AsyncLinks(m.asyncEdges)
  }

  function NodeLines(names: seq<string>): seq<Line> {
    if names == [] then [] else [Node(DslIdent(names[0]), names[0])] + NodeLines(names[1..])
  }

  /** The drawn names, sorted, each once. */
  ghost predicate NodesOf(m: Model, names: seq<string>) {
    && Ordered(names, StrLe)
    && (forall i, j :: 0 <= i < j < |names| ==> names[i] != names[j])
    && (forall n :: n in names <==> n in Drawn(m))
  }

  const CHART_HEAD: seq<string> :=
    ["# lucOS estate — " + "connected core (generated)", "", "```mermaid", "flowchart LR"]
  const SYNC_COMMENT: string := "  %%" + " sync deps (solid)"
  const PRODUCER_COMMENT: string := "  %%" + " async producers " + "(dotted, → loganne)"
  const CONSUMER_COMMENT: string := "  %%" + " async consumers " + "(dotted, loganne →)"
  const CHART_FOOT: seq<string> := ["```"]

  function LineTexts(lines: seq<Line>): seq<string> {
    if lines == [] then [] else [lines[0].Text()] + LineTexts(lines[1..])
  }

  /** The lines of landscape.md, given the sorted connected names. */
  function ChartLines(m: Model, names: seq<string>): seq<string> {
    CHART_HEAD + LineTexts(NodeLines(names))
    + ([SYNC_COMMENT] + LineTexts(SyncLinks(m.syncEdges, IdSet(m.systems))))
    + ([PRODUCER_COMMENT] + LineTexts(ProducerLinks(m.producerEdges)))
    + ([CONSUMER_COMMENT] + LineTexts(AsyncLinks(m.asyncEdges)))
    + CHART_FOOT
  }

  /** The whole text of landscape.md. */
  function ChartText(m: Model, names: seq<string>): string {
    Unlines(ChartLines(m, names))
  }

  /** The connected names are collected in one pass over the edges, the links drawn in another. */
  method GenerateMermaid(m: Model) returns (names: seq<string>, chart: seq<Line>, text: string)
    ensures NodesOf(m, names)
    ensures chart == NodeLines(names) + Links(m)
    ensures text == ChartText(m, names)
  {
    hide DslIdent, StrLe, Drawn, LineTexts, Unlines;
    var connected := CollectConnected(m);
    names := SortedNames(connected);
    var nodes := DrawNodes(names);
    text := WriteLines(Unlines(CHART_HEAD), CHART_HEAD, nodes);
    var sync := LinkSync(m.syncEdges, IdSet(m.systems));
    text := Group(text, CHART_HEAD + LineTexts(nodes), SYNC_COMMENT, sync);
    ghost var upToSync := CHART_HEAD + LineTexts(nodes) + ([SYNC_COMMENT] + LineTexts(sync));
    var emitted, delivered := LinkEvents(m.producerEdges, m.asyncEdges);
    text := Group(text, upToSync, PRODUCER_COMMENT, emitted);
    text := Group(text, upToSync + ([PRODUCER_COMMENT] + LineTexts(emitted)), CONSUMER_COMMENT, delivered);
    text := Append(text, upToSync + ([PRODUCER_COMMENT] + LineTexts(emitted)) + ([CONSUMER_COMMENT] + LineTexts(delivered)), CHART_FOOT);
    chart := nodes + (sync + emitted + delivered);
  }

  /** A comment and the links under it. */
  method Group(before: string, ghost written: seq<string>, comment: string, lines: seq<Line>) returns (text: string)
    requires before == Unlines(written)
    ensures text == Unlines(written + ([comment] + LineTexts(lines)))
  {
    hide Unlines, LineTexts;
    text := Append(before, written, [comment]);
    text := WriteLines(text, written + [comment], lines);
    assert written + [comment] + LineTexts(lines) == written + ([comment] + LineTexts(lines));
  }

  method DrawNodes(names: seq<string>) returns (nodes: seq<Line>)
    ensures nodes == NodeLines(names)
  {
    hide DslIdent;
    nodes := [];
    for i := 0 to |names|
      invariant NodeLines(names) == nodes + NodeLines(names[i..])
    {
      assert names[i..][1..] == names[i + 1..];
      nodes := nodes + [Node(DslIdent(names[i]), names[i])];
    }
  }

  method WriteLines(before: string, ghost written: seq<string>, lines: seq<Line>) returns (text: string)
    requires before == Unlines(written)
    ensures text == Unlines(written + LineTexts(lines))
  {
    hide Line.Text, Unlines;
    text := before;
    ghost var done := written;
    for i := 0 to |lines|
      invariant text == Unlines(done) && written + LineTexts(lines) == done + LineTexts(lines[i..])
    {
      assert lines[i..][1..] == lines[i + 1..];
      UnlinesOfOneMore(done, lines[i].Text());
      text := text + lines[i].Text() + "\n";
      done := done + [lines[i].Text()];
    }
    assert written + LineTexts(lines) == done + [] == done;
  }

  method CollectConnected(m: Model) returns (connected: set<string>)
    ensures connected == Drawn(m)
  {
    hide IdSet, SyncNames;
    connected := ConnectSync(m.syncEdges, IdSet(m.systems));
    NamesOfDrawn(m);
    for i := 0 to |m.asyncEdges|
      invariant connected == SyncNames(m.syncEdges, IdSet(m.systems)) + AsyncNames(m.asyncEdges[..i])
    {
      OneMoreConsumer(m.asyncEdges, i);
      hide AsyncNames;
      connected := connected + {m.asyncEdges[i].consumer, LOGANNE};
    }
    assert m.asyncEdges[..|m.asyncEdges|] == m.asyncEdges;
    for i := 0 to |m.producerEdges|
      invariant connected == SyncNames(m.syncEdges, IdSet(m.systems)) + AsyncNames(m.asyncEdges) + ProducerNames(m.producerEdges[..i])
    {
      OneMoreProducer(m.producerEdges, i);
      hide AsyncNames, ProducerNames;
      connected := connected + {m.producerEdges[i].source, LOGANNE};
    }
    assert m.producerEdges[..|m.producerEdges|] == m.producerEdges;
  }

  lemma OneMoreConsumer(edges: seq<AsyncEdge>, i: nat)
    requires i < |edges|
    ensures AsyncNames(edges[..i + 1]) == AsyncNames(edges[..i]) + {edges[i].consumer, LOGANNE}
  {
    assert edges[..i + 1] == edges[..i] + [edges[i]];
  }

  lemma OneMoreProducer(edges: seq<ProducerEdge>, i: nat)
    requires i < |edges|
    ensures ProducerNames(edges[..i + 1]) == ProducerNames(edges[..i]) + {edges[i].source, LOGANNE}
  {
    assert edges[..i + 1] == edges[..i] + [edges[i]];
  }

  lemma NamesOfDrawn(m: Model)
    ensures Drawn(m) == SyncNames(m.syncEdges, IdSet(m.systems)) + AsyncNames(m.asyncEdges) + ProducerNames(m.producerEdges)
  {
  }

  method ConnectSync(edges: seq<SyncEdge>, known: set<string>) returns (connected: set<string>)
    ensures connected == SyncNames(edges, known)
  {
    connected := {};
    for i := 0 to |edges|
      invariant connected == SyncNames(edges[..i], known)
    {
      assert edges[..i + 1] == edges[..i] + [edges[i]];
      if edges[i].to in known {
        connected := connected + {edges[i].from, edges[i].to};
      }
    }
    assert edges[..|edges|] == edges;
  }

  /** The set's names in whatever order it is iterated, then sorted. */
  method SortedNames(connected: set<string>) returns (names: seq<string>)
    ensures Ordered(names, StrLe)
    ensures forall i, j :: 0 <= i < j < |names| ==> names[i] != names[j]
    ensures forall n :: n in names <==> n in connected
  {
    hide StrLe;
    var rest, list := connected, [];
    while rest != {}
      invariant forall n :: n in list <==> n in connected && n !in rest
      invariant rest <= connected
      invariant forall i, j :: 0 <= i < j < |list| ==> list[i] != list[j]
      decreases |rest|
    {
      var n :| n in rest;
      list := list + [n];
      rest := rest - {n};
    }
    StrLeIsPreorder();
    names := SortSlice(list, StrLe);
    SameElements(names, list);
    NoRepeats(list);
    NoRepeats(names);
  }

  method LinkSync(edges: seq<SyncEdge>, known: set<string>) returns (out: seq<Line>)
    ensures out == SyncLinks(edges, known)
  {
    hide DslIdent;
    out := [];
    for i := 0 to |edges|
      invariant SyncLinks(edges, known) == out + SyncLinks(edges[i..], known)
    {
      assert edges[i..][1..] == edges[i + 1..];
      if edges[i].to in known {
        out := out + [Link(DslIdent(edges[i].from), DslIdent(edges[i].to), None)];
      }
    }
  }

  method LinkEvents(producers: seq<ProducerEdge>, consumers: seq<AsyncEdge>) returns (emitted: seq<Line>, delivered: seq<Line>)
    ensures emitted == ProducerLinks(producers) && delivered == AsyncLinks(consumers)
  {
    hide DslIdent;
    emitted, delivered := [], [];
    for i := 0 to |producers|
      invariant ProducerLinks(producers) == emitted + ProducerLinks(producers[i..])
    {
      assert producers[i..][1..] == producers[i + 1..];
      emitted := emitted + [Link(DslIdent(producers[i].source), LOGANNE, Some(producers[i].event))];
    }
    for i := 0 to |consumers|
      invariant AsyncLinks(consumers) == delivered + AsyncLinks(consumers[i..])
    {
      assert consumers[i..][1..] == consumers[i + 1..];
      delivered := delivered + [Link(LOGANNE, DslIdent(consumers[i].consumer), Some(consumers[i].event))];
    }
  }

  // ---- The links are the DSL's relationships ----

  datatype Kind = Sync | Produced | Consumed

  /** Statement and link have the same endpoints, and their texts name the same event, or none. */
  predicate SameRelation(k: Kind, r: Statement, l: Line) {
    && r.Relate? && l.Link? && r.from == l.source && r.to == l.target
    && match k
       case Sync => r.text == SYNC_LABEL && l.event == None
       case Produced => l.event.Some? && r.text == "emits " + l.event.value && l.target == LOGANNE
       case Consumed => l.event == Some(r.text) && l.source == LOGANNE
  }

  ghost predicate SameRelations(k: Kind, rs: seq<Statement>, ls: seq<Line>) {
    |rs| == |ls| && forall i :: 0 <= i < |rs| ==> SameRelation(k, rs[i], ls[i])
  }

  predicate SameEnds(r: Statement, l: Line) {
    r.Relate? && l.Link? && r.from == l.source && r.to == l.target
  }

  lemma {:induction false} SyncAgrees(edges: seq<SyncEdge>, known: set<string>)
    ensures SameRelations(Sync, SyncStatements(edges, known), SyncLinks(edges, known))
  {
    hide DslIdent;
    if edges != [] { SyncAgrees(edges[1..], known); }
  }

  lemma {:induction false} ProducersAgree(edges: seq<ProducerEdge>)
    ensures SameRelations(Produced, ProducerStatements(edges), ProducerLinks(edges))
  {
    hide DslIdent;
    if edges != [] { ProducersAgree(edges[1..]); }
  }

  lemma {:induction false} AsyncAgrees(edges: seq<AsyncEdge>)
    ensures SameRelations(Consumed, AsyncStatements(edges), AsyncLinks(edges))
  {
    hide DslIdent;
    if edges != [] { AsyncAgrees(edges[1..]); }
  }

  /** The chart draws the DSL's relationships, kind by kind and in the same order: both drop the same
      sync edges and no other edge. */
  lemma ChartAgreesWithDsl(m: Model)
    ensures SameRelations(Sync, SyncStatements(m.syncEdges, IdSet(m.systems)), SyncLinks(m.syncEdges, IdSet(m.systems)))
    ensures SameRelations(Produced, ProducerStatements(m.producerEdges), ProducerLinks(m.producerEdges))
    ensures SameRelations(Consumed, AsyncStatements(m.asyncEdges), AsyncLinks(m.asyncEdges))
    ensures |ProducerLinks(m.producerEdges)| == |m.producerEdges| && |AsyncLinks(m.asyncEdges)| == |m.asyncEdges|
  {
    hide DslIdent, SameRelations;
    SyncAgrees(m.syncEdges, IdSet(m.systems));
    ProducersAgree(m.producerEdges);
    AsyncAgrees(m.asyncEdges);
    EveryEventIsDrawn(m.producerEdges, m.asyncEdges);
  }

  lemma {:induction false} EveryEventIsDrawn(producers: seq<ProducerEdge>, consumers: seq<AsyncEdge>)
    ensures |ProducerLinks(producers)| == |producers| && |AsyncLinks(consumers)| == |consumers|
    decreases |producers| + |consumers|
  {
    hide DslIdent;
    if producers != [] {
      EveryEventIsDrawn(producers[1..], consumers);
    } else if consumers != [] {
      EveryEventIsDrawn(producers, consumers[1..]);
    }
  }

  lemma SameEndsThroughout(m: Model)
    ensures |Relations(m)| == |Links(m)|
    ensures forall i :: 0 <= i < |Relations(m)| ==> SameEnds(Relations(m)[i], Links(m)[i])
  {
    hide DslIdent;
    ChartAgreesWithDsl(m);
  }

  // ---- The nodes are the endpoints ----

  lemma {:induction false} NodeLinesAre(names: seq<string>)
    ensures forall l :: l in NodeLines(names) <==> exists n :: n in names && l == Node(DslIdent(n), n)
  {
    hide DslIdent;
    if names != [] {
      NodeLinesAre(names[1..]);
      assert names == [names[0]] + names[1..];
    }
  }

  predicate NodeIs(chart: seq<Line>, ident: string) {
    exists l :: l in chart && l.Node? && l.ident == ident
  }

  predicate LinkEnd(chart: seq<Line>, ident: string) {
    exists l :: l in chart && l.Link? && (l.source == ident || l.target == ident)
  }

  /** A node is drawn for exactly the endpoints of the drawn links. */
  lemma NodesAreEndpoints(m: Model, names: seq<string>, ident: string)
    requires NodesOf(m, names)
    ensures NodeIs(NodeLines(names) + Links(m), ident) <==> LinkEnd(NodeLines(names) + Links(m), ident)
  {
    hide DslIdent, Drawn, Ends, Links, Relations, Idents, StrLe;
    NodeLinesAre(names);
    LinksAreEnds(m, ident);
    var chart := NodeLines(names) + Links(m);
    NodeIffDrawn(m, names, ident);
  }

  lemma LinksAreEnds(m: Model, ident: string)
    ensures LinkEnd(Links(m), ident) <==> ident in Idents(Drawn(m))
    ensures forall l :: l in Links(m) ==> l.Link?
  {
    hide DslIdent, Drawn, Ends, Links, Relations, Idents;
    RelationEnds(m);
    EndsAre(Relations(m));
    SameEndsThroughout(m);
    var rs, ls := Relations(m), Links(m);
    if LinkEnd(ls, ident) {
      var l :| l in ls && l.Link? && (l.source == ident || l.target == ident);
      var i :| 0 <= i < |ls| && ls[i] == l;
      assert SameEnds(rs[i], ls[i]) && rs[i] in rs;
    }
    if ident in Ends(rs) {
      var r :| r in rs && r.Relate? && (r.from == ident || r.to == ident);
      var i :| 0 <= i < |rs| && rs[i] == r;
      assert SameEnds(rs[i], ls[i]) && ls[i] in ls;
    }
    forall l | l in ls ensures l.Link? {
      var i :| 0 <= i < |ls| && ls[i] == l;
      assert SameEnds(rs[i], ls[i]);
    }
  }

  lemma NodeIffDrawn(m: Model, names: seq<string>, ident: string)
    requires NodesOf(m, names)
    ensures NodeIs(NodeLines(names), ident) <==> ident in Idents(Drawn(m))
  {
    hide DslIdent, Drawn, StrLe;
    NodeLinesAre(names);
    if ident in Idents(Drawn(m)) {
      var n :| n in Drawn(m) && DslIdent(n) == ident;
      assert Node(DslIdent(n), n) in NodeLines(names);
    }
  }

  /** The chart does not depend on the order in which the connected set is iterated. */
  lemma ChartIsDetermined(m: Model, names: seq<string>, names': seq<string>)
    requires NodesOf(m, names) && NodesOf(m, names')
    ensures names == names'
  {
    hide Drawn, StrLe;
    StrLeIsPreorder();
    SameSets(names, names');
    SortingIsUnique(names, names', StrLe);
  }
}
