/** Reading landscape.md back: what the chart shows of a model. */
module C4ReadChart {
  import opened C4Producers
  import opened C4Webhooks
  import opened C4Model
  import opened C4Render
  import opened C4Mermaid
  import opened C4ReadBack
  import opened Text
  import opened Wrappers

  // ---- The chart reader ----

  /** The part of s after its last c; all of s if it has none. */
  function Since(s: string, c: char): (tail: string)
    ensures |tail| <= |s| && c !in tail
  {
    if s == "" || s[|s| - 1] == c then "" else Since(s[..|s| - 1], c) + [s[|s| - 1]]
  }

  predicate EndsWith(s: string, end: string) {
    |end| <= |s| && s[|s| - |end|..] == end
  }

  /** What stands between a link's source and its target: a solid arrow, or a dotted one with an event. */
  function ReadLink(source: string, middle: string, target: string): Option<Line> {
    if middle == " --> " then Some(Link(source, target, None))
    else if |middle| >= 7 && " -." <= middle && EndsWith(middle, ".-> ") then Some(Link(source, target, Some(middle[3..|middle| - 4])))
    else None
  }

  /** A line of the chart: two spaces, an identifier, and a name in brackets or an arrow to the last word. */
  function ReadLine(line: string): Option<Line> {
    if !("  " <= line) then None
    else
      var body := line[2..];
      var ident := Until(Until(body, ' '), '[');
      var rest := body[|ident|..];
      if ident == "%%" then None
      else if "[\"" <= rest then
        if |rest| >= 4 && EndsWith(rest, "\"]") then Some(Node(ident, rest[2..|rest| - 2])) else None
      else ReadLink(ident, rest[..|rest| - |Since(rest, ' ')|], Since(rest, ' '))
  }

  function LinesIn(lines: seq<string>): seq<Line> {
    if lines == [] then []
    else ToSeq(ReadLine(lines[0])) + LinesIn(lines[1..])
  }

  /** Every node and link of a chart's text. */
  function ReadChart(text: string): seq<Line> {
    LinesIn(Lines(text))
  }

  // ---- Lines come back ----

  lemma {:induction false} SinceStops(a: string, c: char, b: string)
    requires c !in b
    ensures Since(a + [c] + b, c) == b
  {
    var s := a + [c] + b;
    if b != "" {
      var front := b[..|b| - 1];
      assert s[..|s| - 1] == a + [c] + front;
      SinceStops(a, c, front);
    }
  }

  lemma {:induction false} UntilAll(s: string, c: char)
    requires c !in s
    ensures Until(s, c) == s
  {
    if s != "" {
      UntilAll(s[1..], c);
    }
  }

  predicate ChartIdent(s: string) {
    ' ' !in s && '[' !in s && s != "%%"
  }

  lemma Head(ident: string, rest: string)
    requires ChartIdent(ident) && rest != "" && (rest[0] == ' ' || rest[0] == '[')
    ensures var body := ident + rest; Until(Until(body, ' '), '[') == ident && body[|ident|..] == rest
  {
    var body := ident + rest;
    if rest[0] == ' ' {
      assert body == ident + [' '] + rest[1..];
      UntilStops(ident, ' ', rest[1..]);
      UntilAll(ident, '[');
    } else {
      var word := Until(body, ' ');
      assert word == body[..|word|];
      BracketFirst(ident, rest);
      assert word == ident + ['['] + word[|ident| + 1..];
      UntilStops(ident, '[', word[|ident| + 1..]);
    }
  }

  lemma {:induction false} BracketFirst(ident: string, rest: string)
    requires ' ' !in ident && rest != "" && rest[0] == '['
    ensures |Until(ident + rest, ' ')| > |ident| && Until(ident + rest, ' ')[..|ident|] == ident
    ensures Until(ident + rest, ' ')[|ident|] == '['
  {
    if ident == "" {
      assert ident + rest == rest;
    } else {
      assert (ident + rest)[1..] == ident[1..] + rest;
      BracketFirst(ident[1..], rest);
    }
  }

  lemma NodeReads(ident: string, rest: string)
    requires ChartIdent(ident) && |rest| >= 4 && "[\"" <= rest && EndsWith(rest, "\"]")
    ensures ReadLine("  " + ident + rest) == Some(Node(ident, rest[2..|rest| - 2]))
  {
    hide ReadLink, Until;
    var line := "  " + ident + rest;
    assert line[2..] == ident + rest;
    Head(ident, rest);
  }

  lemma NodeReadsBack(ident: string, name: string)
    requires ChartIdent(ident)
    ensures ReadLine(Node(ident, name).Text()) == Some(Node(ident, name))
  {
    hide ReadLine;
    var rest := "[\"" + name + "\"]";
    assert Node(ident, name).Text() == "  " + ident + rest;
    assert rest[|rest| - 2..] == "\"]" && rest[2..|rest| - 2] == name;
    NodeReads(ident, rest);
  }

  lemma ArrowReads(source: string, arrow: string, target: string)
    requires ChartIdent(source) && ' ' !in target && arrow != "" && arrow[0] != '['
    ensures ReadLine("  " + source + " " + arrow + " " + target) == ReadLink(source, " " + arrow + " ", target)
  {
    hide ReadLink;
    var line := "  " + source + " " + arrow + " " + target;
    var rest := " " + arrow + " " + target;
    assert line[2..] == source + rest;
    Head(source, rest);
    assert rest == (" " + arrow) + [' '] + target;
    SinceStops(" " + arrow, ' ', target);
    assert rest[..|rest| - |target|] == " " + arrow + " ";
  }

  lemma LinkReadsBack(source: string, target: string, event: Option<string>)
    requires ChartIdent(source) && ' ' !in target
    ensures ReadLine(Link(source, target, event).Text()) == Some(Link(source, target, event))
  {
    hide ReadLine;
    match event
    case None =>
      assert Link(source, target, None).Text() == "  " + source + " " + "-->" + " " + target;
      ArrowReads(source, "-->", target);
    case Some(e) =>
      var arrow := "-." + e + ".->";
      assert Link(source, target, Some(e)).Text() == "  " + source + " " + arrow + " " + target;
      ArrowReads(source, arrow, target);
      var middle := " " + arrow + " ";
      assert middle == " -." + e + ".-> ";
      assert middle[2] == '.' && " --> "[2] == '-';
      assert middle[|middle| - 4..] == ".-> " && middle[3..|middle| - 4] == e;
  }

  /** Readable, and on one line. */
  predicate Drawable(l: Line) {
    && '\n' !in l.Text()
    && match l
       case Node(ident, _) => ChartIdent(ident)
       case Link(source, target, _) => ChartIdent(source) && ' ' !in target
  }

  lemma LineReadsBack(l: Line)
    requires Drawable(l)
    ensures ReadLine(l.Text()) == Some(l)
  {
    hide ReadLine;
    match l
    case Node(ident, name) => NodeReadsBack(ident, name);
    case Link(source, target, event) => LinkReadsBack(source, target, event);
  }

  lemma {:induction false} LinesInSum(a: seq<string>, b: seq<string>)
    ensures LinesIn(a + b) == LinesIn(a) + LinesIn(b)
  {
    hide ReadLine, ToSeq;
    if a == [] {
      assert a + b == b;
    } else {
      LinesInSum(a[1..], b);
      assert (a + b)[1..] == a[1..] + b;
    }
  }

  lemma {:induction false} LineTextsReadBack(lines: seq<Line>)
    requires forall l :: l in lines ==> Drawable(l)
    ensures LinesIn(LineTexts(lines)) == lines && OneLineEach(LineTexts(lines))
  {
    hide ReadLine, Line.Text;
    if lines != [] {
      assert lines == [lines[0]] + lines[1..];
      LineTextsReadBack(lines[1..]);
      LineReadsBack(lines[0]);
      forall t | t in LineTexts(lines) ensures '\n' !in t {
        assert t == lines[0].Text() || t in LineTexts(lines[1..]);
      }
    }
  }

  // ---- The fixed lines ----

  lemma NoLine(line: string)
    requires |line| < 2 || line[0] != ' '
    ensures ReadLine(line) == None
  {
  }

  lemma ChartComment(rest: string)
    ensures ReadLine("  %%" + " " + rest) == None
  {
    var line := "  %%" + " " + rest;
    assert line[2..] == "%%" + [' '] + rest;
    UntilStops("%%", ' ', rest);
    UntilAll("%%", '[');
  }

  lemma OneNoLine(line: string)
    requires ReadLine(line) == None
    ensures LinesIn([line]) == []
  {
    hide ReadLine;
    assert [line][1..] == [];
  }

  lemma CommentsAreNoLines()
    ensures LinesIn([SYNC_COMMENT]) == LinesIn([PRODUCER_COMMENT]) == LinesIn([CONSUMER_COMMENT]) == []
    ensures OneLineEach([SYNC_COMMENT]) && OneLineEach([PRODUCER_COMMENT]) && OneLineEach([CONSUMER_COMMENT])
  {
    hide ReadLine, LinesIn;
    assert SYNC_COMMENT == "  %%" + " " + "sync deps (solid)";
    ChartComment("sync deps (solid)");
    OneNoLine(SYNC_COMMENT);
    assert PRODUCER_COMMENT == "  %%" + " " + ("async producers " + "(dotted, → loganne)");
    ChartComment("async producers " + "(dotted, → loganne)");
    OneNoLine(PRODUCER_COMMENT);
    assert CONSUMER_COMMENT == "  %%" + " " + ("async consumers " + "(dotted, loganne →)");
    ChartComment("async consumers " + "(dotted, loganne →)");
    OneNoLine(CONSUMER_COMMENT);
  }

  lemma FrameIsNoLine()
    ensures LinesIn(CHART_HEAD) == LinesIn(CHART_FOOT) == [] && OneLineEach(CHART_HEAD) && OneLineEach(CHART_FOOT)
  {
    hide ReadLine, LinesIn;
    var h := CHART_HEAD;
    NoLine(h[0]);
    NoLine(h[1]);
    NoLine(h[2]);
    NoLine(h[3]);
    NoLine(CHART_FOOT[0]);
    OneNoLine(h[0]);
    OneNoLine(h[1]);
    OneNoLine(h[2]);
    OneNoLine(h[3]);
    OneNoLine(CHART_FOOT[0]);
    assert h == [h[0]] + [h[1]] + [h[2]] + [h[3]];
    LinesInSum([h[0]] + [h[1]] + [h[2]], [h[3]]);
    LinesInSum([h[0]] + [h[1]], [h[2]]);
    LinesInSum([h[0]], [h[1]]);
    assert '\n' !in h[0] && '\n' !in h[1];
    assert '\n' !in h[2] && '\n' !in h[3];
  }

  // ---- The whole chart comes back ----

  lemma {:induction false} NodesDrawable(names: seq<string>)
    requires forall n :: n in names ==> Plain(n)
    ensures forall l :: l in NodeLines(names) ==> Drawable(l)
  {
    hide DslIdent;
    if names != [] {
      assert names == [names[0]] + names[1..];
      NodesDrawable(names[1..]);
      IdentIsPlain(names[0]);
      NodeDrawable(DslIdent(names[0]), names[0]);
    }
  }

  lemma NodeDrawable(ident: string, name: string)
    requires Plain(ident) && '\n' !in name
    ensures Drawable(Node(ident, name))
  {
    PlainIsChartIdent(ident);
  }

  lemma PlainIsChartIdent(ident: string)
    requires Plain(ident)
    ensures ChartIdent(ident)
  {
    assert '%' in "%%";
  }

  lemma LinkDrawable(source: string, target: string, event: Option<string>)
    requires Plain(source) && Plain(target) && (event.Some? ==> '\n' !in event.value)
    ensures Drawable(Link(source, target, event))
  {
    PlainIsChartIdent(source);
  }

  lemma {:induction false} SyncDrawable(edges: seq<SyncEdge>, known: set<string>)
    requires forall e :: e in edges ==> Plain(e.from) && Plain(e.to)
    ensures forall l :: l in SyncLinks(edges, known) ==> Drawable(l)
  {
    hide DslIdent, Drawable, Plain;
    if edges != [] {
      var e := edges[0];
      assert edges == [e] + edges[1..];
      SyncDrawable(edges[1..], known);
      IdentIsPlain(e.from);
      IdentIsPlain(e.to);
      LinkDrawable(DslIdent(e.from), DslIdent(e.to), None);
    }
  }

  lemma {:induction false} ProducersDrawable(edges: seq<ProducerEdge>)
    requires forall e :: e in edges ==> Plain(e.source) && Quotable(e.event)
    ensures forall l :: l in ProducerLinks(edges) ==> Drawable(l)
  {
    hide DslIdent, Drawable, Plain;
    if edges != [] {
      var e := edges[0];
      assert edges == [e] + edges[1..];
      ProducersDrawable(edges[1..]);
      Names();
      IdentIsPlain(e.source);
      LinkDrawable(DslIdent(e.source), LOGANNE, Some(e.event));
    }
  }

  lemma {:induction false} ConsumersDrawable(edges: seq<AsyncEdge>)
    requires forall e :: e in edges ==> Plain(e.consumer) && Quotable(e.event)
    ensures forall l :: l in AsyncLinks(edges) ==> Drawable(l)
  {
    hide DslIdent, Drawable, Plain;
    if edges != [] {
      var e := edges[0];
      assert edges == [e] + edges[1..];
      ConsumersDrawable(edges[1..]);
      Names();
      IdentIsPlain(e.consumer);
      LinkDrawable(LOGANNE, DslIdent(e.consumer), Some(e.event));
    }
  }

  lemma DrawnArePlain(m: Model, names: seq<string>)
    requires Printable(m) && NodesOf(m, names)
    ensures forall n :: n in names ==> Plain(n)
  {
    hide Plain, Quotable;
    Names();
  }

  lemma ReadGroup(lines: seq<string>, heading: seq<string>, links: seq<Line>, read: seq<Line>)
    requires OneLineEach(lines) && OneLineEach(heading) && OneLineEach(LineTexts(links))
    requires LinesIn(lines) == read && LinesIn(heading) == [] && LinesIn(LineTexts(links)) == links
    ensures var all := lines + (heading + LineTexts(links)); OneLineEach(all) && LinesIn(all) == read + links
  {
    hide LinesIn;
    LinesInSum(lines, heading + LineTexts(links));
    LinesInSum(heading, LineTexts(links));
    assert [] + links == links;
  }

  /** Reading landscape.md gives the nodes and then the links, in their order. */
  lemma ChartReadsBack(m: Model, names: seq<string>)
    requires Printable(m) && NodesOf(m, names)
    ensures ReadChart(ChartText(m, names)) == NodeLines(names) + Links(m)
  {
    hide Plain, Quotable, Drawable, DslIdent, LinesIn, OneLineEach, Unlines, Lines, LineTexts, NodesOf;
    DrawnArePlain(m, names);
    CommentsAreNoLines();
    FrameIsNoLine();
    var nodes, sync := NodeLines(names), SyncLinks(m.syncEdges, IdSet(m.systems));
    var producers, consumers := ProducerLinks(m.producerEdges), AsyncLinks(m.asyncEdges);
    NodesDrawable(names);
    SyncDrawable(m.syncEdges, IdSet(m.systems));
    ProducersDrawable(m.producerEdges);
    ConsumersDrawable(m.asyncEdges);
    LineTextsReadBack(nodes);
    LineTextsReadBack(sync);
    LineTextsReadBack(producers);
    LineTextsReadBack(consumers);
    NoLineTexts();
    var part1 := CHART_HEAD + LineTexts(nodes);
    var part2 := part1 + ([SYNC_COMMENT] + LineTexts(sync));
    var part3 := part2 + ([PRODUCER_COMMENT] + LineTexts(producers));
    var part4 := part3 + ([CONSUMER_COMMENT] + LineTexts(consumers));
    ReadGroup([], CHART_HEAD, nodes, []);
    assert [] + part1 == part1;
    ReadGroup(part1, [SYNC_COMMENT], sync, [] + nodes);
    ReadGroup(part2, [PRODUCER_COMMENT], producers, [] + nodes + sync);
    ReadGroup(part3, [CONSUMER_COMMENT], consumers, [] + nodes + sync + producers);
    ReadGroup(part4, CHART_FOOT, [], [] + nodes + sync + producers + consumers);
    assert ChartLines(m, names) == part4 + (CHART_FOOT + LineTexts([]));
    ChartLinesRead(ChartLines(m, names));
    assert ReadChart(ChartText(m, names)) == [] + nodes + sync + producers + consumers + [];
  }

  lemma NoLineTexts()
    ensures LineTexts([]) == [] && LinesIn([]) == [] && OneLineEach([]) && LinesIn(LineTexts([])) == [] && OneLineEach(LineTexts([]))
  {
  }

  lemma ChartLinesRead(lines: seq<string>)
    requires OneLineEach(lines)
    ensures ReadChart(Unlines(lines)) == LinesIn(lines)
  {
    hide ReadLine, Lines, Unlines;
    LinesOfUnlines(lines);
    LinesInSum(lines, [[]]);
    NoLine([]);
    OneNoLine([]);
  }

  // ---- What the chart shows ----

  lemma {:induction false} SyncLinksExactly(edges: seq<SyncEdge>, known: set<string>, l: Line)
    ensures l in SyncLinks(edges, known) <==>
      exists e :: e in edges && e.to in known && l == Link(DslIdent(e.from), DslIdent(e.to), None)
  {
    hide DslIdent;
    if edges != [] {
      SyncLinksExactly(edges[1..], known, l);
      assert edges == [edges[0]] + edges[1..];
    }
  }

  lemma {:induction false} ProducerLinksExactly(edges: seq<ProducerEdge>, l: Line)
    ensures l in ProducerLinks(edges) <==>
      exists e :: e in edges && l == Link(DslIdent(e.source), "lucos_loganne", Some(e.event))
  {
    hide DslIdent;
    if edges != [] {
      ProducerLinksExactly(edges[1..], l);
      assert edges == [edges[0]] + edges[1..];
    }
  }

  lemma {:induction false} AsyncLinksExactly(edges: seq<AsyncEdge>, l: Line)
    ensures l in AsyncLinks(edges) <==>
      exists e :: e in edges && l == Link("lucos_loganne", DslIdent(e.consumer), Some(e.event))
  {
    hide DslIdent;
    if edges != [] {
      AsyncLinksExactly(edges[1..], l);
      assert edges == [edges[0]] + edges[1..];
    }
  }

  /** A solid arrow of the chart is a dependency on a system, a dotted one an event on its way to loganne
      or from it; and each of these has its arrow. */
  lemma ChartArrowsExactly(m: Model, names: seq<string>, a: string, b: string, event: Option<string>)
    requires Printable(m) && NodesOf(m, names)
    ensures Link(a, b, event) in ReadChart(ChartText(m, names)) <==>
      || (event == None && exists e, x ::
            e in m.syncEdges && a == DslIdent(e.from) && b == DslIdent(e.to) && x in m.systems && x.id == e.to)
      || (b == "lucos_loganne" && exists e :: e in m.producerEdges && a == DslIdent(e.source) && event == Some(e.event))
      || (a == "lucos_loganne" && exists e :: e in m.asyncEdges && b == DslIdent(e.consumer) && event == Some(e.event))
  {
    hide DslIdent, ReadChart, ChartText, Printable, NodesOf;
    var l := Link(a, b, event);
    ChartReadsBack(m, names);
    NodeLinesAre(names);
    SyncLinksExactly(m.syncEdges, IdSet(m.systems), l);
    ProducerLinksExactly(m.producerEdges, l);
    AsyncLinksExactly(m.asyncEdges, l);
  }

  /** A node of the chart is a name at an end of one of its arrows, under its identifier. */
  lemma ChartNodesExactly(m: Model, names: seq<string>, ident: string, name: string)
    requires Printable(m) && NodesOf(m, names)
    ensures Node(ident, name) in ReadChart(ChartText(m, names)) <==>
      && ident == DslIdent(name)
      && (|| (exists e, x :: e in m.syncEdges && (name == e.from || name == e.to) && x in m.systems && x.id == e.to)
          || (exists e :: e in m.producerEdges && (name == e.source || name == "lucos_loganne"))
          || (exists e :: e in m.asyncEdges && (name == e.consumer || name == "lucos_loganne")))
  {
    hide DslIdent, ReadChart, ChartText, Printable;
    var l := Node(ident, name);
    ChartReadsBack(m, names);
    NodeLinesAre(names);
    SyncLinksExactly(m.syncEdges, IdSet(m.systems), l);
    ProducerLinksExactly(m.producerEdges, l);
    AsyncLinksExactly(m.asyncEdges, l);
    hide NodesOf;
    DrawnExactly(m, names, name);
  }

  lemma DrawnExactly(m: Model, names: seq<string>, name: string)
    requires NodesOf(m, names)
    ensures name in names <==>
      || (exists e, x :: e in m.syncEdges && (name == e.from || name == e.to) && x in m.systems && x.id == e.to)
      || (exists e :: e in m.producerEdges && (name == e.source || name == "lucos_loganne"))
      || (exists e :: e in m.asyncEdges && (name == e.consumer || name == "lucos_loganne"))
  {
    assert LOGANNE == "lucos_loganne";
    assert m.producerEdges != [] ==> m.producerEdges[0] in m.producerEdges;
    assert m.asyncEdges != [] ==> m.asyncEdges[0] in m.asyncEdges;
  }
}
