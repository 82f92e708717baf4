/** What the output repo shows once the artifacts are committed: the report line by line, and the arrows of
    both diagrams in the estate's own fields. */
module C4Published {
  import opened C4Routing
  import opened C4Producers
  import opened C4Webhooks
  import opened C4Model
  import opened C4Render
  import opened C4Mermaid
  import opened C4Report
  import opened C4Estate
  import opened C4ReadBack
  import opened C4ReadChart
  import opened Sorting
  import opened Text
  import opened Wrappers
  import opened WriteBack

  // ---- The report ----

  lemma {:induction false} JoinLines(lines: seq<string>)
    requires lines != []
    ensures Join(lines, "\n") + "\n" == Unlines(lines)
  {
    if |lines| == 1 {
      assert lines[1..] == [];
    } else {
      JoinLines(lines[1..]);
      assert Join(lines, "\n") + "\n" == lines[0] + "\n" + (Join(lines[1..], "\n") + "\n");
    }
  }

  lemma {:induction false} MessagesAre(divs: seq<Divergence>)
    ensures |Messages(divs)| == |divs|
    ensures forall i :: 0 <= i < |divs| ==> Messages(divs)[i] == divs[i].message
  {
    if divs != [] { MessagesAre(divs[1..]); }
  }

  /** The lines between the title and the list of unreachable systems. */
  function Body(m: Model): seq<string> {
    if m.divergences == [] then ["None."] else Messages(m.divergences)
  }

  function Missed(m: Model): string {
    if m.unreachable == [] then "none" else Join(m.unreachable, ", ")
  }

  ghost predicate OneLiners(m: Model) {
    (forall d :: d in m.divergences ==> '\n' !in d.message) && '\n' !in Missed(m)
  }

  lemma ReportIsLines(m: Model)
    ensures ReportText(m) == Unlines(["# Source divergences " + "(audit findings)", ""] + Body(m) + ["", "Unreachable /_info: " + Missed(m)])
  {
    hide Join, Messages, Unlines;
    var title, intro := "# Source divergences " + "(audit findings)", "Unreachable /_info: ";
    var body := if m.divergences == [] then "None." else Join(Messages(m.divergences), "\n");
    TwoLinesOf(title, "");
    TwoLinesOf("", intro + Missed(m));
    BodyIsLines(m);
    UnlinesOfSum([title, ""] + Body(m), ["", intro + Missed(m)]);
    UnlinesOfSum([title, ""], Body(m));
    HeadIsTitle(title);
    Regroup(REPORT_HEAD, body, intro, Missed(m));
  }

  lemma HeadIsTitle(title: string)
    requires title == "# Source divergences " + "(audit findings)"
    ensures title + "\n" + "" + "\n" == REPORT_HEAD
  {
  }

  lemma Regroup(head: string, body: string, intro: string, rest: string)
    ensures head + body + ("\n" + "\n" + intro) + rest + "\n" == head + (body + "\n") + ("" + "\n" + (intro + rest) + "\n")
  {
  }

  lemma TwoLinesOf(a: string, b: string)
    ensures Unlines([a, b]) == a + "\n" + b + "\n"
  {
    UnlinesOfOneMore([a], b);
    UnlinesOfOneMore([], a);
    assert [a] + [b] == [a, b] && [] + [a] == [a];
  }

  lemma BodyIsLines(m: Model)
    ensures Unlines(Body(m)) == (if m.divergences == [] then "None." else Join(Messages(m.divergences), "\n")) + "\n"
  {
    hide Join, Messages;
    MessagesAre(m.divergences);
    if m.divergences == [] {
      assert ["None."][1..] == [];
    } else {
      JoinLines(Messages(m.divergences));
    }
  }

  /** The report, line by line: its title, a blank line, the divergences' messages in their order or
      "None.", a blank line, and the unreachable systems. */
  lemma ReportReadsBack(m: Model)
    requires OneLiners(m)
    ensures var n := if m.divergences == [] then 1 else |m.divergences|;
      var lines := Lines(ReportText(m));
      && |lines| == n + 5 && lines[0] == "# Source divergences " + "(audit findings)" && lines[1] == ""
      && (m.divergences == [] ==> lines[2] == "None.")
      && (forall i :: 0 <= i < |m.divergences| ==> lines[2 + i] == m.divergences[i].message)
      && lines[n + 2] == "" && lines[n + 3] == "Unreachable /_info: " + Missed(m) && lines[n + 4] == ""
  {
    hide Join, Messages, Lines, Unlines, Missed, ReportText;
    var title, last := "# Source divergences " + "(audit findings)", "Unreachable /_info: " + Missed(m);
    var lines := [title, ""] + Body(m) + ["", last];
    MessagesAre(m.divergences);
    ReportIsLines(m);
    NoNewlines();
    forall l | l in Body(m) ensures '\n' !in l {
      if m.divergences != [] {
        var i :| 0 <= i < |Body(m)| && Body(m)[i] == l;
        assert m.divergences[i] in m.divergences;
      }
    }
    LinesOfUnlines(lines);
  }

  lemma NoNewlines()
    ensures '\n' !in "# Source divergences " + "(audit findings)" && '\n' !in "None." && '\n' !in "Unreachable /_info: "
  {
  }

  /** The names in a list that is separated by commas and spaces. */
  function Split(s: string): seq<string>
    decreases |s|
  {
    var head := Until(s, ',');
    if |head| + 2 > |s| then [head] else [head] + Split(s[|head| + 2..])
  }

  /** The list of unreachable systems gives their IDs back, in their order. */
  lemma {:induction false} UnreachableReadsBack(names: seq<string>)
    requires names != [] && forall n :: n in names ==> ',' !in n
    ensures Split(Join(names, ", ")) == names
  {
    if |names| == 1 {
      UntilAll(names[0], ',');
    } else {
      var rest := Join(names[1..], ", ");
      UnreachableReadsBack(names[1..]);
      assert Join(names, ", ") == names[0] + [','] + (" " + rest);
      UntilStops(names[0], ',', " " + rest);
      assert Join(names, ", ")[|names[0]| + 2..] == rest;
      assert names == [names[0]] + names[1..];
    }
  }

  // ---- The diagrams ----

  /** The three artifacts of a model are in place. */
  lemma ThreeFiles(m: Model, names: seq<string>, files: map<string, string>)
    requires Holds(files, Artifacts(m, names))
    ensures "model.dsl" in files && files["model.dsl"] == DslText(m)
    ensures "landscape.md" in files && files["landscape.md"] == ChartText(m, names)
    ensures "divergences.md" in files && files["divergences.md"] == ReportText(m)
  {
    hide DslText, ChartText, ReportText;
    var all := Artifacts(m, names);
    assert all[0] in all && all[1] in all && all[2] in all;
  }

  /** Solid arrows: in landscape.md as committed there is one exactly from every system to every system that
      it depends on; and model.dsl draws the same as its dependencies. */
  lemma DependenciesPublished(s: Estate, m: Model, names: seq<string>, files: map<string, string>, a: string, b: string)
    requires Assembled(s, m) && NodesOf(m, names) && Printable(m) && Holds(files, Artifacts(m, names))
    ensures "landscape.md" in files && "model.dsl" in files
    ensures Link(a, b, None) in ReadChart(files["landscape.md"]) <==>
      exists x, y :: x in s.systems && y in s.systems && DependsOn(s, x, y.id) && a == DslIdent(x.id) && b == DslIdent(y.id)
    ensures (forall e :: e in m.asyncEdges ==> e.event != "depends on (sync)") ==>
      (Relate(a, b, "depends on (sync)") in ReadDsl(files["model.dsl"]) <==> Link(a, b, None) in ReadChart(files["landscape.md"]))
  {
    hide Assembled, NodesOf, Printable, Artifacts, Holds, DslText, ChartText, ReadChart, ReadDsl, DslIdent, DependsOn;
    ThreeFiles(m, names, files);
    ChartArrowsExactly(m, names, a, b, None);
    ArrowsExactly(m, a, b, "depends on (sync)");
    EmitsIsNoDependency();
    DependenciesExactly(s, m, a, b);
  }

  lemma EmitsIsNoDependency()
    ensures forall event: string :: "emits " + event != "depends on (sync)"
  {
    forall event: string ensures "emits " + event != "depends on (sync)" {
      assert ("emits " + event)[0] == 'e' && "depends on (sync)"[0] == 'd';
    }
  }

  lemma DependenciesExactly(s: Estate, m: Model, a: string, b: string)
    requires Assembled(s, m)
    ensures (exists e, x :: e in m.syncEdges && a == DslIdent(e.from) && b == DslIdent(e.to) && x in m.systems && x.id == e.to) <==>
      exists x, y :: x in s.systems && y in s.systems && DependsOn(s, x, y.id) && a == DslIdent(x.id) && b == DslIdent(y.id)
  {
    hide Assembled, DslIdent, DependsOn;
    SystemsPermuted(s, m);
    SameElements(m.systems, s.systems);
    if e, z :| e in m.syncEdges && a == DslIdent(e.from) && b == DslIdent(e.to) && z in m.systems && z.id == e.to {
      SyncExactly(s, m, e);
      var x :| x in s.systems && e.from == x.id && DependsOn(s, x, e.to);
      assert z in s.systems;
    }
    if x, y :| x in s.systems && y in s.systems && DependsOn(s, x, y.id) && a == DslIdent(x.id) && b == DslIdent(y.id) {
      SyncExactly(s, m, SyncEdge(x.id, y.id));
      assert y in m.systems;
    }
  }

  /** Dotted arrows to loganne: one exactly from each observed source that configy knows, for each event it
      was observed with. */
  lemma ProducersPublished(s: Estate, m: Model, names: seq<string>, files: map<string, string>, a: string, event: string)
    requires Assembled(s, m) && NodesOf(m, names) && Printable(m) && Holds(files, Artifacts(m, names)) && a != "lucos_loganne"
    ensures "landscape.md" in files
    ensures Link(a, "lucos_loganne", Some(event)) in ReadChart(files["landscape.md"]) <==>
      Probed(s, m) && exists source :: source in s.producers.value && Known(s, source) && event in s.producers.value[source] && a == DslIdent(source)
  {
    hide Assembled, NodesOf, Printable, Artifacts, Holds, DslText, ChartText, ReadChart, ReadDsl, DslIdent, Known, Probed;
    ThreeFiles(m, names, files);
    ChartArrowsExactly(m, names, a, "lucos_loganne", Some(event));
    ProbedAnswers(s, m);
    if e :| e in m.producerEdges && a == DslIdent(e.source) && event == e.event {
      ProducersExactly(s, m, e);
      assert multiset(m.producerEdges)[e] > 0;
    }
    if source :| Probed(s, m) && source in s.producers.value && Known(s, source) && event in s.producers.value[source] && a == DslIdent(source) {
      ProducersExactly(s, m, ProducerEdge(source, event));
      assert multiset(s.producers.value[source])[event] > 0;
      assert ProducerEdge(source, event) in m.producerEdges;
    }
  }

  lemma ProbedAnswers(s: Estate, m: Model)
    ensures Probed(s, m) ==> s.producers.Some?
  {
  }

  /** Dotted arrows from loganne: one exactly to each system that a URL listed for the event resolves to. */
  lemma ConsumersPublished(s: Estate, m: Model, names: seq<string>, files: map<string, string>, b: string, event: string)
    requires Assembled(s, m) && NodesOf(m, names) && Printable(m) && Holds(files, Artifacts(m, names)) && b != "lucos_loganne"
    ensures "landscape.md" in files
    ensures Link("lucos_loganne", b, Some(event)) in ReadChart(files["landscape.md"]) <==>
      exists host, id :: Lists(s, event, host) && Owns(m.systems, host, id) && b == DslIdent(id)
  {
    hide Assembled, NodesOf, Printable, Artifacts, Holds, DslText, ChartText, ReadChart, ReadDsl, DslIdent, Lists, Owns;
    ThreeFiles(m, names, files);
    ChartArrowsExactly(m, names, "lucos_loganne", b, Some(event));
    if e :| e in m.asyncEdges && b == DslIdent(e.consumer) && event == e.event {
      ConsumersExactly(s, m, e);
    }
    if host, id :| Lists(s, event, host) && Owns(m.systems, host, id) && b == DslIdent(id) {
      ConsumersExactly(s, m, AsyncEdge(event, id));
    }
  }
}
