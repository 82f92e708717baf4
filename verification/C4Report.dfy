/** The divergence report, and the three artifacts that are written back. */
module C4Report {
  import opened C4Routing
  import opened C4Model
  import opened C4Render
  import opened C4Mermaid
  import opened C4Determinism

  datatype Artifact = Artifact(path: string, content: string)

  function Join(parts: seq<string>, separator: string): string {
    if parts == [] then ""
    else if |parts| == 1 then parts[0]
    else parts[0] + separator + Join(parts[1..], separator)
  }

  function Messages(divs: seq<Divergence>): seq<string> {
    if divs == [] then [] else [divs[0].message] + Messages(divs[1..])
  }

  const REPORT_HEAD: string := "# Source divergences " + "(audit findings)" + "\n" + "\n"
  const REPORT_UNREACHABLE: string := "\n" + "\n" + "Unreachable /_info: "

  /** The whole text of divergences.md. */
  function ReportText(m: Model): string {
    REPORT_HEAD
    + (if m.divergences == [] then "None." else Join(Messages(m.divergences), "\n"))
    + REPORT_UNREACHABLE
    + (if m.unreachable == [] then "none" else Join(m.unreachable, ", "))
    + "\n"
  }

  method GenerateDivergences(m: Model) returns (text: string)
    ensures text == ReportText(m)
  {
    hide Join, Messages;
    var body := "None.";
    if |m.divergences| > 0 {
      var lines := CollectMessages(m.divergences);
      body := Join(lines, "\n");
    }
    text := REPORT_HEAD + body + REPORT_UNREACHABLE;
    var missing := "none";
    if |m.unreachable| > 0 {
      missing := Join(m.unreachable, ", ");
    }
    text := text + missing + "\n";
  }

  method CollectMessages(divs: seq<Divergence>) returns (lines: seq<string>)
    ensures lines == Messages(divs)
  {
    lines := [];
    for i := 0 to |divs|
      invariant Messages(divs) == lines + Messages(divs[i..])
    {
      assert divs[i..][1..] == divs[i + 1..];
      lines := lines + [divs[i].message];
    }
  }

  const DSL_PATH: string := "model.dsl"
  const CHART_PATH: string := "landscape.md"
  const REPORT_PATH: string := "divergences.md"

  function Artifacts(m: Model, names: seq<string>): seq<Artifact> {
    [Artifact(DSL_PATH, DslText(m)), Artifact(CHART_PATH, ChartText(m, names)), Artifact(REPORT_PATH, ReportText(m))]
  }

  method GenerateArtifacts(m: Model) returns (artifacts: seq<Artifact>, names: seq<string>)
    ensures NodesOf(m, names) && artifacts == Artifacts(m, names)
  {
    hide NodesOf, DslText, ChartText, ReportText;
    var _, dsl := GenerateDsl(m);
    var connected, _, chart := GenerateMermaid(m);
    names := connected;
    var report := GenerateDivergences(m);
    artifacts := [Artifact(DSL_PATH, dsl), Artifact(CHART_PATH, chart), Artifact(REPORT_PATH, report)];
  }

  /** No two artifacts share a path. */
  ghost predicate PathsApart(artifacts: seq<Artifact>) {
    forall i, j :: 0 <= i < j < |artifacts| ==> artifacts[i].path != artifacts[j].path
  }

  lemma ThreePaths(m: Model, names: seq<string>)
    ensures PathsApart(Artifacts(m, names))
  {
    assert DSL_PATH[0] == 'm' && CHART_PATH[0] == 'l' && REPORT_PATH[0] == 'd';
  }

  /** Unambiguous sources give the same three texts, whatever any map or set was iterated in. */
  lemma ArtifactsAreDetermined(s: Estate, m: Model, names: seq<string>, m': Model, names': seq<string>)
    requires Unambiguous(s) && Assembled(s, m) && Assembled(s, m') && NodesOf(m, names) && NodesOf(m', names')
    ensures Artifacts(m, names) == Artifacts(m', names')
  {
    hide Unambiguous, Assembled, NodesOf, DslText, ChartText, ReportText;
    AssemblyIsDeterministic(s, m, m');
    ChartIsDetermined(m, names, names');
  }
}
