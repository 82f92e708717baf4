/** Scanning a Dockerfile for stages and for image references no update tool sees. */
module Dockerfile {
  import opened Text
  import opened Wrappers

  // ---- One line ----

  predicate IsFrom(line: string) {
    "FROM " <= Upper(line)
  }

  predicate IsCopy(line: string) {
    "COPY " <= Upper(line)
  }

  /** The stage name after the last " AS ", if there is one. */
  function StageName(line: string): Option<string> {
    var asIdx := LastIndex(Upper(line), " AS ");
    if asIdx < 0 || Trim(line[asIdx + 4..]) == "" then None else Some(Trim(line[asIdx + 4..]))
  }

  /** Up to the first space or tab. */
  function Word(s: string): string {
    if s == [] || s[0] == ' ' || s[0] == '\t' then [] else [s[0]] + Word(s[1..])
  }

  /** What a COPY line copies from; empty when it names nothing. */
  function CopySource(line: string): string {
    var fromIdx := Index(Lower(line), "--from=");
    if !IsCopy(line) || fromIdx < 0 then "" else Word(line[fromIdx + 7..])
  }

  function ImageOf(line: string): string
    requires |line| >= 5
  {
    var image := line[5..];
    var idx := Index(Upper(image), " AS ");
    Trim(if idx >= 0 then image[..idx] else image)
  }

  predicate External(ref: string) {
    '/' in ref || ':' in ref || '@' in ref
  }

  // ---- The scans over all lines ----

  datatype Stages = Stages(names: set<string>, count: nat)

  function StageStep(st: Stages, raw: string): Stages {
    var line := Trim(raw);
    if !IsFrom(line) then st
    else
      var numbered := Stages(st.names + {Decimal(st.count)}, st.count + 1);
      match StageName(line)
      case Some(name) => numbered.(names := numbered.names + {Lower(name)})
      case None => numbered
  }

  function StageScan(st: Stages, lines: seq<string>): Stages
    decreases |lines|
  {
    if lines == [] then st else StageScan(StageStep(st, lines[0]), lines[1..])
  }

  function Lowered(refs: seq<string>): set<string> {
    set r | r in refs :: Lower(r)
  }

  /** A reference is reported once, in its first spelling, unless it is known or not an image. */
  function RefStep(found: seq<string>, ref: string, known: set<string>): seq<string> {
    if ref != "" && Lower(ref) !in known && External(ref) && Lower(ref) !in Lowered(found) then found + [ref] else found
  }

  function RefScan(found: seq<string>, lines: seq<string>, known: set<string>): seq<string>
    decreases |lines|
  {
    if lines == [] then found else RefScan(RefStep(found, CopySource(Trim(lines[0])), known), lines[1..], known)
  }

  predicate ArgLine(raw: string) {
    var line := Trim(raw);
    IsFrom(line) && '$' in ImageOf(line)
  }

  method NamedStages(content: string) returns (stages: set<string>)
    ensures stages == StageScan(Stages({}, 0), Lines(content)).names
  {
    hide StageName, IsFrom, Trim;
    stages := {};
    var stageIdx := 0;
    var lines := Lines(content);
    for i := 0 to |lines|
      invariant StageScan(Stages({}, 0), lines) == StageScan(Stages(stages, stageIdx), lines[i..])
    {
      assert lines[i..][1..] == lines[i + 1..];
      var line := Trim(lines[i]);
      if !IsFrom(line) { continue; }
      stages := stages + {Decimal(stageIdx)};
      stageIdx := stageIdx + 1;
      var name := StageName(line);
      if name.Some? {
        stages := stages + {Lower(name.value)};
      }
    }
  }

  method BlindCopyFromImages(content: string, namedStages: set<string>, localContexts: set<string>) returns (findings: seq<string>)
    ensures findings == RefScan([], Lines(content), namedStages + localContexts)
  {
    hide CopySource, Trim, External;
    findings := [];
    var seen: set<string> := {};
    var lines := Lines(content);
    for i := 0 to |lines|
      invariant RefScan([], lines, namedStages + localContexts) == RefScan(findings, lines[i..], namedStages + localContexts)
      invariant seen == Lowered(findings)
    {
      assert lines[i..][1..] == lines[i + 1..];
      var t := CopySource(Trim(lines[i]));
      var tLower := Lower(t);
      if t == "" || tLower in namedStages || tLower in localContexts || !External(t) { continue; }
      if tLower !in seen {
        seen := seen + {tLower};
        findings := findings + [t];
      }
    }
  }

  method HasArgInFrom(content: string) returns (found: bool)
    ensures found <==> exists l :: l in Lines(content) && ArgLine(l)
  {
    var lines := Lines(content);
    for i := 0 to |lines|
      invariant forall j :: 0 <= j < i ==> !ArgLine(lines[j])
    {
      if ArgLine(lines[i]) { return true; }
    }
    found := false;
  }

  // ---- What the reference scan returns, on any text ----

  function Sources(lines: seq<string>): seq<string> {
    if lines == [] then [] else [CopySource(Trim(lines[0]))] + Sources(lines[1..])
  }

  function Collect(found: seq<string>, refs: seq<string>, known: set<string>): seq<string>
    decreases |refs|
  {
    if refs == [] then found else Collect(RefStep(found, refs[0], known), refs[1..], known)
  }

  lemma {:induction false} ScanCollects(found: seq<string>, lines: seq<string>, known: set<string>)
    ensures RefScan(found, lines, known) == Collect(found, Sources(lines), known)
    decreases |lines|
  {
    hide CopySource, Trim, RefStep;
    if lines != [] {
      ScanCollects(RefStep(found, CopySource(Trim(lines[0])), known), lines[1..], known);
    }
  }

  function Without(found: seq<string>, known: set<string>): seq<string> {
    if found == [] then []
    else (if Lower(found[0]) in known then [] else [found[0]]) + Without(found[1..], known)
  }

  lemma {:induction false} WithoutAppend(found: seq<string>, ref: string, known: set<string>)
    ensures Without(found + [ref], known) == Without(found, known) + if Lower(ref) in known then [] else [ref]
  {
    hide Lower;
    if found == [] {
      assert found + [ref] == [ref];
    } else {
      WithoutAppend(found[1..], ref, known);
      assert (found + [ref])[1..] == found[1..] + [ref];
    }
  }

  lemma {:induction false} WithoutLowered(found: seq<string>, known: set<string>)
    ensures Lowered(Without(found, known)) == Lowered(found) - known
  {
    hide Lower;
    if found != [] {
      WithoutLowered(found[1..], known);
      assert found == [found[0]] + found[1..];
      assert Lowered(found) == {Lower(found[0])} + Lowered(found[1..]);
      var head := if Lower(found[0]) in known then [] else [found[0]];
      assert Lowered(head + Without(found[1..], known)) == Lowered(head) + Lowered(Without(found[1..], known));
    }
  }

  lemma StepWithout(found: seq<string>, ref: string, known: set<string>, more: set<string>)
    ensures RefStep(Without(found, more), ref, known + more) == Without(RefStep(found, ref, known), more)
  {
    hide Lower, External, Without, Lowered;
    WithoutAppend(found, ref, more);
    WithoutLowered(found, more);
  }

  lemma {:induction false} CollectWithout(found: seq<string>, refs: seq<string>, known: set<string>, more: set<string>)
    ensures Collect(Without(found, more), refs, known + more) == Without(Collect(found, refs, known), more)
    decreases |refs|
  {
    hide RefStep, Without;
    if refs != [] {
      StepWithout(found, refs[0], known, more);
      CollectWithout(RefStep(found, refs[0], known), refs[1..], known, more);
    }
  }

  /** Enlarging the stages or contexts only removes the findings it names: never adds or reorders. */
  lemma MoreKnownFewerFindings(lines: seq<string>, known: set<string>, more: set<string>)
    ensures RefScan([], lines, known + more) == Without(RefScan([], lines, known), more)
  {
    ScanCollects([], lines, known + more);
    ScanCollects([], lines, known);
    CollectWithout([], Sources(lines), known, more);
    assert Without([], more) == [];
  }

  ghost predicate Reportable(ref: string, known: set<string>) {
    ref != "" && External(ref) && Lower(ref) !in known
  }

  lemma ReportableAnySpelling(a: string, b: string, known: set<string>)
    requires Lower(a) == Lower(b)
    ensures Reportable(a, known) <==> Reportable(b, known)
  {
    ExternalLower(a);
    ExternalLower(b);
    assert |Lower(a)| == |a| && |Lower(b)| == |b|;
  }

  lemma ExternalLower(s: string)
    ensures External(Lower(s)) <==> External(s)
  {
    forall c | c == '/' || c == ':' || c == '@' ensures c in Lower(s) <==> c in s {
      if c in s {
        var i :| 0 <= i < |s| && s[i] == c;
        assert Lower(s)[i] == c;
      }
      if c in Lower(s) {
        var i :| 0 <= i < |s| && Lower(s)[i] == c;
        assert s[i] == c;
      }
    }
  }

  /** The reportable references in the order of their first spelling, each spelling once. */
  function Distinct(refs: seq<string>, known: set<string>): seq<string>
    decreases |refs|
  {
    if refs == [] then []
    else
      var front, last := refs[..|refs| - 1], refs[|refs| - 1];
      Distinct(front, known) +
      if last != "" && External(last) && Lower(last) !in known && Lower(last) !in Lowered(front) then [last] else []
  }

  lemma {:induction false} DistinctLowered(refs: seq<string>, known: set<string>)
    ensures forall r :: Reportable(r, known) ==> (Lower(r) in Lowered(Distinct(refs, known)) <==> Lower(r) in Lowered(refs))
    decreases |refs|
  {
    hide External;
    if refs != [] {
      var front, last := refs[..|refs| - 1], refs[|refs| - 1];
      DistinctLowered(front, known);
      assert refs == front + [last];
      var d := Distinct(front, known);
      forall r | Reportable(r, known) ensures Lower(r) in Lowered(Distinct(refs, known)) <==> Lower(r) in Lowered(refs) {
        if Lower(r) == Lower(last) {
          ReportableAnySpelling(r, last, known);
          assert last in refs;
          if Lower(last) !in Lowered(front) { assert last in Distinct(refs, known); }
        }
      }
    }
  }

  /** The scan reports, of all sources, each reportable one once, in its first spelling, in order. */
  lemma {:induction false} CollectIsDistinct(refs: seq<string>, known: set<string>)
    ensures Collect([], refs, known) == Distinct(refs, known)
    decreases |refs|
  {
    hide External;
    if refs != [] {
      var front, last := refs[..|refs| - 1], refs[|refs| - 1];
      CollectIsDistinct(front, known);
      CollectAppend([], front, last, known);
      assert refs == front + [last];
      DistinctLowered(front, known);
      if Reportable(last, known) {
        assert Lower(last) in Lowered(Distinct(front, known)) <==> Lower(last) in Lowered(front);
      }
    }
  }

  lemma {:induction false} CollectAppend(found: seq<string>, refs: seq<string>, last: string, known: set<string>)
    ensures Collect(found, refs + [last], known) == RefStep(Collect(found, refs, known), last, known)
    decreases |refs|
  {
    hide RefStep;
    if refs == [] {
      assert refs + [last] == [last];
    } else {
      CollectAppend(RefStep(found, refs[0], known), refs[1..], last, known);
      assert (refs + [last])[1..] == refs[1..] + [last];
    }
  }
}
