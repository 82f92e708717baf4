/** What the two scans find, on any text, by the places where keywords occur. */
module DockerfileExact {
  import opened Text
  import opened Dockerfile
  import opened Wrappers

  // ---- One line ----

  /** The line starts with the keyword and a space, in any case. */
  predicate StartsWith(line: string, keyword: string) {
    |keyword| < |line| && Upper(line[..|keyword|]) == keyword && line[|keyword|] == ' '
  }

  lemma KeywordsExactly(line: string)
    ensures IsFrom(line) <==> StartsWith(line, "FROM")
    ensures IsCopy(line) <==> StartsWith(line, "COPY")
  {
    if |line| > 4 {
      assert Upper(line[..4]) == Upper(line)[..4];
      assert Upper(line)[4] == ' ' <==> line[4] == ' ';
      assert "FROM " == "FROM" + " " && "COPY " == "COPY" + " ";
      assert Upper(line)[..5] == Upper(line)[..4] + [Upper(line)[4]];
    }
  }

  /** sub occurs in s at k, and nowhere later. */
  ghost predicate LastAt(s: string, sub: string, k: nat) {
    At(s, sub, k) && forall j :: At(s, sub, j) ==> j <= k
  }

  /** sub occurs in s at k, and nowhere earlier. */
  ghost predicate FirstAt(s: string, sub: string, k: nat) {
    At(s, sub, k) && forall j :: At(s, sub, j) ==> k <= j
  }

  /** A stage is named by what follows the last " AS ", trimmed, if that is not empty. */
  lemma StageNameExactly(line: string, name: string)
    ensures StageName(line) == Some(name) <==>
      name != "" && exists k: nat :: LastAt(Upper(line), " AS ", k) && k + 4 <= |line| && name == Trim(line[k + 4..])
  {
    hide Trim;
    var k := LastIndex(Upper(line), " AS ");
    if k >= 0 {
      AtReads(Upper(line), " AS ", k);
      assert LastAt(Upper(line), " AS ", k);
    }
  }

  lemma {:induction false} WordExactly(s: string)
    ensures Word(s) <= s && ' ' !in Word(s) && '\t' !in Word(s)
    ensures |Word(s)| < |s| ==> s[|Word(s)|] == ' ' || s[|Word(s)|] == '\t'
  {
    if s != [] && s[0] != ' ' && s[0] != '\t' {
      WordExactly(s[1..]);
    }
  }

  /** The word starts at k and ends before the next space or tab, or with the line. */
  predicate WordAt(line: string, k: nat, word: string) {
    && k <= |line| && word <= line[k..] && ' ' !in word && '\t' !in word
    && (k + |word| < |line| ==> line[k + |word|] == ' ' || line[k + |word|] == '\t')
  }

  /** A COPY names as its source the word after the first "--from=", in any case. */
  lemma CopySourceExactly(line: string, ref: string)
    requires ref != ""
    ensures CopySource(line) == ref <==>
      IsCopy(line) && exists k: nat :: FirstAt(Lower(line), "--from=", k) && k + 7 <= |line| && WordAt(line, k + 7, ref)
  {
    hide IsCopy, Word;
    var k := Index(Lower(line), "--from=");
    if k >= 0 {
      AtReads(Lower(line), "--from=", k);
      assert FirstAt(Lower(line), "--from=", k);
      WordExactly(line[k + 7..]);
      if WordAt(line, k + 7, ref) {
        WordIsUnique(line[k + 7..], ref, Word(line[k + 7..]));
      }
    }
  }

  lemma WordIsUnique(s: string, a: string, b: string)
    requires a <= s && b <= s && ' ' !in a && '\t' !in a && ' ' !in b && '\t' !in b
    requires |a| < |s| ==> s[|a|] == ' ' || s[|a|] == '\t'
    requires |b| < |s| ==> s[|b|] == ' ' || s[|b|] == '\t'
    ensures a == b
  {
    assert forall i :: 0 <= i < |a| ==> s[i] == a[i] && a[i] in a;
    assert forall i :: 0 <= i < |b| ==> s[i] == b[i] && b[i] in b;
    assert a == s[..|a|] && b == s[..|b|];
  }

  /** The image of a FROM is the rest of its line, up to the first " AS " if there is one, trimmed. */
  lemma ImageExactly(line: string)
    requires |line| >= 5
    ensures forall k: nat :: FirstAt(Upper(line[5..]), " AS ", k) ==> 5 + k <= |line| && ImageOf(line) == Trim(line[5..5 + k])
    ensures !Contains(Upper(line[5..]), " AS ") ==> ImageOf(line) == Trim(line[5..])
  {
    hide Trim;
    forall k: nat | FirstAt(Upper(line[5..]), " AS ", k) ensures 5 + k <= |line| && ImageOf(line) == Trim(line[5..5 + k]) {
      AtReads(Upper(line[5..]), " AS ", k);
      assert line[5..][..k] == line[5..5 + k];
    }
  }

  // ---- The stages of a text ----

  /** How many of the lines are FROMs. */
  function Froms(lines: seq<string>): nat {
    if lines == [] then 0 else (if StartsWith(Trim(lines[0]), "FROM") then 1 else 0) + Froms(lines[1..])
  }

  lemma {:induction false} ScanExactly(st: Stages, lines: seq<string>, name: string)
    ensures name in StageScan(st, lines).names <==>
      || name in st.names
      || (exists i :: st.count <= i < st.count + Froms(lines) && name == Decimal(i))
      || (exists l :: l in lines && StartsWith(Trim(l), "FROM") && StageName(Trim(l)).Some? && name == Lower(StageName(Trim(l)).value))
    decreases |lines|
  {
    hide Trim, StartsWith, StageName, Lower, Decimal, IsFrom;
    if lines != [] {
      var next := StageStep(st, lines[0]);
      KeywordsExactly(Trim(lines[0]));
      ScanExactly(next, lines[1..], name);
      assert lines == [lines[0]] + lines[1..];
      if StartsWith(Trim(lines[0]), "FROM") {
        assert next.count == st.count + 1 && next.count + Froms(lines[1..]) == st.count + Froms(lines);
        FirstIndex(st.count, st.count + Froms(lines), name);
      }
    }
  }

  lemma FirstIndex(low: nat, high: nat, name: string)
    requires low < high
    ensures (exists i :: low <= i < high && name == Decimal(i)) <==>
      name == Decimal(low) || exists i :: low + 1 <= i < high && name == Decimal(i)
  {
    hide Decimal;
    if i :| low <= i < high && name == Decimal(i) {
      assert i == low || low + 1 <= i;
    }
  }

  /** The stage names of a text are the indices of its FROMs, in decimal, and the lowercased names they
      give. */
  lemma NamedStagesExactly(content: string, name: string)
    ensures name in StageScan(Stages({}, 0), Lines(content)).names <==>
      || (exists i :: 0 <= i < Froms(Lines(content)) && name == Decimal(i))
      || (exists l :: l in Lines(content) && StartsWith(Trim(l), "FROM") && StageName(Trim(l)).Some? && name == Lower(StageName(Trim(l)).value))
  {
    hide Trim, StartsWith, StageName, Lower, Decimal, Lines;
    ScanExactly(Stages({}, 0), Lines(content), name);
  }

  // ---- The findings of a text ----

  /** Looks like an image and is neither a stage nor a local context. */
  predicate Blind(ref: string, known: set<string>) {
    ref != "" && ('/' in ref || ':' in ref || '@' in ref) && Lower(ref) !in known
  }

  lemma {:induction false} SourcesAre(lines: seq<string>)
    ensures |Sources(lines)| == |lines|
    ensures forall i :: 0 <= i < |lines| ==> Sources(lines)[i] == CopySource(Trim(lines[i]))
  {
    hide CopySource, Trim;
    if lines != [] { SourcesAre(lines[1..]); }
  }

  lemma {:induction false} DistinctExactly(refs: seq<string>, known: set<string>, ref: string)
    ensures ref in Distinct(refs, known) <==>
      exists i :: 0 <= i < |refs| && refs[i] == ref && Blind(ref, known) && forall j :: 0 <= j < i ==> Lower(refs[j]) != Lower(ref)
    decreases |refs|
  {
    hide Lower;
    if refs != [] {
      var front, last := refs[..|refs| - 1], refs[|refs| - 1];
      DistinctExactly(front, known, ref);
      assert refs == front + [last];
      assert Lower(last) in Lowered(front) <==> exists j :: 0 <= j < |front| && Lower(front[j]) == Lower(last);
      if i :| 0 <= i < |refs| && refs[i] == ref && Blind(ref, known) && forall j :: 0 <= j < i ==> Lower(refs[j]) != Lower(ref) {
        assert i < |front| ==> front[i] == ref;
      }
    }
  }

  /** A reference is reported exactly if it is blind and some COPY names it as its source, and no COPY
      before that names another spelling of it. */
  lemma FindingsExactly(content: string, known: set<string>, ref: string)
    ensures var lines := Lines(content);
      ref in RefScan([], lines, known) <==>
      exists i :: 0 <= i < |lines| && CopySource(Trim(lines[i])) == ref && Blind(ref, known)
                  && forall j :: 0 <= j < i ==> Lower(CopySource(Trim(lines[j]))) != Lower(ref)
  {
    hide CopySource, Trim, Lower, Blind, Lines;
    var lines := Lines(content);
    ScanCollects([], lines, known);
    CollectIsDistinct(Sources(lines), known);
    SourcesAre(lines);
    DistinctExactly(Sources(lines), known, ref);
  }
}
