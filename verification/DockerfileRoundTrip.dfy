/** Printing any list of instructions and scanning it recovers its stages and references. */
module DockerfileRoundTrip {
  import opened Text
  import opened Dockerfile
  import opened Wrappers

  /** Keywords keep their spelling; an alias is its AS keyword and its name. `Copy` names a source;
      any line that is no FROM and names none, an ordinary COPY included, is `Other`. */
  datatype Instruction =
    | From(keyword: string, image: string, alias: Option<(string, string)>)
    | Copy(keyword: string, flags: string, ref: string, rest: string)
    | Other(text: string)

  datatype Line = Line(indent: string, body: Instruction, trail: string)

  function Core(i: Instruction): string {
    match i
    case From(keyword, image, Some(alias)) => keyword + " " + image + " " + alias.0 + " " + alias.1
    case From(keyword, image, None) => keyword + " " + image
    case Copy(keyword, flags, ref, rest) => keyword + " " + flags + "--from=" + ref + rest
    case Other(text) => text
  }

  predicate NoSpace(s: string) {
    forall i :: 0 <= i < |s| ==> !Space(s[i])
  }

  predicate IsAlias(alias: (string, string)) {
    Upper(alias.0) == "AS" && alias.1 != "" && NoSpace(alias.1)
  }

  predicate IsImage(image: string) {
    image != "" && '\n' !in image && Tight(image) && Index(Upper(" " + image + " "), " AS ") < 0
  }

  predicate IsRest(rest: string) {
    rest != "" ==> (rest[0] == ' ' || rest[0] == '\t') && !Space(rest[|rest| - 1]) && '\n' !in rest
  }

  /** An instruction as the builder's syntax has it. */
  predicate WellFormed(i: Instruction) {
    match i
    case From(keyword, image, alias) => Upper(keyword) == "FROM" && IsImage(image) && (alias.Some? ==> IsAlias(alias.value))
    case Copy(keyword, flags, ref, rest) =>
      && Upper(keyword) == "COPY" && '\n' !in flags && Index(Lower(flags + "--from="), "--from=") == |flags|
      && ref != "" && NoSpace(ref) && IsRest(rest)
    case Other(text) => '\n' !in text && Tight(text) && !IsFrom(text) && CopySource(text) == ""
  }

  /** An ordinary COPY, without a source flag, may stand in a printed list. */
  lemma PlainCopyIsOther(text: string)
    requires '\n' !in text && Tight(text) && IsCopy(text) && Index(Lower(text), "--from=") < 0
    ensures WellFormed(Other(text))
  {
    assert Upper(text)[0] == 'C';
  }

  predicate Printable(l: Line) {
    WellFormed(l.body) && AllSpace(l.indent) && AllSpace(l.trail) && '\n' !in l.indent && '\n' !in l.trail
  }

  function PrintLine(l: Line): string {
    l.indent + Core(l.body) + l.trail
  }

  function PrintLines(list: seq<Line>): seq<string> {
    if list == [] then [] else [PrintLine(list[0])] + PrintLines(list[1..])
  }

  function Print(list: seq<Line>): string {
    Unlines(PrintLines(list))
  }

  // ---- One instruction ----

  lemma UpperKeepsSpaces(s: string)
    requires NoSpace(s)
    ensures ' ' !in Upper(s) && '\n' !in s
  {
    forall i | 0 <= i < |s| ensures Upper(s)[i] != ' ' {
      assert !Space(s[i]);
    }
  }

  lemma FromPrefix(keyword: string, rest: string)
    requires Upper(keyword) == "FROM"
    ensures IsFrom(keyword + " " + rest) && !IsCopy(keyword + " " + rest)
    ensures Upper(keyword + " " + rest) == "FROM " + Upper(rest)
    ensures (keyword + " " + rest)[5..] == rest
  {
    UpperOfSum(keyword + " ", rest);
    UpperOfSum(keyword, " ");
    assert |Upper(keyword)| == |keyword|;
    var line := keyword + " " + rest;
    assert Upper(line)[0] == 'F';
  }

  lemma CopyPrefix(keyword: string, rest: string)
    requires Upper(keyword) == "COPY"
    ensures IsCopy(keyword + " " + rest) && !IsFrom(keyword + " " + rest)
  {
    UpperOfSum(keyword + " ", rest);
    UpperOfSum(keyword, " ");
    assert Upper(keyword + " " + rest)[0] == 'C';
  }

  /** The last " AS " is the one before the name. */
  lemma LastAs(head: string, name: string)
    requires ' ' !in name
    ensures LastIndex(head + " AS " + name, " AS ") == |head|
  {
    var s := head + " AS " + name;
    AtReads(s, " AS ", |head|);
    assert forall i :: |head| + 4 <= i < |s| ==> s[i] == name[i - |head| - 4] && s[i] in name;
    assert s[|head| + 1] == 'A' && s[|head| + 2] == 'S';
    forall k | k > |head| ensures !At(s, " AS ", k) {
      AtReads(s, " AS ", k);
      assert k + 4 <= |s| ==> s[k + 0] != " AS "[0] || s[k + 3] != " AS "[3];
    }
  }

  /** A stretch of text that reads as part of a frame without " AS " has none either. */
  lemma NoAsInside(image: string, s: string, k: nat, shift: int)
    requires Index(Upper(" " + image + " "), " AS ") < 0
    requires k + 4 <= |s| && 0 <= k + shift && k + shift + 4 <= |image| + 2
    requires forall i :: k <= i < k + 4 ==> s[i] == Upper(" " + image + " ")[i + shift]
    ensures !At(s, " AS ", k)
  {
    var framed := Upper(" " + image + " ");
    AtReads(s, " AS ", k);
    AtReads(framed, " AS ", k + shift);
    assert s[k + 0] == framed[k + shift + 0] && s[k + 1] == framed[k + shift + 1];
    assert s[k + 2] == framed[k + shift + 2] && s[k + 3] == framed[k + shift + 3];
  }

  lemma FramedReads(image: string)
    ensures |Upper(" " + image + " ")| == |image| + 2
    ensures forall i :: 0 <= i < |image| ==> Upper(" " + image + " ")[i + 1] == Upper(image)[i]
    ensures Upper(" " + image + " ")[0] == ' ' && Upper(" " + image + " ")[|image| + 1] == ' '
  {
  }

  /** Without an alias there is no " AS " in the line. */
  lemma NoAlias(image: string)
    requires IsImage(image)
    ensures LastIndex("FROM " + Upper(image), " AS ") < 0 && Index(Upper(image), " AS ") < 0
  {
    FramedReads(image);
    var s := "FROM " + Upper(image);
    forall k ensures !At(s, " AS ", k) {
      AtReads(s, " AS ", k);
      if 4 <= k && k + 4 <= |s| {
        NoAsInside(image, s, k, -4);
      } else {
        assert 0 <= k < 4 ==> s[k + 0] != " AS "[0];
      }
    }
    forall k ensures !At(Upper(image), " AS ", k) {
      AtReads(Upper(image), " AS ", k);
      if 0 <= k && k + 4 <= |image| {
        NoAsInside(image, Upper(image), k, 1);
      }
    }
  }

  /** With one, the first " AS " after the keyword is the alias's. */
  lemma FirstAs(image: string, name: string)
    requires IsImage(image)
    ensures Index(Upper(image) + " AS " + name, " AS ") == |image|
  {
    FramedReads(image);
    var s := Upper(image) + " AS " + name;
    AtReads(s, " AS ", |image|);
    assert s[|image|] == ' ' && s[|image| + 1] == 'A';
    forall k | k < |image| ensures !At(s, " AS ", k) {
      AtReads(s, " AS ", k);
      if 0 <= k && k + 3 <= |image| {
        NoAsInside(image, s, k, 1);
      } else {
        assert 0 <= k ==> s[k + 1] != " AS "[1] || s[k + 2] != " AS "[2];
      }
    }
  }

  lemma FromScanned(i: Instruction)
    requires i.From? && WellFormed(i)
    ensures IsFrom(Core(i)) && CopySource(Core(i)) == ""
    ensures StageName(Core(i)) == if i.alias.Some? then Some(i.alias.value.1) else None
    ensures ImageOf(Core(i)) == i.image
  {
    hide Index, LastIndex, Upper, Trim, Tight;
    var core := Core(i);
    TrimmedIsTight(i.image);
    match i.alias
    case None =>
      FromPrefix(i.keyword, i.image);
      NoAlias(i.image);
    case Some(alias) =>
      AliasScanned(i.keyword, i.image, alias);
  }

  lemma AliasScanned(keyword: string, image: string, alias: (string, string))
    requires Upper(keyword) == "FROM" && IsImage(image) && IsAlias(alias)
    ensures var core := keyword + " " + image + " " + alias.0 + " " + alias.1;
      && IsFrom(core) && CopySource(core) == ""
      && StageName(core) == Some(alias.1)
      && ImageOf(core) == image
  {
    hide Index, LastIndex, Trim, Upper, IsImage;
    var core := keyword + " " + image + " " + alias.0 + " " + alias.1;
    var rest := image + (" " + alias.0 + " ") + alias.1;
    assert core == keyword + " " + rest;
    FromPrefix(keyword, rest);
    UpperKeepsSpaces(alias.1);
    UpperOfAlias(image, alias);
    assert Upper(core) == ("FROM " + Upper(image)) + " AS " + Upper(alias.1);
    LastAs("FROM " + Upper(image), Upper(alias.1));
    FirstAs(image, Upper(alias.1));
    UpperLength(image);
    UpperLength(alias.0);
    assert core[|image| + 9..] == alias.1;
    NoSpaceIsTight(alias.1);
    TrimmedIsTight(alias.1);
    assert core[5..] == rest && rest[..|image|] == image;
    ImageIsTight(image);
  }

  lemma UpperLength(s: string)
    ensures |Upper(s)| == |s|
  {
  }

  lemma ImageIsTight(image: string)
    requires IsImage(image)
    ensures Trim(image) == image
  {
    TrimmedIsTight(image);
  }

  lemma NoSpaceIsTight(s: string)
    requires NoSpace(s)
    ensures Tight(s)
  {
  }

  lemma UpperOfAlias(image: string, alias: (string, string))
    requires Upper(alias.0) == "AS"
    ensures Upper(image + (" " + alias.0 + " ") + alias.1) == Upper(image) + " AS " + Upper(alias.1)
  {
    UpperOfSum(image + (" " + alias.0 + " "), alias.1);
    UpperOfSum(image, " " + alias.0 + " ");
    UpperOfSum(" " + alias.0, " ");
    UpperOfSum(" ", alias.0);
    assert Upper(" ") == " ";
  }

  lemma {:induction false} WordStops(ref: string, rest: string)
    requires NoSpace(ref) && (rest != "" ==> rest[0] == ' ' || rest[0] == '\t')
    ensures Word(ref + rest) == ref
  {
    if ref == [] {
      assert ref + rest == rest;
    } else {
      assert !Space(ref[0]);
      WordStops(ref[1..], rest);
      assert (ref + rest)[1..] == ref[1..] + rest;
    }
  }

  /** The first "--from=" is where the flags end. */
  lemma FromFlagFound(keyword: string, flags: string, tail: string)
    requires Upper(keyword) == "COPY" && Index(Lower(flags + "--from="), "--from=") == |flags|
    ensures Index(Lower(keyword + " " + flags + "--from=" + tail), "--from=") == 5 + |flags|
  {
    hide At;
    var s := keyword + " " + flags + "--from=" + tail;
    var head, inner, end := Lower(keyword + " "), Lower(flags + "--from="), Lower(tail);
    UpperLength(keyword);
    KeywordHasNoDash(keyword);
    LowerOfSum(keyword + " ", flags + "--from=" + tail);
    LowerOfSum(flags + "--from=", tail);
    assert s == (keyword + " ") + ((flags + "--from=") + tail);
    assert Lower(s) == head + (inner + end) && |head| == 5 && |inner| == |flags| + 7;
    AtShifted(head, inner + end, "--from=", |flags|);
    AtExtended(inner, end, "--from=", |flags|);
    forall k | k < 5 + |flags| ensures !At(Lower(s), "--from=", k) {
      if 5 <= k {
        AtShifted(head, inner + end, "--from=", k - 5);
        AtExtended(inner, end, "--from=", k - 5);
      } else {
        AtReads(Lower(s), "--from=", k);
        assert 0 <= k ==> Lower(s)[k + 0] == head[k] != "--from="[0];
      }
    }
  }

  lemma KeywordHasNoDash(keyword: string)
    requires Upper(keyword) == "COPY"
    ensures forall i :: 0 <= i < 5 ==> Lower(keyword + " ")[i] != '-'
  {
    var line := keyword + " ";
    forall i | 0 <= i < 5 ensures Lower(line)[i] != '-' {
      assert i < 4 ==> Upper(keyword)[i] == UpperChar(keyword[i]);
      assert Lower(line)[i] == LowerChar(line[i]);
    }
  }

  lemma CopyScanned(i: Instruction)
    requires i.Copy? && WellFormed(i)
    ensures !IsFrom(Core(i)) && CopySource(Core(i)) == i.ref
  {
    hide Index, Lower, Upper;
    var tail := i.ref + i.rest;
    var core := Core(i);
    assert core == i.keyword + " " + (i.flags + "--from=" + tail);
    assert core == i.keyword + " " + i.flags + "--from=" + tail;
    CopyPrefix(i.keyword, i.flags + "--from=" + tail);
    FromFlagFound(i.keyword, i.flags, tail);
    UpperLength(i.keyword);
    assert core[5 + |i.flags| + 7..] == tail;
    WordStops(i.ref, i.rest);
  }

  // ---- One line ----

  lemma CoreIsTight(i: Instruction)
    requires WellFormed(i)
    ensures Tight(Core(i)) && '\n' !in Core(i)
  {
    match i
    case Other(_) =>
    case From(keyword, image, alias) =>
      KeywordIsTight(keyword, "FROM");
      if alias.Some? {
        KeywordIsTight(alias.value.0, "AS");
        UpperKeepsSpaces(alias.value.1);
      }
    case Copy(keyword, flags, ref, rest) =>
      KeywordIsTight(keyword, "COPY");
      UpperKeepsSpaces(ref);
  }

  lemma KeywordIsTight(keyword: string, upper: string)
    requires Upper(keyword) == upper && upper != "" && forall c :: c in upper ==> 'A' <= c <= 'Z'
    ensures keyword != "" && !Space(keyword[0]) && '\n' !in keyword
  {
    UpperLength(keyword);
    forall i | 0 <= i < |keyword| ensures !Space(keyword[i]) && keyword[i] != '\n' {
      assert Upper(keyword)[i] == UpperChar(keyword[i]) && Upper(keyword)[i] in upper;
    }
  }

  lemma LineTrims(l: Line)
    requires Printable(l)
    ensures Trim(PrintLine(l)) == Core(l.body) && '\n' !in PrintLine(l)
  {
    hide Trim, Tight, Core, WellFormed;
    CoreIsTight(l.body);
    TrimPadded(l.indent, Core(l.body), l.trail);
  }

  // ---- Whole files ----

  function Froms(list: seq<Line>): nat {
    if list == [] then 0 else (if list[0].body.From? then 1 else 0) + Froms(list[1..])
  }

  /** The lowercased names given by FROM ... AS. */
  function AliasNames(list: seq<Line>): set<string> {
    set l | l in list && l.body.From? && l.body.alias.Some? :: Lower(l.body.alias.value.1)
  }

  function Refs(list: seq<Line>): seq<string> {
    if list == [] then [] else (if list[0].body.Copy? then [list[0].body.ref] else []) + Refs(list[1..])
  }

  function Indices(from: nat, count: nat): set<string> {
    set i | from <= i < from + count :: Decimal(i)
  }

  lemma StageOfLine(st: Stages, l: Line)
    requires Printable(l)
    ensures StageStep(st, PrintLine(l)) ==
      if !l.body.From? then st
      else Stages(st.names + {Decimal(st.count)} + AliasNames([l]), st.count + 1)
  {
    hide Trim, Tight, IsFrom, IsCopy, StageName, CopySource, ImageOf, Lower, Decimal;
    LineTrims(l);
    match l.body
    case From(_, _, _) => FromScanned(l.body);
    case Copy(_, _, _, _) => CopyScanned(l.body);
    case Other(_) =>
  }

  lemma {:induction false} ScanOfPrinted(st: Stages, list: seq<Line>)
    requires forall l :: l in list ==> Printable(l)
    ensures StageScan(st, PrintLines(list) + [""]).names == st.names + Indices(st.count, Froms(list)) + AliasNames(list)
    decreases |list|
  {
    hide Trim, Lower, Decimal, StageStep, PrintLine, Printable, AliasNames, Indices;
    if list == [] {
      BlankLine(st);
      NoNames(st.count);
      assert ([""])[1..] == [];
    } else {
      var next := StageStep(st, PrintLine(list[0]));
      assert list[0] in list;
      StageOfLine(st, list[0]);
      ScanOfPrinted(next, list[1..]);
      assert list == [list[0]] + list[1..];
      assert (PrintLines(list) + [""])[0] == PrintLine(list[0]);
      assert (PrintLines(list) + [""])[1..] == PrintLines(list[1..]) + [""];
      NamesOfSum(list[0], list[1..]);
      IndicesStep(st.count, Froms(list[1..]));
    }
  }

  lemma BlankLine(st: Stages)
    ensures StageStep(st, []) == st && CopySource(Trim([])) == "" && !ArgLine([])
  {
    assert Trim([]) == [];
  }

  lemma NoNames(from: nat)
    ensures Indices(from, 0) == {} && AliasNames([]) == {}
  {
  }

  lemma NamesOfSum(head: Line, tail: seq<Line>)
    ensures AliasNames([head] + tail) == AliasNames([head]) + AliasNames(tail)
    ensures !head.body.From? ==> AliasNames([head]) == {}
  {
  }

  lemma IndicesStep(from: nat, count: nat)
    ensures Indices(from, count + 1) == {Decimal(from)} + Indices(from + 1, count)
  {
    hide Decimal;
  }

  lemma {:induction false} PrintedLines(list: seq<Line>)
    requires forall l :: l in list ==> Printable(l)
    ensures Lines(Print(list)) == PrintLines(list) + [""]
  {
    NoNewlines(list);
    LinesOfUnlines(PrintLines(list));
  }

  lemma {:induction false} NoNewlines(list: seq<Line>)
    requires forall l :: l in list ==> Printable(l)
    ensures forall s :: s in PrintLines(list) ==> '\n' !in s
  {
    hide PrintLine, Printable;
    if list != [] {
      assert list[0] in list;
      LineTrims(list[0]);
      NoNewlines(list[1..]);
    }
  }

  /** Scanning a printed list for stages gives its names, lowercased, and the indices of its FROMs. */
  lemma PrintedStages(list: seq<Line>)
    requires forall l :: l in list ==> Printable(l)
    ensures StageScan(Stages({}, 0), Lines(Print(list))).names == Indices(0, Froms(list)) + AliasNames(list)
  {
    hide Lines, Print, StageScan, Indices, AliasNames;
    PrintedLines(list);
    ScanOfPrinted(Stages({}, 0), list);
  }

  lemma SourceOfLine(l: Line)
    requires Printable(l)
    ensures CopySource(Trim(PrintLine(l))) == if l.body.Copy? then l.body.ref else ""
  {
    hide Trim, Tight, IsFrom, StageName, ImageOf, Lower;
    LineTrims(l);
    match l.body
    case From(_, _, _) => FromScanned(l.body);
    case Copy(_, _, _, _) => CopyScanned(l.body);
    case Other(_) =>
  }

  lemma {:induction false} RefsOfPrinted(found: seq<string>, list: seq<Line>, known: set<string>)
    requires forall l :: l in list ==> Printable(l)
    ensures RefScan(found, PrintLines(list) + [""], known) == Collect(found, Refs(list), known)
    decreases |list|
  {
    hide Trim, CopySource, PrintLine, Printable, RefStep;
    if list == [] {
      BlankLine(Stages({}, 0));
      EmptyRefIsNone(found, known);
      assert ([""])[1..] == [];
    } else {
      var next := RefStep(found, CopySource(Trim(PrintLine(list[0]))), known);
      assert list[0] in list;
      SourceOfLine(list[0]);
      EmptyRefIsNone(found, known);
      RefsOfPrinted(next, list[1..], known);
      assert (PrintLines(list) + [""])[0] == PrintLine(list[0]);
      assert (PrintLines(list) + [""])[1..] == PrintLines(list[1..]) + [""];
      if list[0].body.Copy? {
        assert Refs(list)[0] == list[0].body.ref && Refs(list)[1..] == Refs(list[1..]);
      } else {
        assert Refs(list) == Refs(list[1..]);
      }
    }
  }

  lemma EmptyRefIsNone(found: seq<string>, known: set<string>)
    ensures RefStep(found, "", known) == found
  {
  }

  /** Scanning a printed list for blind references gives, of the references its COPYs name, the
      external unknown ones, each once in its first spelling and in order. */
  lemma PrintedRefs(list: seq<Line>, known: set<string>)
    requires forall l :: l in list ==> Printable(l)
    ensures RefScan([], Lines(Print(list)), known) == Distinct(Refs(list), known)
  {
    hide Lines, Print, RefScan, Collect, Distinct;
    PrintedLines(list);
    RefsOfPrinted([], list, known);
    CollectIsDistinct(Refs(list), known);
  }

  lemma ArgOfLine(l: Line)
    requires Printable(l)
    ensures ArgLine(PrintLine(l)) <==> l.body.From? && '$' in l.body.image
  {
    hide Trim, Tight, StageName, IsFrom, IsCopy, CopySource, ImageOf, Lower;
    LineTrims(l);
    match l.body
    case From(_, _, _) => FromScanned(l.body);
    case Copy(_, _, _, _) => CopyScanned(l.body);
    case Other(_) =>
  }

  /** A printed list is reported as using an ARG in a FROM exactly when some image holds a '$'. */
  lemma {:induction false} PrintedArgs(list: seq<Line>)
    requires forall l :: l in list ==> Printable(l)
    ensures (exists s :: s in Lines(Print(list)) && ArgLine(s)) <==>
      exists l :: l in list && l.body.From? && '$' in l.body.image
  {
    hide Lines, Print, ArgLine;
    PrintedLines(list);
    BlankLine(Stages({}, 0));
    ArgsOfPrinted(list);
  }

  lemma {:induction false} ArgsOfPrinted(list: seq<Line>)
    requires forall l :: l in list ==> Printable(l)
    ensures (exists s :: s in PrintLines(list) && ArgLine(s)) <==>
      exists l :: l in list && l.body.From? && '$' in l.body.image
  {
    hide ArgLine, Printable, PrintLine;
    if list != [] {
      assert list == [list[0]] + list[1..];
      ArgOfLine(list[0]);
      ArgsOfPrinted(list[1..]);
    }
  }
}
