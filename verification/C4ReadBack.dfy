/** Reading the generated texts back: what model.dsl and landscape.md show of a model. */
module C4ReadBack {
  import opened C4Producers
  import opened C4Webhooks
  import opened C4Model
  import opened C4Render
  import opened Text
  import opened Wrappers

  // ---- Words ----

  /** The part of s before its first c; all of s if it has none. */
  function Until(s: string, c: char): (head: string)
    ensures head <= s && c !in head
  {
    if s == "" || s[0] == c then "" else [s[0]] + Until(s[1..], c)
  }

  /** What follows the first c, if there is one. */
  function Past(s: string, c: char): Option<string> {
    var head := Until(s, c);
    if |head| == |s| then None else Some(s[|head| + 1..])
  }

  lemma {:induction false} UntilStops(a: string, c: char, b: string)
    requires c !in a
    ensures Until(a + [c] + b, c) == a && Past(a + [c] + b, c) == Some(b)
  {
    var s := a + [c] + b;
    if a != "" {
      assert s[1..] == a[1..] + [c] + b;
      UntilStops(a[1..], c, b);
    }
    assert s[|a| + 1..] == b;
  }

  // ---- The DSL reader ----

  /** A text in quotes at the start of s, and what follows it. */
  function Quoted(s: string): Option<(string, string)> {
    if s == "" || s[0] != '"' then None
    else
      match Past(s[1..], '"')
      case None => None
      case Some(rest) => Some((Until(s[1..], '"'), rest))
  }

  lemma QuotedStops(text: string, rest: string)
    requires '"' !in text
    ensures Quoted("\"" + text + "\"" + rest) == Some((text, rest))
  {
    var s := "\"" + text + "\"" + rest;
    assert s[1..] == text + ['"'] + rest;
    UntilStops(text, '"', rest);
  }

  /** The right-hand side of a relationship: a name, and a text in quotes. */
  function ReadArrow(from: string, s: string): Option<Statement> {
    match Past(s, ' ')
    case None => None
    case Some(rest) =>
      match Quoted(rest)
      case None => None
      case Some((text, end)) => if end == "" then Some(Relate(from, Until(s, ' '), text)) else None
  }

  /** The right-hand side of a declaration: a keyword, and one or two texts in quotes. */
  function ReadElement(ident: string, s: string): Option<Statement> {
    match Past(s, ' ')
    case None => None
    case Some(rest) =>
      match Quoted(rest)
      case None => None
      case Some((name, end)) =>
        if end == "" then Some(Declare(ident, Until(s, ' '), name, None))
        else if end[0] != ' ' then None
        else
          match Quoted(end[1..])
          case None => None
          case Some((note, end')) => if end' == "" then Some(Declare(ident, Until(s, ' '), name, Some(note))) else None
  }

  /** A line of the DSL: eight spaces, an identifier, and an arrow or an equals sign. */
  function ReadStatement(line: string): Option<Statement> {
    if !("        " <= line) then None
    else
      var body := line[8..];
      var first := Until(body, ' ');
      if first == "#" then None
      else
        match Past(body, ' ')
        case None => None
        case Some(rest) =>
          if "-> " <= rest then ReadArrow(first, rest[3..])
          else if "= " <= rest then ReadElement(first, rest[2..])
          else None
  }

  function StatementsIn(lines: seq<string>): seq<Statement> {
    if lines == [] then []
    else ToSeq(ReadStatement(lines[0])) + StatementsIn(lines[1..])
  }

  /** Everything a DSL text declares and draws. */
  function ReadDsl(text: string): seq<Statement> {
    StatementsIn(Lines(text))
  }

  // ---- Statements come back ----

  predicate Ident(s: string) {
    ' ' !in s && s != "#"
  }

  /** A statement whose names can be told from the syntax around them. */
  predicate Legible(r: Statement) {
    match r
    case Declare(ident, keyword, name, note) =>
      Ident(ident) && ' ' !in keyword && '"' !in name && (note.Some? ==> '"' !in note.value)
    case Relate(from, to, text) => Ident(from) && ' ' !in to && '"' !in text
  }

  lemma ArrowReadsBack(from: string, to: string, text: string)
    requires ' ' !in to && '"' !in text
    ensures ReadArrow(from, to + " \"" + text + "\"") == Some(Relate(from, to, text))
  {
    var rest := "\"" + text + "\"" + "";
    assert to + " \"" + text + "\"" == to + [' '] + rest;
    UntilStops(to, ' ', rest);
    QuotedStops(text, "");
  }

  function NoteText(note: Option<string>): string {
    match note case None => "" case Some(n) => " \"" + n + "\""
  }

  lemma ElementReadsBack(ident: string, keyword: string, name: string, note: Option<string>)
    requires ' ' !in keyword && '"' !in name && (note.Some? ==> '"' !in note.value)
    ensures ReadElement(ident, keyword + " \"" + name + "\"" + NoteText(note)) == Some(Declare(ident, keyword, name, note))
  {
    hide Quoted, Until, Past;
    var rest := "\"" + name + "\"" + NoteText(note);
    assert keyword + " \"" + name + "\"" + NoteText(note) == keyword + [' '] + rest;
    UntilStops(keyword, ' ', rest);
    QuotedStops(name, NoteText(note));
    if note.Some? {
      assert NoteText(note)[1..] == "\"" + note.value + "\"" + "";
      QuotedStops(note.value, "");
    }
  }

  lemma FirstWord(first: string, rest: string)
    requires Ident(first)
    ensures var line := "        " + first + " " + rest;
      ReadStatement(line) ==
        if "-> " <= rest then ReadArrow(first, rest[3..]) else if "= " <= rest then ReadElement(first, rest[2..]) else None
  {
    hide ReadArrow, ReadElement;
    var line := "        " + first + " " + rest;
    assert line[8..] == first + [' '] + rest;
    UntilStops(first, ' ', rest);
  }

  /** Every statement is read back from its line. */
  lemma StatementReadsBack(r: Statement)
    requires Legible(r)
    ensures ReadStatement(r.Text()) == Some(r)
  {
    hide ReadArrow, ReadElement, ReadStatement;
    match r
    case Relate(from, to, text) =>
      var tail := to + " \"" + text + "\"";
      assert r.Text() == "        " + from + " " + ("-> " + tail);
      FirstWord(from, "-> " + tail);
      ArrowReadsBack(from, to, text);
    case Declare(ident, keyword, name, note) =>
      var tail := keyword + " \"" + name + "\"" + NoteText(note);
      DeclareText(ident, keyword, name, note);
      FirstWord(ident, "= " + tail);
      assert ("= " + tail)[0] == '=' && "-> "[0] == '-' && ("= " + tail)[2..] == tail;
      ElementReadsBack(ident, keyword, name, note);
  }

  lemma DeclareText(ident: string, keyword: string, name: string, note: Option<string>)
    ensures Declare(ident, keyword, name, note).Text() ==
      "        " + ident + " " + ("= " + (keyword + " \"" + name + "\"" + NoteText(note)))
  {
    var head, value := "        " + ident, keyword + " \"" + name + "\"";
    EqualsSign(head, keyword, " \"", name, "\"");
    if note.Some? {
      assert Declare(ident, keyword, name, note).Text() == head + " = " + value + " \"" + note.value + "\"";
      FiveParts(head, value, " \"", note.value, "\"");
    } else {
      assert value + "" == value;
    }
  }

  lemma EqualsSign(head: string, a: string, b: string, c: string, d: string)
    ensures head + " = " + a + b + c + d == head + " = " + (a + b + c + d) == head + " " + ("= " + (a + b + c + d))
  {
    var v := a + b + c + d;
    assert " = " == " " + "= ";
    assert head + " = " + a + b + c + d == head + " = " + v;
  }

  lemma FiveParts(head: string, value: string, a: string, b: string, c: string)
    ensures head + " = " + value + a + b + c == head + " " + ("= " + (value + (a + b + c)))
  {
    EqualsSign(head, value, a, b, c);
    assert value + a + b + c == value + (a + b + c);
  }

  lemma {:induction false} StatementsInSum(a: seq<string>, b: seq<string>)
    ensures StatementsIn(a + b) == StatementsIn(a) + StatementsIn(b)
  {
    hide ReadStatement, ToSeq;
    if a == [] {
      assert a + b == b;
    } else {
      StatementsInSum(a[1..], b);
      assert (a + b)[1..] == a[1..] + b;
    }
  }

  lemma {:induction false} TextsReadBack(statements: seq<Statement>)
    requires forall r :: r in statements ==> Legible(r)
    ensures StatementsIn(Texts(statements)) == statements
  {
    hide ReadStatement, Legible, Statement.Text;
    if statements != [] {
      StatementReadsBack(statements[0]);
      TextsReadBack(statements[1..]);
      assert statements == [statements[0]] + statements[1..];
    }
  }

  lemma Comment(rest: string)
    ensures ReadStatement(INDENT + "# " + rest) == None
  {
    var line := INDENT + "# " + rest;
    assert line[8..] == "#" + [' '] + rest;
    UntilStops("#", ' ', rest);
  }

  lemma OtherWord(first: string, rest: string)
    requires Ident(first) && rest != "" && rest[0] != '-' && rest[0] != '='
    ensures ReadStatement(INDENT + first + " " + rest) == None
  {
    hide ReadArrow, ReadElement;
    FirstWord(first, rest);
  }

  lemma TwoLines(a: string, b: string)
    requires ReadStatement(a) == ReadStatement(b) == None
    ensures StatementsIn([a, b]) == []
  {
    hide ReadStatement;
    assert [a, b][1..] == [b] && [b][1..] == [];
    assert StatementsIn([b]) == [];
  }

  lemma Unindented(line: string)
    requires |line| < 8 || line[0] != ' ' || line[4] != ' '
    ensures ReadStatement(line) == None
  {
    assert INDENT[0] == ' ' && INDENT[4] == ' ';
  }

  lemma HeadingsAreNoStatements()
    ensures StatementsIn(DSL_HEAD) == []
    ensures StatementsIn(SYNC_HEADING) == StatementsIn(PRODUCER_HEADING) == StatementsIn(CONSUMER_HEADING) == []
  {
    hide ReadStatement;
    Unindented("");
    Unindented(DSL_HEAD[0]);
    Unindented(DSL_HEAD[1]);
    TwoLines(DSL_HEAD[0], DSL_HEAD[1]);
    assert SYNC_HEADING[1] == INDENT + "# " + ("sync dependencies " + "(/_info dependsOn)");
    Comment("sync dependencies " + "(/_info dependsOn)");
    TwoLines("", SYNC_HEADING[1]);
    assert PRODUCER_HEADING[1] == INDENT + "# " + ("async event producers " + "(→ loganne)");
    Comment("async event producers " + "(→ loganne)");
    TwoLines("", PRODUCER_HEADING[1]);
    assert CONSUMER_HEADING[1] == INDENT + "# " + ("async event subscriptions " + "(loganne → consumers)");
    Comment("async event subscriptions " + "(loganne → consumers)");
    TwoLines("", CONSUMER_HEADING[1]);
  }

  lemma FootIsNoStatement()
    ensures StatementsIn(DSL_FOOT) == []
  {
    hide ReadStatement;
    var f := DSL_FOOT;
    Unindented(f[0]);
    Unindented(f[1]);
    Landscape();
    OtherWord("theme", "default");
    Unindented(f[4]);
    Unindented(f[5]);
    TwoLines(f[0], f[1]);
    TwoLines(f[2], f[3]);
    TwoLines(f[4], f[5]);
    assert f == [f[0], f[1]] + [f[2], f[3]] + [f[4], f[5]];
    StatementsInSum([f[0], f[1]] + [f[2], f[3]], [f[4], f[5]]);
    StatementsInSum([f[0], f[1]], [f[2], f[3]]);
  }

  lemma Landscape()
    ensures ReadStatement(DSL_FOOT[2]) == None
  {
    hide ReadStatement;
    var rest := "\"estate\" " + "{ include * autolayout lr }";
    assert DSL_FOOT[2] == INDENT + "systemLandscape" + " " + rest;
    OtherWord("systemLandscape", rest);
  }

  // ---- The whole DSL comes back ----

  /** A name that needs no quotes. */
  predicate Plain(s: string) {
    ' ' !in s && '"' !in s && '\n' !in s && '#' !in s && '%' !in s && '[' !in s
  }

  /** A text that fits into quotes on one line. */
  predicate Quotable(s: string) {
    '"' !in s && '\n' !in s
  }

  /** IDs are plain; domains, kinds and events fit into quotes. */
  predicate Printable(m: Model) {
    && (forall x :: x in m.systems ==> Plain(x.id) && Quotable(x.domain))
    && (forall x :: x in m.elements ==> Plain(x.id) && Quotable(x.kind))
    && (forall e :: e in m.syncEdges ==> Plain(e.from) && Plain(e.to))
    && (forall e :: e in m.producerEdges ==> Plain(e.source) && Quotable(e.event))
    && (forall e :: e in m.asyncEdges ==> Plain(e.consumer) && Quotable(e.event))
  }

  lemma IdentIsPlain(name: string)
    requires Plain(name)
    ensures Plain(DslIdent(name)) && Ident(DslIdent(name))
  {
    forall c | c in DslIdent(name) && c != '_' ensures c in name {
      var i :| 0 <= i < |name| && DslIdent(name)[i] == c;
      assert name[i] == c;
    }
    assert DslIdent(name) == "#" ==> '#' in DslIdent(name);
  }

  /** Legible, and on one line. */
  predicate Shown(r: Statement) {
    Legible(r) && '\n' !in r.Text()
  }

  lemma ShownRelation(from: string, to: string, text: string)
    requires Plain(from) && Plain(to) && Ident(from) && Quotable(text)
    ensures Shown(Relate(from, to, text))
  {
  }

  lemma ShownDeclaration(ident: string, keyword: string, name: string, note: Option<string>)
    requires Plain(ident) && Ident(ident) && Plain(keyword) && Quotable(name) && (note.Some? ==> Quotable(note.value))
    ensures Shown(Declare(ident, keyword, name, note))
  {
  }

  lemma Keywords()
    ensures Plain("person") && Plain("element")
  {
  }

  lemma SystemKeyword()
    ensures Plain("softwareSystem")
  {
  }

  lemma Labels()
    ensures Quotable("lucas42") && Quotable(SYNC_LABEL)
  {
  }

  lemma NoDomain()
    ensures Quotable("(no public domain)")
  {
  }

  lemma Names()
    ensures Plain(PERSON) && Ident(PERSON) && Plain(LOGANNE) && Ident(LOGANNE)
  {
  }

  lemma {:induction false} SystemsShown(systems: seq<System>)
    requires forall x :: x in systems ==> Plain(x.id) && Quotable(x.domain)
    ensures forall r :: r in SystemStatements(systems) ==> Shown(r)
  {
    hide Plain, Shown, DslIdent, Quotable;
    if systems != [] {
      var x := systems[0];
      assert systems == [x] + systems[1..];
      SystemsShown(systems[1..]);
      SystemKeyword();
      NoDomain();
      IdentIsPlain(x.id);
      PlainIsQuotable(x.id);
      ShownDeclaration(DslIdent(x.id), "softwareSystem", x.id, Some(if x.domain == "" then "(no public domain)" else x.domain));
    }
  }

  lemma PlainIsQuotable(s: string)
    requires Plain(s)
    ensures Quotable(s)
  {
  }

  lemma {:induction false} ElementsShown(elements: seq<ProducerElement>)
    requires forall x :: x in elements ==> Plain(x.id) && Quotable(x.kind)
    ensures forall r :: r in ElementStatements(elements) ==> Shown(r)
  {
    hide Plain, Shown, DslIdent;
    if elements != [] {
      var x := elements[0];
      assert elements == [x] + elements[1..];
      ElementsShown(elements[1..]);
      Keywords();
      IdentIsPlain(x.id);
      PlainIsQuotable(x.id);
      ShownDeclaration(DslIdent(x.id), "element", x.id, Some("configy " + x.kind + " (event producer)"));
    }
  }

  lemma {:induction false} SyncShown(edges: seq<SyncEdge>, known: set<string>)
    requires forall e :: e in edges ==> Plain(e.from) && Plain(e.to)
    ensures forall r :: r in SyncStatements(edges, known) ==> Shown(r)
  {
    hide Plain, Shown, DslIdent, Quotable;
    if edges != [] {
      var e := edges[0];
      assert edges == [e] + edges[1..];
      SyncShown(edges[1..], known);
      Labels();
      IdentIsPlain(e.from);
      IdentIsPlain(e.to);
      ShownRelation(DslIdent(e.from), DslIdent(e.to), SYNC_LABEL);
    }
  }

  lemma {:induction false} ProducersShown(edges: seq<ProducerEdge>)
    requires forall e :: e in edges ==> Plain(e.source) && Quotable(e.event)
    ensures forall r :: r in ProducerStatements(edges) ==> Shown(r)
  {
    hide Plain, Shown, DslIdent;
    if edges != [] {
      var e := edges[0];
      assert edges == [e] + edges[1..];
      ProducersShown(edges[1..]);
      Names();
      IdentIsPlain(e.source);
      ShownRelation(DslIdent(e.source), LOGANNE, "emits " + e.event);
    }
  }

  lemma {:induction false} AsyncShown(edges: seq<AsyncEdge>)
    requires forall e :: e in edges ==> Plain(e.consumer) && Quotable(e.event)
    ensures forall r :: r in AsyncStatements(edges) ==> Shown(r)
  {
    hide Plain, Shown, DslIdent, Quotable;
    if edges != [] {
      var e := edges[0];
      assert edges == [e] + edges[1..];
      AsyncShown(edges[1..]);
      Names();
      IdentIsPlain(e.consumer);
      ShownRelation(LOGANNE, DslIdent(e.consumer), e.event);
    }
  }

  ghost predicate OneLineEach(lines: seq<string>) {
    forall l :: l in lines ==> '\n' !in l
  }

  lemma {:induction false} TextsAreLines(statements: seq<Statement>)
    requires forall r :: r in statements ==> Shown(r)
    ensures OneLineEach(Texts(statements))
    ensures StatementsIn(Texts(statements)) == statements
  {
    hide Statement.Text, ReadStatement, Legible;
    TextsReadBack(statements);
    TextsOneLine(statements);
  }

  lemma {:induction false} TextsOneLine(statements: seq<Statement>)
    requires forall r :: r in statements ==> Shown(r)
    ensures OneLineEach(Texts(statements))
  {
    hide Statement.Text, Legible;
    if statements != [] {
      assert statements == [statements[0]] + statements[1..];
      TextsOneLine(statements[1..]);
      assert Shown(statements[0]);
      forall l | l in Texts(statements) ensures '\n' !in l {
        assert l == statements[0].Text() || l in Texts(statements[1..]);
      }
    }
  }

  lemma HeadingsAreLines()
    ensures OneLineEach(SYNC_HEADING) && OneLineEach(PRODUCER_HEADING) && OneLineEach(CONSUMER_HEADING)
  {
    assert '\n' !in SYNC_HEADING[0] && '\n' !in SYNC_HEADING[1];
    assert '\n' !in PRODUCER_HEADING[0] && '\n' !in PRODUCER_HEADING[1];
    assert '\n' !in CONSUMER_HEADING[0] && '\n' !in CONSUMER_HEADING[1];
  }

  lemma HeadIsLines()
    ensures OneLineEach(DSL_HEAD)
  {
    assert '\n' !in DSL_HEAD[0] && '\n' !in DSL_HEAD[1];
  }

  lemma FootIsLines()
    ensures OneLineEach(DSL_FOOT)
  {
    assert '\n' !in DSL_FOOT[0] && '\n' !in DSL_FOOT[1];
    assert '\n' !in DSL_FOOT[2];
    assert '\n' !in DSL_FOOT[3];
    assert '\n' !in DSL_FOOT[4] && '\n' !in DSL_FOOT[5];
  }

  lemma ReadPart(lines: seq<string>, heading: seq<string>, statements: seq<Statement>, read: seq<Statement>)
    requires OneLineEach(lines) && OneLineEach(heading) && OneLineEach(Texts(statements))
    requires StatementsIn(lines) == read && StatementsIn(heading) == [] && StatementsIn(Texts(statements)) == statements
    ensures var all := lines + (heading + Texts(statements)); OneLineEach(all) && StatementsIn(all) == read + statements
  {
    hide StatementsIn;
    StatementsInSum(lines, heading + Texts(statements));
    StatementsInSum(heading, Texts(statements));
    assert [] + statements == statements;
  }

  /** Reading model.dsl gives the declarations and then the relationships, in their order. */
  lemma DslReadsBack(m: Model)
    requires Printable(m)
    ensures ReadDsl(DslText(m)) == Declarations(m) + Relations(m)
  {
    hide Plain, Quotable, Shown, DslIdent, StatementsIn, OneLineEach, Unlines, Lines, Texts;
    AllShown(m);
    HeadingsAreNoStatements();
    FootIsNoStatement();
    HeadingsAreLines();
    HeadIsLines();
    FootIsLines();
    var sync, producers, consumers :=
      SyncStatements(m.syncEdges, IdSet(m.systems)), ProducerStatements(m.producerEdges), AsyncStatements(m.asyncEdges);
    TextsAreLines(Declarations(m));
    TextsAreLines(sync);
    TextsAreLines(producers);
    TextsAreLines(consumers);
    TextsAreLines([]);
    var part1 := DSL_HEAD + Texts(Declarations(m));
    var part2 := part1 + (SYNC_HEADING + Texts(sync));
    var part3 := part2 + (PRODUCER_HEADING + Texts(producers));
    var part4 := part3 + (CONSUMER_HEADING + Texts(consumers));
    NoTexts();
    ReadPart([], DSL_HEAD, Declarations(m), []);
    assert [] + part1 == part1;
    ReadPart(part1, SYNC_HEADING, sync, [] + Declarations(m));
    ReadPart(part2, PRODUCER_HEADING, producers, [] + Declarations(m) + sync);
    ReadPart(part3, CONSUMER_HEADING, consumers, [] + Declarations(m) + sync + producers);
    ReadPart(part4, DSL_FOOT, [], [] + Declarations(m) + sync + producers + consumers);
    assert DslLines(m) == part4 + (DSL_FOOT + Texts([]));
    LinesRead(DslLines(m));
    assert ReadDsl(DslText(m)) == [] + Declarations(m) + sync + producers + consumers + [];
  }

  lemma NoTexts()
    ensures Texts([]) == [] && StatementsIn([]) == [] && OneLineEach([])
  {
  }

  lemma LinesRead(lines: seq<string>)
    requires OneLineEach(lines)
    ensures ReadDsl(Unlines(lines)) == StatementsIn(lines)
  {
    hide ReadStatement, Lines, Unlines;
    LinesOfUnlines(lines);
    StatementsInSum(lines, [[]]);
    Unindented([]);
    var last: seq<string> := [[]];
    assert last[1..] == [] && StatementsIn(last) == [];
  }

  lemma AllShown(m: Model)
    requires Printable(m)
    ensures forall r :: r in Declarations(m) ==> Shown(r)
    ensures forall r :: r in SyncStatements(m.syncEdges, IdSet(m.systems)) ==> Shown(r)
    ensures forall r :: r in ProducerStatements(m.producerEdges) ==> Shown(r)
    ensures forall r :: r in AsyncStatements(m.asyncEdges) ==> Shown(r)
  {
    hide Plain, Quotable, Shown, DslIdent;
    SystemsShown(m.systems);
    ElementsShown(m.elements);
    SyncShown(m.syncEdges, IdSet(m.systems));
    ProducersShown(m.producerEdges);
    AsyncShown(m.asyncEdges);
    Keywords();
    Labels();
    Names();
    ShownDeclaration(PERSON, "person", "lucas42", None);
  }

  // ---- What the DSL shows ----

  lemma {:induction false} SyncStatementsExactly(edges: seq<SyncEdge>, known: set<string>, r: Statement)
    ensures r in SyncStatements(edges, known) <==>
      exists e :: e in edges && e.to in known && r == Relate(DslIdent(e.from), DslIdent(e.to), "depends on (sync)")
  {
    hide DslIdent;
    if edges != [] {
      SyncStatementsExactly(edges[1..], known, r);
      assert edges == [edges[0]] + edges[1..];
    }
  }

  lemma {:induction false} ProducerStatementsExactly(edges: seq<ProducerEdge>, r: Statement)
    ensures r in ProducerStatements(edges) <==>
      exists e :: e in edges && r == Relate(DslIdent(e.source), "lucos_loganne", "emits " + e.event)
  {
    hide DslIdent;
    if edges != [] {
      ProducerStatementsExactly(edges[1..], r);
      assert edges == [edges[0]] + edges[1..];
    }
  }

  lemma {:induction false} AsyncStatementsExactly(edges: seq<AsyncEdge>, r: Statement)
    ensures r in AsyncStatements(edges) <==>
      exists e :: e in edges && r == Relate("lucos_loganne", DslIdent(e.consumer), e.event)
  {
    hide DslIdent;
    if edges != [] {
      AsyncStatementsExactly(edges[1..], r);
      assert edges == [edges[0]] + edges[1..];
    }
  }

  lemma {:induction false} SystemStatementsExactly(systems: seq<System>, r: Statement)
    ensures r in SystemStatements(systems) <==>
      exists x :: x in systems &&
        r == Declare(DslIdent(x.id), "softwareSystem", x.id, Some(if x.domain == "" then "(no public domain)" else x.domain))
  {
    hide DslIdent;
    if systems != [] {
      SystemStatementsExactly(systems[1..], r);
      assert systems == [systems[0]] + systems[1..];
    }
  }

  lemma {:induction false} ElementStatementsExactly(elements: seq<ProducerElement>, r: Statement)
    ensures r in ElementStatements(elements) <==>
      exists x :: x in elements &&
        r == Declare(DslIdent(x.id), "element", x.id, Some("configy " + x.kind + " (event producer)"))
  {
    hide DslIdent;
    if elements != [] {
      ElementStatementsExactly(elements[1..], r);
      assert elements == [elements[0]] + elements[1..];
    }
  }

  /** An arrow a -> b of model.dsl is a dependency of a on b, where b is a system, an event that a emits to
      loganne, or one that loganne delivers to b; and each of these has its arrow. */
  lemma ArrowsExactly(m: Model, a: string, b: string, text: string)
    requires Printable(m)
    ensures Relate(a, b, text) in ReadDsl(DslText(m)) <==>
      || (text == "depends on (sync)" && exists e, x ::
            e in m.syncEdges && a == DslIdent(e.from) && b == DslIdent(e.to) && x in m.systems && x.id == e.to)
      || (b == "lucos_loganne" && exists e :: e in m.producerEdges && a == DslIdent(e.source) && text == "emits " + e.event)
      || (a == "lucos_loganne" && exists e :: e in m.asyncEdges && b == DslIdent(e.consumer) && text == e.event)
  {
    hide DslIdent, ReadDsl, DslText, Printable;
    var r := Relate(a, b, text);
    DslReadsBack(m);
    SyncStatementsExactly(m.syncEdges, IdSet(m.systems), r);
    ProducerStatementsExactly(m.producerEdges, r);
    AsyncStatementsExactly(m.asyncEdges, r);
    SystemStatementsExactly(m.systems, r);
    ElementStatementsExactly(m.elements, r);
  }

  /** What model.dsl declares: the person, every system with its domain, and every other producer with its
      kind, each under the identifier of its ID. */
  lemma DeclaredExactly(m: Model, ident: string, keyword: string, name: string, note: Option<string>)
    requires Printable(m)
    ensures Declare(ident, keyword, name, note) in ReadDsl(DslText(m)) <==>
      || (ident == "lucas" && keyword == "person" && name == "lucas42" && note == None)
      || (keyword == "softwareSystem" && ident == DslIdent(name)
          && exists x :: x in m.systems && x.id == name && note == Some(if x.domain == "" then "(no public domain)" else x.domain))
      || (keyword == "element" && ident == DslIdent(name)
          && exists x :: x in m.elements && x.id == name && note == Some("configy " + x.kind + " (event producer)"))
  {
    hide DslIdent, ReadDsl, DslText, Printable;
    var r := Declare(ident, keyword, name, note);
    DslReadsBack(m);
    SyncStatementsExactly(m.syncEdges, IdSet(m.systems), r);
    ProducerStatementsExactly(m.producerEdges, r);
    AsyncStatementsExactly(m.asyncEdges, r);
    SystemStatementsExactly(m.systems, r);
    ElementStatementsExactly(m.elements, r);
  }
}
