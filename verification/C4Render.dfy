/** The two rendered forms of the model, as lists of statements, and their referential closure. */
module C4Render {
  import opened C4Producers
  import opened C4Webhooks
  import opened C4Model
  import opened Text
  import opened Wrappers

  /** A DSL statement: an element's declaration or a relationship. */
  datatype Statement =
    | Declare(ident: string, keyword: string, name: string, note: Option<string>)
    | Relate(from: string, to: string, text: string)
  {
    /** Its line of the text. */
    function Text(): string {
      match this
      case Declare(ident, keyword, name, None) => INDENT + ident + " = " + keyword + " \"" + name + "\""
      case Declare(ident, keyword, name, Some(note)) =>
        INDENT + ident + " = " + keyword + " \"" + name + "\" \"" + note + "\""
      case Relate(from, to, text) => INDENT + from + " -> " + to + " \"" + text + "\""
    }
  }

  /** A Mermaid line: a node, or a link with its event (none for a sync dependency). */
  datatype Line =
    | Node(ident: string, name: string)
    | Link(source: string, target: string, event: Option<string>)
  {
    function Text(): string {
      match this
      case Node(ident, name) => "  " + ident + "[\"" + name + "\"]"
      case Link(source, target, None) => "  " + source + " --> " + target
      case Link(source, target, Some(event)) => "  " + source + " -." + event + ".-> " + target
    }
  }

  const SYNC_LABEL: string := "depends on (sync)"
  const PERSON: string := "lucas"
  const PERSON_DECLARED: Statement := Declare(PERSON, "person", "lucas42", None)

  // The fixed lines. Long ones are put together from short pieces, which the verifier can look into.
  const INDENT: string := "        "
  const DSL_HEAD: seq<string> :=
    ["workspace \"lucOS estate\" " + "\"Generated C4 model — " + "DO NOT EDIT BY HAND\" {", "    model {"]
  const SYNC_HEADING: seq<string> := ["", INDENT + "# " + "sync dependencies " + "(/_info dependsOn)"]
  const PRODUCER_HEADING: seq<string> := ["", INDENT + "# " + "async event producers " + "(→ loganne)"]
  const CONSUMER_HEADING: seq<string> := ["", INDENT + "# " + "async event subscriptions " + "(loganne → consumers)"]
  const DSL_FOOT: seq<string> :=
    ["    }", "    views {", INDENT + "systemLandscape" + " " + "\"estate\" " + "{ include * autolayout lr }",
     INDENT + "theme" + " " + "default", "    }", "}"]

  // ---- The DSL ----

  function SystemStatements(systems: seq<System>): seq<Statement> {
    if systems == [] then []
    else
      var note := if systems[0].domain == "" then "(no public domain)" else systems[0].domain;
      [Declare(DslIdent(systems[0].id), "softwareSystem", systems[0].id, Some(note))] + SystemStatements(systems[1..])
  }

  function ElementStatements(elements: seq<ProducerElement>): seq<Statement> {
    if elements == [] then []
    else
      [Declare(DslIdent(elements[0].id), "element", elements[0].id, Some("configy " + elements[0].kind + " (event producer)"))]
      + ElementStatements(elements[1..])
  }

  function SyncStatements(edges: seq<SyncEdge>, known: set<string>): seq<Statement> {
    if edges == [] then []
    else
      (if edges[0].to in known then [Relate(DslIdent(edges[0].from), DslIdent(edges[0].to), SYNC_LABEL)] else [])
      + SyncStatements(edges[1..], known)
  }

  function ProducerStatements(edges: seq<ProducerEdge>): seq<Statement> {
    if edges == [] then []
    else [Relate(DslIdent(edges[0].source), LOGANNE, "emits " + edges[0].event)] + ProducerStatements(edges[1..])
  }

  function AsyncStatements(edges: seq<AsyncEdge>): seq<Statement> {
    if edges == [] then []
    else [Relate(LOGANNE, DslIdent(edges[0].consumer), edges[0].event)] + AsyncStatements(edges[1..])
  }

  function Declarations(m: Model): seq<Statement> {
    [PERSON_DECLARED] + SystemStatements(m.systems) + ElementStatements(m.elements)
  }

  function Relations(m: Model): seq<Statement> {
    SyncStatements(m.syncEdges, IdSet(m.systems)) + ProducerStatements(m.producerEdges) + AsyncStatements(m.asyncEdges)
  }

  function Texts(statements: seq<Statement>): seq<string> {
    if statements == [] then [] else [statements[0].Text()] + Texts(statements[1..])
  }

  /** The lines of model.dsl. */
  function DslLines(m: Model): seq<string> {
    DSL_HEAD + Texts(Declarations(m))
    + (SYNC_HEADING + Texts(SyncStatements(m.syncEdges, IdSet(m.systems))))
    + (PRODUCER_HEADING + Texts(ProducerStatements(m.producerEdges)))
    + (CONSUMER_HEADING + Texts(AsyncStatements(m.asyncEdges)))
    + DSL_FOOT
  }

  /** The whole text of model.dsl. */
  function DslText(m: Model): string {
    Unlines(DslLines(m))
  }

  /** The statements and their text, section by section. */
  method GenerateDsl(m: Model) returns (dsl: seq<Statement>, text: string)
    ensures dsl == Declarations(m) + Relations(m)
    ensures text == DslText(m)
  {
    hide DslIdent, Texts, Unlines;
    var declared := DeclareAll(m.systems, m.elements);
    text := Write(Unlines(DSL_HEAD), DSL_HEAD, declared);
    var drawn := DrawSync(m.syncEdges, IdSet(m.systems));
    text := Section(text, DSL_HEAD + Texts(declared), SYNC_HEADING, drawn);
    ghost var upToSync := DSL_HEAD + Texts(declared) + (SYNC_HEADING + Texts(drawn));
    var producers, consumers := DrawEvents(m.producerEdges, m.asyncEdges);
    text := Section(text, upToSync, PRODUCER_HEADING, producers);
    text := Section(text, upToSync + (PRODUCER_HEADING + Texts(producers)), CONSUMER_HEADING, consumers);
    text := Append(text, upToSync + (PRODUCER_HEADING + Texts(producers)) + (CONSUMER_HEADING + Texts(consumers)), DSL_FOOT);
    dsl := declared + (drawn + producers + consumers);
  }

  method Append(before: string, ghost written: seq<string>, lines: seq<string>) returns (text: string)
    requires before == Unlines(written)
    ensures text == Unlines(written + lines)
  {
    text := before + Unlines(lines);
    UnlinesOfSum(written, lines);
  }

  /** A heading and the statements under it. */
  method Section(before: string, ghost written: seq<string>, heading: seq<string>, statements: seq<Statement>) returns (text: string)
    requires before == Unlines(written)
    ensures text == Unlines(written + (heading + Texts(statements)))
  {
    hide Unlines, Texts;
    text := Append(before, written, heading);
    text := Write(text, written + heading, statements);
    assert written + heading + Texts(statements) == written + (heading + Texts(statements));
  }

  method Write(before: string, ghost written: seq<string>, statements: seq<Statement>) returns (text: string)
    requires before == Unlines(written)
    ensures text == Unlines(written + Texts(statements))
  {
    hide Statement.Text, Unlines;
    text := before;
    ghost var lines := written;
    for i := 0 to |statements|
      invariant text == Unlines(lines) && written + Texts(statements) == lines + Texts(statements[i..])
    {
      assert statements[i..][1..] == statements[i + 1..];
      UnlinesOfOneMore(lines, statements[i].Text());
      text := text + statements[i].Text() + "\n";
      lines := lines + [statements[i].Text()];
    }
    assert written + Texts(statements) == lines + [] == lines;
  }

  method DeclareAll(systems: seq<System>, elements: seq<ProducerElement>) returns (out: seq<Statement>)
    ensures out == [PERSON_DECLARED] + SystemStatements(systems) + ElementStatements(elements)
  {
    hide DslIdent;
    out := [PERSON_DECLARED];
    ghost var all := out + SystemStatements(systems);
    for i := 0 to |systems|
      invariant all == out + SystemStatements(systems[i..])
    {
      assert systems[i..][1..] == systems[i + 1..];
      var note := if systems[i].domain == "" then "(no public domain)" else systems[i].domain;
      out := out + [Declare(DslIdent(systems[i].id), "softwareSystem", systems[i].id, Some(note))];
    }
    for i := 0 to |elements|
      invariant all + ElementStatements(elements) == out + ElementStatements(elements[i..])
    {
      assert elements[i..][1..] == elements[i + 1..];
      out := out + [Declare(DslIdent(elements[i].id), "element", elements[i].id, Some("configy " + elements[i].kind + " (event producer)"))];
    }
  }

  method DrawSync(edges: seq<SyncEdge>, known: set<string>) returns (out: seq<Statement>)
    ensures out == SyncStatements(edges, known)
  {
    hide DslIdent;
    out := [];
    for i := 0 to |edges|
      invariant SyncStatements(edges, known) == out + SyncStatements(edges[i..], known)
    {
      assert edges[i..][1..] == edges[i + 1..];
      if edges[i].to in known {
        out := out + [Relate(DslIdent(edges[i].from), DslIdent(edges[i].to), SYNC_LABEL)];
      }
    }
  }

  method DrawEvents(producers: seq<ProducerEdge>, consumers: seq<AsyncEdge>)
    returns (emitted: seq<Statement>, delivered: seq<Statement>)
    ensures emitted == ProducerStatements(producers) && delivered == AsyncStatements(consumers)
  {
    hide DslIdent;
    emitted, delivered := [], [];
    for i := 0 to |producers|
      invariant ProducerStatements(producers) == emitted + ProducerStatements(producers[i..])
    {
      assert producers[i..][1..] == producers[i + 1..];
      emitted := emitted + [Relate(DslIdent(producers[i].source), LOGANNE, "emits " + producers[i].event)];
    }
    for i := 0 to |consumers|
      invariant AsyncStatements(consumers) == delivered + AsyncStatements(consumers[i..])
    {
      assert consumers[i..][1..] == consumers[i + 1..];
      delivered := delivered + [Relate(LOGANNE, DslIdent(consumers[i].consumer), consumers[i].event)];
    }
  }

  // ---- Closure of the DSL ----

  /** How many declarations give this identifier. */
  function Declared(statements: seq<Statement>, ident: string): nat {
    if statements == [] then 0
    else (if statements[0].Declare? && statements[0].ident == ident then 1 else 0) + Declared(statements[1..], ident)
  }

  /** Every endpoint of every relationship is declared exactly once. */
  ghost predicate Closed(dsl: seq<Statement>) {
    forall r :: r in dsl && r.Relate? ==> Declared(dsl, r.from) == 1 && Declared(dsl, r.to) == 1
  }

  /** The names that occur at an end of a drawn relationship. */
  function Drawn(m: Model): set<string> {
    (set e | e in m.syncEdges && e.to in IdSet(m.systems) :: e.from)
    + (set e | e in m.syncEdges && e.to in IdSet(m.systems) :: e.to)
    + (set e | e in m.producerEdges :: e.source)
    + (set e | e in m.asyncEdges :: e.consumer)
    + if m.producerEdges != [] || m.asyncEdges != [] then {LOGANNE} else {}
  }

  /** The names that get an identifier of their own. */
  function Named(m: Model): seq<string> {
    [PERSON] + SystemIds(m.systems) + ElementNames(m.elements)
  }

  function ElementNames(elements: seq<ProducerElement>): seq<string> {
    if elements == [] then [] else [elements[0].id] + ElementNames(elements[1..])
  }

  function Sharing(names: seq<string>, ident: string): nat {
    if names == [] then 0 else (if DslIdent(names[0]) == ident then 1 else 0) + Sharing(names[1..], ident)
  }

  function Ends(statements: seq<Statement>): set<string> {
    if statements == [] then {}
    else (if statements[0].Relate? then {statements[0].from, statements[0].to} else {}) + Ends(statements[1..])
  }

  function Idents(names: set<string>): set<string> {
    set n | n in names :: DslIdent(n)
  }

  lemma {:induction false} EndsOfSum(a: seq<Statement>, b: seq<Statement>)
    ensures Ends(a + b) == Ends(a) + Ends(b)
  {
    if a == [] {
      assert a + b == b;
    } else {
      EndsOfSum(a[1..], b);
      assert (a + b)[1..] == a[1..] + b;
    }
  }

  function SyncNames(edges: seq<SyncEdge>, known: set<string>): set<string> {
    (set e | e in edges && e.to in known :: e.from) + (set e | e in edges && e.to in known :: e.to)
  }

  lemma IdentsOfSum(a: set<string>, b: set<string>)
    ensures Idents(a + b) == Idents(a) + Idents(b)
  {
    hide DslIdent;
  }

  lemma SyncNamesStep(edges: seq<SyncEdge>, known: set<string>)
    requires edges != []
    ensures SyncNames(edges, known) ==
      SyncNames(edges[1..], known) + if edges[0].to in known then {edges[0].from, edges[0].to} else {}
  {
    assert edges == [edges[0]] + edges[1..];
  }

  lemma {:induction false} SyncEnds(edges: seq<SyncEdge>, known: set<string>)
    ensures Ends(SyncStatements(edges, known)) == Idents(SyncNames(edges, known))
  {
    hide DslIdent, SyncNames;
    if edges == [] {
      assert SyncNames(edges, known) == {} by { NoSyncNames(known); }
    } else {
      var head := if edges[0].to in known then [Relate(DslIdent(edges[0].from), DslIdent(edges[0].to), SYNC_LABEL)] else [];
      SyncEnds(edges[1..], known);
      SyncNamesStep(edges, known);
      EndsOfSum(head, SyncStatements(edges[1..], known));
      if edges[0].to in known {
        IdentsOfSum(SyncNames(edges[1..], known), {edges[0].from, edges[0].to});
        assert Idents({edges[0].from, edges[0].to}) == {DslIdent(edges[0].from), DslIdent(edges[0].to)} == Ends(head);
      }
    }
  }

  lemma NoSyncNames(known: set<string>)
    ensures SyncNames([], known) == {}
  {
  }

  function ProducerNames(edges: seq<ProducerEdge>): set<string> {
    (set e | e in edges :: e.source) + if edges != [] then {LOGANNE} else {}
  }

  function AsyncNames(edges: seq<AsyncEdge>): set<string> {
    (set e | e in edges :: e.consumer) + if edges != [] then {LOGANNE} else {}
  }

  lemma LoganneIdent()
    ensures DslIdent(LOGANNE) == LOGANNE && DslIdent(PERSON) == PERSON
  {
  }

  lemma {:induction false} ProducerEnds(edges: seq<ProducerEdge>)
    ensures Ends(ProducerStatements(edges)) == Idents(ProducerNames(edges))
  {
    LoganneIdent();
    hide DslIdent;
    if edges != [] {
      ProducerEnds(edges[1..]);
      assert edges == [edges[0]] + edges[1..];
      assert ProducerNames(edges) == ProducerNames(edges[1..]) + {edges[0].source, LOGANNE};
      assert Idents(ProducerNames(edges)) == Idents(ProducerNames(edges[1..])) + {DslIdent(edges[0].source), LOGANNE};
    }
  }

  lemma {:induction false} AsyncEnds(edges: seq<AsyncEdge>)
    ensures Ends(AsyncStatements(edges)) == Idents(AsyncNames(edges))
  {
    LoganneIdent();
    hide DslIdent;
    if edges != [] {
      AsyncEnds(edges[1..]);
      assert edges == [edges[0]] + edges[1..];
      assert AsyncNames(edges) == AsyncNames(edges[1..]) + {edges[0].consumer, LOGANNE};
      assert Idents(AsyncNames(edges)) == Idents(AsyncNames(edges[1..])) + {DslIdent(edges[0].consumer), LOGANNE};
    }
  }

  /** The endpoints of the drawn relationships are the identifiers of the drawn names. */
  lemma RelationEnds(m: Model)
    ensures Ends(Relations(m)) == Idents(Drawn(m))
  {
    hide DslIdent, Ends;
    var known := IdSet(m.systems);
    SyncEnds(m.syncEdges, known);
    ProducerEnds(m.producerEdges);
    AsyncEnds(m.asyncEdges);
    EndsOfSum(SyncStatements(m.syncEdges, known) + ProducerStatements(m.producerEdges), AsyncStatements(m.asyncEdges));
    EndsOfSum(SyncStatements(m.syncEdges, known), ProducerStatements(m.producerEdges));
    assert Drawn(m) == SyncNames(m.syncEdges, known) + ProducerNames(m.producerEdges) + AsyncNames(m.asyncEdges);
  }

  lemma {:induction false} EndsAre(statements: seq<Statement>)
    ensures forall x :: x in Ends(statements) <==>
      exists r :: r in statements && r.Relate? && (r.from == x || r.to == x)
  {
    if statements != [] {
      EndsAre(statements[1..]);
      assert statements == [statements[0]] + statements[1..];
    }
  }

  lemma {:induction false} DeclaredOfSum(a: seq<Statement>, b: seq<Statement>, ident: string)
    ensures Declared(a + b, ident) == Declared(a, ident) + Declared(b, ident)
  {
    if a == [] {
      assert a + b == b;
    } else {
      DeclaredOfSum(a[1..], b, ident);
      assert (a + b)[1..] == a[1..] + b;
    }
  }

  lemma {:induction false} SharingOfSum(a: seq<string>, b: seq<string>, ident: string)
    ensures Sharing(a + b, ident) == Sharing(a, ident) + Sharing(b, ident)
  {
    hide DslIdent;
    if a == [] {
      assert a + b == b;
    } else {
      SharingOfSum(a[1..], b, ident);
      assert (a + b)[1..] == a[1..] + b;
    }
  }

  lemma {:induction false} SystemsDeclared(systems: seq<System>, ident: string)
    ensures Declared(SystemStatements(systems), ident) == Sharing(SystemIds(systems), ident)
  {
    hide DslIdent;
    if systems != [] {
      SystemsDeclared(systems[1..], ident);
    }
  }

  lemma {:induction false} ElementsDeclared(elements: seq<ProducerElement>, ident: string)
    ensures Declared(ElementStatements(elements), ident) == Sharing(ElementNames(elements), ident)
  {
    hide DslIdent;
    if elements != [] {
      ElementsDeclared(elements[1..], ident);
    }
  }

  lemma {:induction false} RelatesDeclareNothing(statements: seq<Statement>, ident: string)
    requires forall r :: r in statements ==> r.Relate?
    ensures Declared(statements, ident) == 0
  {
    if statements != [] {
      assert statements[0] in statements;
      RelatesDeclareNothing(statements[1..], ident);
    }
  }

  lemma {:induction false} SyncRelates(edges: seq<SyncEdge>, known: set<string>)
    ensures forall r :: r in SyncStatements(edges, known) ==> r.Relate?
  {
    if edges != [] {
      SyncRelates(edges[1..], known);
    }
  }

  lemma {:induction false} ProducerRelates(edges: seq<ProducerEdge>)
    ensures forall r :: r in ProducerStatements(edges) ==> r.Relate?
  {
    if edges != [] {
      ProducerRelates(edges[1..]);
    }
  }

  lemma {:induction false} AsyncRelates(edges: seq<AsyncEdge>)
    ensures forall r :: r in AsyncStatements(edges) ==> r.Relate?
  {
    if edges != [] {
      AsyncRelates(edges[1..]);
    }
  }

  /** An identifier is declared as often as named things share it. */
  lemma DeclaredCounts(m: Model, ident: string)
    ensures Declared(Declarations(m) + Relations(m), ident) == Sharing(Named(m), ident)
  {
    LoganneIdent();
    hide DslIdent;
    var person := [PERSON_DECLARED];
    DeclaredOfSum(Declarations(m), Relations(m), ident);
    SyncRelates(m.syncEdges, IdSet(m.systems));
    ProducerRelates(m.producerEdges);
    AsyncRelates(m.asyncEdges);
    RelatesDeclareNothing(Relations(m), ident);
    DeclaredOfSum(person + SystemStatements(m.systems), ElementStatements(m.elements), ident);
    DeclaredOfSum(person, SystemStatements(m.systems), ident);
    SystemsDeclared(m.systems, ident);
    ElementsDeclared(m.elements, ident);
    SharingOfSum([PERSON] + SystemIds(m.systems), ElementNames(m.elements), ident);
    SharingOfSum([PERSON], SystemIds(m.systems), ident);
    assert Declared(person, ident) == Sharing([PERSON], ident);
  }

  lemma {:induction false} SharingIsOne(names: seq<string>, ident: string)
    ensures Sharing(names, ident) >= 1 <==> exists n :: n in names && DslIdent(n) == ident
    ensures Sharing(names, ident) <= 1 <==>
      forall i, j :: 0 <= i < j < |names| ==> !(DslIdent(names[i]) == ident && DslIdent(names[j]) == ident)
  {
    hide DslIdent;
    if names != [] {
      var tail := names[1..];
      SharingIsOne(tail, ident);
      assert names == [names[0]] + tail;
      if DslIdent(names[0]) == ident {
        if exists n :: n in tail && DslIdent(n) == ident {
          var n :| n in tail && DslIdent(n) == ident;
          var j :| 0 <= j < |tail| && tail[j] == n;
          assert names[j + 1] == n;
        } else {
          forall i, j | 0 <= i < j < |names| ensures !(DslIdent(names[i]) == ident && DslIdent(names[j]) == ident) {
            assert names[j] == tail[j - 1] && names[j] in tail;
          }
        }
      } else {
        forall i, j | 0 <= i < j < |tail| ensures tail[i] == names[i + 1] && tail[j] == names[j + 1] {
        }
        forall i, j | 0 < i < j < |names| ensures names[i] == tail[i - 1] && names[j] == tail[j - 1] {
        }
      }
    }
  }

  lemma {:induction false} ElementNamesAre(elements: seq<ProducerElement>)
    ensures forall n :: n in ElementNames(elements) <==> n in ElementIds(elements)
  {
    if elements != [] {
      ElementNamesAre(elements[1..]);
      assert elements == [elements[0]] + elements[1..];
    }
  }

  /** Loganne's identifier is declared whenever an event edge is drawn. */
  ghost predicate LoganneDeclared(m: Model) {
    LOGANNE in Drawn(m) ==> exists n :: n in Named(m) && DslIdent(n) == LOGANNE
  }

  /** No drawn identifier is shared by two named things. */
  ghost predicate NoDrawnCollision(m: Model) {
    forall i, j :: 0 <= i < j < |Named(m)| && DslIdent(Named(m)[i]) == DslIdent(Named(m)[j]) ==>
      DslIdent(Named(m)[i]) !in Idents(Drawn(m))
  }

  lemma DrawnAreNamed(m: Model, n: string)
    requires Grounded(m) && n in Drawn(m) && n != LOGANNE
    ensures n in Named(m)
  {
    hide DslIdent;
    SystemIdsAre(m.systems);
    ElementNamesAre(m.elements);
    assert n in IdSet(m.systems) || n in ElementIds(m.elements);
  }

  /** Exactly when every endpoint of a drawn relationship is declared once. */
  lemma ClosedExactlyWhen(m: Model)
    requires Grounded(m)
    ensures Closed(Declarations(m) + Relations(m)) <==> LoganneDeclared(m) && NoDrawnCollision(m)
  {
    LoganneIdent();
    hide DslIdent, Grounded, Drawn, Named, Relations, Declarations;
    ClosedByIdent(m);
    if LoganneDeclared(m) && NoDrawnCollision(m) {
      forall x | x in Idents(Drawn(m)) ensures Sharing(Named(m), x) == 1 {
        SharingIsOne(Named(m), x);
        var n :| n in Drawn(m) && DslIdent(n) == x;
        if n != LOGANNE { DrawnAreNamed(m, n); }
      }
    }
    if forall x :: x in Idents(Drawn(m)) ==> Sharing(Named(m), x) == 1 {
      forall x | x in Idents(Drawn(m))
        ensures exists n :: n in Named(m) && DslIdent(n) == x
        ensures forall i, j :: 0 <= i < j < |Named(m)| ==> !(DslIdent(Named(m)[i]) == x && DslIdent(Named(m)[j]) == x)
      {
        SharingIsOne(Named(m), x);
      }
      assert LOGANNE in Drawn(m) ==> DslIdent(LOGANNE) in Idents(Drawn(m));
    }
  }

  lemma ClosedByIdent(m: Model)
    ensures Closed(Declarations(m) + Relations(m)) <==> forall x :: x in Idents(Drawn(m)) ==> Sharing(Named(m), x) == 1
  {
    hide DslIdent, Drawn, Named, Relations, Declarations, Ends, Sharing, Declared, Idents;
    var dsl := Declarations(m) + Relations(m);
    RelationEnds(m);
    DeclarationsRelateNothing(m);
    EndsOfSum(Declarations(m), Relations(m));
    EndsAre(dsl);
    forall x ensures Declared(dsl, x) == Sharing(Named(m), x) {
      DeclaredCounts(m, x);
    }
    if forall x :: x in Idents(Drawn(m)) ==> Sharing(Named(m), x) == 1 {
      forall r | r in dsl && r.Relate? ensures Declared(dsl, r.from) == 1 && Declared(dsl, r.to) == 1 {
        assert r.from in Ends(dsl) && r.to in Ends(dsl);
        assert Declared(dsl, r.from) == Sharing(Named(m), r.from);
        assert Declared(dsl, r.to) == Sharing(Named(m), r.to);
      }
    }
    if Closed(dsl) {
      forall x | x in Idents(Drawn(m)) ensures Sharing(Named(m), x) == 1 {
        var r :| r in dsl && r.Relate? && (r.from == x || r.to == x);
        assert Declared(dsl, x) == Sharing(Named(m), x);
      }
    }
  }

  lemma DeclarationsRelateNothing(m: Model)
    ensures Ends(Declarations(m)) == {}
  {
    hide DslIdent;
    var person := [PERSON_DECLARED];
    EndsOfSum(person + SystemStatements(m.systems), ElementStatements(m.elements));
    EndsOfSum(person, SystemStatements(m.systems));
    SystemStatementsRelateNothing(m.systems);
    ElementStatementsRelateNothing(m.elements);
  }

  lemma {:induction false} SystemStatementsRelateNothing(systems: seq<System>)
    ensures Ends(SystemStatements(systems)) == {}
  {
    if systems != [] { SystemStatementsRelateNothing(systems[1..]); }
  }

  lemma {:induction false} ElementStatementsRelateNothing(elements: seq<ProducerElement>)
    ensures Ends(ElementStatements(elements)) == {}
  {
    if elements != [] { ElementStatementsRelateNothing(elements[1..]); }
  }

  /** When loganne is a system and no two names share an identifier, the DSL is closed. */
  lemma DslIsClosed(s: Estate, m: Model)
    requires Assembled(s, m) && LOGANNE in IdSet(m.systems)
    requires forall i, j :: 0 <= i < j < |Named(m)| ==> DslIdent(Named(m)[i]) != DslIdent(Named(m)[j])
    ensures Closed(Declarations(m) + Relations(m))
  {
    hide Assembled, DslIdent, Drawn, Closed, Declarations, Relations;
    AssembledIsGrounded(s, m);
    ClosedExactlyWhen(m);
    LoganneIdent();
    SystemIdsAre(m.systems);
    assert LOGANNE in Named(m);
  }
}
