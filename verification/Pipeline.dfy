/** Pipeline replacement over a persistent store (`lib.rs`, `store.rs`), and the loading of
    script nodes from it (`dag.rs`). */
module Pipeline {
  import opened Options
  import opened Rdf

  const SCRIPT_NODE := Iri("antenna:ScriptNode")
  const SCRIPT_SOURCE := Iri("antenna:ScriptSource")
  const SOURCE := Iri("antenna:scriptSource")
  const BODY := Iri("antenna:body")
  const LANGUAGE := Iri("antenna:language")
  const IN := Iri("antenna:in")
  const OUT := Iri("antenna:out")
  const WHERE := Iri("antenna:where")

  const TRUSTED_GRAPH := "urn:resonator:trusted-pipeline"
  const THEME_GRAPH := "urn:design:theme"

  /** A Turtle document: its triples, or text that does not parse. */
  datatype Doc = Parsed(triples: Graph) | Malformed

  datatype State = State(defaults: Graph, named: map<string, Graph>)

  function Named(s: State, name: string): Graph {
    if name in s.named then s.named[name] else {}
  }

  predicate HasType(g: Graph, s: Term, ty: Term) {
    Triple(s, RDF_TYPE, ty) in g
  }

  /** `DELETE WHERE { ?s a ty ; ?p ?o }`. */
  function WithoutSubjectsOfType(g: Graph, ty: Term): Graph {
    set x | x in g && !HasType(g, x.s, ty)
  }

  /** Subjects that are script nodes or script sources. */
  predicate IsPipelineSubject(g: Graph, s: Term) {
    HasType(g, s, SCRIPT_NODE) || HasType(g, s, SCRIPT_SOURCE)
  }

  // ----- the store and its operations -----

  class RdfStore {
    var defaults: Graph
    var named: map<string, Graph>

    function Value(): State
      reads this
    {
      State(defaults, named)
    }

    method InsertTurtle(doc: Doc) returns (ok: bool)
      modifies this`defaults
      ensures ok == doc.Parsed?
      ensures defaults == old(defaults) + if ok then doc.triples else {}
      ensures Value() == Apply(old(Value()), Raw(doc))
    {
      if doc.Malformed? {
        return false;
      }
      defaults := defaults + doc.triples;
      ok := true;
    }

    method InsertTurtleToGraph(doc: Doc, graph: string) returns (ok: bool)
      modifies this`named
      ensures ok == doc.Parsed?
      ensures named == if ok then old(named)[graph := Named(old(Value()), graph) + doc.triples] else old(named)
      ensures graph == THEME_GRAPH ==> Value() == Apply(old(Value()), ThemeWrite(doc))
    {
      if doc.Malformed? {
        return false;
      }
      var before := if graph in named then named[graph] else {};
      named := named[graph := before + doc.triples];
      ok := true;
    }

    method ClearGraph(graph: string)
      modifies this`named
      ensures named == old(named)[graph := {}]
      ensures graph == THEME_GRAPH ==> Value() == Apply(old(Value()), ThemeClear)
    {
      named := named[graph := {}];
    }

    /** An update that deletes every triple of the subjects of a type. */
    method DeleteSubjectsOfType(ty: Term)
      modifies this`defaults
      ensures defaults == WithoutSubjectsOfType(old(defaults), ty)
    {
      defaults := WithoutSubjectsOfType(defaults, ty);
    }

    /** `replace_pipeline`: stops at the first step that fails. */
    method ReplacePipeline(doc: Doc) returns (ok: bool)
      modifies this
      ensures Value() == Apply(old(Value()), Replace(doc))
      ensures ok == doc.Parsed?
      ensures forall x :: x in defaults <==>
                || (x in old(defaults) && Triple(x.s, RDF_TYPE, SCRIPT_NODE) !in old(defaults)
                    && Triple(x.s, RDF_TYPE, SCRIPT_SOURCE) !in old(defaults))
                || (doc.Parsed? && x in doc.triples)
      ensures doc.Parsed? ==> TRUSTED_GRAPH in named && named[TRUSTED_GRAPH] == doc.triples
      ensures forall name | name in old(named) && (name != TRUSTED_GRAPH || doc.Malformed?) ::
                name in named && named[name] == old(named)[name]
      ensures forall name | name in named && (name != TRUSTED_GRAPH || doc.Malformed?) :: name in old(named)
    {
      DeleteSubjectsOfType(SCRIPT_NODE);
      DeleteSubjectsOfType(SCRIPT_SOURCE);
      BothDeletes(old(defaults));
      ok := InsertTurtle(doc);
      if !ok {
        return;
      }
      ClearGraph(TRUSTED_GRAPH);
      assert Named(Value(), TRUSTED_GRAPH) + doc.triples == doc.triples;
      ok := InsertTurtleToGraph(doc, TRUSTED_GRAPH);
      assert named == old(named)[TRUSTED_GRAPH := {}][TRUSTED_GRAPH := doc.triples];
    }
  }

  /** What is left of the default graph: triples of subjects that were neither nodes nor
      sources. Deleting first the nodes, then the sources, comes to the same. */
  function Kept(g: Graph): Graph {
    set x | x in g && !IsPipelineSubject(g, x.s)
  }

  lemma BothDeletes(g: Graph)
    ensures WithoutSubjectsOfType(WithoutSubjectsOfType(g, SCRIPT_NODE), SCRIPT_SOURCE) == Kept(g)
  {
    var g1 := WithoutSubjectsOfType(g, SCRIPT_NODE);
    forall x ensures x in WithoutSubjectsOfType(g1, SCRIPT_SOURCE) <==> x in Kept(g) {
      assert HasType(g1, x.s, SCRIPT_SOURCE) <==> HasType(g, x.s, SCRIPT_SOURCE) && !HasType(g, x.s, SCRIPT_NODE);
    }
  }

  // ----- runs -----

  /** What an update does to one graph: the triples it deletes there and those it inserts. */
  datatype Change = Change(deletes: Graph, inserts: Graph)

  /** What writes to the store: raw and peer data to the default graph, theme data to its own
      graph, pipeline replacement, and SPARQL updates, which may change any graph. */
  datatype Op =
    | Raw(doc: Doc)
    | ThemeWrite(doc: Doc)
    | ThemeClear
    | Replace(doc: Doc)
    | Update(defaults: Change, named: map<string, Change>)

  function Changed(g: Graph, c: Change): Graph {
    g - c.deletes + c.inserts
  }

  function ChangeOf(changes: map<string, Change>, name: string): Change {
    if name in changes then changes[name] else Change({}, {})
  }

  function Apply(s: State, op: Op): State {
    match op
    case Raw(doc) => if doc.Malformed? then s else s.(defaults := s.defaults + doc.triples)
    case ThemeWrite(doc) =>
      if doc.Malformed? then s
      else s.(named := s.named[THEME_GRAPH := Named(s, THEME_GRAPH) + doc.triples])
    case ThemeClear => s.(named := s.named[THEME_GRAPH := {}])
    case Replace(doc) =>
      if doc.Malformed? then s.(defaults := Kept(s.defaults))
      else State(Kept(s.defaults) + doc.triples, s.named[TRUSTED_GRAPH := doc.triples])
    case Update(defaults, named) =>
      State(Changed(s.defaults, defaults),
            map name | name in s.named.Keys + named.Keys :: Changed(Named(s, name), ChangeOf(named, name)))
  }

  function Run(s: State, ops: seq<Op>): State {
    if ops == [] then s else Apply(Run(s, ops[..|ops| - 1]), ops[|ops| - 1])
  }

  predicate Replaces(op: Op) {
    op.Replace? && op.doc.Parsed?
  }

  /** The number of operations up to and with the last successful replacement. */
  function ReplacedAt(ops: seq<Op>): (n: nat)
    ensures n <= |ops| && (n > 0 ==> Replaces(ops[n - 1]))
    ensures forall j | n <= j < |ops| :: !Replaces(ops[j])
  {
    if ops == [] then 0
    else if Replaces(ops[|ops| - 1]) then |ops|
    else ReplacedAt(ops[..|ops| - 1])
  }

  /** The last document that replaced the pipeline successfully. */
  function LastReplaced(ops: seq<Op>): Option<Graph> {
    var n := ReplacedAt(ops);
    if n == 0 then None else Some(ops[n - 1].doc.triples)
  }

  /** An operation takes no triple of `d` from the trusted graph and puts no other there. */
  predicate Spares(op: Op, d: Graph) {
    op.Update? ==>
      var c := ChangeOf(op.named, TRUSTED_GRAPH);
      (forall x | x in c.deletes && x in d :: x in c.inserts) && c.inserts <= d
  }

  function Trusted(s: State, ops: seq<Op>): Graph {
    Named(Run(s, ops), TRUSTED_GRAPH)
  }

  /** An operation other than a replacement keeps a trusted graph exactly when it spares it. */
  lemma KeepsTrustedIff(s: State, op: Op)
    requires !Replaces(op)
    ensures Named(Apply(s, op), TRUSTED_GRAPH) == Named(s, TRUSTED_GRAPH) <==> Spares(op, Named(s, TRUSTED_GRAPH))
  {
    if op.Update? {
      var d, c := Named(s, TRUSTED_GRAPH), ChangeOf(op.named, TRUSTED_GRAPH);
      assert Named(Apply(s, op), TRUSTED_GRAPH) == Changed(d, c);
      if Changed(d, c) == d {
        assert forall x | x in c.inserts :: x in Changed(d, c);
        assert forall x | x in c.deletes && x in d :: x in Changed(d, c);
      }
    }
  }

  /** The trusted graph has been `d` at every point since operation `n`. */
  ghost predicate HeldSince(s: State, ops: seq<Op>, n: nat, d: Graph) {
    forall j | n <= j <= |ops| :: Trusted(s, ops[..j]) == d
  }

  predicate SparedSince(ops: seq<Op>, n: nat, d: Graph) {
    forall j | n <= j < |ops| :: Spares(ops[j], d)
  }

  lemma HeldSnoc(s: State, ops: seq<Op>, n: nat, d: Graph)
    requires n < |ops|
    ensures HeldSince(s, ops, n, d) <==> HeldSince(s, ops[..|ops| - 1], n, d) && Trusted(s, ops) == d
  {
    var m := |ops| - 1;
    assert ops[..|ops|] == ops;
    assert forall j | 0 <= j <= m :: ops[..m][..j] == ops[..j];
  }

  lemma SparedSnoc(ops: seq<Op>, n: nat, d: Graph)
    requires n < |ops|
    ensures SparedSince(ops, n, d) <==> SparedSince(ops[..|ops| - 1], n, d) && Spares(ops[|ops| - 1], d)
  {
    assert forall j | 0 <= j < |ops| - 1 :: ops[..|ops| - 1][j] == ops[j];
  }

  lemma {:induction false} HeldIffSpared(s: State, ops: seq<Op>, n: nat, d: Graph)
    requires n <= |ops| && Trusted(s, ops[..n]) == d
    requires forall j | n <= j < |ops| :: !Replaces(ops[j])
    ensures HeldSince(s, ops, n, d) <==> SparedSince(ops, n, d)
  {
    if n < |ops| {
      var before, op := ops[..|ops| - 1], ops[|ops| - 1];
      assert before[..n] == ops[..n];
      HeldIffSpared(s, before, n, d);
      HeldSnoc(s, ops, n, d);
      SparedSnoc(ops, n, d);
      KeepsTrustedIff(Run(s, before), op);
      assert before[..|before|] == before;
    }
  }

  /** Over any run the trusted graph has been the last replaced document ever since, if and only
      if no update since then took one of its triples or added another. Inserts, theme writes
      and failed replacements cannot. */
  lemma TrustedIsLastReplacedIff(s: State, ops: seq<Op>)
    requires LastReplaced(ops).Some?
    ensures HeldSince(s, ops, ReplacedAt(ops), LastReplaced(ops).value)
       <==> SparedSince(ops, ReplacedAt(ops), LastReplaced(ops).value)
  {
    var n := ReplacedAt(ops);
    assert ops[..n][..n - 1] == ops[..n - 1];
    HeldIffSpared(s, ops, n, LastReplaced(ops).value);
  }

  /** Two histories of any length that agree on the last replaced document, and whose later
      updates spare it, load the same script nodes in a gated build: the document's. */
  lemma GatedLoaderForgetsPeers(s1: State, ops1: seq<Op>, s2: State, ops2: seq<Op>)
    requires LastReplaced(ops1).Some? && LastReplaced(ops1) == LastReplaced(ops2)
    requires SparedSince(ops1, ReplacedAt(ops1), LastReplaced(ops1).value)
    requires SparedSince(ops2, ReplacedAt(ops2), LastReplaced(ops2).value)
    ensures ScriptRows(Trusted(s1, ops1)) == ScriptRows(Trusted(s2, ops2)) == ScriptRows(LastReplaced(ops1).value)
  {
    TrustedIsLastReplacedIff(s1, ops1);
    TrustedIsLastReplacedIff(s2, ops2);
    assert ops1[..|ops1|] == ops1 && ops2[..|ops2|] == ops2;
  }

  // ----- the default graph after a replace -----

  /** Right after a replace: the pipeline subjects are the document's, and they carry nothing
      but the document's triples if and only if the store held, for subjects the document
      makes nodes or sources, no other triple while not knowing them as such. The deletes are
      by type, so only what was typed before is removed. */
  lemma OnlyNewTriplesIff(s: State, doc: Doc)
    requires doc.Parsed?
    ensures var g := Apply(s, Replace(doc)).defaults;
            && (forall t :: IsPipelineSubject(g, t) <==> IsPipelineSubject(doc.triples, t))
            && ((forall x | x in g && IsPipelineSubject(g, x.s) :: x in doc.triples)
                <==> forall x | x in s.defaults && IsPipelineSubject(doc.triples, x.s) ::
                       IsPipelineSubject(s.defaults, x.s) || x in doc.triples)
  {
    var kept, g := Kept(s.defaults), Apply(s, Replace(doc)).defaults;
    forall t ensures IsPipelineSubject(g, t) <==> IsPipelineSubject(doc.triples, t) {
      assert !IsPipelineSubject(kept, t);
    }
    assert forall x :: x in kept <==> x in s.defaults && !IsPipelineSubject(s.defaults, x.s);
  }

  /** A store where it fails: one stray channel of a node that is not yet typed survives. */
  lemma UntypedTripleSurvives()
    ensures var n, c := Iri("node"), Iri("clock");
            var stray := Triple(n, IN, c);
            var doc := Parsed({Triple(n, RDF_TYPE, SCRIPT_NODE)});
            var g := Apply(State({stray}, map[]), Replace(doc)).defaults;
            stray in g && IsPipelineSubject(g, n) && stray !in doc.triples
  {
    var n, c := Iri("node"), Iri("clock");
    var stray := Triple(n, IN, c);
    assert stray in Kept({stray});
  }

  // ----- loading script nodes -----

  /** One solution of the script-node query. */
  datatype Row = Row(node: Term, body: Term, language: Option<Term>,
                     input: Option<Term>, output: Option<Term>, clause: Option<Term>)

  /** `OPTIONAL { ?s p ?o }`: the objects, or one unbound solution. */
  function Optional(g: Graph, s: Term, p: Term): set<Option<Term>> {
    var found := set x | x in g && x.s == s && x.p == p :: Some(x.o);
    if found == {} then {None} else found
  }

  function ScriptRows(g: Graph): set<Row> {
    set x, y, z, r | x in g && y in g && z in g && IsScript(x, y, z) && r in RowsOf(g, x.s, y.o, z.o) :: r
  }

  /** The required part of the pattern: a typed node, its source, the source's body. */
  predicate IsScript(x: Triple, y: Triple, z: Triple) {
    && x.p == RDF_TYPE && x.o == SCRIPT_NODE
    && y.s == x.s && y.p == SOURCE
    && z.s == y.o && z.p == BODY
  }

  /** The solutions of one node, source and body: every combination of the optional parts. */
  function RowsOf(g: Graph, node: Term, src: Term, body: Term): set<Row> {
    set lang, i, o, w |
      lang in Optional(g, src, LANGUAGE) && i in Optional(g, node, IN) &&
      o in Optional(g, node, OUT) && w in Optional(g, node, WHERE) ::
      Row(node, body, lang, i, o, w)
  }

  /** An optional variable: bound to an object there is, or unbound where there is none. */
  ghost predicate OptionalIs(g: Graph, s: Term, p: Term, o: Option<Term>) {
    match o
    case Some(v) => Triple(s, p, v) in g
    case None => forall v :: Triple(s, p, v) !in g
  }

  lemma OptionalIff(g: Graph, s: Term, p: Term, o: Option<Term>)
    ensures o in Optional(g, s, p) <==> OptionalIs(g, s, p, o)
  {
    var found := set x | x in g && x.s == s && x.p == p :: Some(x.o);
    forall v ensures Some(v) in found <==> Triple(s, p, v) in g {
      assert Triple(s, p, v) in g ==> Some(v) in found;
    }
    assert None !in found;
    if found != {} {
      var f :| f in found;
      assert f.Some? && Triple(s, p, f.value) in g;
    }
  }

  /** The solution in triples: a typed node, its source, the source's body, and what is optional. */
  ghost predicate IsSolution(g: Graph, r: Row, src: Term) {
    && Triple(r.node, RDF_TYPE, SCRIPT_NODE) in g
    && Triple(r.node, SOURCE, src) in g
    && Triple(src, BODY, r.body) in g
    && OptionalIs(g, src, LANGUAGE, r.language)
    && OptionalIs(g, r.node, IN, r.input)
    && OptionalIs(g, r.node, OUT, r.output)
    && OptionalIs(g, r.node, WHERE, r.clause)
  }

  lemma RowIff(g: Graph, node: Term, src: Term, body: Term, r: Row)
    ensures r in RowsOf(g, node, src, body) <==>
            && r.node == node && r.body == body
            && OptionalIs(g, src, LANGUAGE, r.language) && OptionalIs(g, node, IN, r.input)
            && OptionalIs(g, node, OUT, r.output) && OptionalIs(g, node, WHERE, r.clause)
  {
    OptionalIff(g, src, LANGUAGE, r.language);
    OptionalIff(g, node, IN, r.input);
    OptionalIff(g, node, OUT, r.output);
    OptionalIff(g, node, WHERE, r.clause);
  }

  /** The rows of the query are exactly its solutions in the graph. */
  lemma RowsAreSolutions(g: Graph, r: Row)
    ensures r in ScriptRows(g) <==> exists src :: IsSolution(g, r, src)
  {
    if r in ScriptRows(g) {
      var x, y, z :| x in g && y in g && z in g && IsScript(x, y, z) && r in RowsOf(g, x.s, y.o, z.o);
      RowIff(g, x.s, y.o, z.o, r);
      assert x == Triple(r.node, RDF_TYPE, SCRIPT_NODE) && y == Triple(r.node, SOURCE, y.o);
      assert z == Triple(y.o, BODY, r.body);
      assert IsSolution(g, r, y.o);
    }
    if src :| IsSolution(g, r, src) {
      RowIff(g, r.node, src, r.body, r);
      assert IsScript(Triple(r.node, RDF_TYPE, SCRIPT_NODE), Triple(r.node, SOURCE, src), Triple(src, BODY, r.body));
    }
  }

  function TermText(t: Term): string {
    match t
    case Literal(lexical) => lexical
    case Iri(iri) => iri
    case Blank(id) => id
  }

  function OptionalText(t: Option<Term>): Option<string> {
    match t
    case Some(v) => Some(TermText(v))
    case None => None
  }

  datatype NodeDef = NodeDef(body: string, language: string, ins: seq<string>, outs: seq<string>,
                             clause: Option<string>)

  predicate NoDuplicates(s: seq<string>) {
    forall i, j | 0 <= i < j < |s| :: s[i] != s[j]
  }

  datatype Direction = In | Out

  function Channel(r: Row, d: Direction): Option<Term> {
    if d.In? then r.input else r.output
  }

  /** Row `r` belongs to node `uri` and binds a channel written `c`. */
  predicate BindsChannel(r: Row, d: Direction, uri: string, c: string) {
    TermText(r.node) == uri && OptionalText(Channel(r, d)) == Some(c)
  }

  ghost predicate RowsBind(rows: seq<Row>, d: Direction, uri: string, c: string) {
    exists r :: r in rows && BindsChannel(r, d, uri, c)
  }

  /** `list` holds, once each, the channels that the node's rows bind. */
  ghost predicate Collects(list: seq<string>, rows: seq<Row>, d: Direction, uri: string) {
    NoDuplicates(list) && forall c :: c in list <==> RowsBind(rows, d, uri, c)
  }

  /** The definition takes its body, language and clause from this row. */
  predicate FromRow(def: NodeDef, r: Row) {
    && def.body == TermText(r.body)
    && def.language == (if r.language.Some? then TermText(r.language.value) else "javascript")
    && def.clause == OptionalText(r.clause)
  }

  /** A node's definition is that of its first row, with the channels of all its rows. */
  ghost predicate DefOk(def: NodeDef, rows: seq<Row>, uri: string) {
    && Collects(def.ins, rows, In, uri)
    && Collects(def.outs, rows, Out, uri)
    && exists i :: 0 <= i < |rows| && IsFirstRow(rows, uri, i) && FromRow(def, rows[i])
  }

  predicate IsFirstRow(rows: seq<Row>, uri: string, i: nat)
    requires i < |rows|
  {
    TermText(rows[i].node) == uri && forall j | 0 <= j < i :: TermText(rows[j].node) != uri
  }

  /** Push a channel unless it is unbound or already there. */
  function AddChannel(list: seq<string>, ch: Option<Term>): seq<string> {
    if ch.Some? && TermText(ch.value) !in list then list + [TermText(ch.value)] else list
  }

  /** The map lists the nodes of the rows, each with its definition. */
  ghost predicate Folded(nodes: map<string, NodeDef>, rows: seq<Row>) {
    && nodes.Keys == NodeTexts(rows)
    && forall uri | uri in nodes :: DefOk(nodes[uri], rows, uri)
  }

  /** `query_script_nodes`' fold over the solutions, in whatever order they come. */
  method LoadNodes(rows: seq<Row>) returns (nodes: map<string, NodeDef>)
    ensures Folded(nodes, rows)
  {
    nodes := map[];
    for i := 0 to |rows|
      invariant Folded(nodes, rows[..i])
    {
      assert rows[..i + 1] == rows[..i] + [rows[i]];
      nodes := AddRow(nodes, rows[i], rows[..i]);
    }
    assert rows[..|rows|] == rows;
  }

  /** One solution: find or make the node's entry, and add the channels that are new to it. */
  method AddRow(nodes: map<string, NodeDef>, r: Row, ghost rows: seq<Row>)
    returns (nodes': map<string, NodeDef>)
    requires Folded(nodes, rows)
    ensures Folded(nodes', rows + [r])
  {
    var uri := TermText(r.node);
    var def := EntryFor(nodes, r);
    nodes' := nodes[uri := WithChannels(def, r)];
    EntryOk(nodes, rows, r);
    OthersOk(nodes, rows, r);
    NodeTextsSnoc(rows, r);
  }

  /** `or_insert_with`: a node's first row makes its entry. */
  function EntryFor(nodes: map<string, NodeDef>, r: Row): NodeDef {
    if TermText(r.node) in nodes then nodes[TermText(r.node)]
    else
      NodeDef(TermText(r.body),
              if r.language.Some? then TermText(r.language.value) else "javascript",
              [], [], OptionalText(r.clause))
  }

  function WithChannels(def: NodeDef, r: Row): NodeDef {
    def.(ins := AddChannel(def.ins, r.input), outs := AddChannel(def.outs, r.output))
  }

  lemma EntryOk(nodes: map<string, NodeDef>, rows: seq<Row>, r: Row)
    requires Folded(nodes, rows)
    ensures DefOk(WithChannels(EntryFor(nodes, r), r), rows + [r], TermText(r.node))
  {
    if TermText(r.node) in nodes {
      LaterRow(nodes[TermText(r.node)], rows, r);
    } else {
      forall x | x in rows ensures TermText(x.node) != TermText(r.node) {
        assert TermText(x.node) in NodeTexts(rows);
      }
      FirstRow(EntryFor(nodes, r), rows, r);
    }
  }

  lemma OthersOk(nodes: map<string, NodeDef>, rows: seq<Row>, r: Row)
    requires Folded(nodes, rows)
    ensures forall u | u in nodes && u != TermText(r.node) :: DefOk(nodes[u], rows + [r], u)
  {
    forall u | u in nodes && u != TermText(r.node) ensures DefOk(nodes[u], rows + [r], u) {
      OtherRow(nodes[u], rows, r, u);
    }
  }

  function NodeTexts(rows: seq<Row>): set<string> {
    set r | r in rows :: TermText(r.node)
  }

  lemma NodeTextsSnoc(rows: seq<Row>, r: Row)
    ensures NodeTexts(rows + [r]) == NodeTexts(rows) + {TermText(r.node)}
  {
    assert r in rows + [r];
    assert forall x :: x in rows + [r] <==> x in rows || x == r;
  }

  lemma CollectsRow(list: seq<string>, rows: seq<Row>, r: Row, d: Direction, uri: string)
    requires Collects(list, rows, d, uri)
    ensures Collects(if TermText(r.node) == uri then AddChannel(list, Channel(r, d)) else list, rows + [r], d, uri)
  {
    var list' := if TermText(r.node) == uri then AddChannel(list, Channel(r, d)) else list;
    forall c
      ensures RowsBind(rows + [r], d, uri, c) <==> RowsBind(rows, d, uri, c) || BindsChannel(r, d, uri, c)
    {
      if BindsChannel(r, d, uri, c) { assert r in rows + [r]; }
    }
  }

  lemma LaterRow(def: NodeDef, rows: seq<Row>, r: Row)
    requires DefOk(def, rows, TermText(r.node))
    ensures DefOk(WithChannels(def, r), rows + [r], TermText(r.node))
  {
    var uri := TermText(r.node);
    CollectsRow(def.ins, rows, r, In, uri);
    CollectsRow(def.outs, rows, r, Out, uri);
    var i :| 0 <= i < |rows| && IsFirstRow(rows, uri, i) && FromRow(def, rows[i]);
    assert IsFirstRow(rows + [r], uri, i);
  }

  lemma FirstRow(def: NodeDef, rows: seq<Row>, r: Row)
    requires forall x | x in rows :: TermText(x.node) != TermText(r.node)
    requires FromRow(def, r) && def.ins == [] && def.outs == []
    ensures DefOk(WithChannels(def, r), rows + [r], TermText(r.node))
  {
    var uri := TermText(r.node);
    CollectsRow([], rows, r, In, uri);
    CollectsRow([], rows, r, Out, uri);
    assert IsFirstRow(rows + [r], uri, |rows|);
  }

  lemma OtherRow(def: NodeDef, rows: seq<Row>, r: Row, uri: string)
    requires DefOk(def, rows, uri) && TermText(r.node) != uri
    ensures DefOk(def, rows + [r], uri)
  {
    CollectsRow(def.ins, rows, r, In, uri);
    CollectsRow(def.outs, rows, r, Out, uri);
    var i :| 0 <= i < |rows| && IsFirstRow(rows, uri, i) && FromRow(def, rows[i]);
    assert IsFirstRow(rows + [r], uri, i);
  }

  /** A subject with all that the query asks of a script node. */
  predicate Loadable(g: Graph, n: Term) {
    exists r :: r in ScriptRows(g) && r.node == n
  }

  function ChannelProperty(d: Direction): Term {
    if d.In? then IN else OUT
  }

  /** The graph binds a channel written `c` to a script node written `uri`. */
  ghost predicate GraphBinds(g: Graph, d: Direction, uri: string, c: string) {
    exists n, ch ::
      && Loadable(g, n) && TermText(n) == uri
      && Triple(n, ChannelProperty(d), ch) in g && TermText(ch) == c
  }

  /** Over the solutions of the query, listed in any order and any number of times, the
      channels collected for a node are exactly those bound to it in the graph. */
  lemma ChannelsAreTheGraphs(g: Graph, rows: seq<Row>, list: seq<string>, d: Direction, uri: string)
    requires forall r :: r in rows <==> r in ScriptRows(g)
    requires Collects(list, rows, d, uri)
    ensures forall c :: c in list <==> GraphBinds(g, d, uri, c)
  {
    forall c ensures RowsBind(rows, d, uri, c) <==> GraphBinds(g, d, uri, c) {
      if RowsBind(rows, d, uri, c) {
        var r :| r in rows && BindsChannel(r, d, uri, c);
        RowToGraph(g, r, d, uri, c);
      }
      if GraphBinds(g, d, uri, c) {
        var r := GraphToRow(g, d, uri, c);
      }
    }
  }

  lemma RowToGraph(g: Graph, r: Row, d: Direction, uri: string, c: string)
    requires r in ScriptRows(g) && BindsChannel(r, d, uri, c)
    ensures GraphBinds(g, d, uri, c)
  {
    RowChannelInGraph(g, r, d);
    assert Loadable(g, r.node);
  }

  lemma GraphToRow(g: Graph, d: Direction, uri: string, c: string) returns (r: Row)
    requires GraphBinds(g, d, uri, c)
    ensures r in ScriptRows(g) && BindsChannel(r, d, uri, c)
  {
    var n, ch :| && Loadable(g, n) && TermText(n) == uri
                 && Triple(n, ChannelProperty(d), ch) in g && TermText(ch) == c;
    r := GraphChannelHasRow(g, n, d, ch);
  }

  lemma RowChannelInGraph(g: Graph, r: Row, d: Direction)
    requires r in ScriptRows(g)
    ensures Channel(r, d).Some? ==> Triple(r.node, ChannelProperty(d), Channel(r, d).value) in g
  {
    var x, y, z :| x in g && y in g && z in g && r in RowsOf(g, x.s, y.o, z.o);
  }

  lemma GraphChannelHasRow(g: Graph, n: Term, d: Direction, ch: Term) returns (r: Row)
    requires Loadable(g, n) && Triple(n, ChannelProperty(d), ch) in g
    ensures r in ScriptRows(g) && r.node == n && Channel(r, d) == Some(ch)
  {
    var some :| some in ScriptRows(g) && some.node == n;
    var x, y, z :| x in g && y in g && z in g && IsScript(x, y, z) && some in RowsOf(g, x.s, y.o, z.o);
    RowsAreOfNode(g, x.s, y.o, z.o, some);
    r := WithChannel(g, x.s, y.o, z.o, some, d, ch);
    InScriptRows(g, x, y, z, r);
  }

  lemma RowsAreOfNode(g: Graph, n: Term, src: Term, body: Term, r: Row)
    requires r in RowsOf(g, n, src, body)
    ensures r.node == n
  {
  }

  lemma InScriptRows(g: Graph, x: Triple, y: Triple, z: Triple, r: Row)
    requires x in g && y in g && z in g && IsScript(x, y, z) && r in RowsOf(g, x.s, y.o, z.o)
    ensures r in ScriptRows(g)
  {
  }

  lemma WithChannel(g: Graph, n: Term, src: Term, body: Term, some: Row, d: Direction, ch: Term)
    returns (r: Row)
    requires some in RowsOf(g, n, src, body) && Triple(n, ChannelProperty(d), ch) in g
    ensures r in RowsOf(g, n, src, body) && r.node == n && Channel(r, d) == Some(ch)
  {
    OptionalFinds(g, n, ChannelProperty(d), ch);
    r := if d.In? then some.(input := Some(ch)) else some.(output := Some(ch));
  }

  lemma OptionalFinds(g: Graph, s: Term, p: Term, o: Term)
    requires Triple(s, p, o) in g
    ensures Some(o) in Optional(g, s, p)
  {
    assert Triple(s, p, o).o == o;
  }
}
