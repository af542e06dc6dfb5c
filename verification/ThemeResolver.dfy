/** The theme resolver: the three CONSTRUCT queries of `spin/theme_resolver.spin.ttl` over the
    theme graph, and their runner in `theme.rs`. */
module ThemeResolver {
  import opened Options
  import opened Rdf
  import opened ThemeGraph
  import opened ThemePrecedence
  import opened ThemeMeaning

  const TOKEN_PROPERTIES := {
    Iri("design:hex"), Iri("design:alpha"), NAME, Iri("design:svgPath"), Iri("design:viewBox"),
    Iri("design:weight"), Iri("design:size"), Iri("design:lineHeight"), Iri("design:fill"),
    Iri("design:family"), Iri("design:px"), Iri("design:tracking"), Iri("design:case"),
    Iri("design:italic")
  }

  // ----- the three queries -----

  datatype Kind = RoleBindings | HasToken | StrokeWidth

  const RESOLVER_QUERIES := [RoleBindings, HasToken, StrokeWidth]

  function TokenProperties(g: Graph, token: Term): set<Triple> {
    set t | t in g && t.s == token && t.p in TOKEN_PROPERTIES
  }

  /** What a template builds; a triple with a literal subject is not constructed. */
  function Built(ts: set<Triple>): set<Triple> {
    set t | t in ts && !t.s.Literal?
  }

  /** Two triples that join: the object of one is the subject of the other. */
  predicate Joined(x: Triple, p: Term, y: Triple, q: Term) {
    x.p == p && y.s == x.o && y.p == q
  }

  /** Query 1: for each role binding that names a token, the active theme's type, the role's
      token and that token's properties; the role overrides even when a binding names none. */
  function RoleQuery(g: Graph, active: Term): Query {
    Query(
      set x, y, z, t |
        x in g && y in g && z in g && Joined(x, BINDS_ROLE, y, ROLE) && z.s == x.o && z.p == TO &&
        t in Built({Triple(active, RDF_TYPE, RESOLVED_THEME), Triple(y.o, RESOLVES_TO, z.o)}
                   + TokenProperties(g, z.o)) :: Row(x.s, y.o, t),
      set x, y | x in g && y in g && Joined(x, BINDS_ROLE, y, ROLE) :: Binding(x.s, y.o))
  }

  /** Query 2: for each named token, the token and its properties; tokens of one name override
      each other. The name is itself one of the properties, so their join is never empty. */
  function TokenQuery(g: Graph, active: Term): Query {
    Query(
      set x, y, t |
        x in g && y in g && Joined(x, HAS_TOKEN, y, NAME) &&
        t in Built({Triple(active, HAS_TOKEN, x.o)} + TokenProperties(g, x.o)) :: Row(x.s, y.o, t),
      set x, y | x in g && y in g && Joined(x, HAS_TOKEN, y, NAME) :: Binding(x.s, y.o))
  }

  /** Query 3: the stroke width, one key for the whole theme. */
  function StrokeQuery(g: Graph, active: Term): Query {
    Query(
      set x, t | x in g && x.p == STROKE_WIDTH && t in Built({Triple(active, STROKE_WIDTH, x.o)}) ::
        Row(x.s, STROKE_WIDTH, t),
      set x | x in g && x.p == STROKE_WIDTH :: Binding(x.s, STROKE_WIDTH))
  }

  function QueryOf(k: Kind, g: Graph, active: Term): Query {
    match k
    case RoleBindings => RoleQuery(g, active)
    case HasToken => TokenQuery(g, active)
    case StrokeWidth => StrokeQuery(g, active)
  }

  /** In each query a row's own theme binds the row's key, as precedence requires. */
  lemma QueriesCoherent(k: Kind, g: Graph, active: Term)
    ensures Coherent(QueryOf(k, g, active))
  {
    match k
    case RoleBindings => RoleQueryCoherent(g, active);
    case HasToken => TokenQueryCoherent(g, active);
    case StrokeWidth =>
  }

  lemma RoleQueryCoherent(g: Graph, active: Term)
    ensures Coherent(RoleQuery(g, active))
  {
    var q := RoleQuery(g, active);
    forall r | r in q.rows ensures Binding(r.theme, r.key) in q.bindings {
      var x, y :| x in g && y in g && Joined(x, BINDS_ROLE, y, ROLE) && r.theme == x.s && r.key == y.o;
    }
  }

  lemma TokenQueryCoherent(g: Graph, active: Term)
    ensures Coherent(TokenQuery(g, active))
  {
    var q := TokenQuery(g, active);
    forall r | r in q.rows ensures Binding(r.theme, r.key) in q.bindings {
      var x, y :| x in g && y in g && Joined(x, HAS_TOKEN, y, NAME) && r.theme == x.s && r.key == y.o;
    }
  }

  // ----- the runner -----

  function Selected(s: Store): set<Term> {
    set x | x in s.defaults && x.p == HAS_THEME :: x.o
  }

  function MarkedActive(s: Store): set<Term> {
    set x | x in s.themes && x.p == RDF_TYPE && x.o == THEME && Triple(x.s, ACTIVE, TRUE) in s.themes :: x.s
  }

  /** The themes that may be picked, the radio's choice first: `LIMIT 1` does not say which. */
  function Candidates(s: Store): set<Term> {
    if Selected(s) != {} then Selected(s) else MarkedActive(s)
  }

  lemma CandidatesArePicked(s: Store, t: Term)
    ensures t in Candidates(s) <==> MayBePicked(s, t)
  {
    assert forall x | x in s.defaults && x.p == HAS_THEME :: Triple(x.s, HAS_THEME, x.o) in s.defaults;
    if MayBePicked(s, t) && SomeSelected(s) {
      var x :| Triple(x, HAS_THEME, t) in s.defaults;
      assert t in Selected(s);
    } else if MayBePicked(s, t) {
      assert t in MarkedActive(s);
    }
    if SomeSelected(s) {
      var x, u :| Triple(x, HAS_THEME, u) in s.defaults;
      assert u in Selected(s);
    }
  }

  /** A theme that a radio selected if any did, else one that is marked active. */
  method ActiveTheme(s: Store) returns (r: Option<Term>)
    ensures r == None <==> forall t :: !MayBePicked(s, t)
    ensures r.Some? ==> MayBePicked(s, r.value)
  {
    forall t ensures t in Candidates(s) <==> MayBePicked(s, t) {
      CandidatesArePicked(s, t);
    }
    if Selected(s) != {} {
      var t :| t in Selected(s);
      r := Some(t);
    } else if MarkedActive(s) != {} {
      var t :| t in MarkedActive(s);
      r := Some(t);
    } else {
      assert forall t :: t !in Candidates(s);
      r := None;
    }
    assert r.Some? ==> r.value in Candidates(s);
  }

  /** What resolving may give: nothing when no theme may be picked, else the three queries' answers
      for one that may and one walk up from it. */
  ghost predicate MayResolveTo(s: Store, out: set<Triple>) {
    if forall t :: !MayBePicked(s, t) then out == {}
    else
      exists active, chain ::
        MayBePicked(s, active) && IsWalk(s.themes, active, chain) && out == Answers(s.themes, active, chain, 3)
  }

  /** The flat theme: these triples and no others. */
  ghost predicate IsFlatTheme(g: Graph, active: Term, out: set<Triple>) {
    forall t :: t in out <==> FlatTriple(g, active, t)
  }

  /** On any theme graph the result is one of these; with single inheritance it is the flat theme
      of a theme that may be picked. */
  method ResolveActiveTheme(s: Store) returns (out: set<Triple>)
    ensures MayResolveTo(s, out)
    ensures (forall t :: !MayBePicked(s, t)) ==> out == {}
    ensures SingleInheritance(s.themes) && (exists t :: MayBePicked(s, t)) ==>
              exists active :: MayBePicked(s, active) && IsFlatTheme(s.themes, active, out)
  {
    out := {};
    var picked := ActiveTheme(s);
    if picked == None {
      return;
    }
    var active := picked.value;
    var chain := AncestorChain(s.themes, active);
    for i := 0 to |RESOLVER_QUERIES|
      invariant out == Answers(s.themes, active, chain, i)
    {
      out := out + Construct(QueryOf(RESOLVER_QUERIES[i], s.themes, active), chain);
    }
    if SingleInheritance(s.themes) {
      AnswersFlatten(s.themes, active, chain);
    }
  }

  /** The triples of the first `n` queries. */
  function Answers(g: Graph, active: Term, chain: seq<Term>, n: nat): set<Triple>
    requires n <= |RESOLVER_QUERIES|
  {
    if n == 0 then {}
    else Answers(g, active, chain, n - 1) + Construct(QueryOf(RESOLVER_QUERIES[n - 1], g, active), chain)
  }

  lemma AnswersFlatten(g: Graph, active: Term, chain: seq<Term>)
    requires SingleInheritance(g) && IsWalk(g, active, chain)
    ensures IsFlatTheme(g, active, Answers(g, active, chain, 3))
  {
    AnswersAre(g, active, chain);
    forall t ensures t in Answers(g, active, chain, 3) <==> FlatTriple(g, active, t) {
      RolesFlatten(g, active, chain, t);
      TokensFlatten(g, active, chain, t);
      StrokeFlattens(g, active, chain, t);
      OneOfThree(g, active, chain, t);
    }
  }

  lemma OneOfThree(g: Graph, active: Term, chain: seq<Term>, t: Triple)
    ensures (exists k :: t in Construct(QueryOf(k, g, active), chain)) <==>
            || t in Construct(RoleQuery(g, active), chain)
            || t in Construct(TokenQuery(g, active), chain)
            || t in Construct(StrokeQuery(g, active), chain)
  {
    assert QueryOf(RoleBindings, g, active) == RoleQuery(g, active);
    assert QueryOf(HasToken, g, active) == TokenQuery(g, active);
    assert QueryOf(StrokeWidth, g, active) == StrokeQuery(g, active);
  }

  /** A query's output in terms of the nearest theme for each key. */
  lemma ConstructFromNearest(q: Query, g: Graph, active: Term, chain: seq<Term>, t: Triple)
    requires Coherent(q) && SingleInheritance(g) && IsWalk(g, active, chain)
    ensures t in Construct(q, chain) <==>
            exists key, th :: Nearest(g, active, Binders(q, key), th) && Row(th, key, t) in q.rows
  {
    ConstructIsInheritance(q, g, active, chain, t);
    forall key
      ensures Inherits(g, active, Emitters(q, key, t), Binders(q, key)) <==>
              exists th :: Nearest(g, active, Binders(q, key), th) && Row(th, key, t) in q.rows
    {
      InheritsFromNearest(g, active, Emitters(q, key, t), Binders(q, key));
    }
  }

  /** The nearest theme depends only on which themes have the property. */
  lemma NearestSame(g: Graph, active: Term, a: Sel, b: Sel, th: Term)
    requires forall u :: a(u) <==> b(u)
    ensures Nearest(g, active, a, th) <==> Nearest(g, active, b, th)
  {
    forall n: nat ensures NearestAt(g, active, a, th, n) <==> NearestAt(g, active, b, th, n) {
    }
  }

  // The role query.

  lemma RoleGivesIff(g: Graph, active: Term, role: Term, token: Term, t: Triple)
    ensures t in Built({Triple(active, RDF_TYPE, RESOLVED_THEME), Triple(role, RESOLVES_TO, token)}
                       + TokenProperties(g, token))
       <==> !t.s.Literal? && RoleGives(g, active, role, token, t)
  {
  }

  lemma RoleRowGives(g: Graph, active: Term, th: Term, role: Term, t: Triple)
    requires Row(th, role, t) in RoleQuery(g, active).rows
    ensures !t.s.Literal? && exists token :: RoleNames(g, th, role, token) && RoleGives(g, active, role, token, t)
  {
    var x, y, z :| x in g && y in g && z in g && Joined(x, BINDS_ROLE, y, ROLE) && z.s == x.o && z.p == TO
                   && x.s == th && y.o == role
                   && t in Built({Triple(active, RDF_TYPE, RESOLVED_THEME), Triple(y.o, RESOLVES_TO, z.o)}
                                 + TokenProperties(g, z.o));
    RoleGivesIff(g, active, role, z.o, t);
    assert x == Triple(th, BINDS_ROLE, x.o) && y == Triple(x.o, ROLE, role) && z == Triple(x.o, TO, z.o);
    assert RoleNames(g, th, role, z.o);
  }

  lemma RoleGivesRow(g: Graph, active: Term, th: Term, role: Term, token: Term, t: Triple)
    requires !t.s.Literal? && RoleNames(g, th, role, token) && RoleGives(g, active, role, token, t)
    ensures Row(th, role, t) in RoleQuery(g, active).rows
  {
    var b :| Triple(th, BINDS_ROLE, b) in g && Triple(b, ROLE, role) in g && Triple(b, TO, token) in g;
    RoleGivesIff(g, active, role, token, t);
    assert Joined(Triple(th, BINDS_ROLE, b), BINDS_ROLE, Triple(b, ROLE, role), ROLE);
  }

  lemma RoleRowIff(g: Graph, active: Term, th: Term, role: Term, t: Triple)
    ensures Row(th, role, t) in RoleQuery(g, active).rows <==>
            !t.s.Literal? && exists token :: RoleNames(g, th, role, token) && RoleGives(g, active, role, token, t)
  {
    if Row(th, role, t) in RoleQuery(g, active).rows {
      RoleRowGives(g, active, th, role, t);
    }
    if token :| RoleNames(g, th, role, token) && RoleGives(g, active, role, token, t) && !t.s.Literal? {
      RoleGivesRow(g, active, th, role, token, t);
    }
  }

  lemma RoleBindingIff(g: Graph, active: Term, th: Term, role: Term)
    ensures Binding(th, role) in RoleQuery(g, active).bindings <==> BindsRole(g, th, role)
  {
    if Binding(th, role) in RoleQuery(g, active).bindings {
      var x, y :| x in g && y in g && Joined(x, BINDS_ROLE, y, ROLE) && x.s == th && y.o == role;
      assert x == Triple(th, BINDS_ROLE, x.o) && y == Triple(x.o, ROLE, role);
    }
    if b :| Triple(th, BINDS_ROLE, b) in g && Triple(b, ROLE, role) in g {
      assert Joined(Triple(th, BINDS_ROLE, b), BINDS_ROLE, Triple(b, ROLE, role), ROLE);
    }
  }

  lemma RoleNearest(g: Graph, active: Term, role: Term, th: Term)
    ensures Nearest(g, active, Binders(RoleQuery(g, active), role), th)
       <==> Nearest(g, active, RoleBinders(g, role), th)
  {
    forall u { RoleBindingIff(g, active, u, role); }
    NearestSame(g, active, Binders(RoleQuery(g, active), role), RoleBinders(g, role), th);
  }

  lemma RolesFlatten(g: Graph, active: Term, chain: seq<Term>, t: Triple)
    requires SingleInheritance(g) && IsWalk(g, active, chain)
    ensures t in Construct(RoleQuery(g, active), chain) <==> !t.s.Literal? && RoleTriple(g, active, t)
  {
    RoleQueryCoherent(g, active);
    ConstructFromNearest(RoleQuery(g, active), g, active, chain, t);
    forall role, th
      ensures Nearest(g, active, Binders(RoleQuery(g, active), role), th)
              && Row(th, role, t) in RoleQuery(g, active).rows
         <==> Nearest(g, active, RoleBinders(g, role), th)
              && !t.s.Literal? && exists token :: RoleNames(g, th, role, token) && RoleGives(g, active, role, token, t)
    {
      RoleNearest(g, active, role, th);
      RoleRowIff(g, active, th, role, t);
    }
    RoleTripleIff(g, active, t);
  }

  lemma RoleTripleIff(g: Graph, active: Term, t: Triple)
    ensures RoleTriple(g, active, t) <==>
            exists role, th ::
              && Nearest(g, active, RoleBinders(g, role), th)
              && exists token :: RoleNames(g, th, role, token) && RoleGives(g, active, role, token, t)
  {
  }

  // The token query.

  lemma TokenRowIff(g: Graph, active: Term, th: Term, name: Term, t: Triple)
    ensures Row(th, name, t) in TokenQuery(g, active).rows <==>
            && !t.s.Literal?
            && exists token ::
                 TokenNamed(g, th, name, token) && TokenGives(g, active, token, t)
  {
    forall token
      ensures t in Built({Triple(active, HAS_TOKEN, token)} + TokenProperties(g, token))
         <==> !t.s.Literal? && TokenGives(g, active, token, t)
    {
    }
    if Row(th, name, t) in TokenQuery(g, active).rows {
      var x, y :| x in g && y in g && Joined(x, HAS_TOKEN, y, NAME) && x.s == th && y.o == name
                  && t in Built({Triple(active, HAS_TOKEN, x.o)} + TokenProperties(g, x.o));
      assert x == Triple(th, HAS_TOKEN, x.o) && y == Triple(x.o, NAME, name);
      assert TokenNamed(g, th, name, x.o);
    }
    if token :| TokenNamed(g, th, name, token) && !t.s.Literal?
                && TokenGives(g, active, token, t) {
      assert Joined(Triple(th, HAS_TOKEN, token), HAS_TOKEN, Triple(token, NAME, name), NAME);
    }
  }

  lemma TokenBindingIff(g: Graph, active: Term, th: Term, name: Term)
    ensures Binding(th, name) in TokenQuery(g, active).bindings <==> HasTokenNamed(g, th, name)
  {
    if Binding(th, name) in TokenQuery(g, active).bindings {
      var x, y :| x in g && y in g && Joined(x, HAS_TOKEN, y, NAME) && x.s == th && y.o == name;
      assert x == Triple(th, HAS_TOKEN, x.o) && y == Triple(x.o, NAME, name);
      assert TokenNamed(g, th, name, x.o);
    }
    if token :| TokenNamed(g, th, name, token) {
      assert Joined(Triple(th, HAS_TOKEN, token), HAS_TOKEN, Triple(token, NAME, name), NAME);
    }
  }

  lemma TokenNearest(g: Graph, active: Term, name: Term, th: Term)
    ensures Nearest(g, active, Binders(TokenQuery(g, active), name), th)
       <==> Nearest(g, active, NameBinders(g, name), th)
  {
    forall u { TokenBindingIff(g, active, u, name); }
    NearestSame(g, active, Binders(TokenQuery(g, active), name), NameBinders(g, name), th);
  }

  lemma TokensFlatten(g: Graph, active: Term, chain: seq<Term>, t: Triple)
    requires SingleInheritance(g) && IsWalk(g, active, chain)
    ensures t in Construct(TokenQuery(g, active), chain) <==> !t.s.Literal? && TokenTriple(g, active, t)
  {
    TokenQueryCoherent(g, active);
    ConstructFromNearest(TokenQuery(g, active), g, active, chain, t);
    forall name, th
      ensures Nearest(g, active, Binders(TokenQuery(g, active), name), th)
              && Row(th, name, t) in TokenQuery(g, active).rows
         <==> && Nearest(g, active, NameBinders(g, name), th)
              && !t.s.Literal?
              && exists token ::
                   TokenNamed(g, th, name, token) && TokenGives(g, active, token, t)
    {
      TokenNearest(g, active, name, th);
      TokenRowIff(g, active, th, name, t);
    }
    TokenTripleIff(g, active, t);
  }

  lemma TokenTripleIff(g: Graph, active: Term, t: Triple)
    ensures TokenTriple(g, active, t) <==>
            exists name, th ::
              && Nearest(g, active, NameBinders(g, name), th)
              && exists token ::
                   TokenNamed(g, th, name, token) && TokenGives(g, active, token, t)
  {
    if name, token :| TokenResolves(g, active, name, token) && TokenGives(g, active, token, t) {
      var th :| Nearest(g, active, NameBinders(g, name), th) && TokenNamed(g, th, name, token);
    }
    if name, th :| && Nearest(g, active, NameBinders(g, name), th)
                   && exists token :: TokenNamed(g, th, name, token) && TokenGives(g, active, token, t) {
      var token :| TokenNamed(g, th, name, token) && TokenGives(g, active, token, t);
      assert TokenResolves(g, active, name, token);
    }
  }

  // The stroke query.

  lemma StrokeRowIff(g: Graph, active: Term, th: Term, key: Term, t: Triple)
    ensures Row(th, key, t) in StrokeQuery(g, active).rows <==>
            && !t.s.Literal? && key == STROKE_WIDTH
            && exists width :: Triple(th, STROKE_WIDTH, width) in g && t == Triple(active, STROKE_WIDTH, width)
    ensures Binding(th, key) in StrokeQuery(g, active).bindings <==> key == STROKE_WIDTH && HasStroke(g, th)
  {
    assert forall x | x in g && x.p == STROKE_WIDTH :: x == Triple(x.s, STROKE_WIDTH, x.o);
  }

  lemma StrokeFlattens(g: Graph, active: Term, chain: seq<Term>, t: Triple)
    requires SingleInheritance(g) && IsWalk(g, active, chain)
    ensures t in Construct(StrokeQuery(g, active), chain) <==> !t.s.Literal? && StrokeTriple(g, active, t)
  {
    QueriesCoherent(StrokeWidth, g, active);
    ConstructFromNearest(StrokeQuery(g, active), g, active, chain, t);
    forall key, th { StrokeRowIff(g, active, th, key, t); }
    forall th
      ensures Nearest(g, active, Binders(StrokeQuery(g, active), STROKE_WIDTH), th)
         <==> Nearest(g, active, StrokeBinders(g), th)
    {
      NearestSame(g, active, Binders(StrokeQuery(g, active), STROKE_WIDTH), StrokeBinders(g), th);
    }
  }

  lemma AnswersAre(g: Graph, active: Term, chain: seq<Term>)
    ensures forall t :: t in Answers(g, active, chain, 3) <==>
              exists k :: t in Construct(QueryOf(k, g, active), chain)
  {
    assert Answers(g, active, chain, 1) == Construct(QueryOf(RoleBindings, g, active), chain);
    assert Answers(g, active, chain, 2)
        == Answers(g, active, chain, 1) + Construct(QueryOf(HasToken, g, active), chain);
    assert Answers(g, active, chain, 3)
        == Answers(g, active, chain, 2) + Construct(QueryOf(StrokeWidth, g, active), chain);
  }

  /** The claim behind the rewrite, for the three queries together: on an acyclic theme graph
      the depth-table queries return the triples the property-path queries returned. */
  lemma RewritePreservesOutput(g: Graph, active: Term, chain: seq<Term>, t: Triple)
    requires SingleInheritance(g) && IsWalk(g, active, chain) && Acyclic(g, active)
    ensures t in Answers(g, active, chain, 3) <==>
            exists k :: PathConstructs(QueryOf(k, g, active), g, active, t)
  {
    AnswersAre(g, active, chain);
    forall k
      ensures t in Construct(QueryOf(k, g, active), chain) <==> PathConstructs(QueryOf(k, g, active), g, active, t)
    {
      QueriesCoherent(k, g, active);
      ConstructIsPathQuery(QueryOf(k, g, active), g, active, chain, t);
    }
  }

  /** Some query has a row with this triple that wins off the cycle. */
  predicate WonOffCycle(g: Graph, active: Term, chain: seq<Term>, t: Triple) {
    exists k: Kind :: WonBy(QueryOf(k, g, active), g, chain, t)
  }

  predicate WonBy(q: Query, g: Graph, chain: seq<Term>, t: Triple) {
    exists r :: r in q.rows && r.t == t && WinsOffCycle(q, g, chain, r)
  }

  /** What the three property-path queries construct together. */
  ghost predicate PathOutput(g: Graph, active: Term, t: Triple) {
    exists k: Kind :: PathConstructs(QueryOf(k, g, active), g, active, t)
  }

  /** The claim behind the rewrite, on every single-inheritance graph: the output is the same if
      and only if every triple of it is won off the cycle, by some query. */
  lemma RewriteOutputIff(g: Graph, active: Term, chain: seq<Term>)
    requires SingleInheritance(g) && IsWalk(g, active, chain)
    ensures (forall t :: t in Answers(g, active, chain, 3) <==> PathOutput(g, active, t)) <==>
            forall t | t in Answers(g, active, chain, 3) :: WonOffCycle(g, active, chain, t)
  {
    forall t ensures PathOutput(g, active, t) <==> WonOffCycle(g, active, chain, t) {
      PathOutputIff(g, active, chain, t);
    }
    forall t | WonOffCycle(g, active, chain, t) ensures t in Answers(g, active, chain, 3) {
      WonIsAnswer(g, active, chain, t);
    }
  }

  lemma PathOutputIff(g: Graph, active: Term, chain: seq<Term>, t: Triple)
    requires SingleInheritance(g) && IsWalk(g, active, chain)
    ensures PathOutput(g, active, t) <==> WonOffCycle(g, active, chain, t)
  {
    forall k: Kind
      ensures PathConstructs(QueryOf(k, g, active), g, active, t) <==> WonBy(QueryOf(k, g, active), g, chain, t)
    {
      QueriesCoherent(k, g, active);
      PathConstructsIff(QueryOf(k, g, active), g, active, chain, t);
    }
  }

  lemma WonIsAnswer(g: Graph, active: Term, chain: seq<Term>, t: Triple)
    requires WonOffCycle(g, active, chain, t)
    ensures t in Answers(g, active, chain, 3)
  {
    AnswersAre(g, active, chain);
    var k: Kind :| WonBy(QueryOf(k, g, active), g, chain, t);
    WonIsConstructed(QueryOf(k, g, active), g, chain, t);
  }

  lemma WonIsConstructed(q: Query, g: Graph, chain: seq<Term>, t: Triple)
    requires WonBy(q, g, chain, t)
    ensures t in Construct(q, chain)
  {
    var r :| r in q.rows && r.t == t && WinsOffCycle(q, g, chain, r);
    assert Wins(q, chain, r);
  }

  /** The smallest theme graph on which the output differs: a theme that extends itself loses its
      stroke width to the property paths, and keeps it by depth. */
  lemma SelfExtendingStrokeWidth(iri: string, width: Term)
    ensures var theme := Iri(iri);
            var g := {Triple(theme, EXTENDS, theme), Triple(theme, STROKE_WIDTH, width)};
            var t := Triple(theme, STROKE_WIDTH, width);
            && SingleInheritance(g) && IsWalk(g, theme, [theme])
            && t in Answers(g, theme, [theme], 3) && !PathOutput(g, theme, t)
  {
    var theme := Iri(iri);
    var x, t := Triple(theme, EXTENDS, theme), Triple(theme, STROKE_WIDTH, width);
    var g := {x, t};
    assert x in g && t in g;
    assert Parents(g, theme) == {theme};
    StrokeAnswered(g, iri, width);
    PathOutputIff(g, theme, [theme], t);
  }

  lemma StrokeAnswered(g: Graph, iri: string, width: Term)
    requires Triple(Iri(iri), STROKE_WIDTH, width) in g
    ensures Triple(Iri(iri), STROKE_WIDTH, width) in Answers(g, Iri(iri), [Iri(iri)], 3)
  {
    var theme, t := Iri(iri), Triple(Iri(iri), STROKE_WIDTH, width);
    var q, r := StrokeQuery(g, theme), Row(theme, STROKE_WIDTH, t);
    assert t in Built({Triple(theme, STROKE_WIDTH, t.o)});
    assert r in q.rows && WinsAt(q, [theme], r, 0);
    assert t in Construct(QueryOf(StrokeWidth, g, theme), [theme]);
    AnswersAre(g, theme, [theme]);
  }
}
