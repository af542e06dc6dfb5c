/** What the resolved theme is, in triples: for each role, token name and the stroke width, what
    the nearest theme on the `extends` chain says. Queries play no part here. */
module ThemeMeaning {
  import opened Rdf
  import opened ThemeGraph
  import opened ThemePrecedence

  const THEME := Iri("design:Theme")
  const RESOLVED_THEME := Iri("design:ResolvedTheme")
  const ACTIVE := Iri("design:active")
  const TRUE := Literal("true")
  const HAS_THEME := Iri("radio:hasTheme")
  const BINDS_ROLE := Iri("design:bindsRole")
  const ROLE := Iri("design:role")
  const TO := Iri("design:to")
  const RESOLVES_TO := Iri("design:resolvesTo")
  const HAS_TOKEN := Iri("design:hasToken")
  const NAME := Iri("design:name")
  const STROKE_WIDTH := Iri("design:strokeWidth")

  // ----- which theme is active -----

  /** The store as the resolver sees it: the default graph and the theme graph. */
  datatype Store = Store(defaults: Graph, themes: Graph)

  ghost predicate SomeSelected(s: Store) {
    exists x, t :: Triple(x, HAS_THEME, t) in s.defaults
  }

  /** The theme may be picked: a radio selected it, or none selected any and it is marked. */
  ghost predicate MayBePicked(s: Store, t: Term) {
    if SomeSelected(s) then exists x :: Triple(x, HAS_THEME, t) in s.defaults
    else Triple(t, RDF_TYPE, THEME) in s.themes && Triple(t, ACTIVE, TRUE) in s.themes
  }

  // ----- the nearest theme -----

  /** `th` is a theme of the chain that satisfies `has`, and none at fewer hops does. */
  ghost predicate NearestAt(g: Graph, active: Term, has: Sel, th: Term, n: nat) {
    Hops(g, active, th, n) && has(th) && forall m: nat, u | m < n && Hops(g, active, u, m) :: !has(u)
  }

  ghost predicate Nearest(g: Graph, active: Term, has: Sel, th: Term) {
    exists n: nat :: NearestAt(g, active, has, th, n)
  }

  /** Recursive inheritance takes the rows of the nearest theme that binds the key. */
  lemma InheritsFromNearest(g: Graph, active: Term, emits: Sel, binds: Sel)
    requires SingleInheritance(g) && forall a :: emits(a) ==> binds(a)
    ensures Inherits(g, active, emits, binds) <==> exists th :: Nearest(g, active, binds, th) && emits(th)
  {
    if n: nat :| InheritsWithin(g, active, emits, binds, n) {
      var th, k := InheritedIsNearest(g, active, emits, binds, n);
      assert Nearest(g, active, binds, th);
    }
    if th :| Nearest(g, active, binds, th) && emits(th) {
      var n: nat :| NearestAt(g, active, binds, th, n);
      NearestIsInherited(g, active, emits, binds, th, n);
    }
  }

  lemma {:induction false} InheritedIsNearest(g: Graph, theme: Term, emits: Sel, binds: Sel, n: nat)
    returns (th: Term, k: nat)
    requires SingleInheritance(g) && forall a :: emits(a) ==> binds(a)
    requires InheritsWithin(g, theme, emits, binds, n)
    ensures NearestAt(g, theme, binds, th, k) && emits(th)
    decreases n
  {
    if emits(theme) {
      th, k := theme, 0;
    } else {
      var p :| p in Parents(g, theme) && InheritsWithin(g, p, emits, binds, n - 1);
      var j;
      th, j := InheritedIsNearest(g, p, emits, binds, n - 1);
      NearestFromParent(g, theme, p, binds, th, j);
      k := j + 1;
    }
  }

  lemma NearestFromParent(g: Graph, theme: Term, p: Term, has: Sel, th: Term, k: nat)
    requires SingleInheritance(g) && p in Parents(g, theme) && !has(theme)
    ensures NearestAt(g, theme, has, th, k + 1) <==> NearestAt(g, p, has, th, k)
  {
    forall m: nat, u ensures Hops(g, theme, u, m + 1) <==> Hops(g, p, u, m) {
      HopsFromParent(g, theme, p, u, m);
    }
    if NearestAt(g, p, has, th, k) {
      forall m: nat, u | m < k + 1 && Hops(g, theme, u, m) ensures !has(u) {
        assert m > 0 ==> Hops(g, p, u, m - 1) by {
          if m > 0 { HopsFromParent(g, theme, p, u, m - 1); }
        }
      }
    }
    if NearestAt(g, theme, has, th, k + 1) {
      forall m: nat, u | m < k && Hops(g, p, u, m) ensures !has(u) {
        assert Hops(g, theme, u, m + 1);
      }
    }
  }

  lemma HopsFromParent(g: Graph, theme: Term, p: Term, u: Term, m: nat)
    requires SingleInheritance(g) && p in Parents(g, theme)
    ensures Hops(g, theme, u, m + 1) <==> Hops(g, p, u, m)
  {
    if Hops(g, theme, u, m + 1) {
      var c :| c in Parents(g, theme) && Hops(g, c, u, m);
    }
  }

  lemma {:induction false} NearestIsInherited(g: Graph, theme: Term, emits: Sel, binds: Sel, th: Term, n: nat)
    requires SingleInheritance(g) && emits(th) && NearestAt(g, theme, binds, th, n)
    ensures InheritsWithin(g, theme, emits, binds, n)
    decreases n
  {
    if n > 0 {
      var c :| c in Parents(g, theme) && Hops(g, c, th, n - 1);
      assert Hops(g, theme, theme, 0);
      NearestFromParent(g, theme, c, binds, th, n - 1);
      NearestIsInherited(g, c, emits, binds, th, n - 1);
    }
  }

  // ----- what a theme says -----

  /** A binding of the theme has the role. */
  ghost predicate BindsRole(g: Graph, th: Term, role: Term) {
    exists b :: Triple(th, BINDS_ROLE, b) in g && Triple(b, ROLE, role) in g
  }

  ghost function RoleBinders(g: Graph, role: Term): Sel {
    u => BindsRole(g, u, role)
  }

  /** A binding of the theme has the role and names the token. */
  ghost predicate RoleNames(g: Graph, th: Term, role: Term, token: Term) {
    exists b :: Triple(th, BINDS_ROLE, b) in g && Triple(b, ROLE, role) in g && Triple(b, TO, token) in g
  }

  predicate TokenNamed(g: Graph, th: Term, name: Term, token: Term) {
    Triple(th, HAS_TOKEN, token) in g && Triple(token, NAME, name) in g
  }

  ghost predicate HasTokenNamed(g: Graph, th: Term, name: Term) {
    exists token :: TokenNamed(g, th, name, token)
  }

  ghost function NameBinders(g: Graph, name: Term): Sel {
    u => HasTokenNamed(g, u, name)
  }

  ghost predicate HasStroke(g: Graph, th: Term) {
    exists w :: Triple(th, STROKE_WIDTH, w) in g
  }

  ghost function StrokeBinders(g: Graph): Sel {
    u => HasStroke(g, u)
  }

  // ----- what the active theme comes to -----

  ghost predicate RoleResolves(g: Graph, active: Term, role: Term, token: Term) {
    exists th :: Nearest(g, active, RoleBinders(g, role), th) && RoleNames(g, th, role, token)
  }

  ghost predicate TokenResolves(g: Graph, active: Term, name: Term, token: Term) {
    exists th :: Nearest(g, active, NameBinders(g, name), th) && TokenNamed(g, th, name, token)
  }

  ghost predicate StrokeResolves(g: Graph, active: Term, width: Term) {
    exists th :: Nearest(g, active, StrokeBinders(g), th) && Triple(th, STROKE_WIDTH, width) in g
  }

  /** The properties of a token that clients read: these fourteen. */
  predicate IsTokenProperty(p: Term) {
    || p == Iri("design:hex") || p == Iri("design:alpha") || p == Iri("design:name")
    || p == Iri("design:svgPath") || p == Iri("design:viewBox") || p == Iri("design:weight")
    || p == Iri("design:size") || p == Iri("design:lineHeight") || p == Iri("design:fill")
    || p == Iri("design:family") || p == Iri("design:px") || p == Iri("design:tracking")
    || p == Iri("design:case") || p == Iri("design:italic")
  }

  /** A property of the token, as the theme graph has it. */
  predicate Describes(g: Graph, t: Triple, token: Term) {
    t in g && t.s == token && IsTokenProperty(t.p)
  }

  /** What comes with a resolved role: the resolved theme's type, the role's token, and that
      token's properties. */
  predicate RoleGives(g: Graph, active: Term, role: Term, token: Term, t: Triple) {
    || t == Triple(active, RDF_TYPE, RESOLVED_THEME)
    || t == Triple(role, RESOLVES_TO, token)
    || Describes(g, t, token)
  }

  ghost predicate RoleTriple(g: Graph, active: Term, t: Triple) {
    exists role, token :: RoleResolves(g, active, role, token) && RoleGives(g, active, role, token, t)
  }

  /** What comes with a resolved token: the token and its properties. */
  predicate TokenGives(g: Graph, active: Term, token: Term, t: Triple) {
    t == Triple(active, HAS_TOKEN, token) || Describes(g, t, token)
  }

  ghost predicate TokenTriple(g: Graph, active: Term, t: Triple) {
    exists name, token :: TokenResolves(g, active, name, token) && TokenGives(g, active, token, t)
  }

  ghost predicate StrokeTriple(g: Graph, active: Term, t: Triple) {
    exists width :: StrokeResolves(g, active, width) && t == Triple(active, STROKE_WIDTH, width)
  }

  /** A triple of the flat theme; no triple has a literal subject. */
  ghost predicate FlatTriple(g: Graph, active: Term, t: Triple) {
    !t.s.Literal? && (RoleTriple(g, active, t) || TokenTriple(g, active, t) || StrokeTriple(g, active, t))
  }
}
