/** Which theme's data wins along an `extends` chain, three ways: by depth in a table, by
    property paths, and by recursive inheritance. One key of one query is fixed: `emits(a)`
    says that theme `a` has the row in question, `binds(a)` that it binds the row's key. */
module ThemePrecedence {
  import opened Rdf
  import opened ThemeGraph

  type Sel = Term -> bool

  /** With the depth table: a row counts unless a theme at a smaller depth binds its key. */
  ghost predicate TableSelects(chain: seq<Term>, emits: Sel, binds: Sel) {
    exists i :: RowAtDepth(chain, emits, binds, i)
  }

  ghost predicate RowAtDepth(chain: seq<Term>, emits: Sel, binds: Sel, i: int) {
    0 <= i < |chain| && emits(chain[i]) && forall j | 0 <= j < i :: !binds(chain[j])
  }

  /** With property paths: an ancestor's row counts unless an ancestor from which it is reached
      by `extends+` binds its key. On a cycle that may be the ancestor itself. */
  ghost predicate PathSelects(g: Graph, active: Term, emits: Sel, binds: Sel) {
    exists a :: Star(g, active, a) && emits(a) && !Overridden(g, active, binds, a)
  }

  ghost predicate Overridden(g: Graph, active: Term, binds: Sel, a: Term) {
    exists md :: Star(g, active, md) && Plus(g, md, a) && binds(md)
  }

  /** By inheritance: a theme has its own rows, and its parent's for keys it does not bind. */
  ghost predicate Inherits(g: Graph, theme: Term, emits: Sel, binds: Sel) {
    exists n: nat :: InheritsWithin(g, theme, emits, binds, n)
  }

  ghost predicate InheritsWithin(g: Graph, theme: Term, emits: Sel, binds: Sel, n: nat)
    decreases n
  {
    || emits(theme)
    || (&& n > 0
        && !binds(theme)
        && exists p :: p in Parents(g, theme) && InheritsWithin(g, p, emits, binds, n - 1))
  }

  /** The recursion equation: resolve(child) is the child's own rows and the parent's, less
      those whose key the child overrides. */
  lemma InheritsEquation(g: Graph, theme: Term, emits: Sel, binds: Sel)
    ensures Inherits(g, theme, emits, binds)
       <==> || emits(theme)
            || (!binds(theme) && exists p :: p in Parents(g, theme) && Inherits(g, p, emits, binds))
  {
    if n: nat :| InheritsWithin(g, theme, emits, binds, n) {
      if !emits(theme) {
        var p :| p in Parents(g, theme) && InheritsWithin(g, p, emits, binds, n - 1);
        assert Inherits(g, p, emits, binds);
      }
    }
    if emits(theme) {
      assert InheritsWithin(g, theme, emits, binds, 0);
    } else if !binds(theme) {
      if p :| p in Parents(g, theme) && Inherits(g, p, emits, binds) {
        var n: nat :| InheritsWithin(g, p, emits, binds, n);
        assert InheritsWithin(g, theme, emits, binds, n + 1);
      }
    }
  }

  // ----- the table is inheritance -----

  lemma {:induction false} RowIsInherited(g: Graph, active: Term, chain: seq<Term>, emits: Sel, binds: Sel,
                                          k: nat, i: nat)
    requires IsPath(g, active, chain) && k <= i && RowAtDepth(chain, emits, binds, i)
    ensures InheritsWithin(g, chain[k], emits, binds, i - k)
    decreases i - k
  {
    if k < i {
      RowIsInherited(g, active, chain, emits, binds, k + 1, i);
      assert chain[k + 1] in Parents(g, chain[k]);
    }
  }

  lemma {:induction false} InheritedIsRow(g: Graph, active: Term, chain: seq<Term>, emits: Sel, binds: Sel,
                                          k: nat, n: nat)
    requires SingleInheritance(g) && IsWalk(g, active, chain) && k < |chain|
    requires InheritsWithin(g, chain[k], emits, binds, n)
    requires forall j | 0 <= j < k :: !binds(chain[j])
    requires forall a :: emits(a) ==> binds(a)
    ensures TableSelects(chain, emits, binds)
    decreases n
  {
    if emits(chain[k]) {
      assert RowAtDepth(chain, emits, binds, k);
    } else {
      var p :| p in Parents(g, chain[k]) && InheritsWithin(g, p, emits, binds, n - 1);
      var m := ParentOnChain(g, active, chain, k, p);
      InheritedIsRow(g, active, chain, emits, binds, m, n - 1);
    }
  }

  /** On every single-inheritance graph, cyclic ones included, selecting by depth in the walk
      is recursive inheritance. */
  lemma TableIsInheritance(g: Graph, active: Term, chain: seq<Term>, emits: Sel, binds: Sel)
    requires SingleInheritance(g) && IsWalk(g, active, chain)
    requires forall a :: emits(a) ==> binds(a)
    ensures TableSelects(chain, emits, binds) <==> Inherits(g, active, emits, binds)
  {
    if i :| RowAtDepth(chain, emits, binds, i) {
      RowIsInherited(g, active, chain, emits, binds, 0, i);
    }
    if n: nat :| InheritsWithin(g, active, emits, binds, n) {
      InheritedIsRow(g, active, chain, emits, binds, 0, n);
    }
  }

  // ----- the table against property paths -----

  /** Position `i` of the walk lies on the cycle the walk runs into, if it runs into one. */
  ghost predicate OnCycle(g: Graph, chain: seq<Term>, i: int) {
    exists e: nat :: ReEntersAt(g, chain, e) && e <= i
  }

  /** Path overriding, by position: by an earlier theme, and on the cycle by any theme. */
  lemma OverriddenByPosition(g: Graph, active: Term, chain: seq<Term>, binds: Sel, i: nat)
    requires SingleInheritance(g) && IsWalk(g, active, chain) && i < |chain|
    ensures Overridden(g, active, binds, chain[i])
       <==> exists j :: 0 <= j < |chain| && (j < i || OnCycle(g, chain, i)) && binds(chain[j])
  {
    WalkIsShortest(g, active, chain);
    if md :| Star(g, active, md) && Plus(g, md, chain[i]) && binds(md) {
      var j :| 0 <= j < |chain| && chain[j] == md;
      PlusOnChain(g, active, chain, j, i);
    }
    if j :| 0 <= j < |chain| && (j < i || OnCycle(g, chain, i)) && binds(chain[j]) {
      PlusOnChain(g, active, chain, j, i);
      assert Star(g, active, chain[j]);
    }
  }

  /** A theme on the cycle that has the row is preceded on the walk by one that binds its key.
      Without a cycle this asks nothing. */
  ghost predicate CycleOverridden(g: Graph, chain: seq<Term>, emits: Sel, binds: Sel) {
    forall i | 0 <= i < |chain| && OnCycle(g, chain, i) && emits(chain[i]) ::
      exists j :: 0 <= j < i && binds(chain[j])
  }

  /** The table selects a row exactly when the property paths do, if and only if a cycle does
      not contribute it: on a cycle, a theme is its own `extends+` ancestor and so overrides
      itself. */
  lemma TableIsPathIff(g: Graph, active: Term, chain: seq<Term>, emits: Sel, binds: Sel)
    requires SingleInheritance(g) && IsWalk(g, active, chain)
    requires forall a :: emits(a) ==> binds(a)
    ensures (TableSelects(chain, emits, binds) <==> PathSelects(g, active, emits, binds))
       <==> CycleOverridden(g, chain, emits, binds)
  {
    if PathSelects(g, active, emits, binds) { PathImpliesTable(g, active, chain, emits, binds); }
    if i :| RowAtDepth(chain, emits, binds, i) {
      OverriddenByPosition(g, active, chain, binds, i);
      ChainHops(g, active, chain, 0, i);
      assert Star(g, active, chain[i]);
      if OnCycle(g, chain, i) {
        CycleRowLost(g, active, chain, emits, binds, i);
      } else {
        NoRowOnCycle(g, chain, emits, binds, i);
      }
    }
    if !CycleOverridden(g, chain, emits, binds) {
      var i :| 0 <= i < |chain| && OnCycle(g, chain, i) && emits(chain[i])
            && !exists j :: 0 <= j < i && binds(chain[j]);
      assert RowAtDepth(chain, emits, binds, i);
      CycleRowLost(g, active, chain, emits, binds, i);
    }
  }

  lemma PathImpliesTable(g: Graph, active: Term, chain: seq<Term>, emits: Sel, binds: Sel)
    requires SingleInheritance(g) && IsWalk(g, active, chain)
    requires PathSelects(g, active, emits, binds)
    ensures TableSelects(chain, emits, binds)
  {
    var a :| Star(g, active, a) && emits(a) && !Overridden(g, active, binds, a);
    WalkIsShortest(g, active, chain);
    var i :| 0 <= i < |chain| && chain[i] == a;
    OverriddenByPosition(g, active, chain, binds, i);
    assert RowAtDepth(chain, emits, binds, i);
  }

  lemma NoRowOnCycle(g: Graph, chain: seq<Term>, emits: Sel, binds: Sel, i: nat)
    requires RowAtDepth(chain, emits, binds, i) && !OnCycle(g, chain, i)
    requires forall a :: emits(a) ==> binds(a)
    ensures CycleOverridden(g, chain, emits, binds)
  {
    forall k | 0 <= k < |chain| && OnCycle(g, chain, k) && emits(chain[k])
      ensures exists j :: 0 <= j < k && binds(chain[j])
    {
      assert i < k && binds(chain[i]);
    }
  }

  lemma CycleRowLost(g: Graph, active: Term, chain: seq<Term>, emits: Sel, binds: Sel, i: nat)
    requires SingleInheritance(g) && IsWalk(g, active, chain)
    requires RowAtDepth(chain, emits, binds, i) && OnCycle(g, chain, i)
    requires forall a :: emits(a) ==> binds(a)
    ensures !PathSelects(g, active, emits, binds)
    ensures !CycleOverridden(g, chain, emits, binds)
  {
    WalkIsShortest(g, active, chain);
    forall a | Star(g, active, a) && emits(a) ensures Overridden(g, active, binds, a) {
      var k :| 0 <= k < |chain| && chain[k] == a;
      OverriddenByPosition(g, active, chain, binds, k);
      assert binds(chain[i]);
    }
  }

  /** No ancestor is its own ancestor. */
  ghost predicate Acyclic(g: Graph, active: Term) {
    forall t :: Star(g, active, t) ==> !Plus(g, t, t)
  }

  /** On acyclic single-inheritance graphs of any depth the two forms agree. */
  lemma TableIsPathWhenAcyclic(g: Graph, active: Term, chain: seq<Term>, emits: Sel, binds: Sel)
    requires SingleInheritance(g) && IsWalk(g, active, chain) && Acyclic(g, active)
    requires forall a :: emits(a) ==> binds(a)
    ensures TableSelects(chain, emits, binds) <==> PathSelects(g, active, emits, binds)
  {
    WalkIsShortest(g, active, chain);
    forall i: nat | i < |chain| ensures !OnCycle(g, chain, i) {
      PlusOnChain(g, active, chain, i, i);
      assert Star(g, active, chain[i]);
    }
    TableIsPathIff(g, active, chain, emits, binds);
  }

  // ----- queries as data -----

  /** A solution of a query's main pattern, before the override filter: theme `theme` gives
      triple `t` under `key`. */
  datatype Row = Row(theme: Term, key: Term, t: Triple)

  /** A solution of a query's override pattern. */
  datatype Binding = Binding(theme: Term, key: Term)

  datatype Query = Query(rows: set<Row>, bindings: set<Binding>)

  /** A theme with a row for a key also binds that key. */
  predicate Coherent(q: Query) {
    forall r | r in q.rows :: Binding(r.theme, r.key) in q.bindings
  }

  function Emitters(q: Query, key: Term, t: Triple): Sel {
    a => Row(a, key, t) in q.rows
  }

  function Binders(q: Query, key: Term): Sel {
    a => Binding(a, key) in q.bindings
  }

  /** The query with the depth table, run: the triples of the rows that no smaller depth
      overrides. */
  function Construct(q: Query, chain: seq<Term>): set<Triple> {
    set r | r in q.rows && Wins(q, chain, r) :: r.t
  }

  predicate Wins(q: Query, chain: seq<Term>, r: Row) {
    exists i :: 0 <= i < |chain| && WinsAt(q, chain, r, i)
  }

  predicate WinsAt(q: Query, chain: seq<Term>, r: Row, i: nat)
    requires i < |chain|
  {
    chain[i] == r.theme && forall j | 0 <= j < i :: Binding(chain[j], r.key) !in q.bindings
  }

  /** The query it replaced: `t` is constructed from some key's row. */
  ghost predicate PathConstructs(q: Query, g: Graph, active: Term, t: Triple) {
    exists key :: PathSelects(g, active, Emitters(q, key, t), Binders(q, key))
  }

  /** What a theme resolves to by inheritance. */
  ghost predicate Resolves(q: Query, g: Graph, theme: Term, t: Triple) {
    exists key :: Inherits(g, theme, Emitters(q, key, t), Binders(q, key))
  }

  lemma ConstructByKey(q: Query, chain: seq<Term>, t: Triple)
    ensures t in Construct(q, chain) <==> exists key :: TableSelects(chain, Emitters(q, key, t), Binders(q, key))
  {
    if t in Construct(q, chain) {
      var r :| r in q.rows && Wins(q, chain, r) && r.t == t;
      var i :| 0 <= i < |chain| && WinsAt(q, chain, r, i);
      assert RowAtDepth(chain, Emitters(q, r.key, t), Binders(q, r.key), i);
    }
    if key :| TableSelects(chain, Emitters(q, key, t), Binders(q, key)) {
      var i :| RowAtDepth(chain, Emitters(q, key, t), Binders(q, key), i);
      var r := Row(chain[i], key, t);
      assert forall j | 0 <= j < i :: !Binders(q, key)(chain[j]);
      assert r in q.rows && WinsAt(q, chain, r, i);
    }
  }

  /** The table query constructs exactly what the theme resolves to by inheritance. */
  lemma ConstructIsInheritance(q: Query, g: Graph, active: Term, chain: seq<Term>, t: Triple)
    requires Coherent(q) && SingleInheritance(g) && IsWalk(g, active, chain)
    ensures t in Construct(q, chain) <==> Resolves(q, g, active, t)
  {
    ConstructByKey(q, chain, t);
    forall key
      ensures TableSelects(chain, Emitters(q, key, t), Binders(q, key))
         <==> Inherits(g, active, Emitters(q, key, t), Binders(q, key))
    {
      TableIsInheritance(g, active, chain, Emitters(q, key, t), Binders(q, key));
    }
  }

  /** Without a cycle it also constructs exactly what the property-path query did. */
  lemma ConstructIsPathQuery(q: Query, g: Graph, active: Term, chain: seq<Term>, t: Triple)
    requires Coherent(q) && SingleInheritance(g) && IsWalk(g, active, chain) && Acyclic(g, active)
    ensures t in Construct(q, chain) <==> PathConstructs(q, g, active, t)
  {
    ConstructByKey(q, chain, t);
    forall key
      ensures TableSelects(chain, Emitters(q, key, t), Binders(q, key))
         <==> PathSelects(g, active, Emitters(q, key, t), Binders(q, key))
    {
      TableIsPathWhenAcyclic(g, active, chain, Emitters(q, key, t), Binders(q, key));
    }
  }

  /** No theme on a cycle has a row whose key no earlier theme of the walk binds. */
  ghost predicate NothingFromCycle(q: Query, g: Graph, chain: seq<Term>) {
    forall i, r | 0 <= i < |chain| && OnCycle(g, chain, i) && r in q.rows && r.theme == chain[i] ::
      exists j :: 0 <= j < i && Binding(chain[j], r.key) in q.bindings
  }

  /** In general the two queries select the same rows if and only if nothing comes from a cycle.
      Their output may agree all the same, where another row has the same triple. */
  lemma RewriteExactIff(q: Query, g: Graph, active: Term, chain: seq<Term>)
    requires Coherent(q) && SingleInheritance(g) && IsWalk(g, active, chain)
    ensures (forall key, t ::
               TableSelects(chain, Emitters(q, key, t), Binders(q, key)) <==>
               PathSelects(g, active, Emitters(q, key, t), Binders(q, key)))
       <==> NothingFromCycle(q, g, chain)
  {
    forall key, t
      ensures (TableSelects(chain, Emitters(q, key, t), Binders(q, key)) <==>
               PathSelects(g, active, Emitters(q, key, t), Binders(q, key)))
         <==> CycleOverridden(g, chain, Emitters(q, key, t), Binders(q, key))
    {
      TableIsPathIff(g, active, chain, Emitters(q, key, t), Binders(q, key));
    }
    CycleCondition(q, g, chain);
  }

  lemma CycleCondition(q: Query, g: Graph, chain: seq<Term>)
    ensures (forall key, t :: CycleOverridden(g, chain, Emitters(q, key, t), Binders(q, key)))
       <==> NothingFromCycle(q, g, chain)
  {
    if NothingFromCycle(q, g, chain) {
      forall key, t ensures CycleOverridden(g, chain, Emitters(q, key, t), Binders(q, key)) {
        forall i | 0 <= i < |chain| && OnCycle(g, chain, i) && Emitters(q, key, t)(chain[i])
          ensures exists j :: 0 <= j < i && Binders(q, key)(chain[j])
        {
          assert Row(chain[i], key, t) in q.rows;
          var j :| 0 <= j < i && Binding(chain[j], key) in q.bindings;
          assert Binders(q, key)(chain[j]);
        }
      }
    } else {
      var i, r :| 0 <= i < |chain| && OnCycle(g, chain, i) && r in q.rows && r.theme == chain[i]
               && !exists j :: 0 <= j < i && Binding(chain[j], r.key) in q.bindings;
      assert Emitters(q, r.key, r.t)(chain[i]);
      assert !CycleOverridden(g, chain, Emitters(q, r.key, r.t), Binders(q, r.key));
    }
  }

  // ----- the output of the two forms -----

  /** Row `r` wins by depth, at a position off the cycle. */
  predicate WinsOffCycle(q: Query, g: Graph, chain: seq<Term>, r: Row) {
    exists i :: 0 <= i < |chain| && WinsAt(q, chain, r, i) && IsOffCycle(g, chain, i)
  }

  /** No theme of the walk up to position `i` is a parent of its last theme. */
  predicate IsOffCycle(g: Graph, chain: seq<Term>, i: nat)
    requires i < |chain|
  {
    forall e | 0 <= e <= i :: chain[e] !in Parents(g, chain[|chain| - 1])
  }

  lemma OffCycleIff(g: Graph, chain: seq<Term>, i: nat)
    requires i < |chain|
    ensures IsOffCycle(g, chain, i) <==> !OnCycle(g, chain, i)
  {
    if !IsOffCycle(g, chain, i) {
      var e :| 0 <= e <= i && chain[e] in Parents(g, chain[|chain| - 1]);
      assert ReEntersAt(g, chain, e);
    }
  }

  /** For one key, property paths select a row exactly when it wins by depth off the cycle. */
  lemma PathSelectsOffCycle(g: Graph, active: Term, chain: seq<Term>, emits: Sel, binds: Sel)
    requires SingleInheritance(g) && IsWalk(g, active, chain)
    requires forall a :: emits(a) ==> binds(a)
    ensures PathSelects(g, active, emits, binds) <==>
            exists i :: RowAtDepth(chain, emits, binds, i) && !OnCycle(g, chain, i)
  {
    WalkIsShortest(g, active, chain);
    if a :| Star(g, active, a) && emits(a) && !Overridden(g, active, binds, a) {
      var i :| 0 <= i < |chain| && chain[i] == a;
      OverriddenByPosition(g, active, chain, binds, i);
      assert binds(chain[i]);
      assert RowAtDepth(chain, emits, binds, i);
    }
    if i :| RowAtDepth(chain, emits, binds, i) && !OnCycle(g, chain, i) {
      OverriddenByPosition(g, active, chain, binds, i);
      assert Star(g, active, chain[i]);
    }
  }

  /** The path query constructs a triple exactly when a row with it wins by depth off the cycle. */
  lemma PathConstructsIff(q: Query, g: Graph, active: Term, chain: seq<Term>, t: Triple)
    requires Coherent(q) && SingleInheritance(g) && IsWalk(g, active, chain)
    ensures PathConstructs(q, g, active, t) <==> exists r :: r in q.rows && r.t == t && WinsOffCycle(q, g, chain, r)
  {
    if key :| PathSelects(g, active, Emitters(q, key, t), Binders(q, key)) {
      PathSelectsOffCycle(g, active, chain, Emitters(q, key, t), Binders(q, key));
      var i :| RowAtDepth(chain, Emitters(q, key, t), Binders(q, key), i) && !OnCycle(g, chain, i);
      RowWins(q, chain, key, t, i);
      OffCycleIff(g, chain, i);
      assert WinsOffCycle(q, g, chain, Row(chain[i], key, t));
    }
    if r :| r in q.rows && r.t == t && WinsOffCycle(q, g, chain, r) {
      var i :| 0 <= i < |chain| && WinsAt(q, chain, r, i) && IsOffCycle(g, chain, i);
      OffCycleIff(g, chain, i);
      assert RowAtDepth(chain, Emitters(q, r.key, t), Binders(q, r.key), i);
      PathSelectsOffCycle(g, active, chain, Emitters(q, r.key, t), Binders(q, r.key));
    }
  }

  lemma RowWins(q: Query, chain: seq<Term>, key: Term, t: Triple, i: int)
    requires RowAtDepth(chain, Emitters(q, key, t), Binders(q, key), i)
    ensures Row(chain[i], key, t) in q.rows && WinsAt(q, chain, Row(chain[i], key, t), i)
  {
    assert forall j | 0 <= j < i :: !Binders(q, key)(chain[j]);
  }

  /** The smallest difference: a theme that extends itself keeps its own row by the table, and
      loses it by property paths. */
  lemma SelfExtendingThemeDiffers(q: Query, r: Row)
    requires Coherent(q) && q.rows == {r}
    ensures var g := {Triple(r.theme, EXTENDS, r.theme)};
            && SingleInheritance(g) && IsWalk(g, r.theme, [r.theme])
            && Construct(q, [r.theme]) == {r.t}
            && !PathConstructs(q, g, r.theme, r.t)
  {
    var th := r.theme;
    var g := {Triple(th, EXTENDS, th)};
    assert Triple(th, EXTENDS, th) in g;
    assert Parents(g, th) == {th};
    assert ReEntersAt(g, [th], 0);
    assert OnCycle(g, [th], 0);
    assert WinsAt(q, [th], r, 0);
    forall key ensures !PathSelects(g, th, Emitters(q, key, r.t), Binders(q, key)) {
      if key == r.key {
        assert RowAtDepth([th], Emitters(q, key, r.t), Binders(q, key), 0);
        CycleRowLost(g, th, [th], Emitters(q, key, r.t), Binders(q, key), 0);
      }
    }
  }
}
