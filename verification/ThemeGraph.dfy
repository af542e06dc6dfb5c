/** Theme data as RDF triples, the `design:extends` relation, and the ancestor walk of
    `theme.rs`. */
module ThemeGraph {
  import opened Options
  import opened Rdf

  const EXTENDS := Iri("design:extends")

  function Parents(g: Graph, t: Term): set<Term> {
    set x | x in g && x.s == t && x.p == EXTENDS :: x.o
  }

  /** Each theme extends at most one parent. */
  ghost predicate SingleInheritance(g: Graph) {
    forall t, p, q :: p in Parents(g, t) && q in Parents(g, t) ==> p == q
  }

  // ----- extends* and extends+ -----

  /** `b` is reached from `a` by `n` steps of `design:extends`. */
  ghost predicate Hops(g: Graph, a: Term, b: Term, n: nat)
    decreases n
  {
    if n == 0 then a == b else exists c :: c in Parents(g, a) && Hops(g, c, b, n - 1)
  }

  /** `a design:extends* b`. */
  ghost predicate Star(g: Graph, a: Term, b: Term) {
    exists n: nat :: Hops(g, a, b, n)
  }

  /** `a design:extends+ b`. */
  ghost predicate Plus(g: Graph, a: Term, b: Term) {
    exists n: nat :: n > 0 && Hops(g, a, b, n)
  }

  lemma {:induction false} HopsConcat(g: Graph, a: Term, b: Term, c: Term, m: nat, n: nat)
    requires Hops(g, a, b, m) && Hops(g, b, c, n)
    ensures Hops(g, a, c, m + n)
    decreases m
  {
    if m > 0 {
      var x :| x in Parents(g, a) && Hops(g, x, b, m - 1);
      HopsConcat(g, x, b, c, m - 1, n);
    }
  }

  // ----- the walk -----

  /** The first solution of the one-hop query, if any: which one is not specified. */
  method FirstParent(g: Graph, cur: Term) returns (r: Option<Term>)
    ensures r == None <==> Parents(g, cur) == {}
    ensures r.Some? ==> r.value in Parents(g, cur)
  {
    var ps := Parents(g, cur);
    if ps == {} {
      r := None;
    } else {
      var p :| p in ps;
      r := Some(p);
    }
  }

  /** A path up the parent relation without repeats, which goes on as long as it can. */
  ghost predicate IsWalk(g: Graph, active: Term, chain: seq<Term>) {
    && IsPath(g, active, chain)
    && var last := chain[|chain| - 1];
    Parents(g, last) == {} || exists p :: p in Parents(g, last) && p in chain
  }

  ghost predicate IsPath(g: Graph, active: Term, chain: seq<Term>) {
    && chain != []
    && chain[0] == active
    && (forall i, j | 0 <= i < j < |chain| :: chain[i] != chain[j])
    && (forall i | 0 <= i < |chain| - 1 :: chain[i + 1] in Parents(g, chain[i]))
  }

  function Objects(g: Graph): set<Term> {
    set x | x in g :: x.o
  }

  /** The walk ends on every graph, cycles and forks included. */
  method AncestorChain(g: Graph, active: Term) returns (chain: seq<Term>)
    ensures IsWalk(g, active, chain)
  {
    chain := [active];
    ghost var universe := Objects(g) + {active};
    while true
      invariant IsPath(g, active, chain)
      invariant forall t | t in chain :: t in universe
      decreases universe - set t | t in chain
    {
      var parent := FirstParent(g, chain[|chain| - 1]);
      if parent.None? || parent.value in chain {
        break;
      }
      ghost var before := set t | t in chain;
      assert parent.value in universe - before;
      chain := chain + [parent.value];
      assert (set t | t in chain) == before + {parent.value};
    }
  }

  lemma {:induction false} ChainHops(g: Graph, active: Term, chain: seq<Term>, i: nat, j: nat)
    requires IsPath(g, active, chain) && i <= j < |chain|
    ensures Hops(g, chain[i], chain[j], j - i)
    decreases j - i
  {
    if i < j {
      ChainHops(g, active, chain, i + 1, j);
      assert chain[i + 1] in Parents(g, chain[i]) && Hops(g, chain[i + 1], chain[j], j - i - 1);
    }
  }

  /** The walk covers exactly `extends*` if and only if no theme on it has a parent off it,
      which can only happen where a theme extends several. */
  lemma WalkCoversIff(g: Graph, active: Term, chain: seq<Term>)
    requires IsWalk(g, active, chain)
    ensures (forall t :: Star(g, active, t) <==> t in chain)
       <==> forall t | t in chain :: Parents(g, t) <= set x | x in chain
  {
    var closed := set x | x in chain;
    forall t | t in chain ensures Star(g, active, t) {
      var i :| 0 <= i < |chain| && chain[i] == t;
      ChainHops(g, active, chain, 0, i);
    }
    if forall t | t in chain :: Parents(g, t) <= closed {
      forall t | Star(g, active, t) ensures t in chain {
        var n: nat :| Hops(g, active, t, n);
        StaysInside(g, active, t, n, closed);
      }
    } else {
      var t :| t in chain && !(Parents(g, t) <= closed);
      var p :| p in Parents(g, t) && p !in closed;
      var n: nat :| Hops(g, active, t, n);
      assert Hops(g, p, p, 0);
      assert Hops(g, t, p, 1);
      HopsConcat(g, active, t, p, n, 1);
      assert Star(g, active, p) && p !in chain;
    }
  }

  lemma {:induction false} StaysInside(g: Graph, a: Term, b: Term, n: nat, closed: set<Term>)
    requires Hops(g, a, b, n) && a in closed
    requires forall t | t in closed :: Parents(g, t) <= closed
    ensures b in closed
    decreases n
  {
    if n > 0 {
      var c :| c in Parents(g, a) && Hops(g, c, b, n - 1);
      StaysInside(g, c, b, n - 1, closed);
    }
  }

  // ----- single inheritance -----

  /** Where a walk that met itself re-enters: the position of its last theme's parent. */
  ghost predicate ReEntersAt(g: Graph, chain: seq<Term>, e: nat) {
    e < |chain| && chain[e] in Parents(g, chain[|chain| - 1])
  }

  /** The next theme up from position `k`: the next on the chain, or the re-entry point. */
  lemma ParentOnChain(g: Graph, active: Term, chain: seq<Term>, k: nat, p: Term) returns (m: nat)
    requires SingleInheritance(g) && IsWalk(g, active, chain) && k < |chain|
    requires p in Parents(g, chain[k])
    ensures m < |chain| && chain[m] == p
    ensures m == k + 1 || (k == |chain| - 1 && ReEntersAt(g, chain, m))
  {
    if k + 1 < |chain| {
      m := k + 1;
    } else {
      m :| 0 <= m < |chain| && chain[m] == p;
    }
  }

  /** The walk of a single-inheritance graph reaches what `extends*` reaches, and numbers
      each theme by its smallest hop count. */
  lemma WalkIsShortest(g: Graph, active: Term, chain: seq<Term>)
    requires SingleInheritance(g) && IsWalk(g, active, chain)
    ensures forall t :: Star(g, active, t) <==> t in chain
    ensures forall i | 0 <= i < |chain| :: Hops(g, active, chain[i], i)
    ensures forall i, n: nat | 0 <= i < |chain| && Hops(g, active, chain[i], n) :: i <= n
  {
    forall i | 0 <= i < |chain| ensures Hops(g, active, chain[i], i) {
      ChainHops(g, active, chain, 0, i);
    }
    forall t | Star(g, active, t) ensures t in chain {
      var n: nat :| Hops(g, active, t, n);
      var m := HopsOnChain(g, active, chain, 0, t, n);
    }
    forall i, n: nat | 0 <= i < |chain| && Hops(g, active, chain[i], n) ensures i <= n {
      var m := HopsOnChain(g, active, chain, 0, chain[i], n);
      assert m == i;
    }
  }

  lemma {:induction false} HopsOnChain(g: Graph, active: Term, chain: seq<Term>, k: nat, t: Term, n: nat)
    returns (m: nat)
    requires SingleInheritance(g) && IsWalk(g, active, chain) && k < |chain|
    requires Hops(g, chain[k], t, n)
    ensures m < |chain| && chain[m] == t && m <= k + n
    ensures n > 0 ==> k < m || exists e: nat :: ReEntersAt(g, chain, e) && e <= m
    decreases n
  {
    if n == 0 {
      m := k;
    } else {
      var c :| c in Parents(g, chain[k]) && Hops(g, c, t, n - 1);
      var k' := ParentOnChain(g, active, chain, k, c);
      m := HopsOnChain(g, active, chain, k', t, n - 1);
    }
  }

  /** `extends+` between two themes of the walk, read off their positions: upward along the
      chain, or from anywhere to a theme on the cycle the walk runs into. */
  lemma PlusOnChain(g: Graph, active: Term, chain: seq<Term>, j: nat, i: nat)
    requires SingleInheritance(g) && IsWalk(g, active, chain) && j < |chain| && i < |chain|
    ensures Plus(g, chain[j], chain[i]) <==> j < i || exists e: nat :: ReEntersAt(g, chain, e) && e <= i
  {
    if Plus(g, chain[j], chain[i]) {
      var n: nat :| n > 0 && Hops(g, chain[j], chain[i], n);
      var m := HopsOnChain(g, active, chain, j, chain[i], n);
      assert m == i;
    }
    if j < i {
      ChainHops(g, active, chain, j, i);
    } else if e: nat :| ReEntersAt(g, chain, e) && e <= i {
      var last := |chain| - 1;
      ChainHops(g, active, chain, j, last);
      assert Hops(g, chain[e], chain[e], 0);
      assert Hops(g, chain[last], chain[e], 1);
      HopsConcat(g, chain[j], chain[last], chain[e], last - j, 1);
      ChainHops(g, active, chain, e, i);
      HopsConcat(g, chain[j], chain[e], chain[i], last - j + 1, i - e);
    }
  }
}
