/**
 Finding the targets nothing needs any more. Everything the chosen roots depend on is kept; what is
 left is listed for removal together with the sources that no kept target uses.
 */
module GarbageCollector {
  import opened Options
  import opened Strings
  import opened BuildLabels
  import opened LabelForms
  import opened Reachability
  import opened Unions
  import opened BuildGraph

  /** The names each target declares as its gc_sibling, in order. */
  type Siblings = map<Label, seq<string>>

  /** Subrepos are fetched by targets of the graph. */
  ghost predicate WellFormed(g: Graph) {
    WellFiled(g) && forall l :: l in g && g[l].subrepoTarget.Some? ==> g[l].subrepoTarget.value in g
  }

  /** What keeping `t` keeps as well: declared and resolved dependencies, and the target of its subrepo. */
  ghost function Needs(g: Graph, t: Target): set<Label> {
    (DeclaredLabels(t) * g.Keys) + Resolved(g, t) +
    (if t.subrepoTarget.Some? then {t.subrepoTarget.value} else {})
  }

  ghost function NeedEdges(g: Graph): Edges<Label> {
    map l | l in g :: Needs(g, g[l])
  }

  /** What keeping a target keeps: what it declares and what stands behind that, as far as it is in the graph, and the
      target that fetches its subrepo. */
  lemma NeedsRule(g: Graph, t: Target, x: Label)
    ensures x in Needs(g, t) <==>
            || (x in g && exists d :: d in t.dependencies && (x == d.id || (d.id in g && x in ProvideFor(g[d.id], t))))
            || t.subrepoTarget == Some(x)
  {
    ResolvedMember(g, t, x);
    if d :| d in t.dependencies && d.id == x {
      assert x in DeclaredLabels(t);
    }
  }

  class Collector {
    const graph: Graph
    var keep: set<Label>

    ghost predicate Valid()
      reads this
    {
      WellFormed(graph) && keep <= graph.Keys
    }

    constructor (graph: Graph)
      requires WellFormed(graph)
      ensures Valid() && this.graph == graph && keep == {}
    {
      this.graph, keep := graph, {};
    }

    /** Keeps every label of a list that is in the graph. */
    method AddAll(labels: seq<Label>)
      requires Valid()
      modifies this
      ensures Valid()
      ensures Searched(NeedEdges(graph), old(keep), keep, Elements(labels) * graph.Keys)
      decreases graph.Keys - keep, 1
    {
      ghost var edges := NeedEdges(graph);
      SearchedNothing(edges, keep);
      assert Elements(labels[..0]) * graph.Keys == {};
      for i := 0 to |labels|
        invariant Valid() && old(keep) <= keep
        invariant Searched(edges, old(keep), keep, Elements(labels[..i]) * graph.Keys)
      {
        ghost var before := keep;
        AddTarget(labels[i]);
        NextLabel(labels, i, graph.Keys);
        SearchedThen(edges, old(keep), before, keep, Elements(labels[..i]) * graph.Keys, {labels[i]} * graph.Keys);
      }
      assert labels[..|labels|] == labels;
    }

    /** Keeps a target and all it needs; a label that is not in the graph is skipped. */
    method AddTarget(l: Label)
      requires Valid()
      modifies this
      ensures Valid()
      ensures Searched(NeedEdges(graph), old(keep), keep, {l} * graph.Keys)
      decreases graph.Keys - keep, 0
    {
      ghost var edges := NeedEdges(graph);
      if l !in graph {
        assert {l} * graph.Keys == {};
        SearchedNothing(edges, keep);
        return;
      }
      assert {l} * graph.Keys == {l};
      if l in keep {
        SearchedAlready(edges, keep, l);
        return;
      }
      var next := Successors(l);
      keep := keep + {l};
      ghost var marked := keep;
      AddAll(next);
      SearchedNode(edges, old(keep), keep, l);
    }

    /** Declared dependencies, then resolved ones, then the target of an external subrepo. */
    method Successors(l: Label) returns (next: seq<Label>)
      requires Valid() && l in graph
      ensures l in NeedEdges(graph) && Elements(next) * graph.Keys == NeedEdges(graph)[l]
    {
      var t := graph[l];
      var declared := DeclaredDependencies(t);
      var resolved, _ := Dependencies(graph, t);
      next := declared + resolved;
      if t.subrepoTarget.Some? {
        next := next + [t.subrepoTarget.value];
      }
      assert forall x :: x in next <==> x in declared || x in resolved || t.subrepoTarget == Some(x);
      assert forall x :: x in resolved <==> x in Resolved(graph, t);
    }
  }

  lemma NextLabel(labels: seq<Label>, i: nat, keys: set<Label>)
    requires i < |labels|
    ensures Elements(labels[..i + 1]) * keys == Elements(labels[..i]) * keys + {labels[i]} * keys
  {
    assert labels[..i + 1] == labels[..i] + [labels[i]];
    ElementsConcat(labels[..i], [labels[i]]);
  }

  // ---------------------------------------------------------------- what is listed

  /** The first declared sibling that exists shares the fate of `l`; without one it is `l` itself. */
  function SiblingAmong(g: Graph, l: Label, names: seq<string>): Label {
    if names == [] then l
    else if Label(l.pkg, names[0], "") in g then Label(l.pkg, names[0], "")
    else SiblingAmong(g, l, names[1..])
  }

  function Sibling(g: Graph, siblings: Siblings, l: Label): Label {
    SiblingAmong(g, l, if l in siblings then siblings[l] else [])
  }

  predicate IsIncluded(l: Label, filter: seq<Label>) {
    filter == [] || exists f :: f in filter && Includes(f, l)
  }

  /** Whether `l` is listed for removal when `keep` is kept. */
  predicate Listed(g: Graph, siblings: Siblings, filter: seq<Label>, keep: set<Label>, l: Label) {
    && l in g
    && var s := Sibling(g, siblings, l);
       !HasParent(s) && s !in keep && IsIncluded(s, filter)
  }

  function LocalSources(t: Target): set<string> {
    set i | i in t.sources && i.File? :: i.path
  }

  /** Lists the targets to remove and their sources, given the roots and all targets of the graph in order. */
  method TargetsToRemove(g: Graph, siblings: Siblings, filter: seq<Label>, roots: seq<Label>, allTargets: seq<Label>)
    returns (keep: set<Label>, targets: seq<Label>, sources: seq<string>)
    requires WellFormed(g) && Elements(allTargets) == g.Keys
    ensures LeastClosed(NeedEdges(g), Elements(roots) * g.Keys, keep)
    ensures forall l :: l in keep <==> Reachable(NeedEdges(g), Elements(roots) * g.Keys, l)
    ensures forall l :: l in targets <==> Listed(g, siblings, filter, keep, l)
    ensures forall p :: p in sources <==>
              && (exists l :: l in targets && l in g && File(p) in g[l].sources)
              && !(exists l :: l in keep && l in g && File(p) in g[l].sources)
  {
    assert forall l, p :: l in g ==> (p in LocalSources(g[l]) <==> File(p) in g[l].sources);
    var collector := new Collector(g);
    collector.AddAll(roots);
    keep := collector.keep;
    SearchedIsLeast(NeedEdges(g), keep, Elements(roots) * g.Keys);
    LeastClosedIsReachable(NeedEdges(g), Elements(roots) * g.Keys, keep);
    var kept := SourcesOf(g, keep);
    targets := SelectListed(g, siblings, filter, keep, allTargets);
    sources := SourcesToRemove(g, targets, kept);
  }

  /** The local sources of a set of targets, taken in any order. */
  method SourcesOf(g: Graph, labels: set<Label>) returns (paths: set<string>)
    requires labels <= g.Keys
    ensures forall p :: p in paths <==> exists l :: l in labels && l in g && p in LocalSources(g[l])
  {
    paths := {};
    var rest := labels;
    while rest != {}
      invariant rest <= labels
      invariant forall p :: p in paths <==> exists l :: l in labels && l !in rest && l in g && p in LocalSources(g[l])
      decreases rest
    {
      var l :| l in rest;
      paths := paths + LocalSources(g[l]);
      rest := rest - {l};
    }
  }

  method SelectListed(g: Graph, siblings: Siblings, filter: seq<Label>, keep: set<Label>, allTargets: seq<Label>)
    returns (targets: seq<Label>)
    requires Elements(allTargets) == g.Keys
    ensures forall l :: l in targets <==> Listed(g, siblings, filter, keep, l)
  {
    targets := [];
    for i := 0 to |allTargets|
      invariant forall l :: l in targets <==> l in allTargets[..i] && Listed(g, siblings, filter, keep, l)
    {
      if Listed(g, siblings, filter, keep, allTargets[i]) {
        targets := targets + [allTargets[i]];
      }
    }
    assert allTargets[..|allTargets|] == allTargets;
    assert forall l :: l in g ==> l in Elements(allTargets);
  }

  method SourcesToRemove(g: Graph, targets: seq<Label>, kept: set<string>) returns (sources: seq<string>)
    requires forall l :: l in targets ==> l in g
    ensures forall p :: p in sources <==> (exists l :: l in targets && l in g && p in LocalSources(g[l])) && p !in kept
  {
    sources := [];
    for i := 0 to |targets|
      invariant forall p :: p in sources <==>
                  (exists l :: l in targets[..i] && l in g && p in LocalSources(g[l])) && p !in kept
    {
      assert targets[..i + 1] == targets[..i] + [targets[i]];
      var more := Unkept(g[targets[i]], kept);
      sources := sources + more;
    }
    assert targets[..|targets|] == targets;
  }

  method Unkept(t: Target, kept: set<string>) returns (paths: seq<string>)
    ensures forall p :: p in paths <==> p in LocalSources(t) && p !in kept
  {
    paths := [];
    for i := 0 to |t.sources|
      invariant forall p :: p in paths <==> File(p) in t.sources[..i] && p !in kept
    {
      if t.sources[i].File? && t.sources[i].path !in kept {
        paths := paths + [t.sources[i].path];
      }
    }
    assert t.sources[..|t.sources|] == t.sources;
    assert forall p :: p in LocalSources(t) <==> File(p) in t.sources;
  }

  /** The sibling is the first one named that exists in the package, and the target itself if none does. */
  lemma {:induction false} SiblingIsFirstExisting(g: Graph, l: Label, names: seq<string>, k: nat)
    requires k <= |names| && forall j :: 0 <= j < k ==> Label(l.pkg, names[j], "") !in g
    requires k < |names| ==> Label(l.pkg, names[k], "") in g
    ensures SiblingAmong(g, l, names) == if k < |names| then Label(l.pkg, names[k], "") else l
  {
    if k > 0 {
      assert forall j :: 0 <= j < k - 1 ==> names[1..][j] == names[j + 1];
      SiblingIsFirstExisting(g, l, names[1..], k - 1);
    }
  }

  /** A target is listed exactly if the target whose fate it shares is not generated by another, is not kept and is covered
      by the filter, if there is one. */
  lemma ListedRule(g: Graph, siblings: Siblings, filter: seq<Label>, keep: set<Label>, l: Label)
    ensures Listed(g, siblings, filter, keep, l) <==>
            && l in g
            && var s := Sibling(g, siblings, l);
               && !(s.name != "" && s.name[0] == '_' && '#' in s.name)
               && s !in keep
               && (filter == [] || exists f :: f in filter && Includes(f, s))
  {
    ParentsAreUltimate(Sibling(g, siblings, l));
  }

  // ---------------------------------------------------------------- kept targets and siblings

  /** No kept target is listed. */
  ghost predicate SparesKept(g: Graph, siblings: Siblings, filter: seq<Label>, keep: set<Label>) {
    forall l :: l in keep ==> !Listed(g, siblings, filter, keep, l)
  }

  /** The sibling of `l` cannot pull it onto the list: it is needed by `l`, private, or filtered out. */
  ghost predicate HarmlessSibling(g: Graph, siblings: Siblings, filter: seq<Label>, l: Label) {
    var s := Sibling(g, siblings, l);
    Reachable(NeedEdges(g), {l}, s) || HasParent(s) || !IsIncluded(s, filter)
  }

  /** Without a gc_sibling that exists, every target is harmless. */
  lemma NoSiblingIsHarmless(g: Graph, siblings: Siblings, filter: seq<Label>, l: Label)
    requires Sibling(g, siblings, l) == l
    ensures HarmlessSibling(g, siblings, filter, l)
  {
    assert ReachedBy(NeedEdges(g), {l}, l, [l]);
  }

  lemma HarmlessSiblingsSpareKept(g: Graph, siblings: Siblings, filter: seq<Label>, keep: set<Label>)
    requires forall l :: l in g ==> HarmlessSibling(g, siblings, filter, l)
    requires Closed(NeedEdges(g), keep)
    ensures SparesKept(g, siblings, filter, keep)
  {
    forall l | l in keep
      ensures !Listed(g, siblings, filter, keep, l)
    {
      if l in g {
        assert HarmlessSibling(g, siblings, filter, l);
        KeptSiblingIsKept(g, siblings, keep, l);
      }
    }
  }

  lemma HarmfulSiblingListsKept(g: Graph, siblings: Siblings, filter: seq<Label>, l: Label) returns (keep: set<Label>)
    requires l in g && !HarmlessSibling(g, siblings, filter, l)
    ensures LeastClosed(NeedEdges(g), {l}, keep) && !SparesKept(g, siblings, filter, keep)
  {
    keep := ReachSet(g, l);
    assert l in keep && Listed(g, siblings, filter, keep, l);
  }

  /** Kept targets are spared for every choice of roots exactly when every target's sibling is harmless. */
  lemma KeptAreSparedIff(g: Graph, siblings: Siblings, filter: seq<Label>)
    ensures (forall roots, keep :: roots <= g.Keys && LeastClosed(NeedEdges(g), roots, keep) ==>
               SparesKept(g, siblings, filter, keep))
            <==> (forall l :: l in g ==> HarmlessSibling(g, siblings, filter, l))
  {
    if forall l :: l in g ==> HarmlessSibling(g, siblings, filter, l) {
      forall roots, keep | roots <= g.Keys && LeastClosed(NeedEdges(g), roots, keep)
        ensures SparesKept(g, siblings, filter, keep)
      {
        HarmlessSiblingsSpareKept(g, siblings, filter, keep);
      }
    } else {
      var l :| l in g && !HarmlessSibling(g, siblings, filter, l);
      var keep := HarmfulSiblingListsKept(g, siblings, filter, l);
      assert {l} <= g.Keys;
    }
  }

  lemma KeptSiblingIsKept(g: Graph, siblings: Siblings, keep: set<Label>, l: Label)
    requires l in keep && Closed(NeedEdges(g), keep)
    ensures Reachable(NeedEdges(g), {l}, Sibling(g, siblings, l)) ==> Sibling(g, siblings, l) in keep
  {
    var s := Sibling(g, siblings, l);
    if Reachable(NeedEdges(g), {l}, s) {
      var p :| ReachedBy(NeedEdges(g), {l}, s, p);
      PathStaysInClosed(NeedEdges(g), keep, p, |p| - 1);
    }
  }

  /** What keeping `l` alone keeps. */
  lemma ReachSet(g: Graph, l: Label) returns (keep: set<Label>)
    requires l in g
    ensures LeastClosed(NeedEdges(g), {l}, keep)
    ensures forall x :: x in keep <==> Reachable(NeedEdges(g), {l}, x)
  {
    var edges := NeedEdges(g);
    var universe := g.Keys + UnionOfValues(edges);
    keep := set x | x in universe && Reachable(edges, {l}, x);
    forall x, y | x in keep && x in edges && y in edges[x]
      ensures y in keep
    {
      var p :| ReachedBy(edges, {l}, x, p);
      assert HasEdge(edges, x, y);
      assert ReachedBy(edges, {l}, y, p + [y]);
    }
    assert ReachedBy(edges, {l}, l, [l]);
    forall c: set<Label> | {l} <= c && Closed(edges, c)
      ensures keep <= c
    {
      forall x | x in keep
        ensures x in c
      {
        var p :| ReachedBy(edges, {l}, x, p);
        PathStaysInClosed(edges, c, p, |p| - 1);
      }
    }
    LeastClosedIsReachable(edges, {l}, keep);
  }

  ghost function UnionOfValues(edges: Edges<Label>): set<Label> {
    set x, y | x in edges && y in edges[x] :: y
  }

  /** A kept target that is listed all the same: its sibling exists and nothing needs it. */
  lemma KeptTargetCanBeListed()
    ensures exists g, siblings, keep, l ::
              l in g && LeastClosed(NeedEdges(g), {l}, keep) && l in keep && Listed(g, siblings, [], keep, l)
  {
    var a, b := Label("p", "a", ""), Label("p", "b", "");
    var blank := Target(a, [], [], [], [], [], map[], false, false, false, false, false, None);
    var g: Graph := map[a := blank, b := blank.(id := b)];
    var siblings: Siblings := map[a := ["b"]];
    var keep := {a};
    assert Sibling(g, siblings, a) == b;
    assert NeedEdges(g)[a] == {};
    assert LeastClosed(NeedEdges(g), {a}, keep);
    assert !HasParent(b) by { assert IndexOf("b", '#') == -1; }
    assert Listed(g, siblings, [], keep, a);
  }
}
