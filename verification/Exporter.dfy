/**
 The trimmed export: which targets are exported, and which subincludes each exported package keeps.
 The search marks a target before it looks at what the target needs; the packages it goes through
 contribute their own requirements once, on the first visit.
 */
module Exporter {
  import opened Options
  import opened BuildLabels
  import opened Reachability
  import opened Unions
  import opened BuildGraph
  import opened PackageMetadata

  const INTERNAL_PACKAGE := "_please"

  // ---------------------------------------------------------------- transitive subincludes

  /** Which subincludes are subincluded by other subincludes. */
  class SubincludeGraph {
    var includes: Edges<Label>

    constructor ()
      ensures includes == map[]
    {
      includes := map[];
    }

    /** From now on `from`, and whatever leads to it, leads to `to` and beyond; nothing else changes. */
    method RegisterTransitiveSubinclude(from: Label, to: Label)
      modifies this
      ensures includes == WithEdge(old(includes), from, to)
      ensures forall x, y :: Reachable(includes, {x}, y) <==> ReachedThrough(old(includes), from, to, x, y)
    {
      forall x, y
        ensures Reachable(WithEdge(includes, from, to), {x}, y) <==> ReachedThrough(includes, from, to, x, y)
      {
        EdgeAddsReach(includes, from, to, x, y);
      }
      var incs := if from in includes then includes[from] else {};
      includes := includes[from := incs + {to}];
    }
  }

  /** All subincludes a subinclude leads to, itself included. */
  method TransitiveSubincludes(includes: Edges<Label>, l: Label) returns (found: set<Label>)
    ensures LeastClosed(includes, {l}, found)
    ensures forall x :: x in found <==> Reachable(includes, {l}, x)
  {
    found := FindTransitiveSubincludes(includes, l, {});
    SearchedIsLeast(includes, found, {l});
    LeastClosedIsReachable(includes, {l}, found);
  }

  /** Adds what `l` leads to to the labels found already. */
  method FindTransitiveSubincludes(includes: Edges<Label>, l: Label, found: set<Label>) returns (found': set<Label>)
    ensures Searched(includes, found, found', {l})
    decreases includes.Keys - found, 0
  {
    if l in found {
      SearchedAlready(includes, found, l);
      return found;
    }
    found' := found + {l};
    if l in includes {
      found' := FindAll(includes, includes[l], found');
    } else {
      SearchedNothing(includes, found');
    }
    SearchedNode(includes, found, found', l);
  }

  /** The same for each label of a set, in any order. */
  method FindAll(includes: Edges<Label>, labels: set<Label>, found: set<Label>) returns (found': set<Label>)
    ensures Searched(includes, found, found', labels)
    decreases includes.Keys - found, 1
  {
    found' := found;
    var rest := labels;
    SearchedNothing(includes, found);
    assert labels - rest == {};
    while rest != {}
      invariant rest <= labels && found <= found'
      invariant Searched(includes, found, found', labels - rest)
      decreases rest
    {
      var x :| x in rest;
      ghost var before := found';
      found' := FindTransitiveSubincludes(includes, x, found');
      SearchedThen(includes, found, before, found', labels - rest, {x});
      assert labels - (rest - {x}) == (labels - rest) + {x};
      rest := rest - {x};
    }
    assert labels - rest == labels;
  }

  // ---------------------------------------------------------------- what an export needs

  /** The parsed repository, with the metadata of each package under its ":all" label. */
  datatype Repo = Repo(graph: Graph, packages: map<Label, Info>, includes: Edges<Label>)

  function PackageOf(l: Label): Label {
    l.(name := "all")
  }

  /** A target whose package file is exported: neither internal nor of an external subrepo, package known. */
  predicate Tracks(repo: Repo, l: Label) {
    && l in repo.graph && l.pkg != INTERNAL_PACKAGE && repo.graph[l].subrepoTarget.None?
    && PackageOf(l) in repo.packages
  }

  /** Subrepos are fetched by targets of the graph, and every tracked target was registered; the exporter
      gives up on anything else. */
  ghost predicate WellFormed(repo: Repo) {
    && WellFiled(repo.graph)
    && (forall l :: l in repo.graph && repo.graph[l].subrepoTarget.Some? ==> repo.graph[l].subrepoTarget.value in repo.graph)
    && (forall l {:trigger Tracks(repo, l)} :: Tracks(repo, l) ==> l in repo.packages[PackageOf(l)].targetToStmt)
    && (forall p :: p in repo.packages ==> Traced(repo.packages[p]))
  }

  /** The subincludes used by `l`'s statement and all that they subinclude. */
  ghost predicate SubincludedFor(repo: Repo, l: Label, x: Label)
    requires Tracks(repo, l)
  {
    Reachable(repo.includes, UsedSubincludes(repo.packages[PackageOf(l)], l), x)
  }

  /** What exporting `l` exports as well, as far as it is in the graph. */
  ghost function Requires(repo: Repo, l: Label): set<Label>
    requires l in repo.graph
  {
    var g := repo.graph;
    if l.pkg == INTERNAL_PACKAGE then {}
    else if g[l].subrepoTarget.Some? then {g[l].subrepoTarget.value} + DeclaredLabels(g[l]) * g.Keys
    else if PackageOf(l) !in repo.packages then DeclaredLabels(g[l]) * g.Keys
    else
      var info := repo.packages[PackageOf(l)];
      DeclaredLabels(g[l]) * g.Keys + (set x | x in g && SubincludedFor(repo, l, x)) +
      Related(info, l) * g.Keys + PackageLevel(info) * g.Keys
  }

  ghost function ExportEdges(repo: Repo): Edges<Label> {
    map l | l in repo.graph :: Requires(repo, l)
  }

  /** The subincludes a package is going to keep. */
  ghost function Kept(required: map<Label, seq<Label>>, p: Label): set<Label> {
    if p in required then Elements(required[p]) else {}
  }

  /** The subincludes `l` uses are kept by its package, except for preloaded ones. */
  ghost predicate Recorded(repo: Repo, required: map<Label, seq<Label>>, preloaded: set<Label>, l: Label) {
    Tracks(repo, l) ==>
      UsedSubincludes(repo.packages[PackageOf(l)], l) - preloaded <= Kept(required, PackageOf(l))
  }

  /** Every subinclude a package keeps is used by one of its exported targets or by the package itself. */
  ghost predicate Justified(repo: Repo, exported: set<Label>, required: map<Label, seq<Label>>) {
    forall p, x {:trigger HasUse(repo, exported, p, x)} :: x in Kept(required, p) ==> HasUse(repo, exported, p, x)
  }

  ghost predicate HasUse(repo: Repo, exported: set<Label>, p: Label, x: Label) {
    && p in repo.packages
    && (x in PackageLevel(repo.packages[p]) || exists l :: l in exported && UsedBy(repo, l, p, x))
  }

  ghost predicate UsedBy(repo: Repo, l: Label, p: Label, x: Label) {
    Tracks(repo, l) && PackageOf(l) == p && x in UsedSubincludes(repo.packages[p], l)
  }

  // ---------------------------------------------------------------- the exporter

  datatype Snap = Snap(exported: set<Label>, visited: set<Label>, required: map<Label, seq<Label>>, preloaded: set<Label>)

  /** A target that has been dealt with: its subincludes are recorded and its package was visited. */
  ghost predicate DealtWith(repo: Repo, s: Snap, l: Label) {
    Recorded(repo, s.required, s.preloaded, l) && (Tracks(repo, l) ==> PackageOf(l) in s.visited)
  }

  ghost predicate KeepsMore(a: Snap, b: Snap, p: Label) {
    Kept(a.required, p) <= Kept(b.required, p)
  }

  /** What a visited package needs of its own is exported and kept. */
  ghost predicate Settled(repo: Repo, s: Snap, p: Label)
    requires p in repo.packages
  {
    && PackageLevel(repo.packages[p]) * repo.graph.Keys <= s.exported
    && PackageLevel(repo.packages[p]) - s.preloaded <= Kept(s.required, p)
  }

  /** What the export of `roots` leaves behind, compared with where it started. */
  ghost predicate Went(repo: Repo, edges: Edges<Label>, a: Snap, b: Snap, roots: set<Label>) {
    && Searched(edges, a.exported, b.exported, roots)
    && b.preloaded == a.preloaded
    && a.visited <= b.visited
    && (forall p {:trigger KeepsMore(a, b, p)} :: KeepsMore(a, b, p))
    && (forall l {:trigger DealtWith(repo, b, l)} :: l in b.exported && l !in a.exported ==> DealtWith(repo, b, l))
  }

  lemma DealtWithStays(repo: Repo, a: Snap, b: Snap, l: Label)
    requires DealtWith(repo, a, l) && b.preloaded == a.preloaded && a.visited <= b.visited
    requires KeepsMore(a, b, PackageOf(l))
    ensures DealtWith(repo, b, l)
  {
  }

  lemma WentThen(repo: Repo, edges: Edges<Label>, a: Snap, b: Snap, c: Snap, xs: set<Label>, ys: set<Label>)
    requires Went(repo, edges, a, b, xs) && Went(repo, edges, b, c, ys)
    ensures Went(repo, edges, a, c, xs + ys)
  {
    SearchedThen(edges, a.exported, b.exported, c.exported, xs, ys);
    forall l | l in c.exported && l !in a.exported
      ensures DealtWith(repo, c, l)
    {
      if l in b.exported {
        assert DealtWith(repo, b, l) && KeepsMore(b, c, PackageOf(l));
        DealtWithStays(repo, b, c, l);
      }
    }
    forall p
      ensures KeepsMore(a, c, p)
    {
      assert KeepsMore(a, b, p) && KeepsMore(b, c, p);
    }
  }

  /** Nothing was exported, at most more is required or visited. */
  lemma WentNowhere(repo: Repo, edges: Edges<Label>, a: Snap, b: Snap, xs: set<Label>)
    requires b.exported == a.exported && b.preloaded == a.preloaded && a.visited <= b.visited && xs <= a.exported
    requires forall p {:trigger KeepsMore(a, b, p)} :: KeepsMore(a, b, p)
    ensures Went(repo, edges, a, b, xs)
  {
    SearchedAllAlready(edges, a.exported, xs);
  }

  /** The part of the exporter's invariant that does not count. */
  ghost predicate Consistent(repo: Repo, s: Snap) {
    && WellFormed(repo)
    && s.exported <= repo.graph.Keys
    && s.visited <= repo.packages.Keys
    && (forall p {:trigger Settled(repo, s, p)} :: p in s.visited ==> Settled(repo, s, p))
    && Justified(repo, s.exported, s.required)
  }

  /** Marking a target as exported. */
  lemma ConsistentWithMore(repo: Repo, a: Snap, l: Label)
    requires Consistent(repo, a) && l in repo.graph
    ensures Consistent(repo, a.(exported := a.exported + {l}))
  {
    var b := a.(exported := a.exported + {l});
    forall p | p in b.visited
      ensures Settled(repo, b, p)
    {
      assert Settled(repo, a, p);
    }
    forall p, x | x in Kept(b.required, p)
      ensures HasUse(repo, b.exported, p, x)
    {
      assert HasUse(repo, a.exported, p, x);
    }
  }

  /** Recording used subincludes for a package. */
  lemma ConsistentWithUsed(repo: Repo, a: Snap, b: Snap, p: Label, used: set<Label>)
    requires Consistent(repo, a) && b == a.(required := b.required)
    requires Kept(b.required, p) == Kept(a.required, p) + used
    requires forall q :: q != p ==> Kept(b.required, q) == Kept(a.required, q)
    requires forall x {:trigger HasUse(repo, a.exported, p, x)} :: x in used ==> HasUse(repo, a.exported, p, x)
    ensures Consistent(repo, b)
    ensures forall q {:trigger KeepsMore(a, b, q)} :: KeepsMore(a, b, q)
  {
    forall q | q in b.visited
      ensures Settled(repo, b, q)
    {
      assert Settled(repo, a, q);
    }
    forall q, x | x in Kept(b.required, q)
      ensures HasUse(repo, b.exported, q, x)
    {
      assert HasUse(repo, a.exported, q, x) by {
        assert q == p || Kept(b.required, q) == Kept(a.required, q);
      }
    }
  }

  /** Noting that a settled package has been visited. */
  lemma ConsistentWithVisited(repo: Repo, a: Snap, p: Label)
    requires Consistent(repo, a) && p in repo.packages && Settled(repo, a, p)
    ensures Consistent(repo, a.(visited := a.visited + {p}))
  {
    var b := a.(visited := a.visited + {p});
    forall q | q in b.visited
      ensures Settled(repo, b, q)
    {
      assert Settled(repo, a, q);
    }
  }

  lemma WentOneMore(repo: Repo, edges: Edges<Label>, a: Snap, b: Snap, c: Snap, labels: seq<Label>, i: nat)
    requires i < |labels|
    requires Went(repo, edges, a, b, Elements(labels[..i]) * repo.graph.Keys)
    requires Went(repo, edges, b, c, {labels[i]} * repo.graph.Keys)
    ensures Went(repo, edges, a, c, Elements(labels[..i + 1]) * repo.graph.Keys)
  {
    var keys := repo.graph.Keys;
    assert labels[..i + 1] == labels[..i] + [labels[i]];
    ElementsConcat(labels[..i], [labels[i]]);
    assert Elements(labels[..i + 1]) * keys == Elements(labels[..i]) * keys + {labels[i]} * keys;
    WentThen(repo, edges, a, b, c, Elements(labels[..i]) * keys, {labels[i]} * keys);
  }

  /** Subincludes were recorded before the export. */
  lemma WentRecorded(repo: Repo, edges: Edges<Label>, a: Snap, b: Snap, c: Snap, xs: set<Label>)
    requires b == a.(required := b.required)
    requires forall p {:trigger KeepsMore(a, b, p)} :: KeepsMore(a, b, p)
    requires Went(repo, edges, b, c, xs)
    ensures Went(repo, edges, a, c, xs)
    ensures forall p {:trigger KeepsMore(b, c, p)} :: KeepsMore(b, c, p)
  {
    WentNowhere(repo, edges, a, b, {});
    WentThen(repo, edges, a, b, c, {}, xs);
    assert {} + xs == xs;
  }

  lemma WentNode(repo: Repo, edges: Edges<Label>, a: Snap, b: Snap, l: Label)
    requires l !in a.exported && l in edges
    requires Went(repo, edges, a.(exported := a.exported + {l}), b, edges[l])
    requires DealtWith(repo, b, l)
    ensures Went(repo, edges, a, b, {l})
  {
    SearchedNode(edges, a.exported, b.exported, l);
    forall p
      ensures KeepsMore(a, b, p)
    {
      assert KeepsMore(a.(exported := a.exported + {l}), b, p);
    }
  }

  class TrimmedExporter {
    const repo: Repo
    var exported: set<Label>
    var targetCounter: nat
    var visitedPackages: set<Label>
    var requiredSubincludes: map<Label, seq<Label>>
    var preloaded: set<Label>

    ghost predicate Valid()
      reads this
    {
      Consistent(repo, Snapshot()) && targetCounter == |exported|
    }

    ghost function Snapshot(): Snap
      reads this
    {
      Snap(exported, visitedPackages, requiredSubincludes, preloaded)
    }

    constructor (repo: Repo)
      requires WellFormed(repo)
      ensures Valid() && this.repo == repo && exported == {} && visitedPackages == {} && preloaded == {}
      ensures requiredSubincludes == map[]
    {
      this.repo := repo;
      exported, targetCounter, visitedPackages, requiredSubincludes, preloaded := {}, 0, {}, map[], {};
    }

    /** Notes subincludes that the package must keep; preloaded ones come from elsewhere. */
    method SetPackageSubincludes(p: Label, subincludes: seq<Label>)
      modifies this`requiredSubincludes
      ensures Kept(requiredSubincludes, p) == Kept(old(requiredSubincludes), p) + (Elements(subincludes) - preloaded)
      ensures forall q :: q != p ==> Kept(requiredSubincludes, q) == Kept(old(requiredSubincludes), q)
    {
      for i := 0 to |subincludes|
        invariant Kept(requiredSubincludes, p) == Kept(old(requiredSubincludes), p) + (Elements(subincludes[..i]) - preloaded)
        invariant forall q :: q != p ==> Kept(requiredSubincludes, q) == Kept(old(requiredSubincludes), q)
      {
        assert subincludes[..i + 1] == subincludes[..i] + [subincludes[i]];
        ElementsConcat(subincludes[..i], [subincludes[i]]);
        if subincludes[i] in preloaded {
          continue;
        }
        var required := if p in requiredSubincludes then requiredSubincludes[p] else [];
        if subincludes[i] !in required {
          ElementsConcat(required, [subincludes[i]]);
          required := required + [subincludes[i]];
        }
        requiredSubincludes := requiredSubincludes[p := required];
      }
      assert subincludes[..|subincludes|] == subincludes;
    }

    /** Exports every label of a list that is in the graph and not exported yet. */
    method ExportTargets(labels: seq<Label>)
      requires Valid()
      modifies this
      ensures Valid()
      ensures Went(repo, ExportEdges(repo), old(Snapshot()), Snapshot(), Elements(labels) * repo.graph.Keys)
      decreases repo.graph.Keys - exported, 4
    {
      ghost var edges, start, keys := ExportEdges(repo), Snapshot(), repo.graph.Keys;
      assert Elements(labels[..0]) * keys == {};
      WentNowhere(repo, edges, start, start, {});
      for i := 0 to |labels|
        invariant Valid() && start.exported <= exported
        invariant Went(repo, edges, start, Snapshot(), Elements(labels[..i]) * keys)
      {
        ghost var before := Snapshot();
        ExportIfNew(labels[i]);
        WentOneMore(repo, edges, start, before, Snapshot(), labels, i);
      }
      assert labels[..|labels|] == labels;
    }

    /** Labels that were exported already or are not in the graph are passed over. */
    method ExportIfNew(l: Label)
      requires Valid()
      modifies this
      ensures Valid()
      ensures Went(repo, ExportEdges(repo), old(Snapshot()), Snapshot(), {l} * repo.graph.Keys)
      decreases repo.graph.Keys - exported, 3
    {
      if l in exported || l !in repo.graph {
        WentNowhere(repo, ExportEdges(repo), Snapshot(), Snapshot(), {l} * repo.graph.Keys);
      } else {
        assert {l} * repo.graph.Keys == {l};
        ExportTarget(l);
      }
    }

    /** Exports one target and whatever it requires. */
    method ExportTarget(l: Label)
      requires Valid() && l in repo.graph && l !in exported
      modifies this
      ensures Valid()
      ensures Went(repo, ExportEdges(repo), old(Snapshot()), Snapshot(), {l})
      decreases repo.graph.Keys - exported, 2
    {
      ConsistentWithMore(repo, Snapshot(), l);
      exported := exported + {l};
      targetCounter := targetCounter + 1;
      ghost var marked := Snapshot();
      if l.pkg == INTERNAL_PACKAGE {
        WentNowhere(repo, ExportEdges(repo), marked, marked, {});
      } else if repo.graph[l].subrepoTarget.Some? {
        ExportExternal(l);
      } else {
        ExportLocal(l);
      }
      WentNode(repo, ExportEdges(repo), old(Snapshot()), Snapshot(), l);
    }

    /** For a target of an external subrepo: the target that fetches it, and the declared dependencies. */
    method ExportExternal(l: Label)
      requires Valid() && l in exported && l.pkg != INTERNAL_PACKAGE && repo.graph[l].subrepoTarget.Some?
      modifies this
      ensures Valid() && l in exported
      ensures Went(repo, ExportEdges(repo), old(Snapshot()), Snapshot(), Requires(repo, l))
      decreases repo.graph.Keys - exported, 5
    {
      ghost var edges, start, keys := ExportEdges(repo), Snapshot(), repo.graph.Keys;
      var fetcher := repo.graph[l].subrepoTarget.value;
      if fetcher in exported {
        WentNowhere(repo, edges, start, start, {fetcher});
      } else {
        ExportTarget(fetcher);
      }
      ghost var middle := Snapshot();
      var deps := DeclaredDependencies(repo.graph[l]);
      ExportTargets(deps);
      WentThen(repo, edges, start, middle, Snapshot(), {fetcher}, Elements(deps) * keys);
    }

    /** For a target whose package is exported with it. */
    method ExportLocal(l: Label)
      requires Valid() && l in exported && l.pkg != INTERNAL_PACKAGE && repo.graph[l].subrepoTarget.None?
      modifies this
      ensures Valid()
      ensures Went(repo, ExportEdges(repo), old(Snapshot()), Snapshot(), Requires(repo, l))
      ensures DealtWith(repo, Snapshot(), l)
      decreases repo.graph.Keys - exported, 8
    {
      ghost var edges, start, keys := ExportEdges(repo), Snapshot(), repo.graph.Keys;
      var deps := DeclaredDependencies(repo.graph[l]);
      ExportTargets(deps);
      if PackageOf(l) in repo.packages {
        ghost var middle := Snapshot();
        ExportPackagePart(l);
        WentThen(repo, edges, start, middle, Snapshot(), Elements(deps) * keys, PackageRequires(repo, l));
        assert Requires(repo, l) == Elements(deps) * keys + PackageRequires(repo, l);
      }
    }

    /** What a target requires through its package: subincludes, related targets and, on the first visit,
        what the package itself needs. */
    method ExportPackagePart(l: Label)
      requires Valid() && l in exported && Tracks(repo, l)
      modifies this
      ensures Valid()
      ensures Went(repo, ExportEdges(repo), old(Snapshot()), Snapshot(), PackageRequires(repo, l))
      ensures DealtWith(repo, Snapshot(), l)
      decreases repo.graph.Keys - exported, 7
    {
      ghost var edges, start, keys := ExportEdges(repo), Snapshot(), repo.graph.Keys;
      var p := PackageOf(l);
      var info := repo.packages[p];
      ExportSubincludes(l);
      ghost var second := Snapshot();
      var related := RelatedTargets(info, l);
      ExportTargets(related);
      ghost var third := Snapshot();
      ghost var subs := set x | x in repo.graph && SubincludedFor(repo, l, x);
      WentThen(repo, edges, start, second, third, subs, Elements(related) * keys);
      VisitPackage(p);
      assert KeepsMore(second, third, p) && KeepsMore(third, Snapshot(), p);
      WentThen(repo, edges, start, third, Snapshot(), subs + Elements(related) * keys, PackageLevel(info) * keys);
      assert PackageRequires(repo, l) == subs + Elements(related) * keys + PackageLevel(info) * keys;
    }

    /** What the package needs outside of its targets is exported on the first visit. */
    method VisitPackage(p: Label)
      requires Valid() && p in repo.packages
      modifies this
      ensures Valid() && p in visitedPackages
      ensures Went(repo, ExportEdges(repo), old(Snapshot()), Snapshot(), PackageLevel(repo.packages[p]) * repo.graph.Keys)
      decreases repo.graph.Keys - exported, 6
    {
      ghost var edges, start, needs := ExportEdges(repo), Snapshot(), PackageLevel(repo.packages[p]) * repo.graph.Keys;
      if p in visitedPackages {
        assert Settled(repo, start, p);
        WentNowhere(repo, edges, start, start, needs);
        return;
      }
      ExportPackageRequirements(p);
      ghost var middle := Snapshot();
      ConsistentWithVisited(repo, middle, p);
      visitedPackages := visitedPackages + {p};
      WentNowhere(repo, edges, middle, Snapshot(), {});
      WentThen(repo, edges, start, middle, Snapshot(), needs, {});
      assert needs + {} == needs;
    }

    /** Records and exports the subincludes of a target's statement. */
    method ExportSubincludes(l: Label)
      requires Valid() && l in exported && Tracks(repo, l)
      modifies this
      ensures Valid()
      ensures Went(repo, ExportEdges(repo), old(Snapshot()), Snapshot(),
                   set x | x in repo.graph && SubincludedFor(repo, l, x))
      ensures Recorded(repo, requiredSubincludes, preloaded, l)
      decreases repo.graph.Keys - exported, 5
    {
      ghost var edges, start, keys := ExportEdges(repo), Snapshot(), repo.graph.Keys;
      var info := repo.packages[PackageOf(l)];
      assert Tracks(repo, l);
      var used := info.statements[info.targetToStmt[l]].subincludes;
      assert Elements(used) == UsedSubincludes(info, l);
      SetPackageSubincludes(PackageOf(l), used);
      ghost var middle := Snapshot();
      forall x | x in Elements(used)
        ensures HasUse(repo, exported, PackageOf(l), x)
      {
        assert UsedBy(repo, l, PackageOf(l), x);
      }
      ConsistentWithUsed(repo, start, middle, PackageOf(l), Elements(used) - preloaded);
      var all := WithTransitive(repo.includes, used);
      ExportTargets(all);
      WentRecorded(repo, edges, start, middle, Snapshot(), Elements(all) * keys);
      assert Elements(all) * keys == set x | x in repo.graph && SubincludedFor(repo, l, x);
      assert KeepsMore(middle, Snapshot(), PackageOf(l));
    }

    /** Records and exports what the package needs outside of its targets. */
    method ExportPackageRequirements(p: Label)
      requires Valid() && p in repo.packages
      modifies this
      ensures Valid()
      ensures Went(repo, ExportEdges(repo), old(Snapshot()), Snapshot(), PackageLevel(repo.packages[p]) * repo.graph.Keys)
      ensures Settled(repo, Snapshot(), p)
      decreases repo.graph.Keys - exported, 5
    {
      ghost var edges, start, keys := ExportEdges(repo), Snapshot(), repo.graph.Keys;
      var subincludes, _ := PackageLevelRequirements(repo.packages[p]);
      SetPackageSubincludes(p, subincludes);
      ghost var middle := Snapshot();
      assert forall x {:trigger HasUse(repo, exported, p, x)} :: x in Elements(subincludes) ==> HasUse(repo, exported, p, x);
      ConsistentWithUsed(repo, start, middle, p, Elements(subincludes) - preloaded);
      ExportTargets(subincludes);
      WentRecorded(repo, edges, start, middle, Snapshot(), Elements(subincludes) * keys);
      assert KeepsMore(middle, Snapshot(), p);
    }

    /** A preloaded subinclude and all it subincludes are exported, and need not be kept by any package. */
    method ExportPreload(preload: Label)
      requires Valid() && AllDealtWith(repo, Snapshot())
      requires Searched(ExportEdges(repo), {}, exported, preloaded * repo.graph.Keys)
      modifies this
      ensures Valid() && AllDealtWith(repo, Snapshot())
      ensures forall x :: x in preloaded <==> x in old(preloaded) || Reachable(repo.includes, {preload}, x)
      ensures Searched(ExportEdges(repo), {}, exported, preloaded * repo.graph.Keys)
    {
      ghost var start, keys := Snapshot(), repo.graph.Keys;
      var found := TransitiveSubincludes(repo.includes, preload);
      var targets := AppendMissing([], found);
      PreloadedMore(repo, start, found);
      preloaded := preloaded + found;
      ghost var middle := Snapshot();
      ExportTargets(targets + [preload]);
      assert Elements(targets + [preload]) * keys == found * keys;
      AllDealtWithAfter(repo, middle, Snapshot(), found * keys);
      SearchedThen(ExportEdges(repo), {}, start.exported, exported, start.preloaded * keys, found * keys);
      assert preloaded * keys == start.preloaded * keys + found * keys;
    }

    method ExportPreloaded(preloads: seq<Label>)
      requires Valid() && Snapshot() == NOTHING_EXPORTED
      modifies this
      ensures Valid() && AllDealtWith(repo, Snapshot())
      ensures forall x :: x in preloaded <==> Reachable(repo.includes, Elements(preloads), x)
      ensures Searched(ExportEdges(repo), {}, exported, preloaded * repo.graph.Keys)
    {
      SearchedNothing(ExportEdges(repo), {});
      assert preloaded * repo.graph.Keys == {};
      for i := 0 to |preloads|
        invariant Valid() && AllDealtWith(repo, Snapshot())
        invariant forall x :: x in preloaded <==> Reachable(repo.includes, Elements(preloads[..i]), x)
        invariant Searched(ExportEdges(repo), {}, exported, preloaded * repo.graph.Keys)
      {
        ExportPreload(preloads[i]);
        ReachableFromOneMore(repo.includes, preloads, i);
      }
      assert preloads[..|preloads|] == preloads;
    }

    /** The whole export: preloaded subincludes first, then the requested targets. */
    method Run(preloads: seq<Label>, targets: seq<Label>)
      requires Valid() && Snapshot() == NOTHING_EXPORTED
      modifies this
      ensures IsExport(repo, Elements(preloads), Elements(targets), Snapshot())
      ensures targetCounter == |exported|
    {
      ExportPreloaded(preloads);
      ghost var middle, keys := Snapshot(), repo.graph.Keys;
      ExportTargets(targets);
      AllDealtWithAfter(repo, middle, Snapshot(), Elements(targets) * keys);
      SearchedThen(ExportEdges(repo), {}, middle.exported, exported, preloaded * keys, Elements(targets) * keys);
      assert (preloaded + Elements(targets)) * keys == preloaded * keys + Elements(targets) * keys;
      SearchedIsLeast(ExportEdges(repo), exported, (preloaded + Elements(targets)) * keys);
    }
  }

  // ---------------------------------------------------------------- what an export consists of

  const NOTHING_EXPORTED := Snap({}, {}, map[], {})

  ghost predicate AllDealtWith(repo: Repo, s: Snap) {
    forall l {:trigger DealtWith(repo, s, l)} :: l in s.exported ==> DealtWith(repo, s, l)
  }

  lemma AllDealtWithAfter(repo: Repo, a: Snap, b: Snap, roots: set<Label>)
    requires AllDealtWith(repo, a) && Went(repo, ExportEdges(repo), a, b, roots)
    ensures AllDealtWith(repo, b)
  {
    forall l | l in b.exported
      ensures DealtWith(repo, b, l)
    {
      if l in a.exported {
        assert DealtWith(repo, a, l) && KeepsMore(a, b, PackageOf(l));
        DealtWithStays(repo, a, b, l);
      }
    }
  }

  /** With more subincludes preloaded, less has to be kept. */
  lemma PreloadedMore(repo: Repo, a: Snap, more: set<Label>)
    requires Consistent(repo, a) && AllDealtWith(repo, a)
    ensures Consistent(repo, a.(preloaded := a.preloaded + more))
    ensures AllDealtWith(repo, a.(preloaded := a.preloaded + more))
  {
    var b := a.(preloaded := a.preloaded + more);
    forall p | p in b.visited
      ensures Settled(repo, b, p)
    {
      assert Settled(repo, a, p);
    }
    forall l | l in b.exported
      ensures DealtWith(repo, b, l)
    {
      assert DealtWith(repo, a, l);
    }
  }

  /** What a run leaves: the targets that must be exported and no others, with the subincludes each package keeps. */
  ghost predicate IsExport(repo: Repo, preloads: set<Label>, targets: set<Label>, s: Snap) {
    && Consistent(repo, s)
    && AllDealtWith(repo, s)
    && (forall x :: x in s.preloaded <==> Reachable(repo.includes, preloads, x))
    && LeastClosed(ExportEdges(repo), (s.preloaded + targets) * repo.graph.Keys, s.exported)
  }

  /** Why exporting `l` exports `x`: a declared dependency, the target that fetches its subrepo or, through its package,
      a subinclude of its statement and whatever that leads to, another target of the statement, or a subinclude that the
      package needs outside of its targets. */
  ghost predicate HasReason(repo: Repo, l: Label, x: Label)
    requires l in repo.graph
  {
    var g, p := repo.graph, Label(l.pkg, "all", l.subrepo);
    && l.pkg != "_please" && x in g
    && (|| (exists d :: d in g[l].dependencies && d.id == x)
        || g[l].subrepoTarget == Some(x)
        || (g[l].subrepoTarget.None? && p in repo.packages && HasReasonInPackage(repo, repo.packages[p], l, x)))
  }

  ghost predicate HasReasonInPackage(repo: Repo, info: Info, l: Label, x: Label) {
    || (l in info.targetToStmt && info.targetToStmt[l] in info.statements &&
        var sm := info.statements[info.targetToStmt[l]];
        (x != l && x in sm.targets) || exists u :: u in sm.subincludes && Reachable(repo.includes, {u}, x))
    || (exists s :: s in info.statements && info.statements[s].targets == [] && !info.statements[s].isSubinclude &&
          x in info.statements[s].subincludes)
  }

  lemma RequiresRule(repo: Repo, l: Label, x: Label)
    requires WellFormed(repo) && l in repo.graph
    ensures x in Requires(repo, l) <==> HasReason(repo, l, x)
  {
    var g := repo.graph;
    if d :| d in g[l].dependencies && d.id == x {
      assert x in DeclaredLabels(g[l]);
    }
    if Tracks(repo, l) {
      RequiresInPackage(repo, l, x);
    }
  }

  lemma RequiresInPackage(repo: Repo, l: Label, x: Label)
    requires WellFormed(repo) && Tracks(repo, l)
    ensures x in PackageRequires(repo, l) <==> x in repo.graph && HasReasonInPackage(repo, repo.packages[PackageOf(l)], l, x)
  {
    var info := repo.packages[PackageOf(l)];
    assert Tracks(repo, l) && Traced(info);
    ReachableFromSome(repo.includes, UsedSubincludes(info, l), x);
  }

  lemma ReachableFromSome(includes: Edges<Label>, roots: set<Label>, x: Label)
    ensures Reachable(includes, roots, x) <==> exists u :: u in roots && Reachable(includes, {u}, x)
  {
    if p :| ReachedBy(includes, roots, x, p) {
      assert ReachedBy(includes, {p[0]}, x, p);
    }
    if u :| u in roots && Reachable(includes, {u}, x) {
      var p :| ReachedBy(includes, {u}, x, p);
      assert ReachedBy(includes, roots, x, p);
    }
  }

  /** The export is closed under these reasons and contains nothing else: every exported target is preloaded, asked for, or
      exported for a reason another exported target has. */
  lemma ExportedForAReason(repo: Repo, preloads: set<Label>, targets: set<Label>, s: Snap, l: Label, x: Label)
    requires IsExport(repo, preloads, targets, s)
    ensures l in s.exported && HasReason(repo, l, x) ==> x in s.exported
    ensures x in s.exported ==>
            || x in targets
            || (exists u :: u in preloads && Reachable(repo.includes, {u}, x))
            || exists m :: m in s.exported && HasReason(repo, m, x)
  {
    if l in s.exported {
      RequiresRule(repo, l, x);
      assert ExportEdges(repo)[l] == Requires(repo, l);
    }
    if x in s.exported {
      LeastClosedIsJustified(ExportEdges(repo), (s.preloaded + targets) * repo.graph.Keys, s.exported, x);
      if m :| m in s.exported && HasEdge(ExportEdges(repo), m, x) {
        RequiresRule(repo, m, x);
      } else {
        ReachableFromSome(repo.includes, preloads, x);
      }
    }
  }

  /** An exported target has all it needs: its dependencies and the subincludes of its statement are exported, and
      its package keeps each of those subincludes unless it is preloaded. */
  lemma ExportIsSelfContained(repo: Repo, preloads: set<Label>, targets: set<Label>, s: Snap, l: Label)
    requires IsExport(repo, preloads, targets, s) && l in s.exported && l.pkg != INTERNAL_PACKAGE
    ensures DeclaredLabels(repo.graph[l]) * repo.graph.Keys <= s.exported
    ensures repo.graph[l].subrepoTarget.Some? ==> repo.graph[l].subrepoTarget.value in s.exported
    ensures Tracks(repo, l) ==> PackageOf(l) in s.visited
    ensures Tracks(repo, l) ==> forall x :: x in UsedSubincludes(repo.packages[PackageOf(l)], l) ==>
                x in s.preloaded || x in Kept(s.required, PackageOf(l))
    ensures Tracks(repo, l) ==> forall x :: x in repo.graph && SubincludedFor(repo, l, x) ==> x in s.exported
  {
    assert ExportEdges(repo)[l] == Requires(repo, l) <= s.exported;
    assert DealtWith(repo, s, l);
  }

  /** Preloaded ones aside, a visited package keeps exactly the subincludes that are used: by an exported target of
      the package, or by the package itself. */
  lemma KeptSubincludesAreExact(repo: Repo, preloads: set<Label>, targets: set<Label>, s: Snap, p: Label, x: Label)
    requires IsExport(repo, preloads, targets, s) && p in s.visited && x !in s.preloaded
    ensures x in Kept(s.required, p) <==> HasUse(repo, s.exported, p, x)
  {
    assert Settled(repo, s, p);
    if l :| l in s.exported && UsedBy(repo, l, p, x) {
      assert DealtWith(repo, s, l);
    }
  }

  /** A statement's targets are exported all or none, provided no target was registered for two statements. */
  lemma StatementsAreExportedWhole(repo: Repo, preloads: set<Label>, targets: set<Label>, s: Snap, p: Label, stmt: Stmt,
                                   l: Label, m: Label)
    requires IsExport(repo, preloads, targets, s)
    requires p in repo.packages && Inverse(repo.packages[p]) && stmt in repo.packages[p].statements
    requires l in repo.packages[p].statements[stmt].targets && m in repo.packages[p].statements[stmt].targets
    requires Tracks(repo, l) && Tracks(repo, m) && PackageOf(l) == p == PackageOf(m)
    ensures l in s.exported <==> m in s.exported
  {
    assert ExportEdges(repo)[l] == Requires(repo, l) && ExportEdges(repo)[m] == Requires(repo, m);
    assert l != m ==> m in Related(repo.packages[p], l) && l in Related(repo.packages[p], m);
  }

  /** The part of what `l` requires that goes through its package. */
  ghost function PackageRequires(repo: Repo, l: Label): set<Label>
    requires Tracks(repo, l)
  {
    var info := repo.packages[PackageOf(l)];
    (set x | x in repo.graph && SubincludedFor(repo, l, x)) +
    Related(info, l) * repo.graph.Keys + PackageLevel(info) * repo.graph.Keys
  }

  /** The used subincludes with everything they subinclude. */
  method WithTransitive(includes: Edges<Label>, used: seq<Label>) returns (all: seq<Label>)
    ensures forall x :: x in all <==> Reachable(includes, Elements(used), x)
  {
    all := used;
    for i := 0 to |used|
      invariant forall x :: x in all <==> x in used || Reachable(includes, Elements(used[..i]), x)
    {
      var found := TransitiveSubincludes(includes, used[i]);
      all := AppendMissing(all, found);
      ReachableFromOneMore(includes, used, i);
    }
    assert used[..|used|] == used;
    forall x | x in used
      ensures Reachable(includes, Elements(used), x)
    {
      assert ReachedBy(includes, Elements(used), x, [x]);
    }
  }

  lemma ReachableFromOneMore(includes: Edges<Label>, roots: seq<Label>, i: nat)
    requires i < |roots|
    ensures forall x :: Reachable(includes, Elements(roots[..i + 1]), x) <==>
              Reachable(includes, Elements(roots[..i]), x) || Reachable(includes, {roots[i]}, x)
  {
    assert roots[..i + 1] == roots[..i] + [roots[i]];
    ElementsConcat(roots[..i], [roots[i]]);
    assert Elements(roots[..i + 1]) == Elements(roots[..i]) + {roots[i]};
    forall x
      ensures Reachable(includes, Elements(roots[..i + 1]), x) <==>
              Reachable(includes, Elements(roots[..i]), x) || Reachable(includes, {roots[i]}, x)
    {
      ReachableFromEither(includes, Elements(roots[..i]), {roots[i]}, x);
    }
  }

  lemma ReachableFromEither(includes: Edges<Label>, a: set<Label>, b: set<Label>, x: Label)
    ensures Reachable(includes, a + b, x) <==> Reachable(includes, a, x) || Reachable(includes, b, x)
  {
    if p :| ReachedBy(includes, a + b, x, p) {
      assert ReachedBy(includes, a, x, p) || ReachedBy(includes, b, x, p);
    }
    if p :| ReachedBy(includes, a, x, p) || ReachedBy(includes, b, x, p) {
      assert ReachedBy(includes, a + b, x, p);
    }
  }
}
