/**
 Which targets are inputs of a target. Starting from the target the walk follows its build-time
 dependencies, and further ones as far as the target needs them; every dependency is first taken
 through require/provide, repeatedly.
 */
module InputIteration {
  import opened BuildLabels
  import opened Reachability
  import opened Unions
  import opened BuildGraph

  /** Every label mentioned in the graph is in it; looking up any other is fatal. */
  ghost predicate Complete(g: Graph) {
    && WellFiled(g)
    && (forall l {:trigger DeclaredLabels(g[l])} :: l in g ==> DeclaredLabels(g[l]) <= g.Keys)
    && (forall l, r, p :: l in g && r in g[l].provisions && p in g[l].provisions[r] ==> p in g)
  }

  // ---------------------------------------------------------------- require/provide, repeatedly

  /** What stands behind `d`: as the dependent target sees it or, if that changes nothing, as the top-level one does. */
  function ProvideStep(g: Graph, top: Target, dependent: Target, d: Label): seq<Label>
    requires d in g
  {
    var ret := ProvideFor(g[d], dependent);
    if ret == [d] then ProvideFor(g[d], top) else ret
  }

  /** The steps from a label to the different labels behind it. */
  ghost function ProvideEdges(g: Graph, top: Target, dependent: Target): Edges<Label> {
    map d | d in g :: set p | p in ProvideStep(g, top, dependent, d) && p != d
  }

  ghost predicate ProvidesAcyclicFor(g: Graph, top: Target, dependent: Target) {
    Acyclic(ProvideEdges(g, top, dependent))
  }

  /** Require/provide never runs in a circle while the inputs of `target` are collected. */
  ghost predicate ProvidesAcyclic(g: Graph, target: Label)
    requires target in g
  {
    forall l {:trigger ProvidesAcyclicFor(g, g[target], g[l])} :: l in g ==> ProvidesAcyclicFor(g, g[target], g[l])
  }

  /** The labels finally behind `d`: those reached by such steps that stand for themselves. */
  ghost function Behinds(g: Graph, top: Target, dependent: Target, d: Label): set<Label> {
    set x | x in g && x in ProvideStep(g, top, dependent, x) && Reachable(ProvideEdges(g, top, dependent), {d}, x)
  }

  lemma ProvideStepStays(g: Graph, top: Target, dependent: Target, d: Label, p: Label)
    requires Complete(g) && d in g && p in ProvideStep(g, top, dependent, d)
    ensures p in g
  {
    ProvideForMember(g[d], dependent, p);
    ProvideForMember(g[d], top, p);
  }

  lemma BehindsUnfold(g: Graph, top: Target, dependent: Target, d: Label, x: Label)
    requires Complete(g) && d in g
    ensures x in Behinds(g, top, dependent, d) <==>
            exists p :: p in ProvideStep(g, top, dependent, d) &&
              (if p == d then x == d else x in Behinds(g, top, dependent, p))
  {
    var edges := ProvideEdges(g, top, dependent);
    ReachableUnfolds(edges, d, x);
    if x in Behinds(g, top, dependent, d) && x != d {
      var p :| HasEdge(edges, d, p) && Reachable(edges, {p}, x);
      assert p in ProvideStep(g, top, dependent, d) && p != d;
    }
    if p :| p in ProvideStep(g, top, dependent, d) && p != d && x in Behinds(g, top, dependent, p) {
      assert HasEdge(edges, d, p);
    }
  }

  /** What is finally behind a dependency: the dependent target's requirements decide and, where they change nothing, those
      of the top-level target; a label that provides itself is final. */
  lemma BehindsRule(g: Graph, top: Target, dependent: Target, d: Label, x: Label)
    requires Complete(g) && d in g
    ensures var next := if ProvideFor(g[d], dependent) == [d] then ProvideFor(g[d], top) else ProvideFor(g[d], dependent);
            x in Behinds(g, top, dependent, d) <==>
            exists p :: p in next && if p == d then x == d else x in Behinds(g, top, dependent, p)
  {
    BehindsUnfold(g, top, dependent, d, x);
  }

  /** Collects the labels finally behind a dependency. Terminates when the steps do not run in a circle,
      for which `rank` is the evidence. */
  method RecursivelyProvideFor(g: Graph, top: Target, dependent: Target, d: Label, ghost rank: map<Label, nat>)
    returns (ret: seq<Label>)
    requires Complete(g) && d in g && Ranked(ProvideEdges(g, top, dependent), rank)
    ensures Elements(ret) == Behinds(g, top, dependent, d)
    decreases rank[d]
  {
    ret := [];
    var step := ProvideStep(g, top, dependent, d);
    ghost var f := (p: Label) => if p == d then {d} else Behinds(g, top, dependent, p);
    for i := 0 to |step|
      invariant Elements(ret) == UnionOver(step[..i], f)
    {
      UnionOverNext(step, i, f);
      var p := step[i];
      ProvideStepStays(g, top, dependent, d, p);
      var more := [d];
      if p != d {
        assert p in ProvideEdges(g, top, dependent)[d];
        more := RecursivelyProvideFor(g, top, dependent, p, rank);
      }
      ElementsConcat(ret, more);
      ret := ret + more;
    }
    assert step[..|step|] == step;
    forall x
      ensures x in Elements(ret) <==> x in Behinds(g, top, dependent, d)
    {
      UnionOverMember(step, f, x);
      BehindsUnfold(g, top, dependent, d, x);
    }
  }

  // ---------------------------------------------------------------- the rule of the walk

  /** Build-time dependencies proper: not run-time, data, internal or source-only. */
  ghost function BuildDependencies(t: Target): set<Label> {
    set d | d in t.dependencies && !d.runtime && !d.data && !d.internal && !d.source :: d.id
  }

  ghost function ExportedDependencies(t: Target): set<Label> {
    set d | d in t.dependencies && d.exported :: d.id
  }

  /** Whether all build-time dependencies of `l` are inputs of the target, or only its exported ones. */
  predicate LooksInside(g: Graph, target: Label, l: Label)
    requires l in g && target in g
  {
    l == target || (g[target].needsTransitiveDependencies && !g[l].outputIsComplete)
  }

  /** The inputs that `l` leads to when collecting the inputs of `target`. */
  ghost function InputsVia(g: Graph, target: Label, l: Label): set<Label>
    requires l in g && target in g
  {
    if LooksInside(g, target, l) then
      set d, p, x | d in BuildDependencies(g[l]) && p in Behind(g, g[l], d) &&
                    x in Behinds(g, g[target], g[l], p) && x !in InputLabels(g[l].tools) :: x
    else
      set d, x | d in ExportedDependencies(g[l]) && x in Behinds(g, g[target], g[l], d) :: x
  }

  ghost function InputEdges(g: Graph, target: Label): Edges<Label>
    requires target in g
  {
    map l | l in g :: InputsVia(g, target, l)
  }

  /** What a declared dependency of `l` leads to when `l` is looked into. */
  ghost function ThroughLabel(g: Graph, target: Label, l: Label, d: Label): set<Label>
    requires l in g && target in g
  {
    set p, x | p in Behind(g, g[l], d) && x in Behinds(g, g[target], g[l], p) && x !in InputLabels(g[l].tools) :: x
  }

  ghost function ViaBuildDependency(g: Graph, target: Label, l: Label, d: Dependency): set<Label>
    requires l in g && target in g
  {
    if !d.runtime && !d.data && !d.internal && !d.source then ThroughLabel(g, target, l, d.id) else {}
  }

  ghost function ViaExportedDependency(g: Graph, target: Label, l: Label, d: Dependency): set<Label>
    requires l in g && target in g
  {
    if d.exported then Behinds(g, g[target], g[l], d.id) else {}
  }

  method ThroughProvided(g: Graph, target: Label, l: Label, d: Label, ghost rank: map<Label, nat>) returns (next: seq<Label>)
    requires Complete(g) && l in g && target in g && d in g && Ranked(ProvideEdges(g, g[target], g[l]), rank)
    ensures Elements(next) == ThroughLabel(g, target, l, d)
  {
    next := [];
    var provided := CollectProvided(g[d], g[l]);
    var tools := InputLabels(g[l].tools);
    ghost var f := (p: Label) => Behinds(g, g[target], g[l], p) - tools;
    for i := 0 to |provided|
      invariant Elements(next) == UnionOver(provided[..i], f)
    {
      UnionOverNext(provided, i, f);
      ProvideForMember(g[d], g[l], provided[i]);
      var more := RecursivelyProvideFor(g, g[target], g[l], provided[i], rank);
      more := WithoutTools(more, tools);
      ElementsConcat(next, more);
      next := next + more;
    }
    assert provided[..|provided|] == provided;
    forall x
      ensures x in Elements(next) <==> x in ThroughLabel(g, target, l, d)
    {
      UnionOverMember(provided, f, x);
    }
  }

  method WithoutTools(labels: seq<Label>, tools: set<Label>) returns (kept: seq<Label>)
    ensures Elements(kept) == Elements(labels) - tools
  {
    kept := [];
    for i := 0 to |labels|
      invariant Elements(kept) == Elements(labels[..i]) - tools
    {
      assert labels[..i + 1] == labels[..i] + [labels[i]];
      ElementsConcat(labels[..i], [labels[i]]);
      if labels[i] !in tools {
        ElementsConcat(kept, [labels[i]]);
        kept := kept + [labels[i]];
      }
    }
    assert labels[..|labels|] == labels;
  }

  /** What the build-time dependencies of `l` lead to. */
  method BuildSuccessors(g: Graph, target: Label, l: Label, ghost rank: map<Label, nat>) returns (next: seq<Label>)
    requires Complete(g) && l in g && target in g && Ranked(ProvideEdges(g, g[target], g[l]), rank)
    requires LooksInside(g, target, l)
    ensures Elements(next) == InputsVia(g, target, l)
  {
    next := [];
    var deps := g[l].dependencies;
    ghost var f := d => ViaBuildDependency(g, target, l, d);
    for i := 0 to |deps|
      invariant Elements(next) == UnionOver(deps[..i], f)
    {
      UnionOverNext(deps, i, f);
      var d := deps[i];
      assert d.id in DeclaredLabels(g[l]);
      if !d.runtime && !d.data && !d.internal && !d.source {
        var more := ThroughProvided(g, target, l, d.id, rank);
        ElementsConcat(next, more);
        next := next + more;
      }
    }
    assert deps[..|deps|] == deps;
    forall x
      ensures x in Elements(next) <==> x in InputsVia(g, target, l)
    {
      UnionOverMember(deps, f, x);
    }
  }

  /** What the exported dependencies of `l` lead to. */
  method ExportedSuccessors(g: Graph, target: Label, l: Label, ghost rank: map<Label, nat>) returns (next: seq<Label>)
    requires Complete(g) && l in g && target in g && Ranked(ProvideEdges(g, g[target], g[l]), rank)
    requires !LooksInside(g, target, l)
    ensures Elements(next) == InputsVia(g, target, l)
  {
    next := [];
    var deps := g[l].dependencies;
    ghost var f := d => ViaExportedDependency(g, target, l, d);
    for i := 0 to |deps|
      invariant Elements(next) == UnionOver(deps[..i], f)
    {
      UnionOverNext(deps, i, f);
      var d := deps[i];
      assert d.id in DeclaredLabels(g[l]);
      if d.exported {
        var more := RecursivelyProvideFor(g, g[target], g[l], d.id, rank);
        ElementsConcat(next, more);
        next := next + more;
      }
    }
    assert deps[..|deps|] == deps;
    forall x
      ensures x in Elements(next) <==> x in InputsVia(g, target, l)
    {
      UnionOverMember(deps, f, x);
    }
  }

  /** The rule of the walk, in terms of the declarations: the target itself, and any target whose output is not complete if
      transitive dependencies are needed, contribute their build-time dependencies that are no tools; the others only
      what they export. */
  lemma InputRule(g: Graph, target: Label, l: Label, x: Label)
    requires Complete(g) && target in g && l in g
    ensures x in InputsVia(g, target, l) <==>
            if l == target || (g[target].needsTransitiveDependencies && !g[l].outputIsComplete) then
              && Output(x) !in g[l].tools
              && exists d, p :: d in g[l].dependencies && !d.runtime && !d.data && !d.internal && !d.source && d.id in g &&
                   p in ProvideFor(g[d.id], g[l]) && x in Behinds(g, g[target], g[l], p)
            else
              exists d :: d in g[l].dependencies && d.exported && x in Behinds(g, g[target], g[l], d.id)
  {
    assert Output(x) in g[l].tools <==> x in InputLabels(g[l].tools) by {
      if Output(x) in g[l].tools {
        assert Output(x).id in InputLabels(g[l].tools);
      }
    }
    if d, p :| d in g[l].dependencies && !d.runtime && !d.data && !d.internal && !d.source && d.id in g &&
               p in ProvideFor(g[d.id], g[l]) && x in Behinds(g, g[target], g[l], p) {
      assert d.id in BuildDependencies(g[l]) && p in Behind(g, g[l], d.id);
    }
    if d :| d in g[l].dependencies && d.exported && x in Behinds(g, g[target], g[l], d.id) {
      assert d.id in ExportedDependencies(g[l]);
    }
  }

  // ---------------------------------------------------------------- the walk

  /** A walk over the inputs of one target. */
  class InputWalk {
    const graph: Graph
    const target: Label
    var done: set<Label>
    /** The labels expanded so far, in order. */
    var expanded: seq<Label>

    ghost predicate Valid()
      reads this
    {
      && Complete(graph) && target in graph
      && done <= graph.Keys
      && Elements(expanded) == done && Distinct(expanded)
      && ProvidesAcyclic(graph, target)
    }

    constructor (graph: Graph, target: Label)
      requires Complete(graph) && target in graph
      requires ProvidesAcyclic(graph, target)
      ensures Valid() && this.graph == graph && this.target == target && done == {} && expanded == []
    {
      this.graph, this.target, done, expanded := graph, target, {}, [];
    }

    /** The labels to go on to from `l`. */
    method Successors(l: Label) returns (next: seq<Label>)
      requires Valid() && l in graph
      ensures l in InputEdges(graph, target) && Elements(next) == InputEdges(graph, target)[l]
      ensures Elements(next) <= graph.Keys
    {
      assert ProvidesAcyclicFor(graph, graph[target], graph[l]);
      ghost var rank := AcyclicIsRanked(ProvideEdges(graph, graph[target], graph[l]));
      if LooksInside(graph, target, l) {
        next := BuildSuccessors(graph, target, l, rank);
      } else {
        next := ExportedSuccessors(graph, target, l, rank);
      }
    }

    /** Expands a label and everything it leads to that has not been expanded. */
    method Inner(l: Label)
      requires Valid() && l in graph && l !in done
      modifies this
      ensures Valid()
      ensures Searched(InputEdges(graph, target), old(done), done, {l})
      ensures old(expanded) + [l] <= expanded
      decreases graph.Keys - done
    {
      ghost var edges := InputEdges(graph, target);
      var next := Successors(l);
      done := done + {l};
      expanded := expanded + [l];
      ghost var marked := done;
      SearchedNothing(edges, marked);
      for i := 0 to |next|
        invariant Valid()
        invariant marked <= done && old(expanded) + [l] <= expanded
        invariant Searched(edges, marked, done, Elements(next[..i]))
      {
        assert next[..i + 1] == next[..i] + [next[i]];
        ElementsConcat(next[..i], [next[i]]);
        assert next[i] in Elements(next);
        ghost var before := done;
        if next[i] !in done {
          Inner(next[i]);
        } else {
          SearchedAlready(edges, done, next[i]);
        }
        SearchedThen(edges, marked, before, done, Elements(next[..i]), {next[i]});
        assert Elements([next[i]]) == {next[i]};
      }
      assert next[..|next|] == next;
      SearchedNode(edges, old(done), done, l);
    }

    /** Walks the inputs of the target: exactly the labels that the rule leads to are expanded, each once. */
    method IterInputs() returns (inputs: seq<Label>)
      requires Valid() && done == {} && expanded == []
      modifies this
      ensures LeastClosed(InputEdges(graph, target), {target}, Elements(inputs))
      ensures forall l :: l in inputs <==> Reachable(InputEdges(graph, target), {target}, l)
      ensures Distinct(inputs) && |inputs| > 0 && inputs[0] == target
    {
      Inner(target);
      inputs := expanded;
      SearchedIsLeast(InputEdges(graph, target), done, {target});
      LeastClosedIsReachable(InputEdges(graph, target), {target}, done);
    }
  }
}
