/**
 The cycle detector that runs when a build has gone quiet.
 A depth-first search marks targets as partially and then completely visited; when it meets a
 partially visited target it collects the cycle while the recursion unwinds.
 */
module CycleDetector {
  import opened BuildLabels
  import opened Reachability
  import opened Unions
  import opened BuildGraph

  /** `stack` is the path of targets whose visit is under way. Everything below a completed target was
      completed before it. */
  ghost predicate Searching(edges: Edges<Label>, complete: set<Label>, partial: set<Label>,
                            finish: map<Label, nat>, clock: nat, stack: seq<Label>)
  {
    && complete <= edges.Keys && partial <= edges.Keys && complete !! partial
    && (forall l :: l in partial <==> l in stack)
    && (stack != [] ==> IsPath(edges, stack))
    && finish.Keys == complete
    && (forall l :: l in complete ==> finish[l] < clock)
    && (forall x, y {:trigger HasEdge(edges, x, y)} ::
          x in complete && HasEdge(edges, x, y) ==> y in complete && finish[y] < finish[x])
  }

  lemma Push(edges: Edges<Label>, complete: set<Label>, partial: set<Label>,
             finish: map<Label, nat>, clock: nat, stack: seq<Label>, target: Label)
    requires Searching(edges, complete, partial, finish, clock, stack)
    requires target in edges && target !in complete && target !in partial
    requires stack != [] ==> HasEdge(edges, stack[|stack| - 1], target)
    ensures Searching(edges, complete, partial + {target}, finish, clock, stack + [target])
  {
  }

  lemma Pop(edges: Edges<Label>, complete: set<Label>, partial: set<Label>,
            finish: map<Label, nat>, clock: nat, stack: seq<Label>, target: Label)
    requires Searching(edges, complete, partial + {target}, finish, clock, stack + [target])
    requires target in edges && target !in complete && target !in partial && target !in stack
    requires stack != [] ==> IsPath(edges, stack)
    requires forall d :: HasEdge(edges, target, d) ==> d in complete
    ensures Searching(edges, complete + {target}, partial, finish[target := clock], clock + 1, stack)
  {
    assert forall l :: l in stack + [target] <==> l in stack || l == target;
  }

  class Detector {
    const graph: Graph
    ghost const edges: Edges<Label>
    var complete: set<Label>
    var partial: set<Label>
    /** The completed targets, ranked by the order in which they were completed. */
    ghost var finish: map<Label, nat>
    ghost var clock: nat

    ghost predicate Valid(stack: seq<Label>)
      reads this
    {
      && WellFiled(graph)
      && edges == DependencyEdges(graph)
      && Searching(edges, complete, partial, finish, clock, stack)
    }

    constructor (graph: Graph)
      requires WellFiled(graph)
      ensures Valid([]) && this.graph == graph && complete == {}
    {
      this.graph, edges := graph, DependencyEdges(graph);
      complete, partial, finish, clock := {}, {}, map[], 0;
    }

    /** A path from `target` that has met the stack again; it still lacks the callers up to that point. */
    ghost predicate OpenCycle(cycle: seq<Label>, target: Label, stack: seq<Label>) {
      && IsPath(edges, cycle)
      && cycle[0] == target
      && cycle[|cycle| - 1] in stack
      && Distinct(cycle)
      && forall i :: 0 <= i < |cycle| - 1 ==> cycle[i] !in stack
    }

    method Successors(target: Label) returns (deps: seq<Label>)
      requires edges == DependencyEdges(graph) && target in graph
      ensures forall d :: d in deps <==> HasEdge(edges, target, d)
      ensures forall d :: d in deps ==> d in graph
    {
      var unresolved;
      deps, unresolved := Dependencies(graph, graph[target]);
      assert forall d :: d in deps <==> d in Resolved(graph, graph[target]);
    }

    /** Visits a target and all its transitive dependencies. An empty cycle means there is none below
        the target; otherwise `done` says whether the callers have anything to add to it. */
    method Visit(target: Label, ghost stack: seq<Label>) returns (cycle: seq<Label>, done: bool)
      requires Valid(stack) && target in graph
      requires stack != [] ==> HasEdge(edges, stack[|stack| - 1], target)
      modifies this
      ensures cycle == [] ==>
                Valid(stack) && target in complete && old(complete) <= complete && partial == old(partial)
      ensures cycle != [] && done ==> IsCycle(edges, cycle) && Distinct(cycle)
      ensures cycle != [] && !done ==> OpenCycle(cycle, target, stack)
      decreases graph.Keys - complete - partial
    {
      if target in complete {
        return [], false;
      } else if target in partial {
        return [target], false;
      }
      partial := partial + {target};
      ghost var inner := stack + [target];
      Push(edges, complete, old(partial), finish, clock, stack, target);
      var deps := Successors(target);
      for i := 0 to |deps|
        invariant Valid(inner)
        invariant partial == old(partial) + {target} && old(complete) <= complete
        invariant forall j :: 0 <= j < i ==> deps[j] in complete
      {
        assert HasEdge(edges, target, deps[i]);
        cycle, done := Visit(deps[i], inner);
        if cycle != [] {
          if done || target == cycle[|cycle| - 1] {
            if !done {
              CloseCycle(cycle, target, deps[i], inner);
            }
            return cycle, true;
          }
          ExtendCycle(cycle, target, deps[i], stack);
          return [target] + cycle, false;
        }
      }
      Pop(edges, complete, old(partial), finish, clock, stack, target);
      partial := partial - {target};
      finish, clock := finish[target := clock], clock + 1;
      complete := complete + {target};
      assert partial == old(partial);
      return [], false;
    }

    lemma CloseCycle(cycle: seq<Label>, target: Label, dep: Label, inner: seq<Label>)
      requires OpenCycle(cycle, dep, inner)
      requires HasEdge(edges, target, dep) && cycle[|cycle| - 1] == target
      ensures IsCycle(edges, cycle)
    {
    }

    lemma ExtendCycle(cycle: seq<Label>, target: Label, dep: Label, stack: seq<Label>)
      requires OpenCycle(cycle, dep, stack + [target])
      requires HasEdge(edges, target, dep) && cycle[|cycle| - 1] != target
      requires target !in stack
      ensures OpenCycle([target] + cycle, target, stack)
    {
      var longer := [target] + cycle;
      forall i | 0 <= i < |longer| - 1
        ensures HasEdge(edges, longer[i], longer[i + 1])
      {
        if i > 0 {
          assert HasEdge(edges, cycle[i - 1], cycle[i - 1 + 1]);
        }
      }
      assert forall i :: 0 <= i < |cycle| - 1 ==> cycle[i] !in stack + [target];
      assert target in stack + [target];
      assert forall l :: l in stack ==> l in stack + [target];
    }

    /** Runs the detector over every target of the graph, in the given order. */
    method Check(allTargets: seq<Label>) returns (cycle: seq<Label>)
      requires Valid([]) && complete == {}
      requires Elements(allTargets) == graph.Keys
      modifies this
      ensures cycle == [] <==> Acyclic(DependencyEdges(graph))
      ensures cycle != [] ==> IsCycle(DependencyEdges(graph), cycle) && Distinct(cycle)
    {
      for i := 0 to |allTargets|
        invariant Valid([])
        invariant Elements(allTargets[..i]) <= complete
      {
        assert allTargets[i] in Elements(allTargets);
        if allTargets[i] !in complete {
          var done;
          cycle, done := Visit(allTargets[i], []);
          if cycle != [] {
            return cycle;
          }
        }
      }
      assert complete == graph.Keys;
      assert edges == DependencyEdges(graph);
      forall x, y | x in edges && y in edges[x] && y in edges
        ensures finish[y] < finish[x]
      {
        assert HasEdge(edges, x, y);
      }
      RankedIsAcyclic(edges, finish);
      return [];
    }
  }
}
