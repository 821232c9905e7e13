/**
 Progress of the build protocol. A run in which nothing can move any more, although something is
 unfinished, has a dependency cycle among the labels it waits for, and the cycle detector finds one.
 Every run is of bounded length, so on an acyclic graph every build comes to an end.
 */
module BuildLiveness {
  import opened BuildLabels
  import opened Reachability
  import opened Unions
  import opened BuildGraph
  import opened BuildProtocol
  import opened BuildSafety
  import opened BuildLimits
  import CycleDetector

  /** What the parser guarantees of a graph: "all" is a reserved name, labelled sources are declared
      dependencies, and packages list targets of the graph. At least one local slot is configured. */
  ghost predicate WellFormed(c: Config) {
    && WellFiled(c.graph)
    && (forall l :: l in c.graph ==> !IsAllTargets(l))
    && (forall l :: l in c.graph ==> InputLabels(c.graph[l].sources) <= DeclaredLabels(c.graph[l]))
    && (forall l, i :: l in c.members && 0 <= i < |c.members[l]| ==> c.members[l][i] in c.graph)
    && c.localSlots > 0
  }

  predicate IsCancellation(step: Step) {
    step.CancelAll? || step.Desert? || step.Abort?
  }

  /** Nothing can happen any more, short of cancelling something. */
  ghost predicate Quiet(c: Config, s: State) {
    forall step :: Enabled(c, s, step) ==> IsCancellation(step)
  }

  predicate Pending(s: State, l: Label) {
    l in s.tasks && !s.tasks[l].Published?
  }

  /** Everything asked for has an outcome. */
  ghost predicate AllDone(c: Config, s: State) {
    && (forall l :: !Pending(s, l))
    && (forall i :: 0 <= i < |c.roots| ==> HasFinished(s, RootReq(i)))
    && (forall i, run :: IsTestRoot(c, i) && Succeeded(s, RootReq(i)) && 0 <= run < TestCalls(c) ==>
          TestJob(i, run) in s.actions && s.actions[TestJob(i, run)].Ended?)
  }

  // ---------------------------------------------------------------- a quiet state

  lemma QuietJobsEnded(c: Config, s: State, j: Job)
    requires Inv(c, s) && Limits(c, s) && Quiet(c, s) && j in s.actions
    ensures s.actions[j].Ended?
  {
    assert JobOk(c, s, j);
    var remote := IsRemote(c, j);
    assert InUse(s, remote) == |Holders(c, s, remote)|;
    assert OccupiesSlot(s.actions[j]) ==> j in Holders(c, s, remote);
    assert !Enabled(c, s, Start(j)) && !Enabled(c, s, End(j, true));
  }

  lemma QuietSlotsFree(c: Config, s: State, remote: bool)
    requires Inv(c, s) && Limits(c, s) && Quiet(c, s)
    ensures InUse(s, remote) == 0
  {
    forall j | j in Holders(c, s, remote)
      ensures false
    {
      QuietJobsEnded(c, s, j);
    }
    assert Holders(c, s, remote) == {};
    assert InUse(s, remote) == |Holders(c, s, remote)|;
  }

  lemma QuietReadyJobEnded(c: Config, s: State, j: Job)
    requires Inv(c, s) && Limits(c, s) && Quiet(c, s) && c.localSlots > 0
    requires JobExists(c, j) && JobReady(c, s, j)
    ensures j in s.actions && s.actions[j].Ended?
  {
    QuietSlotsFree(c, s, IsRemote(c, j));
    assert !Enabled(c, s, Acquire(j));
    QuietJobsEnded(c, s, j);
  }

  /** A goroutine that is not finished waits for a pending label. */
  lemma QuietRequesterWaits(c: Config, s: State, r: Requester) returns (l: Label)
    requires Inv(c, s) && Quiet(c, s)
    requires Exists(c, r) && Spawned(c, s, r) && !HasFinished(s, r)
    ensures Pending(s, l) && Wanted(c, r).Some? && l in Wanted(c, r).value && Known(c, r, l)
  {
    assert !Enabled(c, s, Ask(r)) && !Enabled(c, s, Complete(r)) && !Enabled(c, s, Wake(r));
    assert ReqOk(c, s, r);
    l := Wanted(c, r).value[s.reqs[r].pos];
  }

  /** A pending task has a goroutine that is not finished. */
  lemma QuietTaskWaits(c: Config, s: State, l: Label) returns (slot: Slot)
    requires Inv(c, s) && Limits(c, s) && Quiet(c, s) && c.localSlots > 0 && Pending(s, l)
    ensures Exists(c, Worker(l, slot)) && Spawned(c, s, Worker(l, slot)) && !HasFinished(s, Worker(l, slot))
  {
    assert TaskOk(c, s, l);
    assert !Enabled(c, s, Publish(l)) && !Enabled(c, s, JoinDeps(l));
    assert !Enabled(c, s, JoinPreRun(l)) && !Enabled(c, s, JoinRun(l));
    if s.tasks[l].Deps? {
      slot :| BuildSlot(c, l, slot) && !HasFinished(s, Worker(l, slot));
    } else if s.tasks[l].PreRun? {
      slot :| RuntimeSlot(c, l, slot) && !HasFinished(s, Worker(l, slot));
    } else {
      QuietReadyJobEnded(c, s, BuildJob(l));
      if s.tasks[l].Together? {
        slot :| RuntimeSlot(c, l, slot) && !HasFinished(s, Worker(l, slot));
      } else {
        assert false;
      }
    }
  }

  /** What a goroutine of a target waits for is a resolved dependency of that target. */
  lemma WantedIsDependency(c: Config, l: Label, slot: Slot, d: Label)
    requires WellFormed(c) && l in c.graph && d in c.graph
    requires Exists(c, Worker(l, slot)) && Wanted(c, Worker(l, slot)).Some?
    requires d in Wanted(c, Worker(l, slot)).value
    ensures HasEdge(DependencyEdges(c.graph), l, d)
  {
    var t := c.graph[l];
    var e := DeclaredBy(c, Worker(l, slot));
    assert e in DeclaredLabels(t) by {
      if slot.SourceSlot? {
        assert t.sources[slot.i] in t.sources;
        assert e in InputLabels(t.sources);
      } else {
        assert t.dependencies[slot.i] in t.dependencies;
      }
    }
    assert d in Behind(c.graph, t, e);
    assert d in Resolved(c.graph, t);
  }

  ghost function PendingTargets(c: Config, s: State): set<Label> {
    set l | l in s.tasks && Pending(s, l) && l in c.graph
  }

  lemma QuietPendingIsTrap(c: Config, s: State)
    requires WellFormed(c) && Inv(c, s) && Limits(c, s) && Quiet(c, s)
    ensures Trap(DependencyEdges(c.graph), PendingTargets(c, s))
  {
    var edges, pending := DependencyEdges(c.graph), PendingTargets(c, s);
    forall l | l in pending
      ensures HasSuccessorIn(edges, pending, l)
    {
      var slot := QuietTaskWaits(c, s, l);
      var d := QuietRequesterWaits(c, s, Worker(l, slot));
      WantedIsDependency(c, l, slot, d);
      assert d in pending && HasEdge(edges, l, d);
    }
  }

  /** Anything unfinished in a quiet state comes down to a pending target. */
  lemma QuietUnfinishedHasTarget(c: Config, s: State)
    requires WellFormed(c) && Inv(c, s) && Limits(c, s) && Quiet(c, s) && !AllDone(c, s)
    ensures PendingTargets(c, s) != {}
  {
    if l :| Pending(s, l) {
      PendingLeadsToTarget(c, s, l);
    } else if i :| 0 <= i < |c.roots| && !HasFinished(s, RootReq(i)) {
      assert !Enabled(c, s, QueueTest(i));
      var l := QuietRequesterWaits(c, s, RootReq(i));
      PendingLeadsToTarget(c, s, l);
    } else {
      var i, run :| IsTestRoot(c, i) && Succeeded(s, RootReq(i)) && 0 <= run < TestCalls(c) &&
                    !(TestJob(i, run) in s.actions && s.actions[TestJob(i, run)].Ended?);
      QuietReadyJobEnded(c, s, TestJob(i, run));
      assert false;
    }
  }

  lemma PendingLeadsToTarget(c: Config, s: State, l: Label)
    requires WellFormed(c) && Inv(c, s) && Limits(c, s) && Quiet(c, s) && Pending(s, l)
    ensures PendingTargets(c, s) != {}
  {
    if l in c.graph {
      assert l in PendingTargets(c, s);
    } else {
      assert TaskOk(c, s, l);
      var slot := QuietTaskWaits(c, s, l);
      var d := QuietRequesterWaits(c, s, Worker(l, slot));
      assert d in PendingTargets(c, s);
    }
  }

  /** A run that is stuck with something unfinished is waiting round a dependency cycle. */
  lemma StuckImpliesCycle(c: Config, states: seq<State>, steps: seq<Step>) returns (cycle: seq<Label>)
    requires WellFormed(c) && IsRun(c, states, steps)
    requires Quiet(c, states[|steps|]) && !AllDone(c, states[|steps|])
    ensures IsCycle(DependencyEdges(c.graph), cycle) && Distinct(cycle)
    ensures forall i :: 0 <= i < |cycle| ==> Pending(states[|steps|], cycle[i])
  {
    var s := states[|steps|];
    RunKeepsInv(c, states, steps, |steps|);
    RunKeepsLimits(c, states, steps, |steps|);
    QuietPendingIsTrap(c, s);
    QuietUnfinishedHasTarget(c, s);
    cycle := TrapHasCycle(DependencyEdges(c.graph), PendingTargets(c, s));
  }

  /** The check that runs on a stuck build always has a cycle to report. */
  method DiagnoseStall(c: Config, allTargets: seq<Label>, ghost states: seq<State>, ghost steps: seq<Step>)
    returns (cycle: seq<Label>)
    requires WellFormed(c) && IsRun(c, states, steps)
    requires Quiet(c, states[|steps|]) && !AllDone(c, states[|steps|])
    requires Elements(allTargets) == c.graph.Keys
    ensures IsCycle(DependencyEdges(c.graph), cycle) && Distinct(cycle)
  {
    var detector := new CycleDetector.Detector(c.graph);
    cycle := detector.Check(allTargets);
    ghost var witness' := StuckImpliesCycle(c, states, steps);
    assert !Acyclic(DependencyEdges(c.graph));
  }

  /** On an acyclic graph a build that cannot go on is finished. */
  lemma AcyclicBuildFinishes(c: Config, states: seq<State>, steps: seq<Step>)
    requires WellFormed(c) && IsRun(c, states, steps) && Acyclic(DependencyEdges(c.graph))
    requires Quiet(c, states[|steps|])
    ensures AllDone(c, states[|steps|])
  {
    if !AllDone(c, states[|steps|]) {
      var cycle := StuckImpliesCycle(c, states, steps);
      assert false;
    }
  }
}
