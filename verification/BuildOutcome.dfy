/**
 Keep-going builds: the outcome of every label is decided by the graph and by which actions succeed,
 not by how the goroutines are scheduled.
 */
module BuildOutcome {
  import opened Options
  import opened BuildLabels
  import opened BuildGraph
  import opened BuildProtocol
  import opened BuildSafety

  /** One of the goroutines that build something for `l`. */
  predicate WorksFor(c: Config, l: Label, slot: Slot) {
    BuildSlot(c, l, slot) || RuntimeSlot(c, l, slot)
  }

  /** `d` is one of the labels built on behalf of `l`. */
  predicate AskedFor(c: Config, l: Label, slot: Slot, d: Label) {
    WorksFor(c, l, slot) && Wanted(c, Worker(l, slot)).Some? && d in Wanted(c, Worker(l, slot)).value
  }

  /** `l` exists, its own action succeeds, and everything it asks for can be looked up. */
  ghost predicate SoundItself(c: Config, succeeds: set<Label>, l: Label) {
    && (if IsAllTargets(l) then l in c.members else l in c.graph && l in succeeds)
    && (forall slot :: WorksFor(c, l, slot) ==> Wanted(c, Worker(l, slot)).Some?)
    && (forall slot, d :: AskedFor(c, l, slot, d) ==> Known(c, Worker(l, slot), d))
  }

  /** The labels whose goroutines can all succeed when exactly the actions in `succeeds` do. */
  least predicate Completes(c: Config, succeeds: set<Label>, l: Label) {
    && SoundItself(c, succeeds, l)
    && (forall slot, d :: AskedFor(c, l, slot, d) ==> Completes(c, succeeds, d))
  }

  // ---------------------------------------------------------------- what the graph says

  /** The labels that can be built when exactly the actions in `succeeds` succeed: a target whose own action does and for
      which everything behind its declared dependencies, of whatever kind, is in the graph and can be built; a package
      all of whose included targets can. */
  least predicate Buildable(c: Config, succeeds: set<Label>, l: Label) {
    if IsAllTargets(l) then
      l in c.members && forall m :: m in c.members[l] ==> (m in c.graph || IsAllTargets(m)) && Buildable(c, succeeds, m)
    else
      && l in c.graph && l in succeeds
      && (forall e :: IsNeeded(c.graph[l], e) ==> e in c.graph)
      && (forall e, d :: IsNeeded(c.graph[l], e) && e in c.graph && d in ProvideFor(c.graph[e], c.graph[l]) ==>
            d in c.graph && Buildable(c, succeeds, d))
  }

  /** `e` is a declared dependency or a labelled source. */
  ghost predicate IsNeeded(t: Target, e: Label) {
    e in DeclaredLabels(t) || Output(e) in t.sources
  }

  lemma NeededHasSlot(c: Config, l: Label, e: Label) returns (slot: Slot)
    requires l in c.graph && !IsAllTargets(l) && IsNeeded(c.graph[l], e)
    ensures WorksFor(c, l, slot) && !slot.MemberSlot? && DeclaredBy(c, Worker(l, slot)) == e
  {
    GroupsAreExact(c, l, e);
    var t := c.graph[l];
    if NeededToBuild(t, e) {
      slot :| BuildSlot(c, l, slot) && DeclaredBy(c, Worker(l, slot)) == e;
    } else {
      var i :| 0 <= i < |t.dependencies| && t.dependencies[i].id == e;
      assert NeededToRun(t, e);
      slot :| RuntimeSlot(c, l, slot) && DeclaredBy(c, Worker(l, slot)) == e;
    }
  }

  lemma SlotIsNeeded(c: Config, l: Label, slot: Slot)
    requires WorksFor(c, l, slot) && !IsAllTargets(l)
    ensures l in c.graph && IsNeeded(c.graph[l], DeclaredBy(c, Worker(l, slot)))
  {
    var t := c.graph[l];
    match slot
    case SourceSlot(i) => assert t.sources[i] == Output(t.sources[i].id);
    case DepSlot(i) => assert t.dependencies[i] in t.dependencies;
    case RunSlot(i) => assert t.dependencies[i] in t.dependencies;
    case MemberSlot(_) =>
  }

  /** The goroutines of a label can all succeed only if it can be built. */
  least lemma CompletesIsBuildable(c: Config, succeeds: set<Label>, l: Label)
    requires Completes(c, succeeds, l)
    ensures Buildable(c, succeeds, l)
  {
    if IsAllTargets(l) {
      forall m | m in c.members[l]
        ensures (m in c.graph || IsAllTargets(m)) && Buildable(c, succeeds, m)
      {
        var i :| 0 <= i < |c.members[l]| && c.members[l][i] == m;
        assert AskedFor(c, l, MemberSlot(i), m);
        CompletesIsBuildable(c, succeeds, m);
      }
    } else {
      forall e | IsNeeded(c.graph[l], e)
        ensures e in c.graph
        ensures forall d :: d in ProvideFor(c.graph[e], c.graph[l]) ==> d in c.graph && Buildable(c, succeeds, d)
      {
        var slot := NeededHasSlot(c, l, e);
        forall d | d in ProvideFor(c.graph[e], c.graph[l])
          ensures d in c.graph && Buildable(c, succeeds, d)
        {
          assert AskedFor(c, l, slot, d);
          CompletesIsBuildable(c, succeeds, d);
        }
      }
    }
  }

  /** And they all succeed if it can. */
  least lemma BuildableCompletes(c: Config, succeeds: set<Label>, l: Label)
    requires Buildable(c, succeeds, l)
    ensures Completes(c, succeeds, l)
  {
    forall slot | WorksFor(c, l, slot)
      ensures Wanted(c, Worker(l, slot)).Some?
      ensures forall d :: d in Wanted(c, Worker(l, slot)).value ==>
                Known(c, Worker(l, slot), d) && Completes(c, succeeds, d)
    {
      if !IsAllTargets(l) {
        SlotIsNeeded(c, l, slot);
      }
      forall d | d in Wanted(c, Worker(l, slot)).value
        ensures Known(c, Worker(l, slot), d) && Completes(c, succeeds, d)
      {
        BuildableCompletes(c, succeeds, d);
      }
    }
    assert SoundItself(c, succeeds, l);
    assert forall slot, d :: AskedFor(c, l, slot, d) ==> Completes(c, succeeds, d);
  }

  lemma BuildableIffCompletes(c: Config, succeeds: set<Label>, l: Label)
    ensures Buildable(c, succeeds, l) <==> Completes(c, succeeds, l)
  {
    if Buildable(c, succeeds, l) {
      BuildableCompletes(c, succeeds, l);
    }
    if Completes(c, succeeds, l) {
      CompletesIsBuildable(c, succeeds, l);
    }
  }

  /** A goroutine whose list contains something that cannot be built. */
  ghost predicate Hopeless(c: Config, succeeds: set<Label>, r: Requester) {
    Exists(c, r) &&
    (Wanted(c, r).None? || exists d :: d in Wanted(c, r).value && (!Known(c, r, d) || !Completes(c, succeeds, d)))
  }

  /** What is known about outcomes in a keep-going run that is not cancelled. */
  ghost predicate Decided(c: Config, succeeds: set<Label>, s: State) {
    && c.keepGoing && !s.cancelled
    && (forall j :: j in s.actions && s.actions[j].Ended? ==>
          s.actions[j].ran && (j.BuildJob? ==> (s.actions[j].ok <==> j.target in succeeds)))
    && (forall r :: r in s.reqs && s.reqs[r] == Finished(false) ==> Hopeless(c, succeeds, r))
    && (forall l :: l in s.tasks && PhaseRank(s.tasks[l]) >= 3 ==> (s.tasks[l].ok <==> Completes(c, succeeds, l)))
  }

  /** The step neither cancels the run nor lets an action end otherwise than given. */
  predicate Expected(succeeds: set<Label>, step: Step) {
    && !step.CancelAll?
    && (step.End? && step.job.BuildJob? ==> (step.ok <==> step.job.target in succeeds))
  }

  lemma HopelessSlotDooms(c: Config, succeeds: set<Label>, l: Label, slot: Slot)
    requires WorksFor(c, l, slot) && Hopeless(c, succeeds, Worker(l, slot))
    ensures !Completes(c, succeeds, l)
  {
    if Completes(c, succeeds, l) && Wanted(c, Worker(l, slot)).Some? {
      var d :| d in Wanted(c, Worker(l, slot)).value &&
               (!Known(c, Worker(l, slot), d) || !Completes(c, succeeds, d));
      assert AskedFor(c, l, slot, d);
    }
  }

  lemma UnresolvedDooms(c: Config, succeeds: set<Label>, l: Label)
    requires !RuntimeResolved(c, l)
    ensures !Completes(c, succeeds, l)
  {
    var slot :| RuntimeSlot(c, l, slot) &&
                var w := Wanted(c, Worker(l, slot));
                !(w.Some? && forall k :: 0 <= k < |w.value| ==> w.value[k] in c.graph);
    if Wanted(c, Worker(l, slot)).Some? {
      var w := Wanted(c, Worker(l, slot)).value;
      var k :| 0 <= k < |w| && w[k] !in c.graph;
      assert AskedFor(c, l, slot, w[k]) && !Known(c, Worker(l, slot), w[k]);
    }
  }

  lemma FailedSlotDooms(c: Config, succeeds: set<Label>, s: State, l: Label, slot: Slot)
    requires Decided(c, succeeds, s) && WorksFor(c, l, slot)
    requires HasFinished(s, Worker(l, slot)) && !Succeeded(s, Worker(l, slot))
    ensures !Completes(c, succeeds, l)
  {
    assert s.reqs[Worker(l, slot)] == Finished(false);
    HopelessSlotDooms(c, succeeds, l, slot);
  }

  /** If every goroutine of `l` came back with success and its own action succeeds, `l` is buildable. */
  lemma AllSucceededIsBuildable(c: Config, succeeds: set<Label>, s: State, l: Label)
    requires Inv(c, s) && forall d :: Built(s, d) ==> Completes(c, succeeds, d)
    requires forall slot :: WorksFor(c, l, slot) ==> Succeeded(s, Worker(l, slot))
    requires if IsAllTargets(l) then l in c.members else l in c.graph && l in succeeds
    ensures Completes(c, succeeds, l)
  {
    forall slot | WorksFor(c, l, slot)
      ensures Wanted(c, Worker(l, slot)).Some?
      ensures forall d :: d in Wanted(c, Worker(l, slot)).value ==>
                Known(c, Worker(l, slot), d) && Completes(c, succeeds, d)
    {
      SucceededMeansBuilt(c, s, Worker(l, slot));
    }
    assert SoundItself(c, succeeds, l);
    assert forall slot, d :: AskedFor(c, l, slot, d) ==> Completes(c, succeeds, d);
  }

  // ---------------------------------------------------------------- what is built can be built

  /** Nothing has come out as built that cannot be. */
  ghost predicate Sound(c: Config, succeeds: set<Label>, s: State) {
    && (forall l :: l in s.tasks && PhaseRank(s.tasks[l]) >= 3 && s.tasks[l].ok ==> Completes(c, succeeds, l))
    && (forall l :: BuildJob(l) in s.actions && s.actions[BuildJob(l)].Ended? && s.actions[BuildJob(l)].ok ==> l in succeeds)
  }

  /** Only actions in `succeeds` end with success; they may also fail, or be given up. */
  predicate Allowed(succeeds: set<Label>, step: Step) {
    step.End? && step.job.BuildJob? && step.ok ==> step.job.target in succeeds
  }

  lemma JoinIsSound(c: Config, succeeds: set<Label>, s: State, step: Step)
    requires Inv(c, s) && Sound(c, succeeds, s) && Enabled(c, s, step)
    requires step.JoinDeps? || step.JoinPreRun? || step.JoinRun?
    ensures var p := Apply(c, s, step).tasks[step.l]; p.Returned? && p.ok ==> Completes(c, succeeds, step.l)
  {
    var l, p := step.l, Apply(c, s, step).tasks[step.l];
    assert TaskOk(c, s, l) && JobOk(c, s, BuildJob(l));
    if p.Returned? && p.ok {
      AllSucceededIsBuildable(c, succeeds, s, l);
    }
  }

  lemma StepKeepsSound(c: Config, succeeds: set<Label>, s: State, step: Step)
    requires Inv(c, s) && Sound(c, succeeds, s) && Enabled(c, s, step) && Allowed(succeeds, step)
    ensures Sound(c, succeeds, Apply(c, s, step))
  {
    if step.JoinDeps? || step.JoinPreRun? || step.JoinRun? {
      JoinIsSound(c, succeeds, s, step);
    } else if step.Ask? {
      AskKeepsSound(c, succeeds, s, step.r);
    } else {
      OtherStepKeepsSound(c, succeeds, s, step);
    }
  }

  lemma AskKeepsSound(c: Config, succeeds: set<Label>, s: State, r: Requester)
    requires Sound(c, succeeds, s) && CanAsk(c, s, r)
    ensures Sound(c, succeeds, DoAsk(c, s, r))
  {
    var s' := DoAsk(c, s, r);
    assert s'.actions == s.actions;
    assert forall l :: l in s'.tasks ==> s'.tasks[l].Deps? || (l in s.tasks && s'.tasks[l] == s.tasks[l]);
  }

  lemma OtherStepKeepsSound(c: Config, succeeds: set<Label>, s: State, step: Step)
    requires Sound(c, succeeds, s) && Enabled(c, s, step) && Allowed(succeeds, step)
    requires !step.JoinDeps? && !step.JoinPreRun? && !step.JoinRun? && !step.Ask?
    ensures Sound(c, succeeds, Apply(c, s, step))
  {
  }

  lemma {:induction false} RunIsSound(c: Config, succeeds: set<Label>, states: seq<State>, steps: seq<Step>, i: nat)
    requires IsRun(c, states, steps) && i < |states|
    requires forall k :: 0 <= k < |steps| ==> Allowed(succeeds, steps[k])
    ensures Sound(c, succeeds, states[i])
  {
    if i > 0 {
      RunIsSound(c, succeeds, states, steps, i - 1);
      RunKeepsInv(c, states, steps, i - 1);
      assert StepAt(c, states, steps, i - 1);
      StepKeepsSound(c, succeeds, states[i - 1], steps[i - 1]);
    }
  }

  /** In every run, with or without keep-going, with failures and cancellation, a label is published as built only
      if it can be built with the actions that succeeded. */
  lemma BuiltIsBuildable(c: Config, succeeds: set<Label>, states: seq<State>, steps: seq<Step>, i: nat, l: Label)
    requires IsRun(c, states, steps) && i < |states| && Built(states[i], l)
    requires forall k :: 0 <= k < |steps| ==> Allowed(succeeds, steps[k])
    ensures Buildable(c, succeeds, l)
  {
    RunIsSound(c, succeeds, states, steps, i);
    BuildableIffCompletes(c, succeeds, l);
  }

  // ---------------------------------------------------------------- every step keeps it

  lemma ReqSetKeepsDecided(c: Config, succeeds: set<Label>, s: State, r: Requester, x: ReqState)
    requires Decided(c, succeeds, s)
    requires x == Finished(false) ==> Hopeless(c, succeeds, r)
    ensures Decided(c, succeeds, s.(reqs := s.reqs[r := x]))
  {
  }

  lemma RequestKeepsDecided(c: Config, succeeds: set<Label>, s: State, r: Requester, l: Label, pos: nat)
    requires Decided(c, succeeds, s)
    requires Exists(c, r) && Wanted(c, r).Some? && l in Wanted(c, r).value
    ensures Decided(c, succeeds, Request(s, r, l, pos))
  {
    if l in s.tasks {
      ReqSetKeepsDecided(c, succeeds, s, r, Request(s, r, l, pos).reqs[r]);
    }
  }

  lemma AskKeepsDecided(c: Config, succeeds: set<Label>, s: State, r: Requester)
    requires Decided(c, succeeds, s) && CanAsk(c, s, r)
    ensures Decided(c, succeeds, DoAsk(c, s, r))
  {
    var w, pos := Wanted(c, r), ReqOf(s, r).pos;
    if w.None? || !Known(c, r, w.value[pos]) {
      ReqSetKeepsDecided(c, succeeds, s, r, Finished(false));
    } else {
      RequestKeepsDecided(c, succeeds, s, r, w.value[pos], pos);
    }
  }

  lemma WakeKeepsDecided(c: Config, succeeds: set<Label>, s: State, r: Requester)
    requires Inv(c, s) && Decided(c, succeeds, s) && Enabled(c, s, Wake(r))
    ensures Decided(c, succeeds, Apply(c, s, Wake(r)))
  {
    assert Wanted(c, r).value[s.reqs[r].pos] in Wanted(c, r).value;
  }

  lemma EnterKeepsDecided(c: Config, succeeds: set<Label>, s: State, l: Label, p: Phase)
    requires Decided(c, succeeds, s) && l in s.tasks
    requires PhaseRank(p) >= 3 ==> (p.ok <==> Completes(c, succeeds, l))
    ensures Decided(c, succeeds, Enter(s, l, p))
  {
  }

  lemma DepsJoinIsRight(c: Config, succeeds: set<Label>, s: State, l: Label)
    requires Inv(c, s) && Decided(c, succeeds, s) && Enabled(c, s, JoinDeps(l))
    ensures var p := PhaseAfterDeps(c, s, l); p.Returned? ==> (p.ok <==> Completes(c, succeeds, l))
  {
    if !DepsOk(c, s, l) {
      var slot :| BuildSlot(c, l, slot) && !Succeeded(s, Worker(l, slot));
      FailedSlotDooms(c, succeeds, s, l, slot);
    } else if IsAllTargets(l) {
      if l in c.members {
        AllSucceededIsBuildable(c, succeeds, s, l);
      }
    } else if !RuntimeResolved(c, l) {
      UnresolvedDooms(c, succeeds, l);
    }
  }

  lemma PreRunJoinIsRight(c: Config, succeeds: set<Label>, s: State, l: Label)
    requires Inv(c, s) && Decided(c, succeeds, s) && Enabled(c, s, JoinPreRun(l))
    ensures var p := PhaseAfterPreRun(c, s, l); p.Returned? ==> (p.ok <==> Completes(c, succeeds, l))
  {
    if !RuntimeOk(c, s, l) {
      var slot :| RuntimeSlot(c, l, slot) && !Succeeded(s, Worker(l, slot));
      FailedSlotDooms(c, succeeds, s, l, slot);
    }
  }

  lemma RunJoinIsRight(c: Config, succeeds: set<Label>, s: State, l: Label)
    requires Inv(c, s) && Decided(c, succeeds, s) && Enabled(c, s, JoinRun(l))
    ensures PhaseAfterRun(c, s, l).ok <==> Completes(c, succeeds, l)
  {
    assert TaskOk(c, s, l) && JobOk(c, s, BuildJob(l));
    if !s.actions[BuildJob(l)].ok {
      assert l !in succeeds;
    } else if !RuntimeOk(c, s, l) {
      var slot :| RuntimeSlot(c, l, slot) && !Succeeded(s, Worker(l, slot));
      FailedSlotDooms(c, succeeds, s, l, slot);
    } else {
      AllSucceededIsBuildable(c, succeeds, s, l);
    }
  }

  lemma PublishKeepsDecided(c: Config, succeeds: set<Label>, s: State, l: Label)
    requires Decided(c, succeeds, s) && Enabled(c, s, Publish(l))
    ensures Decided(c, succeeds, Apply(c, s, Publish(l)))
  {
    EnterKeepsDecided(c, succeeds, s, l, Published(s.tasks[l].ok));
  }

  lemma ActionKeepsDecided(c: Config, succeeds: set<Label>, s: State, step: Step)
    requires Decided(c, succeeds, s) && Enabled(c, s, step) && Expected(succeeds, step)
    requires step.Acquire? || step.Start? || step.Abort? || step.End?
    ensures Decided(c, succeeds, Apply(c, s, step))
  {
  }

  lemma StepKeepsDecided(c: Config, succeeds: set<Label>, s: State, step: Step)
    requires Inv(c, s) && Decided(c, succeeds, s) && Enabled(c, s, step) && Expected(succeeds, step)
    ensures Decided(c, succeeds, Apply(c, s, step))
  {
    match step
    case Ask(r) => AskKeepsDecided(c, succeeds, s, r);
    case Wake(r) => WakeKeepsDecided(c, succeeds, s, r);
    case JoinDeps(l) =>
      DepsJoinIsRight(c, succeeds, s, l);
      EnterKeepsDecided(c, succeeds, s, l, PhaseAfterDeps(c, s, l));
    case JoinPreRun(l) =>
      PreRunJoinIsRight(c, succeeds, s, l);
      EnterKeepsDecided(c, succeeds, s, l, PhaseAfterPreRun(c, s, l));
    case JoinRun(l) =>
      RunJoinIsRight(c, succeeds, s, l);
      EnterKeepsDecided(c, succeeds, s, l, PhaseAfterRun(c, s, l));
    case Publish(l) => PublishKeepsDecided(c, succeeds, s, l);
    case Acquire(j) => ActionKeepsDecided(c, succeeds, s, step);
    case Start(j) => ActionKeepsDecided(c, succeeds, s, step);
    case Abort(j) => ActionKeepsDecided(c, succeeds, s, step);
    case End(j, ok) => ActionKeepsDecided(c, succeeds, s, step);
    case _ =>
  }

  lemma {:induction false} RunKeepsDecided(c: Config, succeeds: set<Label>, states: seq<State>, steps: seq<Step>, i: nat)
    requires c.keepGoing && IsRun(c, states, steps) && i < |states|
    requires forall k :: 0 <= k < |steps| ==> Expected(succeeds, steps[k])
    ensures Decided(c, succeeds, states[i])
  {
    if i > 0 {
      RunKeepsDecided(c, succeeds, states, steps, i - 1);
      RunKeepsInv(c, states, steps, i - 1);
      assert StepAt(c, states, steps, i - 1);
      StepKeepsDecided(c, succeeds, states[i - 1], steps[i - 1]);
    }
  }

  /** With keep-going and no cancellation a label is published as built exactly when it can be built. */
  lemma OutcomeIsDetermined(c: Config, succeeds: set<Label>, states: seq<State>, steps: seq<Step>, i: nat, l: Label)
    requires c.keepGoing && IsRun(c, states, steps) && i < |states|
    requires forall k :: 0 <= k < |steps| ==> Expected(succeeds, steps[k])
    requires IsPublished(states[i], l)
    ensures states[i].tasks[l].ok <==> Buildable(c, succeeds, l)
  {
    RunKeepsDecided(c, succeeds, states, steps, i);
    BuildableIffCompletes(c, succeeds, l);
  }

  /** And a command-line target finishes with success exactly when it can be built. */
  lemma RootOutcomeIsDetermined(c: Config, succeeds: set<Label>, states: seq<State>, steps: seq<Step>, i: nat, root: nat)
    requires c.keepGoing && IsRun(c, states, steps) && i < |states|
    requires forall k :: 0 <= k < |steps| ==> Expected(succeeds, steps[k])
    requires root < |c.roots| && HasFinished(states[i], RootReq(root))
    ensures Succeeded(states[i], RootReq(root)) <==> Buildable(c, succeeds, c.roots[root].target)
  {
    BuildableIffCompletes(c, succeeds, c.roots[root].target);
    RunKeepsDecided(c, succeeds, states, steps, i);
    RunKeepsInv(c, states, steps, i);
    var s, l := states[i], c.roots[root].target;
    assert Wanted(c, RootReq(root)) == Some([l]);
    if Succeeded(s, RootReq(root)) {
      SucceededMeansBuilt(c, s, RootReq(root));
      assert l in Wanted(c, RootReq(root)).value;
      assert Built(s, l);
    } else {
      assert s.reqs[RootReq(root)] == Finished(false);
      assert Hopeless(c, succeeds, RootReq(root));
      assert !Known(c, RootReq(root), l) ==> !SoundItself(c, succeeds, l);
    }
  }

  // ---------------------------------------------------------------- nothing fails without a cause

  /** Everything behind what `l` declares is in the graph, or in its package. */
  ghost predicate Findable(c: Config, l: Label) {
    if IsAllTargets(l) then
      l in c.members && forall m :: m in c.members[l] ==> m in c.graph || IsAllTargets(m)
    else
      l in c.graph && forall e :: IsNeeded(c.graph[l], e) ==> ResolvedBehind(c, c.graph[l], e)
  }

  /** The run was not cancelled, no build action ran and failed, and nothing that was asked for is missing. */
  ghost predicate Blameless(c: Config, s: State) {
    && !s.cancelled
    && (forall l :: BuildJob(l) in s.actions ==> s.actions[BuildJob(l)] != Ended(true, false))
    && (forall l :: l in s.tasks ==> Findable(c, l))
    && (forall i :: 0 <= i < |c.roots| ==> c.roots[i].target in c.graph || IsAllTargets(c.roots[i].target))
  }

  /** No goroutine gave up, no label came out as failed, and no action was given up. */
  ghost predicate AllGoesWell(s: State) {
    && (forall r :: HasFinished(s, r) ==> Succeeded(s, r))
    && (forall l :: l in s.tasks && PhaseRank(s.tasks[l]) >= 3 ==> s.tasks[l].ok)
    && (forall j :: j in s.actions && s.actions[j].Ended? ==> s.actions[j].ran)
  }

  lemma WantedIsFound(c: Config, s: State, r: Requester)
    requires Blameless(c, s) && Exists(c, r) && Spawned(c, s, r)
    ensures Wanted(c, r).Some? && forall d :: d in Wanted(c, r).value ==> Known(c, r, d)
  {
    if r.Worker? {
      assert Findable(c, r.owner);
      if !IsAllTargets(r.owner) {
        SlotIsNeeded(c, r.owner, r.slot);
        assert ResolvedBehind(c, c.graph[r.owner], DeclaredBy(c, r));
      }
    }
  }

  lemma FoundIsRuntimeResolved(c: Config, l: Label)
    requires !IsAllTargets(l) && Findable(c, l)
    ensures RuntimeResolved(c, l)
  {
    forall slot | RuntimeSlot(c, l, slot)
      ensures Wanted(c, Worker(l, slot)).Some?
      ensures forall d :: d in Wanted(c, Worker(l, slot)).value ==> d in c.graph
    {
      SlotIsNeeded(c, l, slot);
      assert ResolvedBehind(c, c.graph[l], DeclaredBy(c, Worker(l, slot)));
    }
  }

  lemma BlamelessBefore(c: Config, s: State, step: Step)
    requires Enabled(c, s, step) && Blameless(c, Apply(c, s, step))
    ensures Blameless(c, s)
  {
    StepExtends(c, s, step);
    var s' := Apply(c, s, step);
    assert s.cancelled ==> s'.cancelled;
    forall l | BuildJob(l) in s.actions
      ensures s.actions[BuildJob(l)] != Ended(true, false)
    {
      assert s.actions[BuildJob(l)].Ended? ==> s'.actions[BuildJob(l)] == s.actions[BuildJob(l)];
    }
  }

  lemma ReqSetGoesWell(s: State, r: Requester, x: ReqState)
    requires AllGoesWell(s) && (x.Finished? ==> x.ok)
    ensures AllGoesWell(s.(reqs := s.reqs[r := x]))
  {
    var s' := s.(reqs := s.reqs[r := x]);
    forall q | HasFinished(s', q)
      ensures Succeeded(s', q)
    {
      assert q != r ==> HasFinished(s, q);
    }
  }

  lemma EnterGoesWell(s: State, l: Label, p: Phase)
    requires AllGoesWell(s) && (PhaseRank(p) >= 3 ==> p.ok)
    ensures AllGoesWell(Enter(s, l, p))
  {
    var s' := Enter(s, l, p);
    forall q | HasFinished(s', q)
      ensures Succeeded(s', q)
    {
      assert HasFinished(s, q);
    }
  }

  lemma AskGoesWell(c: Config, s: State, r: Requester)
    requires Blameless(c, s) && AllGoesWell(s) && CanAsk(c, s, r)
    ensures AllGoesWell(DoAsk(c, s, r))
  {
    WantedIsFound(c, s, r);
    var pos := ReqOf(s, r).pos;
    var l := Wanted(c, r).value[pos];
    assert l in Wanted(c, r).value;
    if l !in s.tasks {
      EnterGoesWell(s, l, Deps);
      ReqSetGoesWell(Enter(s, l, Deps), r, Waiting(pos, true));
      CountersDoNotMatter(Enter(s, l, Deps).(reqs := s.reqs[r := Waiting(pos, true)]), DoAsk(c, s, r));
    } else {
      ReqSetGoesWell(s, r, Request(s, r, l, pos).reqs[r]);
    }
  }

  lemma CountersDoNotMatter(s: State, s': State)
    requires AllGoesWell(s) && s'.reqs == s.reqs && s'.tasks == s.tasks && s'.actions == s.actions
    ensures AllGoesWell(s')
  {
    forall q | HasFinished(s', q)
      ensures Succeeded(s', q)
    {
      assert HasFinished(s, q);
    }
  }

  lemma JoinGoesWell(c: Config, s: State, step: Step)
    requires Inv(c, s) && Blameless(c, s) && AllGoesWell(s) && Enabled(c, s, step)
    requires step.JoinDeps? || step.JoinPreRun? || step.JoinRun?
    ensures AllGoesWell(Apply(c, s, step))
  {
    var l := step.l;
    assert TaskOk(c, s, l) && JobOk(c, s, BuildJob(l)) && Findable(c, l);
    if !IsAllTargets(l) {
      FoundIsRuntimeResolved(c, l);
    }
    assert DepsFinished(c, s, l) ==> DepsOk(c, s, l);
    assert RuntimeFinished(c, s, l) ==> RuntimeOk(c, s, l);
    EnterGoesWell(s, l, Apply(c, s, step).tasks[l]);
    CountersDoNotMatter(Enter(s, l, Apply(c, s, step).tasks[l]), Apply(c, s, step));
  }

  lemma WakeGoesWell(c: Config, s: State, r: Requester)
    requires AllGoesWell(s) && Enabled(c, s, Wake(r))
    ensures AllGoesWell(Apply(c, s, Wake(r)))
  {
    ReqSetGoesWell(s, r, Apply(c, s, Wake(r)).reqs[r]);
  }

  lemma ActionGoesWell(c: Config, s: State, step: Step)
    requires AllGoesWell(s) && Enabled(c, s, step)
    requires step.CancelAll? || step.QueueTest? || step.Acquire? || step.Start? || step.End?
    ensures AllGoesWell(Apply(c, s, step))
  {
    var s' := Apply(c, s, step);
    forall q | HasFinished(s', q)
      ensures Succeeded(s', q)
    {
      assert HasFinished(s, q);
    }
  }

  lemma NothingToGiveUp(c: Config, s: State)
    requires Blameless(c, s) && AllGoesWell(s)
    ensures !Cancellable(c, s)
  {
    forall j | j in s.actions && j.BuildJob? && s.actions[j].Ended?
      ensures s.actions[j].ok
    {
      assert j == BuildJob(j.target);
    }
    assert forall r :: r in s.reqs && s.reqs[r].Finished? ==> HasFinished(s, r);
  }

  lemma StepGoesWell(c: Config, s: State, step: Step)
    requires Inv(c, s) && Blameless(c, s) && AllGoesWell(s) && Enabled(c, s, step)
    ensures AllGoesWell(Apply(c, s, step))
  {
    NothingToGiveUp(c, s);
    match step
    case Ask(r) => AskGoesWell(c, s, r);
    case Wake(r) => WakeGoesWell(c, s, r);
    case Complete(r) => ReqSetGoesWell(s, r, Finished(true));
    case JoinDeps(_) => JoinGoesWell(c, s, step);
    case JoinPreRun(_) => JoinGoesWell(c, s, step);
    case JoinRun(_) => JoinGoesWell(c, s, step);
    case Publish(l) => EnterGoesWell(s, l, Published(s.tasks[l].ok));
    case _ => ActionGoesWell(c, s, step);
  }

  lemma {:induction false} BlamelessRunGoesWell(c: Config, states: seq<State>, steps: seq<Step>, i: nat)
    requires IsRun(c, states, steps) && i < |states| && Blameless(c, states[i])
    ensures AllGoesWell(states[i])
  {
    if i > 0 {
      assert StepAt(c, states, steps, i - 1);
      BlamelessBefore(c, states[i - 1], steps[i - 1]);
      BlamelessRunGoesWell(c, states, steps, i - 1);
      RunKeepsInv(c, states, steps, i - 1);
      StepGoesWell(c, states[i - 1], steps[i - 1]);
    }
  }

  /** Whenever anything fails, is given up or comes out as failed, either the run was cancelled from outside, or a build
      action ran and failed, or something that was asked for is missing; failed tests stop nothing. */
  lemma NothingFailsWithoutCause(c: Config, states: seq<State>, steps: seq<Step>, i: nat)
    requires IsRun(c, states, steps) && i < |states| && !AllGoesWell(states[i])
    ensures || states[i].cancelled
            || (exists l :: BuildJob(l) in states[i].actions && states[i].actions[BuildJob(l)] == Ended(true, false))
            || (exists l :: l in states[i].tasks && !Findable(c, l))
            || (exists k :: 0 <= k < |c.roots| && c.roots[k].target !in c.graph && !IsAllTargets(c.roots[k].target))
  {
    if Blameless(c, states[i]) {
      BlamelessRunGoesWell(c, states, steps, i);
    }
  }
}
