/**
 Bounded concurrency and the progress counters of the build protocol.
 The limiter counts and the two counters are kept step by step; here they are tied to the sets of
 jobs and labels they are meant to count.
 */
module BuildLimits {
  import opened BuildLabels
  import opened BuildProtocol
  import opened BuildSafety

  /** The jobs that occupy a slot of the local or the remote limiter. */
  ghost function Holders(c: Config, s: State, remote: bool): set<Job> {
    set j | j in s.actions && OccupiesSlot(s.actions[j]) && JobExists(c, j) && IsRemote(c, j) == remote
  }

  /** The targets that have been claimed; ":all" labels are not counted. */
  ghost function ClaimedTargets(s: State): set<Label> {
    set l | l in s.tasks && !IsAllTargets(l)
  }

  ghost function ReturnedTargets(s: State): set<Label> {
    set l | l in s.tasks && !IsAllTargets(l) && PhaseRank(s.tasks[l]) >= 3
  }

  ghost function TestsRun(s: State): set<Job> {
    set j | j in s.actions && j.TestJob? && s.actions[j].Ended? && s.actions[j].ran
  }

  ghost predicate SlotsCounted(c: Config, s: State) {
    forall remote :: InUse(s, remote) == |Holders(c, s, remote)| <= Capacity(c, remote)
  }

  ghost predicate TotalCounted(c: Config, s: State) {
    s.numTotal == |ClaimedTargets(s)| + c.testRuns * |s.queued|
  }

  ghost predicate DoneCounted(c: Config, s: State) {
    s.numDone == |ReturnedTargets(s)| + RunsPerCall(c) * |TestsRun(s)|
  }

  /** A job is given up only when something was cancelled or failed. */
  ghost predicate GivenUpForCause(s: State) {
    forall j :: j in s.actions && s.actions[j].Ended? && !s.actions[j].ran ==> s.cancelled || Failed(s)
  }

  ghost predicate Limits(c: Config, s: State) {
    SlotsCounted(c, s) && TotalCounted(c, s) && DoneCounted(c, s) && GivenUpForCause(s)
  }

  // ---------------------------------------------------------------- slots

  /** What the change of one job's state does to the holders. */
  lemma OneJobChanges(c: Config, s: State, s': State, j: Job, a: Action, remote: bool)
    requires JobExists(c, j) && s'.actions == s.actions[j := a]
    ensures Holders(c, s', remote) ==
              if OccupiesSlot(a) && IsRemote(c, j) == remote then Holders(c, s, remote) + {j}
              else Holders(c, s, remote) - {j}
  {
  }

  lemma SameActionsKeepSlots(c: Config, s: State, s': State)
    requires SlotsCounted(c, s) && s'.actions == s.actions
    requires s'.localInUse == s.localInUse && s'.remoteInUse == s.remoteInUse
    ensures SlotsCounted(c, s')
  {
    forall remote
      ensures InUse(s', remote) == |Holders(c, s', remote)| <= Capacity(c, remote)
    {
      assert Holders(c, s', remote) == Holders(c, s, remote);
    }
  }

  lemma AcquireKeepsSlots(c: Config, s: State, j: Job)
    requires SlotsCounted(c, s) && JobExists(c, j) && j !in s.actions
    requires InUse(s, IsRemote(c, j)) < Capacity(c, IsRemote(c, j))
    ensures SlotsCounted(c, Occupy(s, IsRemote(c, j)).(actions := s.actions[j := Holding]))
  {
    var s' := Occupy(s, IsRemote(c, j)).(actions := s.actions[j := Holding]);
    forall remote
      ensures InUse(s', remote) == |Holders(c, s', remote)| <= Capacity(c, remote)
    {
      OneJobChanges(c, s, s', j, Holding, remote);
      assert j !in Holders(c, s, remote);
    }
  }

  lemma StartKeepsSlots(c: Config, s: State, j: Job)
    requires SlotsCounted(c, s) && JobExists(c, j) && j in s.actions && s.actions[j].Holding?
    ensures SlotsCounted(c, s.(actions := s.actions[j := Running]))
  {
    var s' := s.(actions := s.actions[j := Running]);
    forall remote
      ensures InUse(s', remote) == |Holders(c, s', remote)| <= Capacity(c, remote)
    {
      OneJobChanges(c, s, s', j, Running, remote);
      assert Holders(c, s', remote) == Holders(c, s, remote);
    }
  }

  lemma ReleaseKeepsSlots(c: Config, s: State, j: Job, a: Action, numDone: nat)
    requires SlotsCounted(c, s) && JobExists(c, j) && j in s.actions && OccupiesSlot(s.actions[j])
    requires InUse(s, IsRemote(c, j)) > 0 && a.Ended?
    ensures SlotsCounted(c, Vacate(s, IsRemote(c, j)).(actions := s.actions[j := a], numDone := numDone))
  {
    var s' := Vacate(s, IsRemote(c, j)).(actions := s.actions[j := a], numDone := numDone);
    forall remote
      ensures InUse(s', remote) == |Holders(c, s', remote)| <= Capacity(c, remote)
    {
      OneJobChanges(c, s, s', j, a, remote);
      assert j in Holders(c, s, remote) <==> remote == IsRemote(c, j);
    }
  }

  lemma OtherStepsKeepActions(c: Config, s: State, step: Step)
    requires Enabled(c, s, step) && !step.Acquire? && !step.Start? && !step.Abort? && !step.End?
    ensures var s' := Apply(c, s, step);
            s'.actions == s.actions && s'.localInUse == s.localInUse && s'.remoteInUse == s.remoteInUse
  {
  }

  lemma StepKeepsSlots(c: Config, s: State, step: Step)
    requires Inv(c, s) && SlotsCounted(c, s) && Enabled(c, s, step)
    ensures SlotsCounted(c, Apply(c, s, step))
  {
    match step
    case Acquire(j) => AcquireKeepsSlots(c, s, j);
    case Start(j) => assert JobOk(c, s, j); StartKeepsSlots(c, s, j);
    case Abort(j) => ReleaseKeepsSlots(c, s, j, Ended(false, false), s.numDone);
    case End(j, ok) => ReleaseKeepsSlots(c, s, j, Ended(true, ok), Apply(c, s, step).numDone);
    case _ =>
      OtherStepsKeepActions(c, s, step);
      SameActionsKeepSlots(c, s, Apply(c, s, step));
  }

  // ---------------------------------------------------------------- the two counters

  lemma MulSucc(a: nat, b: nat)
    ensures a * (b + 1) == a * b + a
  {
  }

  lemma ClaimCounts(c: Config, s: State, s': State, l: Label)
    requires TotalCounted(c, s) && l !in s.tasks && s'.tasks == s.tasks[l := Deps] && s'.queued == s.queued
    requires s'.numTotal == s.numTotal + (if IsAllTargets(l) then 0 else 1)
    ensures TotalCounted(c, s')
  {
    assert ClaimedTargets(s') == ClaimedTargets(s) + (if IsAllTargets(l) then {} else {l});
  }

  lemma SameClaimsCount(c: Config, s: State, s': State)
    requires TotalCounted(c, s) && s'.tasks.Keys == s.tasks.Keys && s'.queued == s.queued
    requires s'.numTotal == s.numTotal
    ensures TotalCounted(c, s')
  {
    assert ClaimedTargets(s') == ClaimedTargets(s);
  }

  lemma QueueCounts(c: Config, s: State, i: nat)
    requires TotalCounted(c, s) && i !in s.queued
    ensures TotalCounted(c, s.(queued := s.queued + {i}, numTotal := s.numTotal + c.testRuns))
  {
    var s' := s.(queued := s.queued + {i}, numTotal := s.numTotal + c.testRuns);
    assert ClaimedTargets(s') == ClaimedTargets(s);
    assert |s'.queued| == |s.queued| + 1;
    MulSucc(c.testRuns, |s.queued|);
  }

  /** What asking does to the claims. */
  lemma AskClaims(c: Config, s: State, r: Requester)
    requires CanAsk(c, s, r)
    ensures var s' := DoAsk(c, s, r);
            && s'.actions == s.actions && s'.queued == s.queued && s'.numDone == s.numDone
            && ((s'.tasks == s.tasks && s'.numTotal == s.numTotal)
                || exists l :: l !in s.tasks && s'.tasks == s.tasks[l := Deps] &&
                     s'.numTotal == s.numTotal + (if IsAllTargets(l) then 0 else 1))
  {
  }

  lemma AskCounts(c: Config, s: State, r: Requester)
    requires TotalCounted(c, s) && DoneCounted(c, s) && CanAsk(c, s, r)
    ensures TotalCounted(c, DoAsk(c, s, r)) && DoneCounted(c, DoAsk(c, s, r))
  {
    var s' := DoAsk(c, s, r);
    AskClaims(c, s, r);
    if s'.tasks == s.tasks && s'.numTotal == s.numTotal {
      SameClaimsCount(c, s, s');
    } else {
      var l :| l !in s.tasks && s'.tasks == s.tasks[l := Deps] &&
               s'.numTotal == s.numTotal + (if IsAllTargets(l) then 0 else 1);
      ClaimCounts(c, s, s', l);
    }
    SameReturnsCount(c, s, s');
  }

  lemma SameReturnsCount(c: Config, s: State, s': State)
    requires DoneCounted(c, s) && s'.numDone == s.numDone
    requires forall l :: l in s.tasks ==> l in s'.tasks && s'.tasks[l] == s.tasks[l]
    requires forall l :: l in s'.tasks && l !in s.tasks ==> s'.tasks[l].Deps?
    requires s'.actions == s.actions
    ensures DoneCounted(c, s')
  {
    assert ReturnedTargets(s') == ReturnedTargets(s);
    assert TestsRun(s') == TestsRun(s);
  }

  lemma ReturnedAfterEnter(s: State, l: Label, p: Phase)
    requires l in s.tasks && PhaseRank(s.tasks[l]) < PhaseRank(p)
    requires p.Published? ==> s.tasks[l].Returned?
    ensures |ReturnedTargets(Enter(s, l, p))| ==
            |ReturnedTargets(s)| + (if p.Returned? && !IsAllTargets(l) then 1 else 0)
  {
    var s' := Enter(s, l, p);
    if p.Returned? && !IsAllTargets(l) {
      assert ReturnedTargets(s') == ReturnedTargets(s) + {l};
    } else {
      assert ReturnedTargets(s') == ReturnedTargets(s);
    }
  }

  lemma EnterCounts(c: Config, s: State, l: Label, p: Phase)
    requires TotalCounted(c, s) && DoneCounted(c, s)
    requires l in s.tasks && PhaseRank(s.tasks[l]) < PhaseRank(p)
    requires p.Published? ==> s.tasks[l].Returned?
    ensures TotalCounted(c, Enter(s, l, p)) && DoneCounted(c, Enter(s, l, p))
  {
    var s' := Enter(s, l, p);
    assert s'.tasks.Keys == s.tasks.Keys;
    SameClaimsCount(c, s, s');
    ReturnedAfterEnter(s, l, p);
    assert TestsRun(s') == TestsRun(s);
  }

  lemma TestsRunAfter(s: State, s': State, j: Job, a: Action)
    requires s'.actions == s.actions[j := a]
    requires j in s.actions ==> !s.actions[j].Ended?
    ensures |TestsRun(s')| == |TestsRun(s)| + (if j.TestJob? && a.Ended? && a.ran then 1 else 0)
  {
    if j.TestJob? && a.Ended? && a.ran {
      assert TestsRun(s') == TestsRun(s) + {j};
    } else {
      assert TestsRun(s') == TestsRun(s);
    }
  }

  lemma JobCounts(c: Config, s: State, s': State, j: Job, a: Action)
    requires DoneCounted(c, s) && s'.tasks == s.tasks && s'.actions == s.actions[j := a]
    requires j in s.actions ==> !s.actions[j].Ended?
    requires s'.numDone == s.numDone + (if j.TestJob? && a.Ended? && a.ran then RunsPerCall(c) else 0)
    ensures DoneCounted(c, s')
  {
    TestsRunAfter(s, s', j, a);
    var before, after := |TestsRun(s)|, |TestsRun(s')|;
    assert ReturnedTargets(s') == ReturnedTargets(s);
    MulSucc(RunsPerCall(c), before);
  }

  lemma ActionCounts(c: Config, s: State, step: Step)
    requires TotalCounted(c, s) && DoneCounted(c, s) && Enabled(c, s, step)
    requires step.Acquire? || step.Start? || step.Abort? || step.End?
    ensures TotalCounted(c, Apply(c, s, step)) && DoneCounted(c, Apply(c, s, step))
  {
    var s' := Apply(c, s, step);
    SameClaimsCount(c, s, s');
    JobCounts(c, s, s', step.job, s'.actions[step.job]);
  }

  lemma StepKeepsCounts(c: Config, s: State, step: Step)
    requires TotalCounted(c, s) && DoneCounted(c, s) && Enabled(c, s, step)
    ensures TotalCounted(c, Apply(c, s, step)) && DoneCounted(c, Apply(c, s, step))
  {
    var s' := Apply(c, s, step);
    match step
    case Ask(r) => AskCounts(c, s, r);
    case QueueTest(i) => QueueCounts(c, s, i); SameReturnsCount(c, s, s');
    case JoinDeps(l) => EnterCounts(c, s, l, PhaseAfterDeps(c, s, l));
    case JoinPreRun(l) => EnterCounts(c, s, l, PhaseAfterPreRun(c, s, l));
    case JoinRun(l) => EnterCounts(c, s, l, PhaseAfterRun(c, s, l));
    case Publish(l) => EnterCounts(c, s, l, Published(s.tasks[l].ok));
    case Acquire(j) => ActionCounts(c, s, step);
    case Start(j) => ActionCounts(c, s, step);
    case Abort(j) => ActionCounts(c, s, step);
    case End(j, ok) => ActionCounts(c, s, step);
    case _ => SameClaimsCount(c, s, s'); SameReturnsCount(c, s, s');
  }

  // ---------------------------------------------------------------- giving up

  lemma FailedStays(s: State, s': State)
    requires Extends(s, s') && Failed(s)
    ensures Failed(s')
  {
    if r :| r in s.reqs && s.reqs[r] == Finished(false) {
      assert HasFinished(s, r);
      assert s'.reqs[r] == Finished(false);
    } else {
      var j :| j in s.actions && j.BuildJob? && s.actions[j].Ended? && !s.actions[j].ok;
      assert j in s'.actions && s'.actions[j] == s.actions[j];
    }
  }

  /** Only giving a job up adds to the jobs given up, and that needs a cause. */
  lemma StepKeepsCause(c: Config, s: State, step: Step)
    requires GivenUpForCause(s) && Enabled(c, s, step)
    ensures GivenUpForCause(Apply(c, s, step))
  {
    var s' := Apply(c, s, step);
    StepExtends(c, s, step);
    assert s.cancelled ==> s'.cancelled;
    if Failed(s) {
      FailedStays(s, s');
    }
    forall j | j in s'.actions && s'.actions[j].Ended? && !s'.actions[j].ran
      ensures s'.cancelled || Failed(s')
    {
      assert step == Abort(j) || (j in s.actions && s.actions[j] == s'.actions[j]);
    }
  }

  lemma {:induction false} RunKeepsLimits(c: Config, states: seq<State>, steps: seq<Step>, i: nat)
    requires IsRun(c, states, steps) && i < |states|
    ensures Limits(c, states[i])
  {
    if i == 0 {
      InitLimits(c);
    } else {
      RunKeepsLimits(c, states, steps, i - 1);
      RunKeepsInv(c, states, steps, i - 1);
      assert StepAt(c, states, steps, i - 1);
      StepKeepsSlots(c, states[i - 1], steps[i - 1]);
      StepKeepsCounts(c, states[i - 1], steps[i - 1]);
      StepKeepsCause(c, states[i - 1], steps[i - 1]);
    }
  }

  lemma InitLimits(c: Config)
    ensures Limits(c, Init(c))
  {
    var s := Init(c);
    assert Holders(c, s, true) == {} && Holders(c, s, false) == {};
    assert ClaimedTargets(s) == {} && ReturnedTargets(s) == {} && TestsRun(s) == {};
  }

  // ---------------------------------------------------------------- bounded concurrency

  /** In every state of every run the local and remote jobs fit their limiters. */
  lemma BoundedConcurrency(c: Config, states: seq<State>, steps: seq<Step>, i: nat, remote: bool)
    requires IsRun(c, states, steps) && i < |states|
    ensures |set j | j in states[i].actions && OccupiesSlot(states[i].actions[j]) &&
                     JobExists(c, j) && IsRemote(c, j) == remote| <= Capacity(c, remote)
  {
    RunKeepsLimits(c, states, steps, i);
    assert InUse(states[i], remote) == |Holders(c, states[i], remote)|;
  }

  /** The target a job builds or tests. */
  function TargetOf(c: Config, j: Job): Label {
    match j
    case BuildJob(l) => l
    case TestJob(i, _) => if i < |c.roots| then c.roots[i].target else INVALID
  }

  /** Jobs on targets marked as local, or all jobs if nothing is remote, share the local slots; the others share the
      remote ones. */
  lemma LocalTargetsShareTheLocalSlots(c: Config, states: seq<State>, steps: seq<Step>, i: nat)
    requires IsRun(c, states, steps) && i < |states|
    ensures forall j :: j in states[i].actions ==> TargetOf(c, j) in c.graph
    ensures |set j | j in states[i].actions && OccupiesSlot(states[i].actions[j]) &&
                     (c.remoteSlots == 0 || c.graph[TargetOf(c, j)].local)| <= c.localSlots
    ensures |set j | j in states[i].actions && OccupiesSlot(states[i].actions[j]) &&
                     !(c.remoteSlots == 0 || c.graph[TargetOf(c, j)].local)| <= c.remoteSlots
  {
    var s := states[i];
    RunKeepsInv(c, states, steps, i);
    RunKeepsLimits(c, states, steps, i);
    forall j | j in s.actions
      ensures JobExists(c, j)
    {
      assert JobOk(c, s, j);
    }
    var local := set j | j in s.actions && OccupiesSlot(s.actions[j]) && (c.remoteSlots == 0 || c.graph[TargetOf(c, j)].local);
    var remote := set j | j in s.actions && OccupiesSlot(s.actions[j]) && !(c.remoteSlots == 0 || c.graph[TargetOf(c, j)].local);
    assert local == Holders(c, s, false) && remote == Holders(c, s, true);
    assert InUse(s, false) == |Holders(c, s, false)| && InUse(s, true) == |Holders(c, s, true)|;
  }

  /** Run one after the other, or only once, a test makes a single call; else one for each run. */
  lemma TestCallsAreRuns(c: Config, states: seq<State>, steps: seq<Step>, i: nat, root: nat, run: nat)
    requires IsRun(c, states, steps) && i < |states| && TestJob(root, run) in states[i].actions
    ensures if c.testSequentially || c.testRuns == 1 then run == 0 else run < c.testRuns
    ensures root < |c.roots| && c.roots[root].TestRoot? && c.roots[root].target in c.graph
    ensures c.graph[c.roots[root].target].isTest
  {
    RunKeepsInv(c, states, steps, i);
    assert JobOk(c, states[i], TestJob(root, run));
  }

  /** Once the target of a test has been built, each of these calls can be made, in any order, as soon as there is a slot
      of its kind. */
  lemma TestsAreCalledForEachRun(c: Config, s: State, root: nat, run: nat)
    requires root < |c.roots| && c.roots[root].TestRoot? && c.roots[root].target in c.graph
    requires c.graph[c.roots[root].target].isTest && RootReq(root) in s.reqs && s.reqs[RootReq(root)] == Finished(true)
    ensures var local := c.remoteSlots == 0 || c.graph[c.roots[root].target].local;
            Enabled(c, s, Acquire(TestJob(root, run))) <==>
            && (if c.testSequentially || c.testRuns == 1 then run == 0 else run < c.testRuns)
            && TestJob(root, run) !in s.actions
            && if local then s.localInUse < c.localSlots else s.remoteInUse < c.remoteSlots
  {
    assert IsTestRoot(c, root);
  }

  /** Something failed: a goroutine gave up, or a build action did not succeed. */
  ghost predicate AnythingFailed(s: State) {
    || (exists q :: q in s.reqs && s.reqs[q].Finished? && !s.reqs[q].ok)
    || (exists l :: BuildJob(l) in s.actions && s.actions[BuildJob(l)].Ended? && !s.actions[BuildJob(l)].ok)
  }

  /** When work is given up: after a cancellation from outside and, without keep-going, after any failure of a build, the
      goroutines that wait for others and the jobs that hold a slot but have not started may do so, and no others. */
  lemma WhenToGiveUp(c: Config, states: seq<State>, steps: seq<Step>, i: nat, r: Requester, j: Job)
    requires IsRun(c, states, steps) && i < |states|
    ensures var s := states[i];
            var stop := s.cancelled || (!c.keepGoing && AnythingFailed(s));
            && (Enabled(c, s, Desert(r)) <==> r in s.reqs && s.reqs[r].Waiting? && !s.reqs[r].first && stop)
            && (Enabled(c, s, Abort(j)) <==> j in s.actions && s.actions[j].Holding? && stop)
  {
    var s := states[i];
    assert AnythingFailed(s) <==> Failed(s);
    if j in s.actions && s.actions[j].Holding? {
      RunKeepsInv(c, states, steps, i);
      RunKeepsLimits(c, states, steps, i);
      assert JobOk(c, s, j);
      assert j in Holders(c, s, IsRemote(c, j)) && InUse(s, IsRemote(c, j)) == |Holders(c, s, IsRemote(c, j))|;
    }
  }

  /** A goroutine that works for a claimed target before its action never waits while that action holds
      a slot: they have all come back by then. */
  lemma NoSlotHeldWhileWaiting(c: Config, states: seq<State>, steps: seq<Step>, i: nat, l: Label, slot: Slot)
    requires IsRun(c, states, steps) && i < |states|
    requires BuildJob(l) in states[i].actions && OccupiesSlot(states[i].actions[BuildJob(l)])
    requires Worker(l, slot) in states[i].reqs && !states[i].reqs[Worker(l, slot)].Finished?
    ensures slot.RunSlot? && l in states[i].tasks && states[i].tasks[l].Together?
  {
    RunKeepsInv(c, states, steps, i);
    var s := states[i];
    assert JobOk(c, s, BuildJob(l)) && TaskOk(c, s, l) && ReqOk(c, s, Worker(l, slot));
    assert BuildSlot(c, l, slot) ==> Succeeded(s, Worker(l, slot));
    assert s.tasks[l].Solo? ==> RuntimeOk(c, s, l);
  }

  /** A test call holds a slot only after the goroutine that asked for its target is done and the target built. */
  lemma NoTestSlotHeldWhileWaiting(c: Config, states: seq<State>, steps: seq<Step>, i: nat, root: nat, run: nat)
    requires IsRun(c, states, steps) && i < |states|
    requires TestJob(root, run) in states[i].actions && OccupiesSlot(states[i].actions[TestJob(root, run)])
    ensures Succeeded(states[i], RootReq(root)) && root < |c.roots| && Built(states[i], c.roots[root].target)
  {
    RunKeepsInv(c, states, steps, i);
    assert JobOk(c, states[i], TestJob(root, run)) && ReqOk(c, states[i], RootReq(root));
    SucceededMeansBuilt(c, states[i], RootReq(root));
    assert c.roots[root].target in Wanted(c, RootReq(root)).value;
  }

  // ---------------------------------------------------------------- progress

  ghost function Calls(roots: set<nat>, n: nat): set<Job> {
    set i, run | i in roots && 0 <= run < n :: TestJob(i, run)
  }

  lemma {:induction false} CallsOfOne(i: nat, n: nat)
    ensures |Calls({i}, n)| == n
  {
    if n == 0 {
      assert Calls({i}, 0) == {};
    } else {
      CallsOfOne(i, n - 1);
      assert Calls({i}, n) == Calls({i}, n - 1) + {TestJob(i, n - 1)};
    }
  }

  lemma {:induction false} CallsCount(roots: set<nat>, n: nat)
    ensures |Calls(roots, n)| == n * |roots|
    decreases |roots|
  {
    if roots == {} {
      assert Calls(roots, n) == {};
    } else {
      var i :| i in roots;
      var rest := roots - {i};
      CallsCount(rest, n);
      CallsOfOne(i, n);
      assert Calls(roots, n) == Calls(rest, n) + Calls({i}, n);
      assert Calls(rest, n) !! Calls({i}, n);
      MulSucc(n, |rest|);
    }
  }

  lemma SubsetSize<T>(a: set<T>, b: set<T>)
    requires a <= b
    ensures |a| <= |b|
  {
    assert b == a + (b - a);
  }

  lemma TestsRunAreCalls(c: Config, s: State)
    requires Inv(c, s)
    ensures TestsRun(s) <= Calls(s.queued, TestCalls(c))
  {
    forall j | j in TestsRun(s)
      ensures j in Calls(s.queued, TestCalls(c))
    {
      assert JobOk(c, s, j) && ReqOk(c, s, RootReq(j.root));
      assert j == TestJob(j.root, j.run);
    }
  }

  lemma CallsTimesRuns(c: Config, n: nat)
    ensures RunsPerCall(c) * (TestCalls(c) * n) == c.testRuns * n
  {
    if OneTestCall(c) {
      assert TestCalls(c) * n == n;
    }
  }

  lemma MulMono(a: nat, b: nat, d: nat)
    requires b <= d
    ensures a * b <= a * d
  {
  }

  /** The number of tasks done never exceeds the number of tasks announced. */
  lemma DoneWithinTotal(c: Config, states: seq<State>, steps: seq<Step>, i: nat)
    requires IsRun(c, states, steps) && i < |states|
    ensures states[i].numDone <= states[i].numTotal
  {
    var s := states[i];
    RunKeepsInv(c, states, steps, i);
    RunKeepsLimits(c, states, steps, i);
    SubsetSize(ReturnedTargets(s), ClaimedTargets(s));
    TestsRunAreCalls(c, s);
    SubsetSize(TestsRun(s), Calls(s.queued, TestCalls(c)));
    CallsCount(s.queued, TestCalls(c));
    MulMono(RunsPerCall(c), |TestsRun(s)|, TestCalls(c) * |s.queued|);
    CallsTimesRuns(c, |s.queued|);
  }

  /** Every claimed label is published and every test call of a queued test root has ended. */
  ghost predicate Settled(c: Config, s: State) {
    && (forall l :: l in s.tasks ==> s.tasks[l].Published?)
    && (forall i, run :: i in s.queued && 0 <= run < TestCalls(c) ==>
          TestJob(i, run) in s.actions && s.actions[TestJob(i, run)].Ended?)
  }

  /** When a run without errors or cancellation has settled, everything announced has been done. */
  lemma DoneEqualsTotal(c: Config, states: seq<State>, steps: seq<Step>, i: nat)
    requires IsRun(c, states, steps) && i < |states|
    requires Settled(c, states[i]) && !states[i].cancelled && !Failed(states[i])
    ensures states[i].numDone == states[i].numTotal
  {
    var s := states[i];
    RunKeepsInv(c, states, steps, i);
    RunKeepsLimits(c, states, steps, i);
    assert ReturnedTargets(s) == ClaimedTargets(s);
    TestsRunAreCalls(c, s);
    forall j | j in Calls(s.queued, TestCalls(c))
      ensures j in TestsRun(s)
    {
      assert j.TestJob? && TestJob(j.root, j.run) == j && s.actions[j].Ended?;
    }
    assert TestsRun(s) == Calls(s.queued, TestCalls(c));
    CallsCount(s.queued, TestCalls(c));
    CallsTimesRuns(c, |s.queued|);
  }
}
