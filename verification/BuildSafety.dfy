/**
 Safety of the build protocol over whole runs: what must have been built before an action starts,
 and that nothing is claimed, started or published twice.
 */
module BuildSafety {
  import opened BuildLabels
  import opened BuildGraph
  import opened BuildProtocol

  // ---------------------------------------------------------------- the invariant

  /** The first `n` labels of its list were found and have been built. */
  ghost predicate BuiltUpTo(c: Config, s: State, r: Requester, n: nat)
    requires Exists(c, r) && Wanted(c, r).Some?
  {
    var labels := Wanted(c, r).value;
    n <= |labels| && forall k :: 0 <= k < n ==> Known(c, r, labels[k]) && Built(s, labels[k])
  }

  ghost predicate ReqOk(c: Config, s: State, r: Requester) {
    r in s.reqs ==>
      && Exists(c, r)
      && (r.RootReq? && IsTestRoot(c, r.i) ==> r.i in s.queued)
      && (r.Worker? ==> r.owner in s.tasks && (r.slot.RunSlot? ==> !s.tasks[r.owner].Deps?))
      && match s.reqs[r]
         case Active(pos) => Wanted(c, r).Some? && BuiltUpTo(c, s, r, pos)
         case Waiting(pos, _) =>
           && Wanted(c, r).Some? && BuiltUpTo(c, s, r, pos)
           && pos < |Wanted(c, r).value| && Wanted(c, r).value[pos] in s.tasks
           && Known(c, r, Wanted(c, r).value[pos])
         case Finished(ok) =>
           ok ==> Wanted(c, r).Some? && BuiltUpTo(c, s, r, |Wanted(c, r).value|)
  }

  /** The build-time dependencies are built and the others can be found. */
  ghost predicate PastDeps(c: Config, s: State, l: Label) {
    !IsAllTargets(l) && DepsOk(c, s, l) && RuntimeResolved(c, l)
  }

  /** What holds of a task in the given phase. */
  ghost predicate PhaseOk(c: Config, s: State, l: Label, p: Phase) {
    match p
    case Deps => BuildJob(l) !in s.actions
    case PreRun => PastDeps(c, s, l) && BuildJob(l) !in s.actions && l in c.graph && c.graph[l].hasPreBuild
    case Solo => PastDeps(c, s, l) && RuntimeOk(c, s, l)
    case Together => PastDeps(c, s, l) && !(l in c.graph && c.graph[l].hasPreBuild)
    case Returned(ok) => ok ==> ReturnOk(c, s, l)
    case Published(ok) => ok ==> ReturnOk(c, s, l)
  }

  ghost predicate TaskOk(c: Config, s: State, l: Label) {
    l in s.tasks ==> (IsAllTargets(l) || l in c.graph) && PhaseOk(c, s, l, s.tasks[l])
  }

  /** What a successful result of `l` vouches for. */
  ghost predicate ReturnOk(c: Config, s: State, l: Label) {
    && DepsOk(c, s, l)
    && (if IsAllTargets(l) then l in c.members
        else RuntimeOk(c, s, l) && BuildJob(l) in s.actions && s.actions[BuildJob(l)] == Ended(true, true))
  }

  ghost predicate JobOk(c: Config, s: State, j: Job) {
    j in s.actions ==>
      && JobExists(c, j)
      && (s.actions[j].Ended? && s.actions[j].ok ==> s.actions[j].ran)
      && match j
         case BuildJob(l) =>
           && l in s.tasks && DepsOk(c, s, l)
           && (OccupiesSlot(s.actions[j]) ==> s.tasks[l].Solo? || s.tasks[l].Together?)
         case TestJob(i, _) => Succeeded(s, RootReq(i))
  }

  ghost predicate Inv(c: Config, s: State) {
    && (forall r :: ReqOk(c, s, r))
    && (forall l :: TaskOk(c, s, l))
    && (forall j :: JobOk(c, s, j))
    && (forall i :: i in s.queued ==> IsTestRoot(c, i))
  }

  // ---------------------------------------------------------------- progress is never lost

  /** The order in which a task goes through its phases. */
  function PhaseRank(p: Phase): nat {
    match p
    case Deps => 0
    case PreRun => 1
    case Solo => 2
    case Together => 2
    case Returned(_) => 3
    case Published(_) => 4
  }

  function ActionRank(a: Action): nat {
    match a case Holding => 0 case Running => 1 case Ended(_, _) => 2
  }

  /** Claims stay, phases only move forward, and results once there never change. */
  ghost predicate Extends(s: State, s': State) {
    && (forall r :: HasFinished(s, r) ==> r in s'.reqs && s'.reqs[r] == s.reqs[r])
    && (forall l :: l in s.tasks ==> l in s'.tasks && PhaseRank(s.tasks[l]) <= PhaseRank(s'.tasks[l]))
    && (forall l :: IsPublished(s, l) ==> l in s'.tasks && s'.tasks[l] == s.tasks[l])
    && (forall j :: j in s.actions ==> j in s'.actions && ActionRank(s.actions[j]) <= ActionRank(s'.actions[j]))
    && (forall j :: j in s.actions && s.actions[j].Ended? ==> s'.actions[j] == s.actions[j])
    && s.queued <= s'.queued
  }

  lemma ReqSetExtends(s: State, r: Requester, x: ReqState)
    requires !HasFinished(s, r)
    ensures Extends(s, s.(reqs := s.reqs[r := x]))
  {
  }

  lemma ClaimExtends(s: State, r: Requester, l: Label, pos: nat)
    requires !HasFinished(s, r) && l !in s.tasks
    ensures Extends(s, Request(s, r, l, pos))
  {
  }

  lemma EnterExtends(s: State, l: Label, p: Phase)
    requires l in s.tasks && PhaseRank(s.tasks[l]) < PhaseRank(p)
    ensures Extends(s, Enter(s, l, p))
  {
  }

  lemma JobStepExtends(s: State, s': State, j: Job, a: Action)
    requires j in s.actions ==> ActionRank(s.actions[j]) < ActionRank(a)
    requires s'.actions == s.actions[j := a]
    requires s'.reqs == s.reqs && s'.tasks == s.tasks && s'.queued == s.queued
    ensures Extends(s, s')
  {
  }

  lemma AskExtends(c: Config, s: State, r: Requester)
    requires CanAsk(c, s, r)
    ensures Extends(s, DoAsk(c, s, r))
  {
    var w, pos := Wanted(c, r), ReqOf(s, r).pos;
    if w.None? || !Known(c, r, w.value[pos]) {
      ReqSetExtends(s, r, Finished(false));
    } else if w.value[pos] !in s.tasks {
      ClaimExtends(s, r, w.value[pos], pos);
    } else {
      ReqSetExtends(s, r, DoAsk(c, s, r).reqs[r]);
    }
  }

  lemma ActionExtends(c: Config, s: State, step: Step)
    requires Enabled(c, s, step)
    requires step.Acquire? || step.Start? || step.Abort? || step.End?
    ensures Extends(s, Apply(c, s, step))
  {
    var s' := Apply(c, s, step);
    JobStepExtends(s, s', step.job, s'.actions[step.job]);
  }

  /** No step undoes a claim, a phase or a result. */
  lemma StepExtends(c: Config, s: State, step: Step)
    requires Enabled(c, s, step)
    ensures Extends(s, Apply(c, s, step))
  {
    match step
    case Ask(r) => AskExtends(c, s, r);
    case Complete(r) => ReqSetExtends(s, r, Finished(true));
    case Wake(r) => ReqSetExtends(s, r, Apply(c, s, step).reqs[r]);
    case Desert(r) => ReqSetExtends(s, r, Finished(false));
    case JoinDeps(l) => EnterExtends(s, l, PhaseAfterDeps(c, s, l));
    case JoinPreRun(l) => EnterExtends(s, l, PhaseAfterPreRun(c, s, l));
    case JoinRun(l) => EnterExtends(s, l, PhaseAfterRun(c, s, l));
    case Publish(l) => EnterExtends(s, l, Published(s.tasks[l].ok));
    case Acquire(j) => ActionExtends(c, s, step);
    case Start(j) => ActionExtends(c, s, step);
    case Abort(j) => ActionExtends(c, s, step);
    case End(j, ok) => ActionExtends(c, s, step);
    case _ =>
  }

  lemma ExtendsKeeps(c: Config, s: State, s': State, l: Label)
    requires Extends(s, s')
    ensures DepsOk(c, s, l) ==> DepsOk(c, s', l)
    ensures RuntimeOk(c, s, l) ==> RuntimeOk(c, s', l)
  {
    forall slot | BuildSlot(c, l, slot) && Succeeded(s, Worker(l, slot))
      ensures Succeeded(s', Worker(l, slot))
    {
      assert HasFinished(s, Worker(l, slot));
    }
    forall slot | RuntimeSlot(c, l, slot) && Succeeded(s, Worker(l, slot))
      ensures Succeeded(s', Worker(l, slot))
    {
      assert HasFinished(s, Worker(l, slot));
    }
  }

  lemma SameReqKept(c: Config, s: State, s': State, r: Requester)
    requires Extends(s, s') && ReqOk(c, s, r)
    requires r in s.reqs <==> r in s'.reqs
    requires r in s.reqs ==> s.reqs[r] == s'.reqs[r]
    ensures ReqOk(c, s', r)
  {
    assert forall l :: Built(s, l) ==> IsPublished(s, l);
  }

  lemma SameTaskKept(c: Config, s: State, s': State, l: Label)
    requires Extends(s, s') && TaskOk(c, s, l)
    requires l in s.tasks <==> l in s'.tasks
    requires l in s.tasks ==> s.tasks[l] == s'.tasks[l]
    requires l in s.tasks && (s.tasks[l].Deps? || s.tasks[l].PreRun?) ==> BuildJob(l) !in s'.actions
    ensures TaskOk(c, s', l)
  {
    ExtendsKeeps(c, s, s', l);
  }

  lemma SameJobKept(c: Config, s: State, s': State, j: Job)
    requires Extends(s, s') && JobOk(c, s, j)
    requires j in s.actions <==> j in s'.actions
    requires j in s.actions ==> s.actions[j] == s'.actions[j]
    requires j.BuildJob? && j.target in s.tasks && s.tasks[j.target] != s'.tasks[j.target] ==>
               j !in s'.actions || !OccupiesSlot(s'.actions[j])
    ensures JobOk(c, s', j)
  {
    if j.BuildJob? {
      ExtendsKeeps(c, s, s', j.target);
    } else if j in s.actions {
      assert HasFinished(s, RootReq(j.root));
    }
  }

  // ---------------------------------------------------------------- every step keeps the invariant

  /** Setting one requester keeps the invariant if its own part of it holds afterwards. */
  lemma ReqSetKeepsInv(c: Config, s: State, r: Requester, x: ReqState)
    requires Inv(c, s) && !HasFinished(s, r)
    requires ReqOk(c, s.(reqs := s.reqs[r := x]), r)
    ensures Inv(c, s.(reqs := s.reqs[r := x]))
  {
    var s' := s.(reqs := s.reqs[r := x]);
    ReqSetExtends(s, r, x);
    forall q ensures ReqOk(c, s', q) {
      assert ReqOk(c, s, q);
      if q != r { SameReqKept(c, s, s', q); }
    }
    forall l ensures TaskOk(c, s', l) { assert TaskOk(c, s, l); SameTaskKept(c, s, s', l); }
    forall j ensures JobOk(c, s', j) { assert JobOk(c, s, j); SameJobKept(c, s, s', j); }
  }

  lemma ClaimKeepsInv(c: Config, s: State, r: Requester, l: Label, pos: nat)
    requires Inv(c, s) && !HasFinished(s, r) && l !in s.tasks
    requires IsAllTargets(l) || l in c.graph
    requires ReqOk(c, Request(s, r, l, pos), r)
    ensures Inv(c, Request(s, r, l, pos))
  {
    var s' := Request(s, r, l, pos);
    ClaimExtends(s, r, l, pos);
    forall q ensures ReqOk(c, s', q) {
      assert ReqOk(c, s, q);
      if q != r { SameReqKept(c, s, s', q); }
    }
    forall m ensures TaskOk(c, s', m) {
      assert TaskOk(c, s, m) && JobOk(c, s, BuildJob(m));
      if m != l { SameTaskKept(c, s, s', m); }
    }
    forall j ensures JobOk(c, s', j) { assert JobOk(c, s, j); SameJobKept(c, s, s', j); }
  }

  lemma SpawnedOwner(c: Config, s: State, r: Requester)
    requires Exists(c, r) && Spawned(c, s, r)
    ensures r.RootReq? && IsTestRoot(c, r.i) ==> r.i in s.queued
    ensures r.Worker? ==> r.owner in s.tasks && (r.slot.RunSlot? ==> !s.tasks[r.owner].Deps?)
  {
  }

  lemma BuiltUpToKept(c: Config, s: State, s': State, r: Requester, n: nat)
    requires Exists(c, r) && Wanted(c, r).Some?
    requires Extends(s, s') && BuiltUpTo(c, s, r, n)
    ensures BuiltUpTo(c, s', r, n)
  {
    var labels := Wanted(c, r).value;
    forall k | 0 <= k < n
      ensures Built(s', labels[k])
    {
      assert Built(s, labels[k]) && IsPublished(s, labels[k]);
    }
  }

  lemma FirstRequestKeepsInv(c: Config, s: State, r: Requester, l: Label, pos: nat)
    requires Inv(c, s) && CanAsk(c, s, r) && pos == ReqOf(s, r).pos
    requires Wanted(c, r).Some? && l == Wanted(c, r).value[pos] && Known(c, r, l)
    requires l !in s.tasks
    ensures Inv(c, Request(s, r, l, pos))
  {
    SpawnedOwner(c, s, r);
    assert ReqOk(c, s, r);
    ClaimExtends(s, r, l, pos);
    BuiltUpToKept(c, s, Request(s, r, l, pos), r, pos);
    ClaimKeepsInv(c, s, r, l, pos);
  }

  lemma LaterRequestKeepsInv(c: Config, s: State, r: Requester, l: Label, pos: nat)
    requires Inv(c, s) && CanAsk(c, s, r) && pos == ReqOf(s, r).pos
    requires Wanted(c, r).Some? && l == Wanted(c, r).value[pos] && Known(c, r, l)
    requires l in s.tasks
    ensures Inv(c, Request(s, r, l, pos))
  {
    SpawnedOwner(c, s, r);
    assert ReqOk(c, s, r);
    var x := if s.tasks[l].Published? then Resume(s.tasks[l].ok, pos) else Waiting(pos, false);
    ReqSetExtends(s, r, x);
    BuiltUpToKept(c, s, s.(reqs := s.reqs[r := x]), r, pos);
    ReqSetKeepsInv(c, s, r, x);
  }

  lemma AskKeepsInv(c: Config, s: State, r: Requester)
    requires Inv(c, s) && CanAsk(c, s, r)
    ensures Inv(c, DoAsk(c, s, r))
  {
    var w, pos := Wanted(c, r), ReqOf(s, r).pos;
    if w.None? || !Known(c, r, w.value[pos]) {
      SpawnedOwner(c, s, r);
      ReqSetKeepsInv(c, s, r, Finished(false));
    } else if w.value[pos] !in s.tasks {
      FirstRequestKeepsInv(c, s, r, w.value[pos], pos);
    } else {
      LaterRequestKeepsInv(c, s, r, w.value[pos], pos);
    }
  }

  lemma CompleteKeepsInv(c: Config, s: State, r: Requester)
    requires Inv(c, s) && Enabled(c, s, Complete(r))
    ensures Inv(c, Apply(c, s, Complete(r)))
  {
    assert ReqOk(c, s, r);
    SpawnedOwner(c, s, r);
    ReqSetExtends(s, r, Finished(true));
    BuiltUpToKept(c, s, s.(reqs := s.reqs[r := Finished(true)]), r, |Wanted(c, r).value|);
    ReqSetKeepsInv(c, s, r, Finished(true));
  }

  lemma WakeKeepsInv(c: Config, s: State, r: Requester)
    requires Inv(c, s) && Enabled(c, s, Wake(r))
    ensures Inv(c, Apply(c, s, Wake(r)))
  {
    assert ReqOk(c, s, r);
    var pos := s.reqs[r].pos;
    var x := Resume(s.tasks[Wanted(c, r).value[pos]].ok, pos);
    ReqSetExtends(s, r, x);
    BuiltUpToKept(c, s, s.(reqs := s.reqs[r := x]), r, pos);
    ReqSetKeepsInv(c, s, r, x);
  }

  lemma DesertKeepsInv(c: Config, s: State, r: Requester)
    requires Inv(c, s) && Enabled(c, s, Desert(r))
    ensures Inv(c, Apply(c, s, Desert(r)))
  {
    assert ReqOk(c, s, r);
    ReqSetKeepsInv(c, s, r, Finished(false));
  }

  /** Moving one task to its next phase keeps the invariant if the new phase is justified. */
  lemma EnterKeepsInv(c: Config, s: State, l: Label, p: Phase)
    requires Inv(c, s) && l in s.tasks && PhaseRank(s.tasks[l]) < PhaseRank(p)
    requires PhaseOk(c, s, l, p)
    requires BuildJob(l) in s.actions ==> !OccupiesSlot(s.actions[BuildJob(l)])
    ensures Inv(c, Enter(s, l, p))
  {
    var s' := Enter(s, l, p);
    EnterExtends(s, l, p);
    ExtendsKeeps(c, s, s', l);
    forall q ensures ReqOk(c, s', q) { assert ReqOk(c, s, q); SameReqKept(c, s, s', q); }
    forall m ensures TaskOk(c, s', m) {
      assert TaskOk(c, s, m);
      if m != l { SameTaskKept(c, s, s', m); }
    }
    forall j ensures JobOk(c, s', j) { assert JobOk(c, s, j); SameJobKept(c, s, s', j); }
  }

  lemma JoinKeepsInv(c: Config, s: State, step: Step)
    requires Inv(c, s) && Enabled(c, s, step)
    requires step.JoinDeps? || step.JoinPreRun? || step.JoinRun?
    ensures Inv(c, Apply(c, s, step))
  {
    var l := step.l;
    assert TaskOk(c, s, l) && JobOk(c, s, BuildJob(l));
    match step
    case JoinDeps(_) => EnterKeepsInv(c, s, l, PhaseAfterDeps(c, s, l));
    case JoinPreRun(_) => EnterKeepsInv(c, s, l, PhaseAfterPreRun(c, s, l));
    case JoinRun(_) => EnterKeepsInv(c, s, l, PhaseAfterRun(c, s, l));
  }

  lemma PublishKeepsInv(c: Config, s: State, l: Label)
    requires Inv(c, s) && Enabled(c, s, Publish(l))
    ensures Inv(c, Apply(c, s, Publish(l)))
  {
    assert TaskOk(c, s, l) && JobOk(c, s, BuildJob(l));
    EnterKeepsInv(c, s, l, Published(s.tasks[l].ok));
  }

  /** Steps that move one job. */
  lemma JobStepKeepsInv(c: Config, s: State, s': State, j: Job)
    requires Inv(c, s) && Extends(s, s')
    requires j in s'.actions && s'.actions == s.actions[j := s'.actions[j]]
    requires s'.reqs == s.reqs && s'.tasks == s.tasks && s'.queued == s.queued
    requires JobOk(c, s', j)
    requires j.BuildJob? ==> j.target in s.tasks && (s.tasks[j.target].Solo? || s.tasks[j.target].Together?)
    ensures Inv(c, s')
  {
    forall q
      ensures ReqOk(c, s', q)
    {
      assert ReqOk(c, s, q);
      SameReqKept(c, s, s', q);
    }
    forall m
      ensures TaskOk(c, s', m)
    {
      assert TaskOk(c, s, m);
      SameTaskKept(c, s, s', m);
    }
    forall k
      ensures JobOk(c, s', k)
    {
      assert JobOk(c, s, k);
      if k != j {
        SameJobKept(c, s, s', k);
      }
    }
  }

  lemma ActionKeepsInv(c: Config, s: State, step: Step)
    requires Inv(c, s) && Enabled(c, s, step)
    requires step.Acquire? || step.Start? || step.Abort? || step.End?
    ensures Inv(c, Apply(c, s, step))
  {
    var j := step.job;
    var s' := Apply(c, s, step);
    ActionExtends(c, s, step);
    assert JobOk(c, s, j);
    if j.BuildJob? {
      assert TaskOk(c, s, j.target);
      ExtendsKeeps(c, s, s', j.target);
    }
    JobStepKeepsInv(c, s, s', j);
  }

  lemma StepKeepsInv(c: Config, s: State, step: Step)
    requires Inv(c, s) && Enabled(c, s, step)
    ensures Inv(c, Apply(c, s, step))
  {
    match step
    case Ask(r) => AskKeepsInv(c, s, r);
    case Complete(r) => CompleteKeepsInv(c, s, r);
    case Wake(r) => WakeKeepsInv(c, s, r);
    case Desert(r) => DesertKeepsInv(c, s, r);
    case JoinDeps(l) => JoinKeepsInv(c, s, step);
    case JoinPreRun(l) => JoinKeepsInv(c, s, step);
    case JoinRun(l) => JoinKeepsInv(c, s, step);
    case Publish(l) => PublishKeepsInv(c, s, l);
    case Acquire(j) => ActionKeepsInv(c, s, step);
    case Start(j) => ActionKeepsInv(c, s, step);
    case Abort(j) => ActionKeepsInv(c, s, step);
    case End(j, ok) => ActionKeepsInv(c, s, step);
    case _ => QuietStepKeepsInv(c, s, step);
  }

  lemma QuietStepKeepsInv(c: Config, s: State, step: Step)
    requires Inv(c, s) && Enabled(c, s, step)
    requires step.CancelAll? || step.QueueTest?
    ensures Inv(c, Apply(c, s, step))
  {
    var s' := Apply(c, s, step);
    StepExtends(c, s, step);
    forall q ensures ReqOk(c, s', q) { assert ReqOk(c, s, q); SameReqKept(c, s, s', q); }
    forall l ensures TaskOk(c, s', l) { assert TaskOk(c, s, l); SameTaskKept(c, s, s', l); }
    forall j ensures JobOk(c, s', j) { assert JobOk(c, s, j); SameJobKept(c, s, s', j); }
  }

  // ---------------------------------------------------------------- whole runs

  lemma InitInv(c: Config)
    ensures Inv(c, Init(c))
  {
  }

  lemma {:induction false} RunKeepsInv(c: Config, states: seq<State>, steps: seq<Step>, i: nat)
    requires IsRun(c, states, steps) && i < |states|
    ensures Inv(c, states[i])
  {
    if i == 0 {
      InitInv(c);
    } else {
      RunKeepsInv(c, states, steps, i - 1);
      assert StepAt(c, states, steps, i - 1);
      StepKeepsInv(c, states[i - 1], steps[i - 1]);
    }
  }

  lemma ExtendsTransitive(a: State, b: State, d: State)
    requires Extends(a, b) && Extends(b, d)
    ensures Extends(a, d)
  {
    forall l | IsPublished(a, l)
      ensures l in d.tasks && d.tasks[l] == a.tasks[l]
    {
      assert IsPublished(b, l);
    }
    forall r | HasFinished(a, r)
      ensures r in d.reqs && d.reqs[r] == a.reqs[r]
    {
      assert HasFinished(b, r);
    }
  }

  lemma RunStepExtends(c: Config, states: seq<State>, steps: seq<Step>, i: nat)
    requires IsRun(c, states, steps) && i < |steps|
    ensures Extends(states[i], states[i + 1])
  {
    assert StepAt(c, states, steps, i);
    StepExtends(c, states[i], steps[i]);
  }

  lemma {:induction false} RunExtends(c: Config, states: seq<State>, steps: seq<Step>, i: nat, j: nat)
    requires IsRun(c, states, steps) && i <= j < |states|
    ensures Extends(states[i], states[j])
    decreases j
  {
    if i < j {
      RunExtends(c, states, steps, i, j - 1);
      RunStepExtends(c, states, steps, j - 1);
      ExtendsTransitive(states[i], states[j - 1], states[j]);
    }
  }

  /** Each action and each test call starts at most once in a run. */
  lemma StartsAtMostOnce(c: Config, states: seq<State>, steps: seq<Step>, job: Job)
    requires IsRun(c, states, steps)
    ensures forall i, j :: 0 <= i < j < |steps| && steps[i] == Start(job) ==> steps[j] != Start(job)
  {
    forall i, j | 0 <= i < j < |steps| && steps[i] == Start(job)
      ensures steps[j] != Start(job)
    {
      assert StepAt(c, states, steps, i) && StepAt(c, states, steps, j);
      RunExtends(c, states, steps, i + 1, j);
    }
  }

  /** The step makes its requester the claimant of `l`. */
  ghost predicate Claims(c: Config, s: State, step: Step, l: Label) {
    && step.Ask? && CanAsk(c, s, step.r)
    && l !in s.tasks && l in DoAsk(c, s, step.r).tasks
  }

  /** Each label is claimed at most once in a run, whoever asks for it. */
  lemma ClaimedAtMostOnce(c: Config, states: seq<State>, steps: seq<Step>, l: Label)
    requires IsRun(c, states, steps)
    ensures forall i, j :: 0 <= i < j < |steps| && Claims(c, states[i], steps[i], l) ==>
              !Claims(c, states[j], steps[j], l)
  {
    forall i, j | 0 <= i < j < |steps| && Claims(c, states[i], steps[i], l)
      ensures !Claims(c, states[j], steps[j], l)
    {
      ClaimTakesEffect(c, states, steps, i, l);
      RunExtends(c, states, steps, i + 1, j);
    }
  }

  lemma ClaimTakesEffect(c: Config, states: seq<State>, steps: seq<Step>, i: nat, l: Label)
    requires IsRun(c, states, steps) && i < |steps| && Claims(c, states[i], steps[i], l)
    ensures l in states[i + 1].tasks
  {
    assert StepAt(c, states, steps, i);
  }

  /** `e` is declared by `t` as something its build action needs: a build-time dependency or a source. */
  ghost predicate NeededToBuild(t: Target, e: Label) {
    || (exists i :: 0 <= i < |t.dependencies| && t.dependencies[i].id == e &&
          !t.dependencies[i].runtime && !t.dependencies[i].data)
    || Output(e) in t.sources
  }

  ghost predicate NeededToRun(t: Target, e: Label) {
    exists i :: 0 <= i < |t.dependencies| && t.dependencies[i].id == e &&
      (t.dependencies[i].runtime || t.dependencies[i].data)
  }

  /** `e` resolves, and everything behind it has been built. */
  ghost predicate BuiltBehind(c: Config, s: State, t: Target, e: Label) {
    e in c.graph && forall d :: d in ProvideFor(c.graph[e], t) ==> Built(s, d)
  }

  lemma SucceededMeansBuilt(c: Config, s: State, r: Requester)
    requires Inv(c, s) && Succeeded(s, r)
    ensures Exists(c, r) && Wanted(c, r).Some?
    ensures forall d :: d in Wanted(c, r).value ==> Known(c, r, d) && Built(s, d)
  {
    assert ReqOk(c, s, r);
  }

  lemma NeedHasSlot(c: Config, l: Label, e: Label) returns (slot: Slot)
    requires l in c.graph && !IsAllTargets(l)
    requires NeededToBuild(c.graph[l], e)
    ensures BuildSlot(c, l, slot) && DeclaredBy(c, Worker(l, slot)) == e && !slot.MemberSlot?
  {
    var t := c.graph[l];
    if Output(e) in t.sources {
      var i :| 0 <= i < |t.sources| && t.sources[i] == Output(e);
      slot := SourceSlot(i);
    } else {
      var i :| 0 <= i < |t.dependencies| && t.dependencies[i].id == e &&
               !t.dependencies[i].runtime && !t.dependencies[i].data;
      slot := DepSlot(i);
    }
  }

  lemma DepsOkMeansBuilt(c: Config, s: State, l: Label)
    requires Inv(c, s) && l in c.graph && !IsAllTargets(l) && DepsOk(c, s, l)
    ensures forall e :: NeededToBuild(c.graph[l], e) ==> BuiltBehind(c, s, c.graph[l], e)
  {
    forall e | NeededToBuild(c.graph[l], e)
      ensures BuiltBehind(c, s, c.graph[l], e)
    {
      var slot := NeedHasSlot(c, l, e);
      SucceededMeansBuilt(c, s, Worker(l, slot));
    }
  }

  lemma RuntimeOkMeansBuilt(c: Config, s: State, l: Label)
    requires Inv(c, s) && l in c.graph && !IsAllTargets(l) && RuntimeOk(c, s, l)
    ensures forall e :: NeededToRun(c.graph[l], e) ==> BuiltBehind(c, s, c.graph[l], e)
  {
    forall e | NeededToRun(c.graph[l], e)
      ensures BuiltBehind(c, s, c.graph[l], e)
    {
      var t := c.graph[l];
      var i :| 0 <= i < |t.dependencies| && t.dependencies[i].id == e &&
               (t.dependencies[i].runtime || t.dependencies[i].data);
      assert RuntimeSlot(c, l, RunSlot(i));
      SucceededMeansBuilt(c, s, Worker(l, RunSlot(i)));
    }
  }

  /** Everything behind the declared dependency is in the graph. */
  ghost predicate ResolvedBehind(c: Config, t: Target, e: Label) {
    e in c.graph && forall d :: d in ProvideFor(c.graph[e], t) ==> d in c.graph
  }

  /** When an action starts, everything behind its build-time dependencies and sources has been built, and everything
      behind its run-time dependencies can be found; with a pre-build function it has been built as well. */
  lemma OrderingSafety(c: Config, states: seq<State>, steps: seq<Step>, i: nat, l: Label)
    requires IsRun(c, states, steps) && i < |steps| && steps[i] == Start(BuildJob(l))
    ensures l in c.graph
    ensures forall e :: NeededToBuild(c.graph[l], e) ==> BuiltBehind(c, states[i], c.graph[l], e)
    ensures forall e :: NeededToRun(c.graph[l], e) ==> ResolvedBehind(c, c.graph[l], e)
    ensures c.graph[l].hasPreBuild ==>
              forall e :: NeededToRun(c.graph[l], e) ==> BuiltBehind(c, states[i], c.graph[l], e)
  {
    var s := states[i];
    RunKeepsInv(c, states, steps, i);
    assert StepAt(c, states, steps, i);
    assert JobOk(c, s, BuildJob(l)) && TaskOk(c, s, l);
    DepsOkMeansBuilt(c, s, l);
    if s.tasks[l].Solo? {
      RuntimeOkMeansBuilt(c, s, l);
    }
    RuntimeResolvedMeansFound(c, l);
  }

  lemma RuntimeResolvedMeansFound(c: Config, l: Label)
    requires l in c.graph && !IsAllTargets(l) && RuntimeResolved(c, l)
    ensures forall e :: NeededToRun(c.graph[l], e) ==> ResolvedBehind(c, c.graph[l], e)
  {
    forall e | NeededToRun(c.graph[l], e)
      ensures ResolvedBehind(c, c.graph[l], e)
    {
      var t := c.graph[l];
      var i :| 0 <= i < |t.dependencies| && t.dependencies[i].id == e && (t.dependencies[i].runtime || t.dependencies[i].data);
      assert RuntimeSlot(c, l, RunSlot(i));
    }
  }

  /** A group has a goroutine for each declared dependency of its kind, and none for anything else. */
  lemma GroupsAreExact(c: Config, l: Label, e: Label)
    requires l in c.graph && !IsAllTargets(l)
    ensures NeededToBuild(c.graph[l], e) <==> exists slot :: BuildSlot(c, l, slot) && DeclaredBy(c, Worker(l, slot)) == e
    ensures NeededToRun(c.graph[l], e) <==> exists slot :: RuntimeSlot(c, l, slot) && DeclaredBy(c, Worker(l, slot)) == e
  {
    var t := c.graph[l];
    if NeededToBuild(t, e) {
      var slot := NeedHasSlot(c, l, e);
    }
    if i :| 0 <= i < |t.dependencies| && t.dependencies[i].id == e && (t.dependencies[i].runtime || t.dependencies[i].data) {
      assert RuntimeSlot(c, l, RunSlot(i)) && DeclaredBy(c, Worker(l, RunSlot(i))) == e;
    }
    if slot :| BuildSlot(c, l, slot) && DeclaredBy(c, Worker(l, slot)) == e {
      assert slot.SourceSlot? ==> t.sources[slot.i] == Output(e);
    }
  }

  /** Without a pre-build function run-time dependencies never delay a target: in any state of any run in which the
      goroutines for its build-time dependencies have succeeded, and what is behind the others can be found, the next
      step of its task makes the action ready. */
  lemma RunTimeDependenciesDoNotDelay(c: Config, states: seq<State>, steps: seq<Step>, i: nat, l: Label)
    requires IsRun(c, states, steps) && i < |states| && l in c.graph && !IsAllTargets(l) && !c.graph[l].hasPreBuild
    requires l in states[i].tasks
    ensures !states[i].tasks[l].PreRun?
    ensures states[i].tasks[l].Deps? && DepsOk(c, states[i], l) &&
            (forall e :: NeededToRun(c.graph[l], e) ==> ResolvedBehind(c, c.graph[l], e)) ==>
              && Enabled(c, states[i], JoinDeps(l))
              && JobReady(c, Apply(c, states[i], JoinDeps(l)), BuildJob(l))
  {
    RunKeepsInv(c, states, steps, i);
    assert TaskOk(c, states[i], l);
    if forall e :: NeededToRun(c.graph[l], e) ==> ResolvedBehind(c, c.graph[l], e) {
      forall slot | RuntimeSlot(c, l, slot)
        ensures Wanted(c, Worker(l, slot)).Some?
        ensures forall d :: d in Wanted(c, Worker(l, slot)).value ==> d in c.graph
      {
        assert NeededToRun(c.graph[l], c.graph[l].dependencies[slot.i].id);
      }
    }
  }

  /** A label is published as built only after its own action ran and succeeded and everything behind
      its dependencies of either kind was built. */
  lemma BuiltIsComplete(c: Config, states: seq<State>, steps: seq<Step>, i: nat, l: Label)
    requires IsRun(c, states, steps) && i < |states| && Built(states[i], l) && !IsAllTargets(l)
    ensures l in c.graph && BuildJob(l) in states[i].actions
    ensures states[i].actions[BuildJob(l)] == Ended(true, true)
    ensures forall e :: NeededToBuild(c.graph[l], e) || NeededToRun(c.graph[l], e) ==>
              BuiltBehind(c, states[i], c.graph[l], e)
  {
    RunKeepsInv(c, states, steps, i);
    assert TaskOk(c, states[i], l);
    DepsOkMeansBuilt(c, states[i], l);
    RuntimeOkMeansBuilt(c, states[i], l);
  }

  /** The goroutine's work must be done before the action of `l` may start. */
  predicate ComesBefore(c: Config, l: Label, slot: Slot) {
    BuildSlot(c, l, slot) || (RuntimeSlot(c, l, slot) && c.graph[l].hasPreBuild)
  }

  /** If a goroutine that must come before a target's action ends without success, at any point of a run, because
      something failed, could not be found or because it saw the cancellation, the action never starts in it. */
  lemma GivenUpNeedNeverStarts(c: Config, states: seq<State>, steps: seq<Step>, k: nat, l: Label, slot: Slot)
    requires IsRun(c, states, steps) && k < |states| && ComesBefore(c, l, slot)
    requires HasFinished(states[k], Worker(l, slot)) && !Succeeded(states[k], Worker(l, slot))
    ensures forall i :: 0 <= i < |steps| ==> steps[i] != Start(BuildJob(l))
  {
    forall i | 0 <= i < |steps|
      ensures steps[i] != Start(BuildJob(l))
    {
      if steps[i] == Start(BuildJob(l)) {
        SucceededBeforeStart(c, states, steps, i, l, slot);
        assert HasFinished(states[i], Worker(l, slot));
        if i <= k {
          RunExtends(c, states, steps, i, k);
        } else {
          RunExtends(c, states, steps, k, i);
        }
      }
    }
  }

  lemma SucceededBeforeStart(c: Config, states: seq<State>, steps: seq<Step>, i: nat, l: Label, slot: Slot)
    requires IsRun(c, states, steps) && i < |steps| && steps[i] == Start(BuildJob(l)) && ComesBefore(c, l, slot)
    ensures Succeeded(states[i], Worker(l, slot))
  {
    RunKeepsInv(c, states, steps, i);
    assert StepAt(c, states, steps, i);
    assert JobOk(c, states[i], BuildJob(l)) && TaskOk(c, states[i], l);
  }

  /** If anything a target needs before its action ends in failure, at any point of a run, its action never starts
      in it. */
  lemma FailedNeedNeverStarts(c: Config, states: seq<State>, steps: seq<Step>, k: nat, l: Label, e: Label, d: Label)
    requires IsRun(c, states, steps) && k < |states| && l in c.graph
    requires NeededToBuild(c.graph[l], e) || (c.graph[l].hasPreBuild && NeededToRun(c.graph[l], e))
    requires e in c.graph && d in ProvideFor(c.graph[e], c.graph[l])
    requires d in states[k].tasks && states[k].tasks[d] == Published(false)
    ensures forall i :: 0 <= i < |steps| ==> steps[i] != Start(BuildJob(l))
  {
    forall i | 0 <= i < |steps|
      ensures steps[i] != Start(BuildJob(l))
    {
      if steps[i] == Start(BuildJob(l)) {
        OrderingSafety(c, states, steps, i, l);
        assert BuiltBehind(c, states[i], c.graph[l], e) && Built(states[i], d);
        assert IsPublished(states[i], d) && IsPublished(states[k], d);
        if i <= k {
          RunExtends(c, states, steps, i, k);
        } else {
          RunExtends(c, states, steps, k, i);
        }
      }
    }
  }
}
