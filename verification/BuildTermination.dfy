/**
 Every run of the build protocol has bounded length. Each goroutine, task and job only moves forward
 through finitely many stages, so the sum of the stages reached bounds the number of steps.
 */
module BuildTermination {
  import opened BuildLabels
  import opened Reachability
  import opened BuildGraph
  import opened BuildProtocol
  import opened BuildSafety
  import opened BuildLiveness

  // ---------------------------------------------------------------- sums over finite maps

  ghost function Total<T>(m: map<T, nat>): nat {
    if m == map[] then 0 else
      var k :| k in m;
      m[k] + Total(m - {k})
  }

  lemma {:induction false} TotalSplit<T>(m: map<T, nat>, k: T)
    requires k in m
    ensures Total(m) == m[k] + Total(m - {k})
    decreases |m|
  {
    var j :| j in m && Total(m) == m[j] + Total(m - {j});
    if j != k {
      TotalSplit(m - {j}, k);
      assert m - {j} - {k} == m - {k} - {j};
      TotalSplit(m - {k}, j);
    }
  }

  lemma {:induction false} TotalGrows<T>(m: map<T, nat>, n: map<T, nat>)
    requires m.Keys == n.Keys && forall k :: k in m ==> m[k] <= n[k]
    ensures Total(m) <= Total(n)
    decreases |m|
  {
    if m == map[] {
      assert n.Keys == {};
    } else {
      var k :| k in m;
      TotalSplit(m, k);
      TotalSplit(n, k);
      TotalGrows(m - {k}, n - {k});
    }
  }

  lemma TotalGrowsStrictly<T>(m: map<T, nat>, n: map<T, nat>, k: T)
    requires m.Keys == n.Keys && forall j :: j in m ==> m[j] <= n[j]
    requires k in m && m[k] < n[k]
    ensures Total(m) < Total(n)
  {
    TotalSplit(m, k);
    TotalSplit(n, k);
    TotalGrows(m - {k}, n - {k});
  }

  // ---------------------------------------------------------------- what can move

  datatype Item =
    | ReqItem(r: Requester)
    | TaskItem(l: Label)
    | JobItem(j: Job)
    | QueueItem(i: nat)
    | CancelItem

  /** The labels a run can claim. */
  ghost function Claimable(c: Config): set<Label> {
    c.graph.Keys + (set i | 0 <= i < |c.roots| :: c.roots[i].target) +
    (set l, i | l in c.members && 0 <= i < |c.members[l]| :: c.members[l][i])
  }

  ghost function Workers(c: Config): set<Item> {
    (set l, i | l in c.graph && 0 <= i < |c.graph[l].dependencies| :: ReqItem(Worker(l, DepSlot(i)))) +
    (set l, i | l in c.graph && 0 <= i < |c.graph[l].dependencies| :: ReqItem(Worker(l, RunSlot(i)))) +
    (set l, i | l in c.graph && 0 <= i < |c.graph[l].sources| :: ReqItem(Worker(l, SourceSlot(i)))) +
    (set l, i | l in c.members && 0 <= i < |c.members[l]| :: ReqItem(Worker(l, MemberSlot(i))))
  }

  ghost function Items(c: Config): set<Item> {
    Workers(c) +
    (set i | 0 <= i < |c.roots| :: ReqItem(RootReq(i))) +
    (set l | l in Claimable(c) :: TaskItem(l)) +
    (set l | l in c.graph :: JobItem(BuildJob(l))) +
    (set i, run | 0 <= i < |c.roots| && 0 <= run < TestCalls(c) :: JobItem(TestJob(i, run))) +
    (set i | 0 <= i < |c.roots| :: QueueItem(i)) +
    {CancelItem}
  }

  ghost function WantedCount(c: Config, r: Requester): nat {
    if Exists(c, r) && Wanted(c, r).Some? then |Wanted(c, r).value| else 0
  }

  function ReqStage(x: ReqState, n: nat): nat {
    match x
    case Active(pos) => 2 * pos
    case Waiting(pos, _) => 2 * pos + 1
    case Finished(_) => 2 * n + 2
  }

  /** How far an item has come. */
  ghost function Stage(c: Config, s: State, it: Item): nat {
    match it
    case ReqItem(r) => ReqStage(ReqOf(s, r), WantedCount(c, r))
    case TaskItem(l) => if l in s.tasks then 1 + PhaseRank(s.tasks[l]) else 0
    case JobItem(j) => if j in s.actions then 1 + ActionRank(s.actions[j]) else 0
    case QueueItem(i) => if i in s.queued then 1 else 0
    case CancelItem => if s.cancelled then 1 else 0
  }

  ghost function LastStage(c: Config, it: Item): nat {
    match it
    case ReqItem(r) => 2 * WantedCount(c, r) + 2
    case TaskItem(_) => 5
    case JobItem(_) => 3
    case _ => 1
  }

  ghost function Progress(c: Config, s: State): nat {
    Total(map it | it in Items(c) :: Stage(c, s, it))
  }

  /** The bound on the length of a run. */
  ghost function MaxSteps(c: Config): nat {
    Total(map it | it in Items(c) :: LastStage(c, it))
  }

  /** The item a step moves. */
  function Moved(step: Step): Item {
    match step
    case CancelAll => CancelItem
    case QueueTest(i) => QueueItem(i)
    case Ask(r) => ReqItem(r)
    case Wake(r) => ReqItem(r)
    case Complete(r) => ReqItem(r)
    case Desert(r) => ReqItem(r)
    case JoinDeps(l) => TaskItem(l)
    case JoinPreRun(l) => TaskItem(l)
    case JoinRun(l) => TaskItem(l)
    case Publish(l) => TaskItem(l)
    case Acquire(j) => JobItem(j)
    case Start(j) => JobItem(j)
    case Abort(j) => JobItem(j)
    case End(j, _) => JobItem(j)
  }

  // ---------------------------------------------------------------- claims stay claimable

  ghost predicate ClaimsKnown(c: Config, s: State) {
    forall l :: l in s.tasks ==> l in Claimable(c)
  }

  lemma AskedIsClaimable(c: Config, r: Requester, l: Label)
    requires Exists(c, r) && Wanted(c, r).Some? && l in Wanted(c, r).value && Known(c, r, l)
    ensures l in Claimable(c)
  {
    if l !in c.graph {
      match r
      case RootReq(i) => assert c.roots[i].target == l;
      case Worker(o, slot) => assert c.members[o][slot.i] == l;
    }
  }

  lemma StepKeepsClaims(c: Config, s: State, step: Step)
    requires ClaimsKnown(c, s) && Enabled(c, s, step)
    ensures ClaimsKnown(c, Apply(c, s, step))
  {
    var s' := Apply(c, s, step);
    if step.Ask? && Wanted(c, step.r).Some? {
      var l := Wanted(c, step.r).value[ReqOf(s, step.r).pos];
      if Known(c, step.r, l) {
        AskedIsClaimable(c, step.r, l);
      }
      assert forall m :: m in s'.tasks ==> m in s.tasks || (m == l && Known(c, step.r, l));
    } else {
      OthersClaimNothing(c, s, step);
    }
  }

  lemma OthersClaimNothing(c: Config, s: State, step: Step)
    requires Enabled(c, s, step) && (step.Ask? ==> Wanted(c, step.r).None?)
    ensures Apply(c, s, step).tasks.Keys == s.tasks.Keys
  {
  }

  // ---------------------------------------------------------------- every step advances

  lemma MovedIsItem(c: Config, s: State, step: Step)
    requires Inv(c, s) && ClaimsKnown(c, s) && Enabled(c, s, step)
    ensures Moved(step) in Items(c)
  {
    match step
    case Ask(r) => RequesterIsItem(c, r);
    case Complete(r) => RequesterIsItem(c, r);
    case Wake(r) => RequesterIsItem(c, r);
    case Desert(r) => assert ReqOk(c, s, r); RequesterIsItem(c, r);
    case Acquire(j) => JobIsItem(c, j);
    case Start(j) => assert JobOk(c, s, j); JobIsItem(c, j);
    case Abort(j) => JobIsItem(c, j);
    case End(j, _) => JobIsItem(c, j);
    case _ =>
  }

  lemma RequesterIsItem(c: Config, r: Requester)
    requires Exists(c, r)
    ensures ReqItem(r) in Items(c)
  {
    if r.Worker? {
      assert ReqItem(r) in Workers(c) by {
        match r.slot
        case DepSlot(i) => assert r == Worker(r.owner, DepSlot(i));
        case RunSlot(i) => assert r == Worker(r.owner, RunSlot(i));
        case SourceSlot(i) => assert r == Worker(r.owner, SourceSlot(i));
        case MemberSlot(i) => assert r == Worker(r.owner, MemberSlot(i));
      }
    } else {
      assert r == RootReq(r.i);
    }
  }

  lemma JobIsItem(c: Config, j: Job)
    requires JobExists(c, j)
    ensures JobItem(j) in Items(c)
  {
    match j
    case BuildJob(l) =>
    case TestJob(i, run) => assert j == TestJob(i, run);
  }

  /** Only the requester that moves has its state changed. */
  lemma OtherRequestersStay(c: Config, s: State, step: Step, q: Requester)
    requires Enabled(c, s, step) && Moved(step) != ReqItem(q)
    ensures ReqOf(Apply(c, s, step), q) == ReqOf(s, q)
  {
    if step.Ask? {
      AskTouchesOne(c, s, step.r, q);
    }
  }

  lemma AskTouchesOne(c: Config, s: State, r: Requester, q: Requester)
    requires CanAsk(c, s, r) && q != r
    ensures ReqOf(DoAsk(c, s, r), q) == ReqOf(s, q)
  {
  }

  lemma RequesterAdvances(c: Config, s: State, step: Step)
    requires Inv(c, s) && Enabled(c, s, step)
    requires step.Ask? || step.Wake? || step.Complete? || step.Desert?
    ensures Stage(c, s, Moved(step)) < Stage(c, Apply(c, s, step), Moved(step))
  {
    assert ReqOk(c, s, step.r);
    if step.Ask? {
      AskAdvances(c, s, step.r);
    }
  }

  lemma AskAdvances(c: Config, s: State, r: Requester)
    requires CanAsk(c, s, r) && ReqOf(s, r).pos <= WantedCount(c, r)
    ensures Stage(c, s, ReqItem(r)) < Stage(c, DoAsk(c, s, r), ReqItem(r))
  {
    var pos, after := ReqOf(s, r).pos, ReqOf(DoAsk(c, s, r), r);
    assert after.Finished? || after == Active(pos + 1) || (after.Waiting? && after.pos == pos) by {
      AskEndsIn(c, s, r);
    }
    assert ReqStage(ReqOf(s, r), WantedCount(c, r)) < ReqStage(after, WantedCount(c, r));
  }

  lemma AskEndsIn(c: Config, s: State, r: Requester)
    requires CanAsk(c, s, r)
    ensures var pos, after := ReqOf(s, r).pos, ReqOf(DoAsk(c, s, r), r);
            after.Finished? || after == Active(pos + 1) || (after.Waiting? && after.pos == pos)
  {
    var w, pos := Wanted(c, r), ReqOf(s, r).pos;
    if w.Some? && Known(c, r, w.value[pos]) {
      assert DoAsk(c, s, r) == Request(s, r, w.value[pos], pos);
    }
  }

  lemma NothingFallsBack(c: Config, s: State, step: Step, it: Item)
    requires Inv(c, s) && Enabled(c, s, step)
    ensures Stage(c, s, it) <= Stage(c, Apply(c, s, step), it)
  {
    StepExtends(c, s, step);
    if it.ReqItem? {
      if Moved(step) == it {
        RequesterAdvances(c, s, step);
      } else {
        OtherRequestersStay(c, s, step, it.r);
      }
    }
    assert s.cancelled ==> Apply(c, s, step).cancelled;
  }

  lemma MovedAdvances(c: Config, s: State, step: Step)
    requires Inv(c, s) && Enabled(c, s, step)
    ensures Stage(c, s, Moved(step)) < Stage(c, Apply(c, s, step), Moved(step))
  {
    if step.Ask? || step.Wake? || step.Complete? || step.Desert? {
      RequesterAdvances(c, s, step);
    } else {
      OthersAdvance(c, s, step);
    }
  }

  lemma OthersAdvance(c: Config, s: State, step: Step)
    requires Enabled(c, s, step) && !step.Ask? && !step.Wake? && !step.Complete? && !step.Desert?
    ensures Stage(c, s, Moved(step)) < Stage(c, Apply(c, s, step), Moved(step))
  {
  }

  lemma StepAdvances(c: Config, s: State, step: Step)
    requires Inv(c, s) && ClaimsKnown(c, s) && Enabled(c, s, step)
    ensures Progress(c, s) < Progress(c, Apply(c, s, step))
  {
    var s' := Apply(c, s, step);
    var m := map it | it in Items(c) :: Stage(c, s, it);
    var n := map it | it in Items(c) :: Stage(c, s', it);
    forall it | it in Items(c)
      ensures m[it] <= n[it]
    {
      NothingFallsBack(c, s, step, it);
    }
    MovedIsItem(c, s, step);
    MovedAdvances(c, s, step);
    TotalGrowsStrictly(m, n, Moved(step));
  }

  lemma StageIsBounded(c: Config, s: State, it: Item)
    requires Inv(c, s)
    ensures Stage(c, s, it) <= LastStage(c, it)
  {
    if it.ReqItem? {
      assert ReqOk(c, s, it.r);
    }
  }

  lemma ProgressIsBounded(c: Config, s: State)
    requires Inv(c, s)
    ensures Progress(c, s) <= MaxSteps(c)
  {
    var m := map it | it in Items(c) :: Stage(c, s, it);
    var n := map it | it in Items(c) :: LastStage(c, it);
    forall it | it in Items(c)
      ensures m[it] <= n[it]
    {
      StageIsBounded(c, s, it);
    }
    TotalGrows(m, n);
  }

  lemma {:induction false} RunProgress(c: Config, states: seq<State>, steps: seq<Step>, i: nat) returns (p: nat)
    requires IsRun(c, states, steps) && i < |states|
    ensures ClaimsKnown(c, states[i]) && p == Progress(c, states[i]) && i <= p
  {
    if i == 0 {
      p := Progress(c, states[i]);
    } else {
      var before := RunProgress(c, states, steps, i - 1);
      p := RunStepAdvances(c, states, steps, i, before);
    }
  }

  lemma RunStepAdvances(c: Config, states: seq<State>, steps: seq<Step>, i: nat, before: nat) returns (p: nat)
    requires IsRun(c, states, steps) && 0 < i < |states| && ClaimsKnown(c, states[i - 1])
    requires before == Progress(c, states[i - 1])
    ensures ClaimsKnown(c, states[i]) && p == Progress(c, states[i]) && before < p
  {
    RunKeepsInv(c, states, steps, i - 1);
    assert StepAt(c, states, steps, i - 1);
    StepKeepsClaims(c, states[i - 1], steps[i - 1]);
    StepAdvances(c, states[i - 1], steps[i - 1]);
    p := Progress(c, states[i]);
  }

  /** No run takes more than MaxSteps steps. */
  lemma RunsAreBounded(c: Config, states: seq<State>, steps: seq<Step>)
    requires IsRun(c, states, steps)
    ensures |steps| <= MaxSteps(c)
  {
    var _ := RunProgress(c, states, steps, |steps|);
    RunKeepsInv(c, states, steps, |steps|);
    ProgressIsBounded(c, states[|steps|]);
  }

  lemma RunExtended(c: Config, states: seq<State>, steps: seq<Step>, step: Step)
    requires IsRun(c, states, steps) && Enabled(c, states[|steps|], step)
    ensures IsRun(c, states + [Apply(c, states[|steps|], step)], steps + [step])
  {
    var longer, more := states + [Apply(c, states[|steps|], step)], steps + [step];
    forall i | 0 <= i < |more|
      ensures StepAt(c, longer, more, i)
    {
      if i < |steps| {
        assert StepAt(c, states, steps, i);
        assert longer[i] == states[i] && longer[i + 1] == states[i + 1] && more[i] == steps[i];
      } else {
        assert longer[i] == states[i] && more[i] == step;
      }
    }
  }

  /** Extends a run until nothing but cancelling is possible; it cannot go on for ever. */
  lemma {:induction false} RunCanBeFinished(c: Config, states: seq<State>, steps: seq<Step>)
    returns (states': seq<State>, steps': seq<Step>)
    requires IsRun(c, states, steps)
    ensures IsRun(c, states', steps') && steps <= steps' && Quiet(c, states'[|steps'|])
    decreases MaxSteps(c) - |steps|
  {
    RunsAreBounded(c, states, steps);
    if Quiet(c, states[|steps|]) {
      return states, steps;
    }
    var step :| Enabled(c, states[|steps|], step) && !IsCancellation(step);
    var longer, more := states + [Apply(c, states[|steps|], step)], steps + [step];
    RunExtended(c, states, steps, step);
    RunsAreBounded(c, longer, more);
    states', steps' := RunCanBeFinished(c, longer, more);
  }

  /** On an acyclic graph every run can be carried on to one in which everything asked for has an outcome. */
  lemma AcyclicBuildCompletes(c: Config, states: seq<State>, steps: seq<Step>)
    returns (states': seq<State>, steps': seq<Step>)
    requires WellFormed(c) && Acyclic(DependencyEdges(c.graph)) && IsRun(c, states, steps)
    ensures IsRun(c, states', steps') && steps <= steps' && AllDone(c, states'[|steps'|])
  {
    states', steps' := RunCanBeFinished(c, states, steps);
    AcyclicBuildFinishes(c, states', steps');
  }
}
