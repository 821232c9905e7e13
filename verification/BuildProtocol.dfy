/**
 The build runner as a state machine. Many goroutines ask for labels; each label is claimed once,
 its claimant waits for what the target needs, takes a slot of a limiter, runs the action and
 publishes the result. A step is one critical section of one goroutine.

 The parsed graph is fixed. An action ends by itself and may succeed or fail. A goroutine can see
 its context cancelled once the whole run is cancelled or, without keep-going, once anything failed.
 */
module BuildProtocol {
  import opened Options
  import opened BuildLabels
  import opened BuildGraph

  /** What the command line asks for. `//pkg:all` under test stands for one root per test target. */
  datatype Root = BuildRoot(target: Label) | TestRoot(target: Label)

  datatype Config = Config(
    graph: Graph,
    members: map<Label, seq<Label>>,  // the included targets of each package, by its ":all" label
    roots: seq<Root>,
    localSlots: nat,
    remoteSlots: nat,
    keepGoing: bool,
    testRuns: nat,
    testSequentially: bool)

  /** One goroutine of a task's group, named by what it builds. */
  datatype Slot = DepSlot(i: nat) | SourceSlot(i: nat) | MemberSlot(i: nat) | RunSlot(i: nat)

  /** Something that calls Build: a command-line task, or a goroutine working for a claimed label. */
  datatype Requester = RootReq(i: nat) | Worker(owner: Label, slot: Slot)

  /** The action of a target, or one run of a test root. */
  datatype Job = BuildJob(target: Label) | TestJob(root: nat, run: nat)

  datatype ReqState = Active(pos: nat) | Waiting(pos: nat, first: bool) | Finished(ok: bool)

  datatype Phase =
    | Deps               // waiting for the group that builds the build-time dependencies
    | PreRun             // a pre-build function makes it wait for the run-time dependencies too
    | Solo               // nothing but the action is left
    | Together           // the action next to the run-time dependencies
    | Returned(ok: bool) // computed, not published yet
    | Published(ok: bool)

  /** `ran` is false when the action was given up after taking its slot. */
  datatype Action = Holding | Running | Ended(ran: bool, ok: bool)

  datatype State = State(
    reqs: map<Requester, ReqState>,
    tasks: map<Label, Phase>,
    actions: map<Job, Action>,
    localInUse: nat,
    remoteInUse: nat,
    queued: set<nat>,
    numTotal: nat,
    numDone: nat,
    cancelled: bool)

  datatype Step =
    | CancelAll
    | QueueTest(i: nat)
    | Ask(r: Requester)
    | Wake(r: Requester)
    | Complete(r: Requester)
    | Desert(r: Requester)
    | JoinDeps(l: Label)
    | JoinPreRun(l: Label)
    | JoinRun(l: Label)
    | Acquire(job: Job)
    | Start(job: Job)
    | Abort(job: Job)
    | End(job: Job, ok: bool)
    | Publish(l: Label)

  // ---------------------------------------------------------------- what each goroutine is to build

  /** The goroutines that must finish before the action of `l`, or before `l` itself if it is an ":all". */
  predicate BuildSlot(c: Config, l: Label, slot: Slot) {
    if IsAllTargets(l) then
      slot.MemberSlot? && l in c.members && slot.i < |c.members[l]|
    else
      && l in c.graph
      && var t := c.graph[l];
         match slot
         case DepSlot(i) => i < |t.dependencies| && !t.dependencies[i].runtime && !t.dependencies[i].data
         case SourceSlot(i) => i < |t.sources| && t.sources[i].Output?
         case _ => false
  }

  /** The goroutines for the run-time and data dependencies. */
  predicate RuntimeSlot(c: Config, l: Label, slot: Slot) {
    && !IsAllTargets(l)
    && l in c.graph
    && slot.RunSlot?
    && var t := c.graph[l];
       slot.i < |t.dependencies| && (t.dependencies[slot.i].runtime || t.dependencies[slot.i].data)
  }

  predicate Exists(c: Config, r: Requester) {
    match r
    case RootReq(i) => i < |c.roots|
    case Worker(l, slot) => BuildSlot(c, l, slot) || RuntimeSlot(c, l, slot)
  }

  /** The dependency as it was declared. */
  function DeclaredBy(c: Config, r: Requester): Label
    requires Exists(c, r)
  {
    match r
    case RootReq(i) => c.roots[i].target
    case Worker(l, slot) =>
      match slot
      case MemberSlot(i) => c.members[l][i]
      case SourceSlot(i) => c.graph[l].sources[i].id
      case DepSlot(i) => c.graph[l].dependencies[i].id
      case RunSlot(i) => c.graph[l].dependencies[i].id
  }

  predicate ResolvesDependency(r: Requester) {
    r.Worker? && !r.slot.MemberSlot?
  }

  /** The labels it builds one after the other; None if the dependency cannot be resolved. */
  function Wanted(c: Config, r: Requester): Option<seq<Label>>
    requires Exists(c, r)
  {
    var d := DeclaredBy(c, r);
    if !ResolvesDependency(r) then Some([d])
    else if d !in c.graph then None
    else Some(ProvideFor(c.graph[d], c.graph[r.owner]))
  }

  /** Whether asking for `l` finds something to build; dependencies are looked up as targets first. */
  predicate Known(c: Config, r: Requester, l: Label) {
    l in c.graph || (IsAllTargets(l) && !ResolvesDependency(r))
  }

  /** Every label behind the run-time dependencies of `l` is in the graph. */
  ghost predicate RuntimeResolved(c: Config, l: Label) {
    forall slot :: RuntimeSlot(c, l, slot) ==>
      var w := Wanted(c, Worker(l, slot));
      w.Some? && forall k :: 0 <= k < |w.value| ==> w.value[k] in c.graph
  }

  // ---------------------------------------------------------------- limiters and tests

  predicate IsTestRoot(c: Config, i: nat) {
    && i < |c.roots| && c.roots[i].TestRoot?
    && c.roots[i].target in c.graph && c.graph[c.roots[i].target].isTest
  }

  predicate OneTestCall(c: Config) {
    c.testSequentially || c.testRuns == 1
  }

  /** How many test calls a test root makes, and how many runs each call counts for. */
  function TestCalls(c: Config): nat {
    if OneTestCall(c) then 1 else c.testRuns
  }

  function RunsPerCall(c: Config): nat {
    if OneTestCall(c) then c.testRuns else 1
  }

  predicate JobExists(c: Config, j: Job) {
    match j
    case BuildJob(l) => l in c.graph && !IsAllTargets(l)
    case TestJob(i, run) => IsTestRoot(c, i) && run < TestCalls(c)
  }

  predicate IsRemote(c: Config, j: Job)
    requires JobExists(c, j)
  {
    var l := if j.BuildJob? then j.target else c.roots[j.root].target;
    c.remoteSlots > 0 && !c.graph[l].local
  }

  function Capacity(c: Config, remote: bool): nat {
    if remote then c.remoteSlots else c.localSlots
  }

  function InUse(s: State, remote: bool): nat {
    if remote then s.remoteInUse else s.localInUse
  }

  // ---------------------------------------------------------------- reading the state

  function ReqOf(s: State, r: Requester): ReqState {
    if r in s.reqs then s.reqs[r] else Active(0)
  }

  predicate IsPublished(s: State, l: Label) {
    l in s.tasks && s.tasks[l].Published?
  }

  predicate Built(s: State, l: Label) {
    l in s.tasks && s.tasks[l] == Published(true)
  }

  predicate HasFinished(s: State, r: Requester) {
    r in s.reqs && s.reqs[r].Finished?
  }

  predicate Succeeded(s: State, r: Requester) {
    r in s.reqs && s.reqs[r] == Finished(true)
  }

  /** The goroutine has been started. */
  predicate Spawned(c: Config, s: State, r: Requester)
    requires Exists(c, r)
  {
    match r
    case RootReq(i) => IsTestRoot(c, i) ==> i in s.queued
    case Worker(l, slot) =>
      l in s.tasks && (slot.RunSlot? ==> s.tasks[l].PreRun? || s.tasks[l].Together?)
  }

  ghost predicate DepsFinished(c: Config, s: State, l: Label) {
    forall slot :: BuildSlot(c, l, slot) ==> HasFinished(s, Worker(l, slot))
  }

  ghost predicate DepsOk(c: Config, s: State, l: Label) {
    forall slot :: BuildSlot(c, l, slot) ==> Succeeded(s, Worker(l, slot))
  }

  ghost predicate RuntimeFinished(c: Config, s: State, l: Label) {
    forall slot :: RuntimeSlot(c, l, slot) ==> HasFinished(s, Worker(l, slot))
  }

  ghost predicate RuntimeOk(c: Config, s: State, l: Label) {
    forall slot :: RuntimeSlot(c, l, slot) ==> Succeeded(s, Worker(l, slot))
  }

  ghost predicate NoRuntime(c: Config, l: Label) {
    forall slot :: !RuntimeSlot(c, l, slot)
  }

  /** A goroutine of some group returned an error; failed tests are reported elsewhere. */
  predicate Failed(s: State) {
    || (exists r :: r in s.reqs && s.reqs[r] == Finished(false))
    || (exists j :: j in s.actions && j.BuildJob? && s.actions[j].Ended? && !s.actions[j].ok)
  }

  /** Some goroutine may find its context cancelled. */
  predicate Cancellable(c: Config, s: State) {
    s.cancelled || (!c.keepGoing && Failed(s))
  }

  predicate OccupiesSlot(a: Action) {
    a.Holding? || a.Running?
  }

  /** The goroutine of a job has reached the limiter. */
  predicate JobReady(c: Config, s: State, j: Job)
    requires JobExists(c, j)
  {
    match j
    case BuildJob(l) => l in s.tasks && (s.tasks[l].Solo? || s.tasks[l].Together?)
    case TestJob(i, _) => Succeeded(s, RootReq(i))
  }

  // ---------------------------------------------------------------- steps

  function Init(c: Config): State {
    State(map[], map[], map[], 0, 0, {}, 0, 0, false)
  }

  predicate CanAsk(c: Config, s: State, r: Requester) {
    && Exists(c, r) && Spawned(c, s, r) && ReqOf(s, r).Active?
    && (Wanted(c, r).Some? ==> ReqOf(s, r).pos < |Wanted(c, r).value|)
  }

  ghost predicate Enabled(c: Config, s: State, step: Step) {
    match step
    case CancelAll => !s.cancelled
    case QueueTest(i) => IsTestRoot(c, i) && i !in s.queued
    case Ask(r) => CanAsk(c, s, r)
    case Complete(r) =>
      && Exists(c, r) && Spawned(c, s, r) && ReqOf(s, r).Active?
      && Wanted(c, r).Some? && ReqOf(s, r).pos >= |Wanted(c, r).value|
    case Wake(r) =>
      && Exists(c, r) && r in s.reqs && s.reqs[r].Waiting?
      && Wanted(c, r).Some? && s.reqs[r].pos < |Wanted(c, r).value|
      && IsPublished(s, Wanted(c, r).value[s.reqs[r].pos])
    case Desert(r) =>
      r in s.reqs && s.reqs[r].Waiting? && !s.reqs[r].first && Cancellable(c, s)
    case JoinDeps(l) => l in s.tasks && s.tasks[l].Deps? && DepsFinished(c, s, l)
    case JoinPreRun(l) => l in s.tasks && s.tasks[l].PreRun? && RuntimeFinished(c, s, l)
    case JoinRun(l) =>
      && l in s.tasks
      && BuildJob(l) in s.actions && s.actions[BuildJob(l)].Ended?
      && (s.tasks[l].Solo? || (s.tasks[l].Together? && RuntimeFinished(c, s, l)))
    case Acquire(j) =>
      && JobExists(c, j) && j !in s.actions && JobReady(c, s, j)
      && InUse(s, IsRemote(c, j)) < Capacity(c, IsRemote(c, j))
    case Start(j) => j in s.actions && s.actions[j].Holding?
    case Abort(j) =>
      && JobExists(c, j) && j in s.actions && s.actions[j].Holding?
      && InUse(s, IsRemote(c, j)) > 0 && Cancellable(c, s)
    case End(j, ok) =>
      && JobExists(c, j) && j in s.actions && s.actions[j].Running? && InUse(s, IsRemote(c, j)) > 0
    case Publish(l) => l in s.tasks && s.tasks[l].Returned?
  }

  /** The result of asking the build map for a label, once the label is known. */
  function Request(s: State, r: Requester, l: Label, pos: nat): State {
    if l !in s.tasks then
      s.(reqs := s.reqs[r := Waiting(pos, true)],
         tasks := s.tasks[l := Deps],
         numTotal := s.numTotal + (if IsAllTargets(l) then 0 else 1))
    else if s.tasks[l].Published? then
      s.(reqs := s.reqs[r := Resume(s.tasks[l].ok, pos)])
    else
      s.(reqs := s.reqs[r := Waiting(pos, false)])
  }

  /** After a label has been built the goroutine goes on to the next; after a failure it gives up. */
  function Resume(ok: bool, pos: nat): ReqState {
    if ok then Active(pos + 1) else Finished(false)
  }

  /** Looks up the next label it wants and asks for it. */
  function DoAsk(c: Config, s: State, r: Requester): State
    requires CanAsk(c, s, r)
  {
    var w, pos := Wanted(c, r), ReqOf(s, r).pos;
    if w.None? || !Known(c, r, w.value[pos]) then s.(reqs := s.reqs[r := Finished(false)])
    else Request(s, r, w.value[pos], pos)
  }

  /** Moves a task to a phase; a target counts as done from the moment its claimant has the result. */
  function Enter(s: State, l: Label, p: Phase): State {
    s.(tasks := s.tasks[l := p], numDone := s.numDone + (if p.Returned? && !IsAllTargets(l) then 1 else 0))
  }

  ghost function PhaseAfterDeps(c: Config, s: State, l: Label): Phase {
    if !DepsOk(c, s, l) then Returned(false)
    else if IsAllTargets(l) then Returned(l in c.members)
    else if !RuntimeResolved(c, l) then Returned(false)
    else if NoRuntime(c, l) then Solo
    else if l in c.graph && c.graph[l].hasPreBuild then PreRun
    else Together
  }

  ghost function PhaseAfterPreRun(c: Config, s: State, l: Label): Phase {
    if RuntimeOk(c, s, l) then Solo else Returned(false)
  }

  ghost function PhaseAfterRun(c: Config, s: State, l: Label): Phase
    requires l in s.tasks && BuildJob(l) in s.actions && s.actions[BuildJob(l)].Ended?
  {
    Returned(s.actions[BuildJob(l)].ok && (s.tasks[l].Together? ==> RuntimeOk(c, s, l)))
  }

  function Occupy(s: State, remote: bool): State {
    if remote then s.(remoteInUse := s.remoteInUse + 1) else s.(localInUse := s.localInUse + 1)
  }

  function Vacate(s: State, remote: bool): State
    requires InUse(s, remote) > 0
  {
    if remote then s.(remoteInUse := s.remoteInUse - 1) else s.(localInUse := s.localInUse - 1)
  }

  ghost function Apply(c: Config, s: State, step: Step): State
    requires Enabled(c, s, step)
  {
    match step
    case CancelAll => s.(cancelled := true)
    case QueueTest(i) => s.(queued := s.queued + {i}, numTotal := s.numTotal + c.testRuns)
    case Ask(r) => DoAsk(c, s, r)
    case Complete(r) => s.(reqs := s.reqs[r := Finished(true)])
    case Wake(r) =>
      var pos := s.reqs[r].pos;
      s.(reqs := s.reqs[r := Resume(s.tasks[Wanted(c, r).value[pos]].ok, pos)])
    case Desert(r) => s.(reqs := s.reqs[r := Finished(false)])
    case JoinDeps(l) => Enter(s, l, PhaseAfterDeps(c, s, l))
    case JoinPreRun(l) => Enter(s, l, PhaseAfterPreRun(c, s, l))
    case JoinRun(l) => Enter(s, l, PhaseAfterRun(c, s, l))
    case Acquire(j) => Occupy(s, IsRemote(c, j)).(actions := s.actions[j := Holding])
    case Start(j) => s.(actions := s.actions[j := Running])
    case Abort(j) => Vacate(s, IsRemote(c, j)).(actions := s.actions[j := Ended(false, false)])
    case End(j, ok) =>
      Vacate(s, IsRemote(c, j)).(
        actions := s.actions[j := Ended(true, ok)],
        numDone := s.numDone + (if j.TestJob? then RunsPerCall(c) else 0))
    case Publish(l) => Enter(s, l, Published(s.tasks[l].ok))
  }

  ghost predicate StepAt(c: Config, states: seq<State>, steps: seq<Step>, i: nat)
    requires i < |steps| && i + 1 < |states|
  {
    Enabled(c, states[i], steps[i]) && states[i + 1] == Apply(c, states[i], steps[i])
  }

  /** A run: the states it goes through, and the step between each and the next. */
  ghost predicate IsRun(c: Config, states: seq<State>, steps: seq<Step>) {
    && |states| == |steps| + 1
    && states[0] == Init(c)
    && forall i {:trigger StepAt(c, states, steps, i)} :: 0 <= i < |steps| ==> StepAt(c, states, steps, i)
  }
}
