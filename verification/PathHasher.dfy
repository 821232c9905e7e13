/**
 Hashing paths with a memo and one computation at a time per path. Any number of calls run
 concurrently; everything between two acquisitions of the hasher's mutex is a step of its own.
 */
module PathHasher {
  import opened Options

  type Path = string
  type Hash = string

  datatype Result = Ok(hash: Hash) | Err

  /** Where a call is: the channel is the pending record it created or found. */
  datatype Phase =
    | CheckingMemo
    | CheckingFile
    | Registering
    | Waiting(chan: nat)
    | Computing(chan: nat)
    | Computed(chan: nat, result: Result)
    | Committed(chan: nat, result: Result)
    | Closing(chan: nat, result: Result)
    | Done(via: Option<nat>, result: Result)

  datatype Call = Call(path: Path, recalc: bool, phase: Phase)

  /** A pending hash: its result, once set, and how often its channel was closed. */
  datatype Pending = Pending(path: Path, leader: nat, result: Option<Result>, closes: nat)

  /** The memo maps a path to None if its hash must be computed afresh. */
  datatype State = State(
    memo: map<Path, Option<Hash>>, wait: map<Path, nat>, pendings: seq<Pending>, calls: map<nat, Call>)

  datatype Step =
    | Begin(call: nat, path: Path, recalc: bool)
    | CheckMemo(call: nat)
    | CheckFile(call: nat, present: bool)
    | Register(call: nat)
    | Compute(call: nat, result: Result)
    | Commit(call: nat)
    | SetResult(call: nat)
    | Close(call: nat)
    | Wake(call: nat)
    | MoveOrCopy(from: Path, to: Path, copy: bool)
    | SetHash(path: Path, hash: Hash)

  const TEMPORARY := "plz-out/tmp"

  predicate Enabled(s: State, step: Step) {
    match step
    case Begin(t, _, _) => t !in s.calls
    case CheckMemo(t) => t in s.calls && s.calls[t].phase.CheckingMemo?
    case CheckFile(t, _) => t in s.calls && s.calls[t].phase.CheckingFile?
    case Register(t) => t in s.calls && s.calls[t].phase.Registering?
    case Compute(t, _) => t in s.calls && s.calls[t].phase.Computing?
    case Commit(t) => t in s.calls && s.calls[t].phase.Computed?
    case SetResult(t) => t in s.calls && s.calls[t].phase.Committed? && s.calls[t].phase.chan < |s.pendings|
    case Close(t) => t in s.calls && s.calls[t].phase.Closing? && s.calls[t].phase.chan < |s.pendings|
    case Wake(t) =>
      && t in s.calls && s.calls[t].phase.Waiting? && s.calls[t].phase.chan < |s.pendings|
      && s.pendings[s.calls[t].phase.chan].closes > 0 && s.pendings[s.calls[t].phase.chan].result.Some?
    case MoveOrCopy(_, _, _) => true
    case SetHash(_, _) => true
  }

  function GoTo(s: State, t: nat, phase: Phase): State
    requires t in s.calls
  {
    s.(calls := s.calls[t := s.calls[t].(phase := phase)])
  }

  /** The memo is consulted unless a recalculation is wanted; an entry without a hash asks for one. */
  function AfterMemo(s: State, t: nat): State
    requires t in s.calls
  {
    var c := s.calls[t];
    if c.recalc || c.path !in s.memo then GoTo(s, t, CheckingFile)
    else if s.memo[c.path].Some? then GoTo(s, t, Done(None, Ok(s.memo[c.path].value)))
    else s.(calls := s.calls[t := c.(recalc := true, phase := CheckingFile)])
  }

  function AfterRegister(s: State, t: nat): State
    requires t in s.calls
  {
    var p := s.calls[t].path;
    if p in s.wait then GoTo(s, t, Waiting(s.wait[p]))
    else GoTo(s.(wait := s.wait[p := |s.pendings|], pendings := s.pendings + [Pending(p, t, None, 0)]), t, Computing(|s.pendings|))
  }

  function AfterCommit(s: State, t: nat): State
    requires t in s.calls && s.calls[t].phase.Computed?
  {
    var c := s.calls[t];
    GoTo(s.(memo := if c.phase.result.Ok? then s.memo[c.path := Some(c.phase.result.hash)] else s.memo,
            wait := s.wait - {c.path}),
         t, Committed(c.phase.chan, c.phase.result))
  }

  function AfterMoveOrCopy(memo: map<Path, Option<Hash>>, from: Path, to: Path, copy: bool): map<Path, Option<Hash>> {
    if from in memo then
      var moved := memo[to := memo[from]];
      if !copy && TEMPORARY <= from then moved - {from} else moved
    else if copy then memo[to := None]
    else memo
  }

  function Apply(s: State, step: Step): State
    requires Enabled(s, step)
  {
    match step
    case Begin(t, p, recalc) => s.(calls := s.calls[t := Call(p, recalc, CheckingMemo)])
    case CheckMemo(t) => AfterMemo(s, t)
    case CheckFile(t, present) => GoTo(s, t, if present then Registering else Done(None, Err))
    case Register(t) => AfterRegister(s, t)
    case Compute(t, result) => GoTo(s, t, Computed(s.calls[t].phase.chan, result))
    case Commit(t) => AfterCommit(s, t)
    case SetResult(t) =>
      var Committed(c, result) := s.calls[t].phase;
      GoTo(s.(pendings := s.pendings[c := s.pendings[c].(result := Some(result))]), t, Closing(c, result))
    case Close(t) =>
      var Closing(c, result) := s.calls[t].phase;
      GoTo(s.(pendings := s.pendings[c := s.pendings[c].(closes := s.pendings[c].closes + 1)]), t, Done(Some(c), result))
    case Wake(t) =>
      var Waiting(c) := s.calls[t].phase;
      GoTo(s, t, Done(Some(c), s.pendings[c].result.value))
    case MoveOrCopy(from, to, copy) => s.(memo := AfterMoveOrCopy(s.memo, from, to, copy))
    case SetHash(p, h) => s.(memo := s.memo[p := Some(h)])
  }

  const INITIAL := State(map[], map[], [], map[])

  ghost predicate StepAt(states: seq<State>, steps: seq<Step>, i: nat)
    requires i < |steps| && |states| == |steps| + 1
  {
    Enabled(states[i], steps[i]) && states[i + 1] == Apply(states[i], steps[i])
  }

  ghost predicate IsRun(states: seq<State>, steps: seq<Step>) {
    && |states| == |steps| + 1
    && states[0] == INITIAL
    && forall i: nat {:trigger StepAt(states, steps, i)} :: i < |steps| ==> StepAt(states, steps, i)
  }

  // ---------------------------------------------------------------- what every step keeps

  /** The call is hashing its path, with the wait entry still there. */
  predicate InFlight(phase: Phase) {
    phase.Computing? || phase.Computed?
  }

  /** The phases of the call that created channel `c`. */
  predicate Leads(phase: Phase, c: nat) {
    match phase
    case Computing(d) => d == c
    case Computed(d, _) => d == c
    case Committed(d, _) => d == c
    case Closing(d, _) => d == c
    case Done(via, _) => via == Some(c)
    case _ => false
  }

  /** A pending record's result is set when its leader closes the channel, and the channel is closed once. */
  ghost predicate ChannelOk(s: State, c: nat)
    requires c < |s.pendings|
  {
    var p := s.pendings[c];
    && p.leader in s.calls && s.calls[p.leader].path == p.path && Leads(s.calls[p.leader].phase, c)
    && var phase := s.calls[p.leader].phase;
    && (phase.Done? || phase.Closing? ==> p.result == Some(phase.result))
    && (InFlight(phase) || phase.Committed? ==> p.result.None?)
    && p.closes == (if phase.Done? then 1 else 0)
  }

  ghost predicate CallOk(s: State, t: nat)
    requires t in s.calls
  {
    var c := s.calls[t];
    match c.phase
    case Waiting(d) => d < |s.pendings| && s.pendings[d].path == c.path && s.pendings[d].leader != t
    case Computing(d) => d < |s.pendings| && s.pendings[d].leader == t && c.path in s.wait && s.wait[c.path] == d
    case Computed(d, _) => d < |s.pendings| && s.pendings[d].leader == t && c.path in s.wait && s.wait[c.path] == d
    case Committed(d, _) => d < |s.pendings| && s.pendings[d].leader == t
    case Closing(d, _) => d < |s.pendings| && s.pendings[d].leader == t
    case Done(via, r) =>
      via.Some? ==>
        && via.value < |s.pendings| && s.pendings[via.value].path == c.path
        && s.pendings[via.value].closes == 1 && s.pendings[via.value].result == Some(r)
    case _ => true
  }

  ghost predicate WaitOk(s: State, p: Path)
    requires p in s.wait
  {
    && s.wait[p] < |s.pendings|
    && s.pendings[s.wait[p]].path == p
    && s.pendings[s.wait[p]].leader in s.calls
    && InFlight(s.calls[s.pendings[s.wait[p]].leader].phase)
  }

  ghost predicate Inv(s: State) {
    && (forall c: nat {:trigger ChannelOk(s, c)} :: c < |s.pendings| ==> ChannelOk(s, c))
    && (forall t {:trigger CallOk(s, t)} :: t in s.calls ==> CallOk(s, t))
    && (forall p {:trigger WaitOk(s, p)} :: p in s.wait ==> WaitOk(s, p))
  }

  ghost function ActorOf(step: Step): Option<nat> {
    match step
    case MoveOrCopy(_, _, _) => None
    case SetHash(_, _) => None
    case Begin(t, _, _) => Some(t)
    case CheckMemo(t) => Some(t)
    case CheckFile(t, _) => Some(t)
    case Register(t) => Some(t)
    case Compute(t, _) => Some(t)
    case Commit(t) => Some(t)
    case SetResult(t) => Some(t)
    case Close(t) => Some(t)
    case Wake(t) => Some(t)
  }

  lemma StepKeepsChannels(s: State, step: Step, c: nat)
    requires Inv(s) && Enabled(s, step) && c < |Apply(s, step).pendings|
    ensures ChannelOk(Apply(s, step), c)
  {
    assert c < |s.pendings| ==> ChannelOk(s, c);
    if ActorOf(step).Some? && ActorOf(step).value in s.calls {
      assert CallOk(s, ActorOf(step).value);
    }
  }

  lemma StepKeepsOtherCalls(s: State, step: Step, t: nat)
    requires Inv(s) && Enabled(s, step) && t in s.calls && ActorOf(step) != Some(t)
    ensures t in Apply(s, step).calls && CallOk(Apply(s, step), t)
  {
    assert CallOk(s, t);
    match step
    case Commit(u) => assert CallOk(s, u);
    case SetResult(u) => LeaderIsNotDone(s, t, u);
    case Close(u) => LeaderIsNotDone(s, t, u);
    case _ =>
  }

  /** No call has returned through the channel of a call that has not. */
  lemma LeaderIsNotDone(s: State, t: nat, u: nat)
    requires Inv(s) && t in s.calls && u in s.calls && (s.calls[u].phase.Committed? || s.calls[u].phase.Closing?)
    ensures s.calls[u].phase.chan < |s.pendings| && s.pendings[s.calls[u].phase.chan].leader == u
    ensures s.calls[t].phase.Done? ==> s.calls[t].phase.via != Some(s.calls[u].phase.chan)
  {
    assert CallOk(s, t) && CallOk(s, u) && ChannelOk(s, s.calls[u].phase.chan);
  }

  lemma StepKeepsItsCall(s: State, step: Step, t: nat)
    requires Inv(s) && Enabled(s, step) && ActorOf(step) == Some(t)
    ensures t in Apply(s, step).calls && CallOk(Apply(s, step), t)
  {
    if t in s.calls {
      var c := s.calls[t];
      assert CallOk(s, t);
      match c.phase
      case Registering => assert c.path in s.wait ==> WaitOk(s, c.path);
      case Waiting(d) => assert ChannelOk(s, d);
      case Closing(d, _) => assert ChannelOk(s, d);
      case _ =>
    }
  }

  lemma StepKeepsWaits(s: State, step: Step, p: Path)
    requires Inv(s) && Enabled(s, step) && p in Apply(s, step).wait
    ensures WaitOk(Apply(s, step), p)
  {
    if p in s.wait {
      assert WaitOk(s, p);
      assert ChannelOk(s, s.wait[p]);
    }
    if ActorOf(step).Some? && ActorOf(step).value in s.calls {
      assert CallOk(s, ActorOf(step).value);
    }
  }

  lemma StepKeepsInv(s: State, step: Step)
    requires Inv(s) && Enabled(s, step)
    ensures Inv(Apply(s, step))
  {
    var s' := Apply(s, step);
    forall c: nat | c < |s'.pendings|
      ensures ChannelOk(s', c)
    {
      StepKeepsChannels(s, step, c);
    }
    forall t | t in s'.calls
      ensures CallOk(s', t)
    {
      if ActorOf(step) == Some(t) {
        StepKeepsItsCall(s, step, t);
      } else {
        StepKeepsOtherCalls(s, step, t);
      }
    }
    forall p | p in s'.wait
      ensures WaitOk(s', p)
    {
      StepKeepsWaits(s, step, p);
    }
  }

  lemma {:induction false} RunKeepsInv(states: seq<State>, steps: seq<Step>, i: nat)
    requires IsRun(states, steps) && i < |states|
    ensures Inv(states[i])
  {
    if i > 0 {
      RunKeepsInv(states, steps, i - 1);
      assert StepAt(states, steps, i - 1);
      StepKeepsInv(states[i - 1], steps[i - 1]);
    }
  }

  // ---------------------------------------------------------------- one computation at a time

  /** In no state are two calls hashing the same path. */
  lemma OneComputationPerPath(states: seq<State>, steps: seq<Step>, i: nat, t: nat, u: nat)
    requires IsRun(states, steps) && i < |states|
    requires t in states[i].calls && u in states[i].calls && states[i].calls[t].path == states[i].calls[u].path
    requires InFlight(states[i].calls[t].phase) && InFlight(states[i].calls[u].phase)
    ensures t == u
  {
    RunKeepsInv(states, steps, i);
    assert CallOk(states[i], t) && CallOk(states[i], u);
  }

  /** A channel is closed at most once, and only with its result set. */
  lemma ChannelsCloseOnceWithResult(states: seq<State>, steps: seq<Step>, i: nat, c: nat)
    requires IsRun(states, steps) && i < |states| && c < |states[i].pendings|
    ensures states[i].pendings[c].closes <= 1
    ensures states[i].pendings[c].closes == 1 ==> states[i].pendings[c].result.Some?
  {
    RunKeepsInv(states, steps, i);
    assert ChannelOk(states[i], c);
  }

  /** All calls that shared a channel return what its leader computed. */
  lemma FollowersGetTheLeadersResult(states: seq<State>, steps: seq<Step>, i: nat, t: nat, c: nat)
    requires IsRun(states, steps) && i < |states| && t in states[i].calls
    requires states[i].calls[t].phase.Done? && states[i].calls[t].phase.via == Some(c)
    ensures c < |states[i].pendings| && states[i].pendings[c].path == states[i].calls[t].path
    ensures var leader := states[i].pendings[c].leader;
            leader in states[i].calls && states[i].calls[leader].phase == states[i].calls[t].phase
  {
    RunKeepsInv(states, steps, i);
    assert CallOk(states[i], t) && ChannelOk(states[i], c);
  }

  /** Nobody waits in vain: either the waiting call can go on, or the call that is hashing for it can. */
  lemma WaitersAreServed(states: seq<State>, steps: seq<Step>, i: nat, t: nat)
    requires IsRun(states, steps) && i < |states| && t in states[i].calls && states[i].calls[t].phase.Waiting?
    ensures states[i].calls[t].phase.chan < |states[i].pendings|
    ensures var leader := states[i].pendings[states[i].calls[t].phase.chan].leader;
            exists step :: Enabled(states[i], step) && ActorOf(step) in {Some(t), Some(leader)}
  {
    RunKeepsInv(states, steps, i);
    var s := states[i];
    assert CallOk(s, t);
    var c := s.calls[t].phase.chan;
    var leader := s.pendings[c].leader;
    assert ChannelOk(s, c) && CallOk(s, leader);
    var step := match s.calls[leader].phase
      case Computing(_) => Compute(leader, Err)
      case Computed(_, _) => Commit(leader)
      case Committed(_, _) => SetResult(leader)
      case Closing(_, _) => Close(leader)
      case _ => Wake(t);
    assert Enabled(s, step) && ActorOf(step) in {Some(t), Some(leader)};
  }

  // ---------------------------------------------------------------- the memo tells the truth

  /** Files do not change: computations find the path's own hash or fail, hashes are copied only between paths with
      the same hash, and set only to the right one. */
  ghost predicate Honest(s: State, step: Step, direct: Path -> Hash) {
    match step
    case Compute(t, result) => t in s.calls && (result.Ok? ==> result.hash == direct(s.calls[t].path))
    case MoveOrCopy(from, to, _) => direct(from) == direct(to)
    case SetHash(p, h) => h == direct(p)
    case _ => true
  }

  ghost predicate Truthful(s: State, direct: Path -> Hash) {
    && (forall p :: p in s.memo && s.memo[p].Some? ==> s.memo[p].value == direct(p))
    && (forall t :: t in s.calls ==> PhaseTruthful(s.calls[t].phase, direct(s.calls[t].path)))
    && (forall c :: 0 <= c < |s.pendings| ==> ResultTruthful(s.pendings[c].result, direct(s.pendings[c].path)))
  }

  predicate ResultTruthful(result: Option<Result>, h: Hash) {
    result.Some? && result.value.Ok? ==> result.value.hash == h
  }

  predicate PhaseTruthful(phase: Phase, h: Hash) {
    phase.Computed? || phase.Committed? || phase.Closing? || phase.Done? ==> ResultTruthful(Some(phase.result), h)
  }

  lemma StepKeepsTruthful(s: State, step: Step, direct: Path -> Hash)
    requires Inv(s) && Enabled(s, step) && Truthful(s, direct) && Honest(s, step, direct)
    ensures Truthful(Apply(s, step), direct)
  {
    if ActorOf(step).Some? && ActorOf(step).value in s.calls {
      var t := ActorOf(step).value;
      assert CallOk(s, t) && PhaseTruthful(s.calls[t].phase, direct(s.calls[t].path));
      match s.calls[t].phase
      case Committed(d, _) => assert ChannelOk(s, d);
      case _ =>
    }
  }

  lemma {:induction false} RunIsTruthful(states: seq<State>, steps: seq<Step>, direct: Path -> Hash, i: nat)
    requires IsRun(states, steps) && i < |states|
    requires forall k: nat {:trigger Honest(states[k], steps[k], direct)} :: k < |steps| ==> Honest(states[k], steps[k], direct)
    ensures Truthful(states[i], direct)
  {
    if i > 0 {
      RunIsTruthful(states, steps, direct, i - 1);
      RunKeepsInv(states, steps, i - 1);
      assert StepAt(states, steps, i - 1) && Honest(states[i - 1], steps[i - 1], direct);
      StepKeepsTruthful(states[i - 1], steps[i - 1], direct);
    }
  }

  /** With unchanged files, a remembered hash is the hash of the path, and so is every hash a call returns. */
  lemma HashesAreDirect(states: seq<State>, steps: seq<Step>, direct: Path -> Hash, i: nat, p: Path, t: nat)
    requires IsRun(states, steps) && i < |states|
    requires forall k: nat {:trigger Honest(states[k], steps[k], direct)} :: k < |steps| ==> Honest(states[k], steps[k], direct)
    ensures p in states[i].memo && states[i].memo[p].Some? ==> states[i].memo[p].value == direct(p)
    ensures t in states[i].calls && states[i].calls[t].phase.Done? && states[i].calls[t].phase.result.Ok? ==>
              states[i].calls[t].phase.result.hash == direct(states[i].calls[t].path)
  {
    RunIsTruthful(states, steps, direct, i);
    if t in states[i].calls {
      assert PhaseTruthful(states[i].calls[t].phase, direct(states[i].calls[t].path));
    }
  }

  // ---------------------------------------------------------------- how often a path is hashed

  /** The call has not consulted the memo yet, and is going to; or it has, and returned the hash. */
  ghost predicate WillUseMemo(s: State, t: nat, p: Path) {
    t in s.calls ==>
      && s.calls[t].path == p && !s.calls[t].recalc
      && (s.calls[t].phase.CheckingMemo? ||
          (s.calls[t].phase.Done? && s.calls[t].phase.via.None? && s.calls[t].phase.result.Ok?))
  }

  /** The step is not call `t` asking for a recalculation or for another path, and does not make the hasher forget the
      hash of `p`. */
  ghost predicate Settles(s: State, step: Step, t: nat, p: Path) {
    match step
    case Begin(u, q, recalc) => u == t ==> q == p && !recalc
    case MoveOrCopy(from, to, copy) =>
      && !(from == p && !copy && TEMPORARY <= p)
      && (to == p ==> from in s.memo && s.memo[from].Some?)
    case _ => true
  }

  /** Once a path's hash is remembered, a call that has not looked yet never hashes the path. */
  lemma {:induction false} SettledPathIsNotHashedAgain(states: seq<State>, steps: seq<Step>, i: nat, j: nat, t: nat, p: Path)
    requires IsRun(states, steps) && i <= j < |states|
    requires p in states[i].memo && states[i].memo[p].Some?
    requires t in states[i].calls ==>
               states[i].calls[t].path == p && !states[i].calls[t].recalc && states[i].calls[t].phase.CheckingMemo?
    requires forall k: nat {:trigger Settles(states[k], steps[k], t, p)} :: i <= k < j ==> Settles(states[k], steps[k], t, p)
    ensures p in states[j].memo && states[j].memo[p].Some? && WillUseMemo(states[j], t, p)
    decreases j
  {
    if i < j {
      SettledPathIsNotHashedAgain(states, steps, i, j - 1, t, p);
      assert StepAt(states, steps, j - 1) && Settles(states[j - 1], steps[j - 1], t, p);
      SettledStep(states[j - 1], steps[j - 1], t, p);
    }
  }

  lemma SettledStep(s: State, step: Step, t: nat, p: Path)
    requires Enabled(s, step) && Settles(s, step, t, p)
    requires p in s.memo && s.memo[p].Some? && WillUseMemo(s, t, p)
    ensures var s' := Apply(s, step); p in s'.memo && s'.memo[p].Some? && WillUseMemo(s', t, p)
  {
  }

  /** All calls ask for the hash of `p`, none for a recalculation, and nothing else touches the memo. */
  ghost predicate OnlyHashes(steps: seq<Step>, p: Path) {
    forall k :: 0 <= k < |steps| ==>
      !steps[k].MoveOrCopy? && !steps[k].SetHash? && (steps[k].Begin? ==> steps[k].path == p && !steps[k].recalc)
  }

  /** One more step of a run. */
  lemma Extend(states: seq<State>, steps: seq<Step>, step: Step) returns (states': seq<State>, steps': seq<Step>)
    requires IsRun(states, steps) && Enabled(states[|steps|], step)
    ensures states' == states + [Apply(states[|steps|], step)] && steps' == steps + [step]
    ensures IsRun(states', steps')
  {
    states', steps' := states + [Apply(states[|steps|], step)], steps + [step];
    forall i: nat | i < |steps'|
      ensures StepAt(states', steps', i)
    {
      if i < |steps| {
        assert StepAt(states, steps, i);
      }
    }
  }

  ghost predicate Looked(s: State, t: nat, p: Path) {
    t in s.calls && s.calls[t] == Call(p, false, CheckingFile) && p !in s.wait
  }

  /** Call `t` looks into the memo and does not find the path. */
  lemma Look(states: seq<State>, steps: seq<Step>, t: nat, p: Path) returns (states': seq<State>, steps': seq<Step>)
    requires IsRun(states, steps) && OnlyHashes(steps, p)
    requires var s := states[|steps|]; t !in s.calls && p !in s.wait && p !in s.memo
    ensures IsRun(states', steps') && OnlyHashes(steps', p)
    ensures var s, s' := states[|steps|], states'[|steps'|];
            Looked(s', t, p) && s'.memo == s.memo && s'.calls == s.calls[t := s'.calls[t]]
  {
    states', steps' := Extend(states, steps, Begin(t, p, false));
    states', steps' := Extend(states', steps', CheckMemo(t));
  }

  /** Call `t`, having looked, hashes the path and is done with it before anyone else comes. */
  lemma HashAlone(states: seq<State>, steps: seq<Step>, t: nat, p: Path, r: Result)
    returns (states': seq<State>, steps': seq<Step>)
    requires IsRun(states, steps) && OnlyHashes(steps, p) && Looked(states[|steps|], t, p)
    ensures IsRun(states', steps') && OnlyHashes(steps', p)
    ensures steps <= steps' && Compute(t, r) in steps'
    ensures forall u :: u != t && Looked(states[|steps|], u, p) ==> Looked(states'[|steps'|], u, p)
  {
    states', steps' := Extend(states, steps, CheckFile(t, true));
    states', steps' := Extend(states', steps', Register(t));
    states', steps' := Extend(states', steps', Compute(t, r));
    assert steps'[|steps'| - 1] == Compute(t, r);
    states', steps' := Extend(states', steps', Commit(t));
    assert Compute(t, r) == steps'[|steps'| - 2];
  }

  /** But a path can be hashed twice although nobody asked for a recalculation: the second call looked into the
      memo before the first one was done, and came to register after. */
  lemma PathCanBeHashedTwice(p: Path, r: Result)
    ensures exists states: seq<State>, steps: seq<Step> ::
              IsRun(states, steps) && OnlyHashes(steps, p) && Compute(0, r) in steps && Compute(1, r) in steps
  {
    var states, steps := Look([INITIAL], [], 0, p);
    states, steps := Look(states, steps, 1, p);
    states, steps := HashAlone(states, steps, 0, p, r);
    states, steps := HashAlone(states, steps, 1, p, r);
  }

  // ---------------------------------------------------------------- exactly when

  /** The second run goes on from the first by steps after which `p` stays remembered. */
  ghost predicate Continues(states: seq<State>, steps: seq<Step>, states': seq<State>, steps': seq<Step>, t: nat, p: Path) {
    && IsRun(states', steps') && states <= states' && steps <= steps'
    && forall k: nat {:trigger Settles(states'[k], steps'[k], t, p)} :: |steps| <= k < |steps'| ==>
         Settles(states'[k], steps'[k], t, p)
  }

  /** Call `t` can still come to hash `p`. */
  ghost predicate CanHash(states: seq<State>, steps: seq<Step>, t: nat, p: Path, r: Result) {
    exists states', steps' :: Continues(states, steps, states', steps', t, p) && Compute(t, r) in steps'[|steps|..]
  }

  /** The call has passed the memo and has not hashed yet, or is going to pass it. */
  predicate PastMemo(c: Call) {
    c.phase.CheckingFile? || c.phase.Registering? || c.phase.Computing? || (c.phase.CheckingMemo? && c.recalc)
  }

  lemma ContinueBy(states: seq<State>, steps: seq<Step>, states0: seq<State>, steps0: seq<Step>, step: Step, t: nat, p: Path)
    returns (states': seq<State>, steps': seq<Step>)
    requires Continues(states, steps, states0, steps0, t, p)
    requires Enabled(states0[|steps0|], step) && Settles(states0[|steps0|], step, t, p)
    ensures Continues(states, steps, states', steps', t, p)
    ensures states' == states0 + [Apply(states0[|steps0|], step)] && steps' == steps0 + [step]
  {
    states', steps' := Extend(states0, steps0, step);
    forall k: nat | |steps| <= k < |steps'|
      ensures Settles(states'[k], steps'[k], t, p)
    {
      assert k < |steps0| ==> Settles(states0[k], steps0[k], t, p);
    }
  }

  /** Whoever is hashing `p` can be done with it, without a hash. */
  lemma ClearTheWay(states: seq<State>, steps: seq<Step>, t: nat, p: Path)
    returns (states': seq<State>, steps': seq<Step>)
    requires IsRun(states, steps) && t in states[|steps|].calls && !InFlight(states[|steps|].calls[t].phase)
    ensures Continues(states, steps, states', steps', t, p)
    ensures var s' := states'[|steps'|]; p !in s'.wait && t in s'.calls && s'.calls[t] == states[|steps|].calls[t]
  {
    states', steps' := states, steps;
    var s := states[|steps|];
    if p in s.wait {
      RunKeepsInv(states, steps, |steps|);
      assert WaitOk(s, p);
      var leader := s.pendings[s.wait[p]].leader;
      assert ChannelOk(s, s.wait[p]);
      if s.calls[leader].phase.Computing? {
        states', steps' := ContinueBy(states, steps, states', steps', Compute(leader, Err), t, p);
      }
      states', steps' := ContinueBy(states, steps, states', steps', Commit(leader), t, p);
    }
  }

  lemma PastMemoCanHash(states: seq<State>, steps: seq<Step>, t: nat, p: Path, r: Result)
    requires IsRun(states, steps) && t in states[|steps|].calls && states[|steps|].calls[t].path == p
    requires PastMemo(states[|steps|].calls[t])
    ensures CanHash(states, steps, t, p, r)
  {
    var c := states[|steps|].calls[t];
    var states', steps' := states, steps;
    if !c.phase.Computing? {
      states', steps' := ClearTheWay(states, steps, t, p);
      if c.phase.CheckingMemo? {
        states', steps' := ContinueBy(states, steps, states', steps', CheckMemo(t), t, p);
      }
      if !c.phase.Registering? {
        states', steps' := ContinueBy(states, steps, states', steps', CheckFile(t, true), t, p);
      }
      states', steps' := ContinueBy(states, steps, states', steps', Register(t), t, p);
    }
    var n := |steps'|;
    states', steps' := ContinueBy(states, steps, states', steps', Compute(t, r), t, p);
    assert steps'[|steps|..][n - |steps|] == Compute(t, r);
  }

  /** The call has hashed, or waits for another that does. */
  predicate DoneHashing(phase: Phase) {
    phase.Waiting? || phase.Computed? || phase.Committed? || phase.Closing? || phase.Done?
  }

  lemma {:induction false} DoneHashingStays(states: seq<State>, steps: seq<Step>, i: nat, j: nat, t: nat)
    requires IsRun(states, steps) && i <= j < |states|
    requires t in states[i].calls && DoneHashing(states[i].calls[t].phase)
    ensures t in states[j].calls && DoneHashing(states[j].calls[t].phase)
    decreases j
  {
    if i < j {
      DoneHashingStays(states, steps, i, j - 1, t);
      assert StepAt(states, steps, j - 1);
    }
  }

  /** Once the hash of `p` is remembered, a call for `p` can still hash the path exactly if it had passed the memo before. */
  lemma HashedAgainIffPastMemo(states: seq<State>, steps: seq<Step>, t: nat, p: Path, r: Result)
    requires IsRun(states, steps)
    requires p in states[|steps|].memo && states[|steps|].memo[p].Some?
    requires t in states[|steps|].calls ==> states[|steps|].calls[t].path == p
    ensures CanHash(states, steps, t, p, r) <==>
            t in states[|steps|].calls && PastMemo(states[|steps|].calls[t])
  {
    var s, n := states[|steps|], |steps|;
    if t in s.calls && PastMemo(s.calls[t]) {
      PastMemoCanHash(states, steps, t, p, r);
    } else if CanHash(states, steps, t, p, r) {
      var states', steps' :| Continues(states, steps, states', steps', t, p) && Compute(t, r) in steps'[n..];
      var k: nat :| k < |steps'[n..]| && steps'[n..][k] == Compute(t, r);
      assert StepAt(states', steps', n + k) && states'[n] == s;
      if t in s.calls && DoneHashing(s.calls[t].phase) {
        DoneHashingStays(states', steps', n, n + k, t);
      } else {
        SettledPathIsNotHashedAgain(states', steps', n, n + k, t, p);
      }
      assert false;
    }
  }

  // ---------------------------------------------------------------- what is remembered

  ghost predicate Remembers(s: State, p: Path, h: Hash) {
    p in s.memo && s.memo[p] == Some(h)
  }

  /** The call has the result of its own computation, or has returned it. */
  predicate HasInHand(phase: Phase, r: Result) {
    (phase.Computed? || phase.Committed? || phase.Closing? || phase.Done?) && phase.result == r
  }

  lemma {:induction false} ComputedStaysInHand(states: seq<State>, steps: seq<Step>, i: nat, j: nat, t: nat, r: Result)
    requires IsRun(states, steps) && i < j < |states| && steps[i] == Compute(t, r)
    ensures t in states[j].calls && HasInHand(states[j].calls[t].phase, r)
    ensures t in states[i].calls && states[j].calls[t].path == states[i].calls[t].path
    decreases j
  {
    assert StepAt(states, steps, i) && StepAt(states, steps, j - 1);
    if i < j - 1 {
      ComputedStaysInHand(states, steps, i, j - 1, t, r);
    }
  }

  /** A call that hashes returns what it computed. */
  lemma HashersReturnWhatTheyComputed(states: seq<State>, steps: seq<Step>, i: nat, j: nat, t: nat, r: Result)
    requires IsRun(states, steps) && i < j < |states| && steps[i] == Compute(t, r)
    requires t in states[j].calls && states[j].calls[t].phase.Done?
    ensures states[j].calls[t].phase.result == r
  {
    ComputedStaysInHand(states, steps, i, j, t, r);
  }

  /** A hash that was computed is remembered as soon as the call that computed it gives up its place. */
  lemma ComputedHashIsRemembered(states: seq<State>, steps: seq<Step>, i: nat, j: nat, t: nat, h: Hash)
    requires IsRun(states, steps) && i < j < |steps| && steps[i] == Compute(t, Ok(h)) && steps[j] == Commit(t)
    ensures t in states[i].calls && Remembers(states[j + 1], states[i].calls[t].path, h)
  {
    assert StepAt(states, steps, i) && StepAt(states, steps, j);
    ComputedStaysInHand(states, steps, i, j, t, Ok(h));
  }

  /** From there on no call that begins later hashes the path, as long as nobody asks for that and nothing makes the
      hasher forget it. */
  lemma LaterCallsDoNotHash(states: seq<State>, steps: seq<Step>, j: nat, k: nat, u: nat, p: Path, h: Hash, r: Result)
    requires IsRun(states, steps) && j <= k < |steps| && Remembers(states[j], p, h) && u !in states[j].calls
    requires forall n: nat {:trigger Settles(states[n], steps[n], u, p)} :: j <= n < k ==> Settles(states[n], steps[n], u, p)
    ensures steps[k] != Compute(u, r)
  {
    SettledPathIsNotHashedAgain(states, steps, j, k, u, p);
    assert StepAt(states, steps, k);
  }

  /** Hashing a path once is enough: after a call has computed and committed its hash, a call that begins later returns a
      hash and does not compute. */
  lemma HashedOnceIsEnough(states: seq<State>, steps: seq<Step>, i: nat, j: nat, k: nat, t: nat, u: nat, h: Hash, r: Result)
    requires IsRun(states, steps) && i < j < k < |steps| && steps[i] == Compute(t, Ok(h)) && steps[j] == Commit(t)
    requires t in states[i].calls && u !in states[j + 1].calls
    requires forall n: nat {:trigger Settles(states[n], steps[n], u, states[i].calls[t].path)} :: j < n < k ==>
               Settles(states[n], steps[n], u, states[i].calls[t].path)
    ensures steps[k] != Compute(u, r)
    ensures u in states[k].calls && states[k].calls[u].phase.Done? ==> states[k].calls[u].phase.result.Ok?
  {
    var p := states[i].calls[t].path;
    ComputedHashIsRemembered(states, steps, i, j, t, h);
    LaterCallsDoNotHash(states, steps, j + 1, k, u, p, h, r);
    SettledPathIsNotHashedAgain(states, steps, j + 1, k, u, p);
  }

  /** A hash that is copied or moved is remembered for the new path, and for the old one too unless it was moved away from
      the temporary directory; a hash that is set is remembered; no other path is touched. */
  lemma CopiedHashIsRemembered(s: State, from: Path, to: Path, copy: bool, h: Hash)
    requires Remembers(s, from, h)
    ensures var s' := Apply(s, MoveOrCopy(from, to, copy));
            && (from != to || copy || !("plz-out/tmp" <= from) ==> Remembers(s', to, h))
            && (from in s'.memo <==> copy || !("plz-out/tmp" <= from))
            && (from in s'.memo ==> Remembers(s', from, h))
            && (forall q :: q != from && q != to ==> (q in s'.memo <==> q in s.memo) && (q in s.memo ==> s'.memo[q] == s.memo[q]))
    ensures forall p :: Remembers(Apply(s, SetHash(p, h)), p, h)
  {
    var s' := Apply(s, MoveOrCopy(from, to, copy));
    assert from == to && !copy && "plz-out/tmp" <= from ==> from !in s'.memo;
  }

  /** Copying a path whose hash is not known makes the copy's hash be computed afresh, whatever was remembered for it. */
  lemma UnknownCopyIsHashed(states: seq<State>, steps: seq<Step>, from: Path, to: Path, t: nat, r: Result)
    requires IsRun(states, steps) && |steps| > 0 && steps[|steps| - 1] == MoveOrCopy(from, to, true)
    requires from !in states[|steps| - 1].memo
    requires t in states[|steps|].calls && states[|steps|].calls[t].path == to && states[|steps|].calls[t].phase.CheckingMemo?
    ensures CanHash(states, steps, t, to, r)
  {
    assert StepAt(states, steps, |steps| - 1);
    var n := |steps|;
    assert states[n].memo == states[n - 1].memo[to := None];
    var states1, steps1 := ContinueBy(states, steps, states, steps, CheckMemo(t), t, to);
    PastMemoCanHash(states1, steps1, t, to, r);
    var states', steps' :| Continues(states1, steps1, states', steps', t, to) && Compute(t, r) in steps'[|steps1|..];
    var k: nat :| k < |steps'[|steps1|..]| && steps'[|steps1|..][k] == Compute(t, r);
    assert steps'[n..][k + 1] == Compute(t, r);
    forall m: nat | n <= m < |steps'|
      ensures Settles(states'[m], steps'[m], t, to)
    {
      if m == n {
        assert steps'[m] == steps1[m] == CheckMemo(t);
      }
    }
    assert Continues(states, steps, states', steps', t, to);
  }
}
