/**
 The build protocol keeps its labels in a compute-once map. Here the requests of a run are matched with calls of
 that map: every run of the build protocol is carried along by a run of `ErrMap`, in which the claimant of a label
 is the caller that runs the function, and a goroutine goes on with exactly what its call returned.
 */
module BuildOnce {
  import opened Options
  import opened BuildLabels
  import opened BuildProtocol
  import opened BuildSafety
  import A = AwaitableMap
  import E = ErrMap

  /** A goroutine calls the map once for each label of its list. */
  datatype Call = Call(r: Requester, pos: nat)

  type MapConfig = E.Config<Call, Label, Option<Label>>
  type MapState = E.State<Call, Label, Option<Label>>
  type MapStep = E.Step<Call, Option<Label>>

  const BUILD_FAILED := "build failed"

  /** The target, unless the label stands for several, and an error if building it failed. */
  function ResultOf(l: Label, ok: bool): E.Result<Option<Label>> {
    E.Result(if IsAllTargets(l) then None else Some(l), if ok then None else Some(BUILD_FAILED))
  }

  function KeyOf(c: Config, call: Call): Label {
    if Exists(c, call.r) && Wanted(c, call.r).Some? && call.pos < |Wanted(c, call.r).value| then
      Wanted(c, call.r).value[call.pos]
    else INVALID
  }

  /** The map the runner makes: no limiter, since a waiting goroutine holds no slot. */
  function MapOf(c: Config): MapConfig {
    E.Config(call => KeyOf(c, call), None, None)
  }

  // ---------------------------------------------------------------- how the states match

  ghost predicate CellMatches(b: State, e: MapState, l: Label) {
    && (l in e.shard.cells ==> l in b.tasks)
    && (l in b.tasks ==> l in e.shard.cells && FillMatches(b.tasks[l], l, e.shard.cells[l]))
  }

  predicate FillMatches(p: Phase, l: Label, cell: A.Cell<E.Result<Option<Label>>>) {
    if p.Published? then cell == A.Full(ResultOf(l, p.ok)) else cell.Pending?
  }

  /** The claimant of a label whose task is in phase `p`. */
  predicate RunnerMatches(p: Phase, l: Label, pc: E.Pc<Option<Label>>) {
    match p
    case Published(ok) => pc == E.Returned(ResultOf(l, ok), E.Ran)
    case Returned(ok) => pc.Computed? && pc.outcome == E.Ret(ResultOf(l, ok))
    case _ => pc.Computing?
  }

  /** The call returned without an error. */
  predicate Passed(e: MapState, call: Call) {
    call in e.pcs && e.pcs[call].Returned? && e.pcs[call].result.err == None
  }

  /** The call returned an error. */
  predicate Refused(e: MapState, call: Call) {
    call in e.pcs && e.pcs[call].Returned? && e.pcs[call].result.err.Some?
  }

  /** There is nothing to call for at the given position. */
  predicate NothingBehind(c: Config, r: Requester, pos: nat) {
    Exists(c, r) && (Wanted(c, r).None? || (pos < |Wanted(c, r).value| && !Known(c, r, Wanted(c, r).value[pos])))
  }

  /** All calls before `pos` returned without an error, and there the goroutine stopped. */
  ghost predicate StoppedAt(c: Config, e: MapState, r: Requester, pos: nat) {
    && (forall n: nat :: n < pos ==> Passed(e, Call(r, n)))
    && (Refused(e, Call(r, pos)) || (NothingBehind(c, r, pos) && Call(r, pos) !in e.pcs))
  }

  ghost predicate CallMatches(c: Config, b: State, e: MapState, r: Requester, pos: nat) {
    var call := Call(r, pos);
    match ReqOf(b, r)
    case Active(n) => if pos < n then Passed(e, call) else call !in e.pcs
    case Waiting(n, first) =>
      if pos < n then Passed(e, call)
      else if pos > n then call !in e.pcs
      else
        var l := KeyOf(c, call);
        call in e.pcs && l in b.tasks && if first then RunnerMatches(b.tasks[l], l, e.pcs[call]) else e.pcs[call].Waiting?
    case Finished(ok) =>
      ok && Exists(c, r) && Wanted(c, r).Some? && pos < |Wanted(c, r).value| ==> Passed(e, call)
  }

  /** The goroutine stopped at the first call that returned an error, or where there was nothing to call for. */
  ghost predicate GaveUp(c: Config, e: MapState, r: Requester) {
    exists pos: nat :: StoppedAt(c, e, r, pos)
  }

  ghost predicate IsClaimant(c: Config, b: State, call: Call, l: Label) {
    call.r in b.reqs && b.reqs[call.r] == Waiting(call.pos, true) && KeyOf(c, call) == l
  }

  ghost predicate HasClaimant(c: Config, b: State, l: Label) {
    exists call :: IsClaimant(c, b, call, l)
  }

  ghost predicate Matches(c: Config, b: State, e: MapState) {
    && (forall l {:trigger CellMatches(b, e, l)} :: CellMatches(b, e, l))
    && (forall r, pos: nat {:trigger CallMatches(c, b, e, r, pos)} :: CallMatches(c, b, e, r, pos))
    && (forall r {:trigger GaveUp(c, e, r)} :: r in b.reqs && b.reqs[r] == Finished(false) ==> GaveUp(c, e, r))
    && (forall l {:trigger HasClaimant(c, b, l)} :: l in b.tasks && !b.tasks[l].Published? ==> HasClaimant(c, b, l))
  }

  /** What the two protocols keep by themselves. */
  ghost predicate Both(c: Config, b: State, e: MapState) {
    Inv(c, b) && E.Inv(MapOf(c), e) && E.Balanced(MapOf(c), e) && Matches(c, b, e)
  }

  // ---------------------------------------------------------------- steps of the map in a row

  ghost predicate Leads(m: MapConfig, e: MapState, path: seq<MapStep>, e': MapState)
    decreases |path|
  {
    if path == [] then e == e'
    else E.Enabled(m, e, path[0]) && Leads(m, E.Apply(m, e, path[0]), path[1..], e')
  }

  // ---------------------------------------------------------------- what one request does

  /** Only goroutine `r` and its calls have changed, and labels may have been claimed. */
  ghost predicate OnlyMoves(b: State, b': State, e: MapState, e': MapState, r: Requester) {
    && (forall q :: q != r ==> ReqOf(b', q) == ReqOf(b, q))
    && (forall call: Call :: call.r != r ==>
          (call in e'.pcs <==> call in e.pcs) && (call in e.pcs ==> e'.pcs[call] == e.pcs[call]))
    && (forall l :: l in b.tasks ==> l in b'.tasks && b'.tasks[l] == b.tasks[l])
  }

  lemma OthersStayMatched(c: Config, b: State, b': State, e: MapState, e': MapState, r: Requester)
    requires Matches(c, b, e) && OnlyMoves(b, b', e, e', r)
    ensures forall q, pos: nat {:trigger CallMatches(c, b', e', q, pos)} :: q != r ==> CallMatches(c, b', e', q, pos)
  {
    forall q, pos: nat | q != r
      ensures CallMatches(c, b', e', q, pos)
    {
      assert CallMatches(c, b, e, q, pos);
      var call := Call(q, pos);
      assert call in e'.pcs <==> call in e.pcs;
    }
  }

  lemma GaveUpStays(c: Config, e: MapState, e': MapState, r: Requester)
    requires GaveUp(c, e, r)
    requires forall call: Call :: call.r == r ==>
               (call in e'.pcs <==> call in e.pcs) && (call in e.pcs ==> e'.pcs[call] == e.pcs[call])
    ensures GaveUp(c, e', r)
  {
    var pos: nat :| StoppedAt(c, e, r, pos);
    assert StoppedAt(c, e', r, pos) by {
      assert forall n: nat :: n < pos ==> Passed(e, Call(r, n));
      assert forall n: nat :: Call(r, n) in e'.pcs <==> Call(r, n) in e.pcs;
    }
  }

  lemma OthersGaveUp(c: Config, b: State, b': State, e: MapState, e': MapState, r: Requester)
    requires Matches(c, b, e) && OnlyMoves(b, b', e, e', r)
    ensures forall q {:trigger GaveUp(c, e', q)} :: q != r && q in b'.reqs && b'.reqs[q] == Finished(false) ==> GaveUp(c, e', q)
  {
    forall q | q != r && q in b'.reqs && b'.reqs[q] == Finished(false)
      ensures GaveUp(c, e', q)
    {
      assert ReqOf(b', q) == ReqOf(b, q);
      assert GaveUp(c, e, q);
      GaveUpStays(c, e, e', q);
    }
  }

  /** A goroutine that is not claiming anything moves on, and at most its own call changes. */
  lemma RequestStaysMatched(c: Config, b: State, x: ReqState, e: MapState, e': MapState, r: Requester)
    requires Matches(c, b, e)
    requires r in b.reqs && b.reqs[r].Waiting? && b.reqs[r].first ==>
               IsPublished(b, KeyOf(c, Call(r, b.reqs[r].pos)))
    requires e'.shard.cells == e.shard.cells
    requires OnlyMoves(b, b.(reqs := b.reqs[r := x]), e, e', r)
    requires forall pos: nat {:trigger CallMatches(c, b.(reqs := b.reqs[r := x]), e', r, pos)} ::
               CallMatches(c, b.(reqs := b.reqs[r := x]), e', r, pos)
    requires x == Finished(false) ==> GaveUp(c, e', r)
    ensures Matches(c, b.(reqs := b.reqs[r := x]), e')
  {
    var b' := b.(reqs := b.reqs[r := x]);
    OthersStayMatched(c, b, b', e, e', r);
    OthersGaveUp(c, b, b', e, e', r);
    forall l
      ensures CellMatches(b', e', l)
    {
      assert CellMatches(b, e, l);
    }
    forall l | l in b'.tasks && !b'.tasks[l].Published?
      ensures HasClaimant(c, b', l)
    {
      assert HasClaimant(c, b, l);
      var call :| IsClaimant(c, b, call, l);
      assert IsClaimant(c, b', call, l);
    }
  }

  lemma LeadsOnce(m: MapConfig, e: MapState, step: MapStep)
    requires E.Enabled(m, e, step)
    ensures Leads(m, e, [step], E.Apply(m, e, step))
  {
    assert [step][1..] == [];
  }

  lemma LeadsOn(m: MapConfig, e: MapState, step: MapStep, path: seq<MapStep>, e': MapState)
    requires E.Enabled(m, e, step) && Leads(m, E.Apply(m, e, step), path, e')
    ensures Leads(m, e, [step] + path, e')
  {
    assert ([step] + path)[1..] == path;
  }

  /** A call that finds its key populated returns the value. */
  lemma MapFinds(m: MapConfig, e: MapState, call: Call) returns (path: seq<MapStep>, e': MapState)
    requires m.capacity.None? && call !in e.pcs && m.key(call) in e.shard.cells && e.shard.cells[m.key(call)].Full?
    ensures Leads(m, e, path, e') && e'.shard == e.shard
    ensures e'.pcs == e.pcs[call := E.Returned(e.shard.cells[m.key(call)].val, E.Shared)]
  {
    var e1 := E.Apply(m, e, E.Arrive(call));
    e' := E.Apply(m, e1, E.Look(call));
    LeadsOnce(m, e1, E.Look(call));
    LeadsOn(m, e, E.Arrive(call), [E.Look(call)], e');
    path := [E.Arrive(call)] + [E.Look(call)];
  }

  /** A call that finds its key claimed gives up its place and waits. */
  lemma MapWaits(m: MapConfig, e: MapState, call: Call) returns (path: seq<MapStep>, e': MapState)
    requires m.capacity.None? && call !in e.pcs && m.key(call) in e.shard.cells && e.shard.cells[m.key(call)].Pending?
    ensures Leads(m, e, path, e') && e'.shard == e.shard
    ensures e'.pcs == e.pcs[call := E.Waiting(e.shard.cells[m.key(call)].ch)]
  {
    var e1 := E.Apply(m, e, E.Arrive(call));
    var e2 := E.Apply(m, e1, E.Look(call));
    e' := E.Apply(m, e2, E.Release(call));
    LeadsOnce(m, e2, E.Release(call));
    LeadsOn(m, e1, E.Look(call), [E.Release(call)], e');
    LeadsOn(m, e, E.Arrive(call), [E.Look(call)] + [E.Release(call)], e');
    path := [E.Arrive(call)] + ([E.Look(call)] + [E.Release(call)]);
  }

  /** A call for a key nobody has asked for claims it: twice it finds nothing, under the read and the write lock. */
  lemma MapClaims(m: MapConfig, e: MapState, call: Call) returns (path: seq<MapStep>, e': MapState)
    requires m.capacity.None? && call !in e.pcs && m.key(call) !in e.shard.cells
    ensures Leads(m, e, path, e')
    ensures e'.pcs == e.pcs[call := E.Computing(e.shard.next)]
    ensures e'.shard.cells == e.shard.cells[m.key(call) := A.Pending(e.shard.next)]
  {
    var e1 := E.Apply(m, e, E.Arrive(call));
    var e2 := E.Apply(m, e1, E.Look(call));
    e' := E.Apply(m, e2, E.Look(call));
    LeadsOnce(m, e2, E.Look(call));
    LeadsOn(m, e1, E.Look(call), [E.Look(call)], e');
    LeadsOn(m, e, E.Arrive(call), [E.Look(call)] + [E.Look(call)], e');
    path := [E.Arrive(call)] + ([E.Look(call)] + [E.Look(call)]);
    assert e1.pcs[call := E.Missed][call := E.Computing(e.shard.next)] == e.pcs[call := E.Computing(e.shard.next)];
  }

  /** A call that waited goes on once its key is populated. */
  lemma MapWakes(m: MapConfig, e: MapState, call: Call) returns (path: seq<MapStep>, e': MapState)
    requires E.Inv(m, e) && m.capacity.None? && call in e.pcs && e.pcs[call].Waiting?
    requires m.key(call) in e.shard.cells && e.shard.cells[m.key(call)].Full?
    ensures Leads(m, e, path, e') && e'.shard == e.shard
    ensures e'.pcs == e.pcs[call := E.Returned(e.shard.cells[m.key(call)].val, E.Shared)]
  {
    assert E.PcOk(m, e, call);
    A.ClosedMeansPopulated(e.shard, e.pcs[call].ch);
    var e1 := E.Apply(m, e, E.Wake(call));
    e' := E.Apply(m, e1, E.Reacquire(call));
    LeadsOnce(m, e1, E.Reacquire(call));
    LeadsOn(m, e, E.Wake(call), [E.Reacquire(call)], e');
    path := [E.Wake(call)] + [E.Reacquire(call)];
  }

  /** A goroutine asks for a label that is published. */
  lemma SimulateFound(c: Config, b: State, e: MapState, r: Requester, l: Label, pos: nat)
    returns (path: seq<MapStep>, e': MapState)
    requires Both(c, b, e) && ReqOf(b, r) == Active(pos) && KeyOf(c, Call(r, pos)) == l && IsPublished(b, l)
    ensures Leads(MapOf(c), e, path, e') && Matches(c, Request(b, r, l, pos), e')
  {
    assert CallMatches(c, b, e, r, pos) && CellMatches(b, e, l);
    path, e' := MapFinds(MapOf(c), e, Call(r, pos));
    var x := Resume(b.tasks[l].ok, pos);
    var b' := b.(reqs := b.reqs[r := x]);
    forall n: nat
      ensures CallMatches(c, b', e', r, n)
    {
      assert CallMatches(c, b, e, r, n);
    }
    StoppedHere(c, b, e, e', r, pos);
    RequestStaysMatched(c, b, x, e, e', r);
  }

  /** A goroutine whose call just returned an error has given up. */
  lemma StoppedHere(c: Config, b: State, e: MapState, e': MapState, r: Requester, pos: nat)
    requires Matches(c, b, e) && ReqOf(b, r) in {Active(pos), Waiting(pos, true), Waiting(pos, false)}
    requires Call(r, pos) in e'.pcs && e'.pcs == e.pcs[Call(r, pos) := e'.pcs[Call(r, pos)]]
    ensures Refused(e', Call(r, pos)) ==> GaveUp(c, e', r)
  {
    forall n: nat | n < pos
      ensures Passed(e', Call(r, n))
    {
      assert CallMatches(c, b, e, r, n);
    }
    assert Refused(e', Call(r, pos)) ==> StoppedAt(c, e', r, pos);
  }

  /** A goroutine asks for a label that is claimed. */
  lemma SimulateWait(c: Config, b: State, e: MapState, r: Requester, l: Label, pos: nat)
    returns (path: seq<MapStep>, e': MapState)
    requires Both(c, b, e) && ReqOf(b, r) == Active(pos) && KeyOf(c, Call(r, pos)) == l
    requires l in b.tasks && !b.tasks[l].Published?
    ensures Leads(MapOf(c), e, path, e') && Matches(c, Request(b, r, l, pos), e')
  {
    assert CallMatches(c, b, e, r, pos) && CellMatches(b, e, l);
    path, e' := MapWaits(MapOf(c), e, Call(r, pos));
    var x := Waiting(pos, false);
    var b' := b.(reqs := b.reqs[r := x]);
    forall n: nat
      ensures CallMatches(c, b', e', r, n)
    {
      assert CallMatches(c, b, e, r, n);
    }
    RequestStaysMatched(c, b, x, e, e', r);
  }

  /** A goroutine asks for a label nobody has asked for. */
  lemma SimulateClaim(c: Config, b: State, e: MapState, r: Requester, l: Label, pos: nat)
    returns (path: seq<MapStep>, e': MapState)
    requires Both(c, b, e) && ReqOf(b, r) == Active(pos) && KeyOf(c, Call(r, pos)) == l && l !in b.tasks
    ensures Leads(MapOf(c), e, path, e') && Matches(c, Request(b, r, l, pos), e')
  {
    assert CallMatches(c, b, e, r, pos) && CellMatches(b, e, l);
    path, e' := MapClaims(MapOf(c), e, Call(r, pos));
    ClaimStaysMatched(c, b, e, e', r, l, pos);
  }

  lemma ClaimStaysMatched(c: Config, b: State, e: MapState, e': MapState, r: Requester, l: Label, pos: nat)
    requires Matches(c, b, e) && ReqOf(b, r) == Active(pos) && KeyOf(c, Call(r, pos)) == l && l !in b.tasks
    requires e'.pcs == e.pcs[Call(r, pos) := E.Computing(e.shard.next)]
    requires e'.shard.cells == e.shard.cells[l := A.Pending(e.shard.next)]
    ensures Matches(c, Request(b, r, l, pos), e')
  {
    var b' := Request(b, r, l, pos);
    OthersStayMatched(c, b, b', e, e', r);
    OthersGaveUp(c, b, b', e, e', r);
    forall n: nat
      ensures CallMatches(c, b', e', r, n)
    {
      assert CallMatches(c, b, e, r, n);
    }
    forall k
      ensures CellMatches(b', e', k)
    {
      assert CellMatches(b, e, k);
    }
    assert IsClaimant(c, b', Call(r, pos), l);
    forall k | k in b'.tasks && !b'.tasks[k].Published?
      ensures HasClaimant(c, b', k)
    {
      if k != l {
        assert HasClaimant(c, b, k);
        var call :| IsClaimant(c, b, call, k);
        assert IsClaimant(c, b', call, k);
      }
    }
  }

  /** A goroutine that waited goes on once its label is published; the claimant's call has returned by then. */
  lemma SimulateWake(c: Config, b: State, e: MapState, r: Requester) returns (path: seq<MapStep>, e': MapState)
    requires Both(c, b, e) && Enabled(c, b, Wake(r))
    ensures Leads(MapOf(c), e, path, e') && Matches(c, Apply(c, b, Wake(r)), e')
  {
    var pos := b.reqs[r].pos;
    var l := KeyOf(c, Call(r, pos));
    assert CallMatches(c, b, e, r, pos) && CellMatches(b, e, l);
    if b.reqs[r].first {
      path, e' := [], e;
    } else {
      path, e' := MapWakes(MapOf(c), e, Call(r, pos));
    }
    WakeStaysMatched(c, b, e, e', r, l, pos);
  }

  lemma WakeStaysMatched(c: Config, b: State, e: MapState, e': MapState, r: Requester, l: Label, pos: nat)
    requires Matches(c, b, e) && r in b.reqs && b.reqs[r].Waiting? && b.reqs[r].pos == pos
    requires KeyOf(c, Call(r, pos)) == l && IsPublished(b, l)
    requires e'.shard == e.shard && Call(r, pos) in e'.pcs && e'.pcs == e.pcs[Call(r, pos) := e'.pcs[Call(r, pos)]]
    requires e'.pcs[Call(r, pos)] in {E.Returned(ResultOf(l, b.tasks[l].ok), E.Ran), E.Returned(ResultOf(l, b.tasks[l].ok), E.Shared)}
    ensures Matches(c, b.(reqs := b.reqs[r := Resume(b.tasks[l].ok, pos)]), e')
  {
    var x := Resume(b.tasks[l].ok, pos);
    var b' := b.(reqs := b.reqs[r := x]);
    forall n: nat
      ensures CallMatches(c, b', e', r, n)
    {
      assert CallMatches(c, b, e, r, n);
    }
    StoppedHere(c, b, e, e', r, pos);
    RequestStaysMatched(c, b, x, e, e', r);
  }

  /** A goroutine that waited sees its context cancelled. */
  lemma SimulateDesert(c: Config, b: State, e: MapState, r: Requester) returns (path: seq<MapStep>, e': MapState)
    requires Both(c, b, e) && Enabled(c, b, Desert(r))
    ensures Leads(MapOf(c), e, path, e') && Matches(c, Apply(c, b, Desert(r)), e')
  {
    var m, call := MapOf(c), Call(r, b.reqs[r].pos);
    assert CallMatches(c, b, e, r, call.pos);
    var e1 := E.Apply(m, e, E.Cancel(call));
    e' := E.Apply(m, e1, E.Reacquire(call));
    LeadsOnce(m, e1, E.Reacquire(call));
    LeadsOn(m, e, E.Cancel(call), [E.Reacquire(call)], e');
    path := [E.Cancel(call)] + [E.Reacquire(call)];
    var b' := b.(reqs := b.reqs[r := Finished(false)]);
    forall n: nat
      ensures CallMatches(c, b', e', r, n)
    {
    }
    assert e'.pcs == e.pcs[call := E.Returned(E.Result(None, Some(E.CANCELLED)), E.Cancelled)];
    StoppedHere(c, b, e, e', r, call.pos);
    RequestStaysMatched(c, b, Finished(false), e, e', r);
  }

  /** A goroutine that is through with its list, or finds nothing behind a label, makes no call. */
  lemma SimulateNoCall(c: Config, b: State, e: MapState, r: Requester, x: ReqState)
    requires Matches(c, b, e) && ReqOf(b, r).Active? && x.Finished?
    requires x.ok ==> Exists(c, r) && Wanted(c, r).Some? && ReqOf(b, r).pos >= |Wanted(c, r).value|
    requires !x.ok ==> NothingBehind(c, r, ReqOf(b, r).pos)
    ensures Matches(c, b.(reqs := b.reqs[r := x]), e)
  {
    var b' := b.(reqs := b.reqs[r := x]);
    forall n: nat
      ensures CallMatches(c, b', e, r, n)
    {
      assert CallMatches(c, b, e, r, n);
    }
    if !x.ok {
      var pos := ReqOf(b, r).pos;
      assert CallMatches(c, b, e, r, pos);
      forall n: nat | n < pos
        ensures Passed(e, Call(r, n))
      {
        assert CallMatches(c, b, e, r, n);
      }
      assert StoppedAt(c, e, r, pos);
    }
    RequestStaysMatched(c, b, x, e, e, r);
  }

  // ---------------------------------------------------------------- what one task does

  /** A label has one claimant. */
  lemma OneClaimant(c: Config, b: State, e: MapState, x: Call, y: Call, l: Label)
    requires Both(c, b, e) && IsClaimant(c, b, x, l) && IsClaimant(c, b, y, l)
    ensures x == y && x in e.pcs && l in b.tasks && RunnerMatches(b.tasks[l], l, e.pcs[x])
  {
    assert CallMatches(c, b, e, x.r, x.pos) && CallMatches(c, b, e, y.r, y.pos);
    assert x == Call(x.r, x.pos) && y == Call(y.r, y.pos);
    assert E.RunsFor(MapOf(c), e, x) && E.RunsFor(MapOf(c), e, y);
  }

  /** A task changes its phase, and the claimant's call with it. */
  lemma TaskStaysMatched(c: Config, b: State, p: Phase, e: MapState, e': MapState, l: Label, x: Call)
    requires Both(c, b, e) && l in b.tasks && IsClaimant(c, b, x, l)
    requires x in e'.pcs && e'.pcs == e.pcs[x := e'.pcs[x]] && RunnerMatches(p, l, e'.pcs[x])
    requires l in e'.shard.cells && FillMatches(p, l, e'.shard.cells[l])
    requires forall k :: k != l ==> (k in e'.shard.cells <==> k in e.shard.cells)
    requires forall k :: k != l && k in e.shard.cells ==> e'.shard.cells[k] == e.shard.cells[k]
    ensures Matches(c, Enter(b, l, p), e')
  {
    var b' := Enter(b, l, p);
    forall k
      ensures CellMatches(b', e', k)
    {
      assert CellMatches(b, e, k);
    }
    forall r, n: nat
      ensures CallMatches(c, b', e', r, n)
    {
      assert CallMatches(c, b, e, r, n);
      if IsClaimant(c, b, Call(r, n), l) {
        OneClaimant(c, b, e, x, Call(r, n), l);
      } else {
        NotTheClaimant(c, b, e, x, Call(r, n), l);
      }
    }
    forall q | q in b'.reqs && b'.reqs[q] == Finished(false)
      ensures GaveUp(c, e', q)
    {
      assert GaveUp(c, e, q);
      GaveUpStays(c, e, e', q);
    }
    forall k | k in b'.tasks && !b'.tasks[k].Published?
      ensures HasClaimant(c, b', k)
    {
      if k == l {
        assert IsClaimant(c, b', x, l);
      } else {
        assert HasClaimant(c, b, k);
        var call :| IsClaimant(c, b, call, k);
        assert IsClaimant(c, b', call, k);
      }
    }
  }

  lemma NotTheClaimant(c: Config, b: State, e: MapState, x: Call, y: Call, l: Label)
    requires IsClaimant(c, b, x, l) && !IsClaimant(c, b, y, l)
    ensures x != y
  {
  }

  lemma SimulatePhase(c: Config, b: State, e: MapState, l: Label, p: Phase) returns (path: seq<MapStep>, e': MapState)
    requires Both(c, b, e) && l in b.tasks && PhaseRank(b.tasks[l]) < 3 && !p.Published?
    ensures Leads(MapOf(c), e, path, e') && Matches(c, Enter(b, l, p), e')
  {
    var m := MapOf(c);
    assert HasClaimant(c, b, l) && CellMatches(b, e, l);
    var x :| IsClaimant(c, b, x, l);
    OneClaimant(c, b, e, x, x, l);
    if p.Returned? {
      var step := E.Compute(x, E.Ret(ResultOf(l, p.ok)));
      e' := E.Apply(m, e, step);
      path := [step];
      LeadsOnce(m, e, step);
    } else {
      path, e' := [], e;
      assert e.pcs == e.pcs[x := e.pcs[x]];
    }
    TaskStaysMatched(c, b, p, e, e', l, x);
  }

  lemma SimulatePublish(c: Config, b: State, e: MapState, l: Label) returns (path: seq<MapStep>, e': MapState)
    requires Both(c, b, e) && Enabled(c, b, Publish(l))
    ensures Leads(MapOf(c), e, path, e') && Matches(c, Apply(c, b, Publish(l)), e')
  {
    var m, ok := MapOf(c), b.tasks[l].ok;
    assert HasClaimant(c, b, l) && CellMatches(b, e, l);
    var x :| IsClaimant(c, b, x, l);
    OneClaimant(c, b, e, x, x, l);
    e' := E.Apply(m, e, E.Store(x));
    path := [E.Store(x)];
    LeadsOnce(m, e, E.Store(x));
    A.SetKeepsChannels(e.shard, l, ResultOf(l, ok), true);
    TaskStaysMatched(c, b, Published(ok), e, e', l, x);
  }

  // ---------------------------------------------------------------- whole runs

  lemma SimulateAsk(c: Config, b: State, e: MapState, r: Requester) returns (path: seq<MapStep>, e': MapState)
    requires Both(c, b, e) && CanAsk(c, b, r)
    ensures Leads(MapOf(c), e, path, e') && Matches(c, DoAsk(c, b, r), e')
  {
    var w, pos := Wanted(c, r), ReqOf(b, r).pos;
    if w.None? || !Known(c, r, w.value[pos]) {
      SimulateNoCall(c, b, e, r, Finished(false));
      path, e' := [], e;
    } else if w.value[pos] !in b.tasks {
      path, e' := SimulateClaim(c, b, e, r, w.value[pos], pos);
    } else if IsPublished(b, w.value[pos]) {
      path, e' := SimulateFound(c, b, e, r, w.value[pos], pos);
    } else {
      path, e' := SimulateWait(c, b, e, r, w.value[pos], pos);
    }
  }

  /** A step that touches neither requests nor tasks. */
  lemma StayMatched(c: Config, b: State, b': State, e: MapState)
    requires Matches(c, b, e) && b'.reqs == b.reqs && b'.tasks == b.tasks
    ensures Matches(c, b', e)
  {
    forall l
      ensures CellMatches(b', e, l)
    {
      assert CellMatches(b, e, l);
    }
    forall r, n: nat
      ensures CallMatches(c, b', e, r, n)
    {
      assert CallMatches(c, b, e, r, n);
    }
    forall q | q in b'.reqs && b'.reqs[q] == Finished(false)
      ensures GaveUp(c, e, q)
    {
      assert b.reqs[q] == Finished(false);
    }
    forall l | l in b'.tasks && !b'.tasks[l].Published?
      ensures HasClaimant(c, b', l)
    {
      assert HasClaimant(c, b, l);
      var call :| IsClaimant(c, b, call, l);
      assert IsClaimant(c, b', call, l);
    }
  }

  /** Every step of the build is a row of steps of the map, possibly none. */
  lemma SimulateStep(c: Config, b: State, e: MapState, step: Step) returns (path: seq<MapStep>, e': MapState)
    requires Both(c, b, e) && Enabled(c, b, step)
    ensures Leads(MapOf(c), e, path, e') && Matches(c, Apply(c, b, step), e')
  {
    match step
    case Ask(r) => path, e' := SimulateAsk(c, b, e, r);
    case Wake(r) => path, e' := SimulateWake(c, b, e, r);
    case Desert(r) => path, e' := SimulateDesert(c, b, e, r);
    case Complete(r) =>
      SimulateNoCall(c, b, e, r, Finished(true));
      path, e' := [], e;
    case JoinDeps(l) => path, e' := SimulatePhase(c, b, e, l, PhaseAfterDeps(c, b, l));
    case JoinPreRun(l) => path, e' := SimulatePhase(c, b, e, l, PhaseAfterPreRun(c, b, l));
    case JoinRun(l) => path, e' := SimulatePhase(c, b, e, l, PhaseAfterRun(c, b, l));
    case Publish(l) => path, e' := SimulatePublish(c, b, e, l);
    case _ =>
      StayMatched(c, b, Apply(c, b, step), e);
      path, e' := [], e;
  }

  lemma {:induction false} Carry(m: MapConfig, states: seq<MapState>, steps: seq<MapStep>, path: seq<MapStep>, e': MapState)
    returns (states': seq<MapState>, steps': seq<MapStep>)
    requires E.IsRun(m, states, steps) && Leads(m, states[|steps|], path, e')
    ensures E.IsRun(m, states', steps') && states <= states' && steps <= steps' && states'[|steps'|] == e'
    decreases |path|
  {
    if path == [] {
      return states, steps;
    }
    var states1, steps1 := E.Extend(m, states, steps, path[0]);
    states', steps' := Carry(m, states1, steps1, path[1..], e');
  }

  /** State `j` of the build matches state `at[j]` of the map's run. */
  ghost predicate Follows(c: Config, states: seq<State>, i: nat, mapStates: seq<MapState>, at: seq<nat>)
    requires i < |states|
  {
    && |at| == i + 1
    && (forall j :: 0 <= j < |at| ==> at[j] < |mapStates| && Matches(c, states[j], mapStates[at[j]]))
    && (forall j, k :: 0 <= j < k < |at| ==> at[j] <= at[k])
  }

  lemma InitMatches(c: Config)
    ensures Matches(c, Init(c), E.State.State(A.EmptyShard(), map[], 0, map[]))
  {
  }

  /** Every run of the build is followed, state by state, by a run of the compute-once map. */
  lemma {:induction false} BuildRunsAreMapRuns(c: Config, states: seq<State>, steps: seq<Step>, i: nat)
    returns (mapStates: seq<MapState>, mapSteps: seq<MapStep>, at: seq<nat>)
    requires IsRun(c, states, steps) && i < |states|
    ensures E.IsRun(MapOf(c), mapStates, mapSteps) && Follows(c, states, i, mapStates, at) && at[i] == |mapSteps|
  {
    var m := MapOf(c);
    if i == 0 {
      mapStates, mapSteps, at := [E.State.State(A.EmptyShard(), map[], 0, map[])], [], [0];
      InitMatches(c);
    } else {
      var before, done, at0 := BuildRunsAreMapRuns(c, states, steps, i - 1);
      RunKeepsInv(c, states, steps, i - 1);
      E.RunKeepsInv(m, before, done, |done|);
      E.LimiterStaysBalanced(m, before, done, |done|);
      assert StepAt(c, states, steps, i - 1);
      var path, e' := SimulateStep(c, states[i - 1], before[|done|], steps[i - 1]);
      mapStates, mapSteps := Carry(m, before, done, path, e');
      at := at0 + [|mapSteps|];
      assert forall j :: 0 <= j < i ==> mapStates[at0[j]] == before[at0[j]];
    }
  }
}
