/**
 The map that computes the value of each key once. The first caller for a key runs its function and
 stores the result; the others wait for it, giving up their slot of the limiter meanwhile.
 The function may also panic: the panic is stored as an error, but the caller that ran it gets no error.
 */
module ErrMap {
  import opened Options
  import opened AwaitableMap

  /** A value and an error, as stored and as returned. */
  datatype Result<V> = Result(val: V, err: Option<string>)

  /** How the function of the first caller ends. */
  datatype Outcome<V> = Ret(result: Result<V>) | Panic(msg: string)

  /** Each caller makes one call of GetOrSetCtx, for its key; no limiter if `capacity` is None. */
  datatype Config<!T, K, V> = Config(key: T -> K, zero: V, capacity: Option<nat>)

  datatype Pc<V> =
    | Begun
    | Missed
    | Computing(ch: nat)
    | Computed(ch: nat, outcome: Outcome<V>)
    | Blocked(ch: nat)                   // has to wait, still holds its slot
    | Waiting(ch: nat)                   // slot given up
    | Woken(result: Result<V>, cancelled: bool)
    | Returned(result: Result<V>, how: How)
    | Left(result: Result<V>, how: How)  // went on to something else and gave its slot back

  datatype How = Ran | Shared | Cancelled

  /** `ran` remembers how the function of each key ended. */
  datatype State<!T, K, V> = State(shard: Shard<K, Result<V>>, pcs: map<T, Pc<V>>, inUse: nat, ran: map<K, Outcome<V>>)

  datatype Step<T, V> =
    | Arrive(t: T)
    | Look(t: T)
    | Compute(t: T, outcome: Outcome<V>)
    | Store(t: T)
    | Release(t: T)
    | Wake(t: T)
    | Cancel(t: T)
    | Reacquire(t: T)
    | Leave(t: T)

  const CANCELLED := "context canceled"

  /** What is stored for the waiters. */
  function Stored<T, K, V>(c: Config<T, K, V>, o: Outcome<V>): Result<V> {
    match o case Ret(r) => r case Panic(msg) => Result(c.zero, Some(msg))
  }

  /** What the caller that ran the function returns. */
  function ReturnedByRunner<T, K, V>(c: Config<T, K, V>, o: Outcome<V>): Result<V> {
    match o case Ret(r) => r case Panic(_) => Result(c.zero, None)
  }

  predicate HoldsSlot<V>(pc: Pc<V>) {
    !pc.Waiting? && !pc.Woken? && !pc.Left?
  }

  predicate SlotFree<T, K, V>(c: Config<T, K, V>, s: State<T, K, V>) {
    c.capacity.Some? ==> s.inUse < c.capacity.value
  }

  function Found<T, K, V>(s: State<T, K, V>, key: K): Pc<V>
    requires key in s.shard.cells
  {
    match s.shard.cells[key] case Full(v) => Returned(v, Shared) case Pending(ch) => Pc.Blocked(ch)
  }

  predicate Enabled<T, K, V>(c: Config<T, K, V>, s: State<T, K, V>, step: Step<T, V>) {
    match step
    case Arrive(t) => t !in s.pcs && SlotFree(c, s)
    case Look(t) => t in s.pcs && (s.pcs[t].Begun? || s.pcs[t].Missed?)
    case Compute(t, _) => t in s.pcs && s.pcs[t].Computing?
    case Store(t) => t in s.pcs && s.pcs[t].Computed?
    case Release(t) => t in s.pcs && s.pcs[t].Blocked? && s.inUse > 0
    case Wake(t) => t in s.pcs && s.pcs[t].Waiting? && s.pcs[t].ch in s.shard.closed
    case Cancel(t) => t in s.pcs && s.pcs[t].Waiting?
    case Reacquire(t) => t in s.pcs && s.pcs[t].Woken? && SlotFree(c, s)
    case Leave(t) => t in s.pcs && s.pcs[t].Returned? && s.inUse > 0
  }

  function Apply<T, K, V>(c: Config<T, K, V>, s: State<T, K, V>, step: Step<T, V>): State<T, K, V>
    requires Enabled(c, s, step)
  {
    match step
    case Arrive(t) => s.(pcs := s.pcs[t := Begun], inUse := s.inUse + 1)
    case Look(t) =>
      var key := c.key(t);
      if key in s.shard.cells then s.(pcs := s.pcs[t := Found(s, key)])
      else if s.pcs[t].Begun? then s.(pcs := s.pcs[t := Pc.Missed])
      else s.(shard := Claim(s.shard, key), pcs := s.pcs[t := Computing(s.shard.next)])
    case Compute(t, o) => s.(pcs := s.pcs[t := Computed(s.pcs[t].ch, o)])
    case Store(t) =>
      var o := s.pcs[t].outcome;
      s.(shard := SetCell(s.shard, c.key(t), Stored(c, o), true).0,
         pcs := s.pcs[t := Returned(ReturnedByRunner(c, o), Ran)],
         ran := s.ran[c.key(t) := o])
    case Release(t) => s.(pcs := s.pcs[t := Waiting(s.pcs[t].ch)], inUse := s.inUse - 1)
    case Wake(t) =>
      var got := GetCell(s.shard, c.key(t));
      s.(pcs := s.pcs[t := Woken(if got.Some? then got.value else Result(c.zero, None), false)])
    case Cancel(t) => s.(pcs := s.pcs[t := Woken(Result(c.zero, Some(CANCELLED)), true)])
    case Reacquire(t) =>
      var how := if s.pcs[t].cancelled then Cancelled else Shared;
      s.(pcs := s.pcs[t := Returned(s.pcs[t].result, how)], inUse := s.inUse + 1)
    case Leave(t) => s.(pcs := s.pcs[t := Left(s.pcs[t].result, s.pcs[t].how)], inUse := s.inUse - 1)
  }

  ghost predicate StepAt<T, K, V>(c: Config<T, K, V>, states: seq<State<T, K, V>>, steps: seq<Step<T, V>>, i: nat)
    requires i < |steps| && i + 1 < |states|
  {
    Enabled(c, states[i], steps[i]) && states[i + 1] == Apply(c, states[i], steps[i])
  }

  ghost predicate IsRun<T, K, V>(c: Config<T, K, V>, states: seq<State<T, K, V>>, steps: seq<Step<T, V>>) {
    && |states| == |steps| + 1
    && states[0] == State.State(EmptyShard(), map[], 0, map[])
    && forall i {:trigger StepAt(c, states, steps, i)} :: 0 <= i < |steps| ==> StepAt(c, states, steps, i)
  }

  // ---------------------------------------------------------------- invariants

  /** The call is over. */
  predicate IsOver<V>(pc: Pc<V>) {
    pc.Returned? || pc.Left?
  }

  /** The caller that runs, or ran, the function of its key. */
  predicate IsRunner<V>(pc: Pc<V>) {
    pc.Computing? || pc.Computed? || (IsOver(pc) && pc.how == Ran)
  }

  /** What a caller returns: the outcome of its own run, what was stored for the others, or the cancellation. */
  ghost predicate ResultOk<T, K, V>(c: Config<T, K, V>, s: State<T, K, V>, key: K, r: Result<V>, how: How) {
    && (how == Ran ==> key in s.ran && r == ReturnedByRunner(c, s.ran[key]))
    && (how == Shared ==> key in s.ran && r == Stored(c, s.ran[key]))
    && (how == Cancelled ==> r == Result(c.zero, Some(CANCELLED)))
  }

  ghost predicate PcOk<T, K, V>(c: Config<T, K, V>, s: State<T, K, V>, t: T) {
    t in s.pcs ==>
      && var key := c.key(t);
         match s.pcs[t]
         case Computing(ch) => key in s.shard.cells && s.shard.cells[key] == Pending(ch)
         case Computed(ch, _) => key in s.shard.cells && s.shard.cells[key] == Pending(ch)
         case Blocked(ch) => ch in s.shard.owner && s.shard.owner[ch] == key
         case Waiting(ch) => ch in s.shard.owner && s.shard.owner[ch] == key
         case Woken(r, cancelled) => ResultOk(c, s, key, r, if cancelled then Cancelled else Shared)
         case Returned(r, how) => ResultOk(c, s, key, r, how)
         case Left(r, how) => ResultOk(c, s, key, r, how)
         case _ => true
  }

  predicate RunsFor<T, K, V>(c: Config<T, K, V>, s: State<T, K, V>, t: T) {
    t in s.pcs && IsRunner(s.pcs[t])
  }

  ghost predicate OneRunner<T(!new), K, V>(c: Config<T, K, V>, s: State<T, K, V>) {
    forall t: T, u: T :: RunsFor(c, s, t) && RunsFor(c, s, u) && c.key(t) == c.key(u) ==> t == u
  }

  ghost predicate Inv<T(!new), K(!new), V(!new)>(c: Config<T, K, V>, s: State<T, K, V>) {
    && ChannelsMatch(s.shard)
    && (forall k :: k in s.ran <==> GetCell(s.shard, k).Some?)
    && (forall k :: k in s.ran ==> GetCell(s.shard, k) == Some(Stored(c, s.ran[k])))
    && (forall t :: PcOk(c, s, t))
    && OneRunner(c, s)
  }

  lemma LookKeepsInv<T(!new), K(!new), V(!new)>(c: Config<T, K, V>, s: State<T, K, V>, t: T)
    requires Inv(c, s) && Enabled(c, s, Look(t))
    ensures Inv(c, Apply(c, s, Look(t)))
  {
    var key := c.key(t);
    var s' := Apply(c, s, Look(t));
    if key !in s.shard.cells && s.pcs[t].Missed? {
      ClaimKeepsChannels(s.shard, key);
    }
    forall u ensures PcOk(c, s', u) { assert PcOk(c, s, u); }
    forall u: T | RunsFor(c, s, u) && c.key(u) == key
      ensures key in s.shard.cells
    {
      assert PcOk(c, s, u);
    }
    assert forall u: T :: u != t ==> (RunsFor(c, s', u) <==> RunsFor(c, s, u));
  }

  lemma StoreKeepsInv<T(!new), K(!new), V(!new)>(c: Config<T, K, V>, s: State<T, K, V>, t: T)
    requires Inv(c, s) && Enabled(c, s, Store(t))
    ensures Inv(c, Apply(c, s, Store(t)))
  {
    var key := c.key(t);
    var s' := Apply(c, s, Store(t));
    SetKeepsChannels(s.shard, key, Stored(c, s.pcs[t].outcome), true);
    assert PcOk(c, s, t);
    forall u ensures PcOk(c, s', u) { assert PcOk(c, s, u); }
    forall k
      ensures k in s'.ran <==> GetCell(s'.shard, k).Some?
      ensures k in s'.ran ==> GetCell(s'.shard, k) == Some(Stored(c, s'.ran[k]))
    {
      assert k != key ==> GetCell(s'.shard, k) == GetCell(s.shard, k);
    }
    assert forall u: T :: RunsFor(c, s', u) <==> RunsFor(c, s, u);
  }

  lemma WakeKeepsInv<T(!new), K(!new), V(!new)>(c: Config<T, K, V>, s: State<T, K, V>, t: T)
    requires Inv(c, s) && Enabled(c, s, Wake(t))
    ensures Inv(c, Apply(c, s, Wake(t)))
  {
    var s' := Apply(c, s, Wake(t));
    assert PcOk(c, s, t);
    ClosedMeansPopulated(s.shard, s.pcs[t].ch);
    forall u ensures PcOk(c, s', u) { assert PcOk(c, s, u); }
    assert forall u: T :: RunsFor(c, s', u) <==> RunsFor(c, s, u);
  }

  lemma StepKeepsInv<T(!new), K(!new), V(!new)>(c: Config<T, K, V>, s: State<T, K, V>, step: Step<T, V>)
    requires Inv(c, s) && Enabled(c, s, step)
    ensures Inv(c, Apply(c, s, step))
  {
    match step
    case Look(t) => LookKeepsInv(c, s, t);
    case Store(t) => StoreKeepsInv(c, s, t);
    case Wake(t) => WakeKeepsInv(c, s, t);
    case _ => OtherStepKeepsInv(c, s, step);
  }

  lemma OtherStepKeepsInv<T(!new), K(!new), V(!new)>(c: Config<T, K, V>, s: State<T, K, V>, step: Step<T, V>)
    requires Inv(c, s) && Enabled(c, s, step) && !step.Look? && !step.Store? && !step.Wake?
    ensures Inv(c, Apply(c, s, step))
  {
    var s' := Apply(c, s, step);
    assert PcOk(c, s, step.t);
    forall u ensures PcOk(c, s', u) { assert PcOk(c, s, u); }
    assert forall u: T :: RunsFor(c, s', u) <==> RunsFor(c, s, u);
  }

  lemma {:induction false} RunKeepsInv<T(!new), K(!new), V(!new)>(c: Config<T, K, V>, states: seq<State<T, K, V>>, steps: seq<Step<T, V>>, i: nat)
    requires IsRun(c, states, steps) && i < |states|
    ensures Inv(c, states[i])
  {
    if i > 0 {
      RunKeepsInv(c, states, steps, i - 1);
      assert StepAt(c, states, steps, i - 1);
      StepKeepsInv(c, states[i - 1], steps[i - 1]);
    }
  }

  // ---------------------------------------------------------------- computed once, agreed by all

  /** A caller that has started its function stays its key's runner. */
  lemma {:induction false} RunnerStays<T(!new), K(!new), V(!new)>(c: Config<T, K, V>, states: seq<State<T, K, V>>, steps: seq<Step<T, V>>, i: nat, j: nat, t: T)
    requires IsRun(c, states, steps) && i <= j < |states|
    requires t in states[i].pcs && IsRunner(states[i].pcs[t]) && !states[i].pcs[t].Computing?
    ensures t in states[j].pcs && IsRunner(states[j].pcs[t]) && !states[j].pcs[t].Computing?
    decreases j
  {
    if i < j {
      RunnerStays(c, states, steps, i, j - 1, t);
      assert StepAt(c, states, steps, j - 1);
    }
  }

  /** In any run the function of a key is run at most once, over all its callers. */
  lemma ComputedAtMostOnce<T(!new), K(!new), V(!new)>(c: Config<T, K, V>, states: seq<State<T, K, V>>, steps: seq<Step<T, V>>, i: nat, j: nat)
    requires IsRun(c, states, steps) && i < j < |steps|
    requires steps[i].Compute? && steps[j].Compute?
    ensures c.key(steps[i].t) != c.key(steps[j].t)
  {
    assert StepAt(c, states, steps, i) && StepAt(c, states, steps, j);
    RunnerStays(c, states, steps, i + 1, j, steps[i].t);
    RunKeepsInv(c, states, steps, j);
    assert RunsFor(c, states[j], steps[i].t) && RunsFor(c, states[j], steps[j].t);
  }

  /** Two callers of one key that were not cancelled return the same value and error, unless one of
      them ran the function and it panicked; then they always differ. */
  lemma CallersAgree<T(!new), K(!new), V(!new)>(c: Config<T, K, V>, states: seq<State<T, K, V>>, steps: seq<Step<T, V>>, i: nat, t: T, u: T)
    requires IsRun(c, states, steps) && i < |states| && t != u && c.key(t) == c.key(u)
    requires HasResult(states[i], t) && HasResult(states[i], u)
    ensures c.key(t) in states[i].ran
    ensures states[i].pcs[t].result == states[i].pcs[u].result <==>
            (states[i].ran[c.key(t)].Ret? || (states[i].pcs[t].how == Shared && states[i].pcs[u].how == Shared))
  {
    RunKeepsInv(c, states, steps, i);
    assert PcOk(c, states[i], t) && PcOk(c, states[i], u);
  }

  /** Where the function did not panic, every caller that was not cancelled returns exactly its result. */
  lemma UncancelledCallersGetTheResult<T(!new), K(!new), V(!new)>(c: Config<T, K, V>, states: seq<State<T, K, V>>, steps: seq<Step<T, V>>, i: nat, t: T)
    requires IsRun(c, states, steps) && i < |states|
    requires HasResult(states[i], t)
    ensures c.key(t) in states[i].ran
    ensures states[i].ran[c.key(t)].Ret? ==> states[i].pcs[t].result == states[i].ran[c.key(t)].result
  {
    RunKeepsInv(c, states, steps, i);
    assert PcOk(c, states[i], t);
  }

  /** A caller that gave up waiting returns the zero value and an error, whatever becomes of its key. */
  lemma CancelledCallersGetAnError<T(!new), K(!new), V(!new)>(c: Config<T, K, V>, states: seq<State<T, K, V>>, steps: seq<Step<T, V>>, i: nat, t: T)
    requires IsRun(c, states, steps) && i < |states|
    requires t in states[i].pcs && IsOver(states[i].pcs[t]) && states[i].pcs[t].how == Cancelled
    ensures states[i].pcs[t].result == Result(c.zero, Some(CANCELLED))
  {
    RunKeepsInv(c, states, steps, i);
    assert PcOk(c, states[i], t);
  }

  /** The function of the caller's key ended with `o`, and the caller has that outcome in hand or has stored it. */
  ghost predicate Obtained<T, K, V>(c: Config<T, K, V>, s: State<T, K, V>, t: T, o: Outcome<V>) {
    && t in s.pcs
    && ((s.pcs[t].Computed? && s.pcs[t].outcome == o) ||
        (IsOver(s.pcs[t]) && s.pcs[t].how == Ran && c.key(t) in s.ran && s.ran[c.key(t)] == o))
  }

  lemma ObtainedStays<T(!new), K(!new), V(!new)>(c: Config<T, K, V>, s: State<T, K, V>, step: Step<T, V>, t: T, o: Outcome<V>)
    requires Inv(c, s) && Enabled(c, s, step) && Obtained(c, s, t, o)
    ensures Obtained(c, Apply(c, s, step), t, o)
  {
    if step.Store? && step.t != t {
      assert RunsFor(c, s, t) && RunsFor(c, s, step.t);
    }
  }

  lemma {:induction false} ObtainedFromThenOn<T(!new), K(!new), V(!new)>(c: Config<T, K, V>, states: seq<State<T, K, V>>, steps: seq<Step<T, V>>, i: nat, j: nat, t: T, o: Outcome<V>)
    requires IsRun(c, states, steps) && i < j < |states| && steps[i] == Compute(t, o)
    ensures Obtained(c, states[j], t, o)
    decreases j
  {
    assert StepAt(c, states, steps, j - 1);
    if i < j - 1 {
      ObtainedFromThenOn(c, states, steps, i, j - 1, t, o);
      RunKeepsInv(c, states, steps, j - 1);
      ObtainedStays(c, states[j - 1], steps[j - 1], t, o);
    }
  }

  /** Whatever the function of a key returned when it was run is what every uncancelled caller of the key returns. */
  lemma CallersGetWhatWasComputed<T(!new), K(!new), V(!new)>(c: Config<T, K, V>, states: seq<State<T, K, V>>, steps: seq<Step<T, V>>, i: nat, j: nat, t: T, u: T, r: Result<V>)
    requires IsRun(c, states, steps) && i < |steps| && j < |states| && steps[i] == Compute(t, Ret(r))
    requires c.key(u) == c.key(t) && HasResult(states[j], u)
    ensures states[j].pcs[u].result == r
  {
    UncancelledCallersGetTheResult(c, states, steps, j, u);
    if i < j {
      ObtainedFromThenOn(c, states, steps, i, j, t, Ret(r));
      RunKeepsInv(c, states, steps, j);
      assert PcOk(c, states[j], t);
    } else {
      NotRanBeforeCompute(c, states, steps, i);
      RanStays(c, states, steps, j, i, c.key(u));
      assert false;
    }
  }

  lemma NotRanBeforeCompute<T(!new), K(!new), V(!new)>(c: Config<T, K, V>, states: seq<State<T, K, V>>, steps: seq<Step<T, V>>, i: nat)
    requires IsRun(c, states, steps) && i < |steps| && steps[i].Compute?
    ensures c.key(steps[i].t) !in states[i].ran
  {
    RunKeepsInv(c, states, steps, i);
    assert StepAt(c, states, steps, i) && PcOk(c, states[i], steps[i].t);
  }

  lemma {:induction false} RanStays<T(!new), K(!new), V(!new)>(c: Config<T, K, V>, states: seq<State<T, K, V>>, steps: seq<Step<T, V>>, i: nat, j: nat, k: K)
    requires IsRun(c, states, steps) && i <= j < |states| && k in states[i].ran
    ensures k in states[j].ran
    decreases j
  {
    if i < j {
      RanStays(c, states, steps, i, j - 1, k);
      assert StepAt(c, states, steps, j - 1);
    }
  }

  // ---------------------------------------------------------------- after a panic

  /** One more step of a run. */
  lemma Extend<T(!new), K(!new), V(!new)>(c: Config<T, K, V>, states: seq<State<T, K, V>>, steps: seq<Step<T, V>>, step: Step<T, V>)
    returns (states': seq<State<T, K, V>>, steps': seq<Step<T, V>>)
    requires IsRun(c, states, steps) && Enabled(c, states[|steps|], step)
    ensures states' == states + [Apply(c, states[|steps|], step)] && steps' == steps + [step]
    ensures IsRun(c, states', steps')
  {
    states', steps' := states + [Apply(c, states[|steps|], step)], steps + [step];
    forall i | 0 <= i < |steps'|
      ensures StepAt(c, states', steps', i)
    {
      if i < |steps| {
        assert StepAt(c, states, steps, i);
      }
    }
  }

  /** The caller got something that was not a cancellation. */
  predicate HasResult<T, K, V>(s: State<T, K, V>, t: T) {
    t in s.pcs && IsOver(s.pcs[t]) && s.pcs[t].how != Cancelled
  }

  /** A run in which one caller of a key runs the function, which panics, and another comes later: the first returns
      no error, the second one. */
  lemma PanicMakesCallersDisagree<T(!new), K(!new), V(!new)>(c: Config<T, K, V>, t: T, u: T, msg: string)
    returns (states: seq<State<T, K, V>>, steps: seq<Step<T, V>>)
    requires t != u && c.key(t) == c.key(u) && (c.capacity.Some? ==> c.capacity.value > 0)
    ensures IsRun(c, states, steps)
    ensures HasResult(states[|steps|], t) && HasResult(states[|steps|], u)
    ensures states[|steps|].pcs[t].result == Result(c.zero, None)
    ensures states[|steps|].pcs[u].result == Result(c.zero, Some(msg))
  {
    states, steps := [State.State(EmptyShard(), map[], 0, map[])], [];
    states, steps := Extend(c, states, steps, Arrive(t));
    states, steps := Extend(c, states, steps, Look(t));
    states, steps := Extend(c, states, steps, Look(t));
    states, steps := Extend(c, states, steps, Compute(t, Panic(msg)));
    states, steps := Extend(c, states, steps, Store(t));
    states, steps := Extend(c, states, steps, Leave(t));
    states, steps := Extend(c, states, steps, Arrive(u));
    states, steps := Extend(c, states, steps, Look(u));
  }

  // ---------------------------------------------------------------- the limiter

  ghost function Holding<T, K, V>(s: State<T, K, V>): set<T> {
    set t | t in s.pcs && HoldsSlot(s.pcs[t])
  }

  ghost predicate Balanced<T, K, V>(c: Config<T, K, V>, s: State<T, K, V>) {
    s.inUse == |Holding(s)| && (c.capacity.Some? ==> s.inUse <= c.capacity.value)
  }

  /** What one caller's move does to the holders. */
  lemma OneCallerMoves<T, K, V>(s: State<T, K, V>, s': State<T, K, V>, t: T)
    requires t in s'.pcs && s'.pcs == s.pcs[t := s'.pcs[t]]
    ensures |Holding(s')| == |Holding(s)| - (if t in Holding(s) then 1 else 0) + (if HoldsSlot(s'.pcs[t]) then 1 else 0)
    ensures t in Holding(s) ==> |Holding(s)| > 0
  {
    var others := Holding(s) - {t};
    assert Holding(s') == if HoldsSlot(s'.pcs[t]) then others + {t} else others;
    if t in Holding(s) {
      assert Holding(s) == others + {t};
    } else {
      assert Holding(s) == others;
    }
  }

  /** Slots are taken and given back exactly by the callers that come to hold one or no longer do. */
  lemma StepCountsSlots<T, K, V>(c: Config<T, K, V>, s: State<T, K, V>, step: Step<T, V>)
    requires Enabled(c, s, step)
    ensures var s' := Apply(c, s, step);
            && step.t in s'.pcs && s'.pcs == s.pcs[step.t := s'.pcs[step.t]]
            && s'.inUse == s.inUse - (if step.t in Holding(s) then 1 else 0) + (if HoldsSlot(s'.pcs[step.t]) then 1 else 0)
            && (s'.inUse > s.inUse ==> SlotFree(c, s))
  {
  }

  lemma StepKeepsBalance<T, K, V>(c: Config<T, K, V>, s: State<T, K, V>, step: Step<T, V>)
    requires Balanced(c, s) && Enabled(c, s, step)
    ensures Balanced(c, Apply(c, s, step))
  {
    StepCountsSlots(c, s, step);
    OneCallerMoves(s, Apply(c, s, step), step.t);
  }

  /** Slots are given up and taken back in balance: the count is the number of callers inside that are
      not waiting, and it never exceeds the capacity. */
  lemma {:induction false} LimiterStaysBalanced<T(!new), K(!new), V(!new)>(c: Config<T, K, V>, states: seq<State<T, K, V>>, steps: seq<Step<T, V>>, i: nat)
    requires IsRun(c, states, steps) && i < |states|
    ensures Balanced(c, states[i])
    ensures states[i].inUse ==
            |set t | t in states[i].pcs && !states[i].pcs[t].Waiting? && !states[i].pcs[t].Woken? && !states[i].pcs[t].Left?|
    ensures c.capacity.Some? ==> states[i].inUse <= c.capacity.value
  {
    assert Holding(states[i]) ==
           set t | t in states[i].pcs && !states[i].pcs[t].Waiting? && !states[i].pcs[t].Woken? && !states[i].pcs[t].Left?;
    if i == 0 {
      assert Holding(states[0]) == {};
    } else {
      LimiterStaysBalanced(c, states, steps, i - 1);
      assert StepAt(c, states, steps, i - 1);
      StepKeepsBalance(c, states[i - 1], steps[i - 1]);
    }
  }
}
