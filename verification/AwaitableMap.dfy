/**
 One shard of the awaitable map, and what its users see under any interleaving.
 A key that somebody has asked for holds a channel until it is populated; populating it closes the
 channel. Looking a key up takes two locked sections: a read, and a second look before a channel is made.
 */
module AwaitableMap {
  import opened Options

  datatype Cell<V> = Pending(ch: nat) | Full(val: V)

  /** The state behind a shard's lock, with every channel ever made. `panicked` records the closing of
      a channel that is closed already. */
  datatype Shard<K, V> = Shard(cells: map<K, Cell<V>>, owner: map<nat, K>, closed: set<nat>, next: nat, panicked: bool)

  function EmptyShard<K, V>(): Shard<K, V> {
    Shard(map[], map[], {}, 0, false)
  }

  /** Populates a key. Returns false, and changes nothing, if it was populated and must not be overwritten. */
  function SetCell<K, V>(sh: Shard<K, V>, key: K, val: V, overwrite: bool): (Shard<K, V>, bool) {
    if key in sh.cells then
      match sh.cells[key]
      case Full(_) =>
        if !overwrite then (sh, false) else (sh.(cells := sh.cells[key := Full(val)]), true)
      case Pending(ch) =>
        (sh.(cells := sh.cells[key := Full(val)], closed := sh.closed + {ch},
             panicked := sh.panicked || ch in sh.closed), true)
    else
      (sh.(cells := sh.cells[key := Full(val)]), true)
  }

  /** Makes a channel for a key that is not there. */
  function Claim<K, V>(sh: Shard<K, V>, key: K): Shard<K, V> {
    sh.(cells := sh.cells[key := Pending(sh.next)], owner := sh.owner[sh.next := key], next := sh.next + 1)
  }

  /** The value of a key, if it is populated; the source returns a zero value otherwise. */
  function GetCell<K, V>(sh: Shard<K, V>, key: K): Option<V> {
    if key in sh.cells && sh.cells[key].Full? then Some(sh.cells[key].val) else None
  }

  // ---------------------------------------------------------------- channels and keys

  /** Each key has at most one channel ever; it is open while the key is pending and closed from the
      moment the key is populated. */
  ghost predicate ChannelsMatch<K(!new), V(!new)>(sh: Shard<K, V>) {
    && !sh.panicked
    && (forall ch :: ch in sh.owner ==> ch < sh.next)
    && sh.closed <= sh.owner.Keys
    && (forall k :: k in sh.cells && sh.cells[k].Pending? ==>
          sh.cells[k].ch in sh.owner && sh.owner[sh.cells[k].ch] == k && sh.cells[k].ch !in sh.closed)
    && (forall ch :: ch in sh.owner ==> sh.owner[ch] in sh.cells)
    && (forall ch :: ch in sh.owner && ch !in sh.closed ==> sh.cells[sh.owner[ch]] == Pending(ch))
    && (forall a, b :: a in sh.owner && b in sh.owner && sh.owner[a] == sh.owner[b] ==> a == b)
  }

  /** A key is absent, then perhaps pending, then populated, and never goes back. */
  function CellRank<K, V>(sh: Shard<K, V>, key: K): nat {
    if key !in sh.cells then 0 else if sh.cells[key].Pending? then 1 else 2
  }

  ghost predicate Forward<K(!new), V(!new)>(sh: Shard<K, V>, sh': Shard<K, V>) {
    && (forall k :: CellRank(sh, k) <= CellRank(sh', k))
    && (forall k :: k in sh.cells && k in sh'.cells && sh.cells[k].Pending? && sh'.cells[k].Pending? ==>
          sh.cells[k] == sh'.cells[k])
    && (forall ch :: ch in sh.owner ==> ch in sh'.owner && sh'.owner[ch] == sh.owner[ch])
    && sh.closed <= sh'.closed && sh.next <= sh'.next
  }

  lemma SetKeepsChannels<K(!new), V(!new)>(sh: Shard<K, V>, key: K, val: V, overwrite: bool)
    requires ChannelsMatch(sh)
    ensures ChannelsMatch(SetCell(sh, key, val, overwrite).0)
    ensures Forward(sh, SetCell(sh, key, val, overwrite).0)
    ensures var (sh', inserted) := SetCell(sh, key, val, overwrite);
            && (inserted <==> overwrite || CellRank(sh, key) < 2)
            && GetCell(sh', key) == (if inserted then Some(val) else GetCell(sh, key)) && GetCell(sh', key).Some?
            && (forall k :: k != key ==> (k in sh'.cells <==> k in sh.cells))
            && (forall k :: k != key && k in sh.cells ==> sh'.cells[k] == sh.cells[k])
  {
  }

  lemma ClaimKeepsChannels<K(!new), V(!new)>(sh: Shard<K, V>, key: K)
    requires ChannelsMatch(sh) && key !in sh.cells
    ensures ChannelsMatch(Claim(sh, key))
    ensures Forward(sh, Claim(sh, key))
  {
  }

  /** A channel is closed exactly when its key is populated. */
  lemma ClosedMeansPopulated<K(!new), V(!new)>(sh: Shard<K, V>, ch: nat)
    requires ChannelsMatch(sh) && ch in sh.owner
    ensures ch in sh.closed <==> GetCell(sh, sh.owner[ch]).Some?
  {
  }

  // ---------------------------------------------------------------- the protocol

  /** What one goroutine does: populate a key, or ask for it and wait until it is there. */
  datatype Op<K, V> = Put(key: K, val: V, overwrite: bool) | Await(key: K)

  datatype Pc<V> =
    | Start
    | Missed                      // the read section found nothing
    | Claimant(ch: nat)           // returned as the first to ask
    | Blocked(ch: nat)            // waiting on the channel
    | Read(result: Option<V>)     // returned what it found
    | Inserted(ok: bool)          // returned from populating

  datatype State<K, V> = State(shard: Shard<K, V>, pcs: map<nat, Pc<V>>)

  function PcOf<K, V>(s: State<K, V>, t: nat): Pc<V> {
    if t in s.pcs then s.pcs[t] else Start
  }

  /** What a locked section returns for a key that is in the map. */
  function Found<V>(cell: Cell<V>): Pc<V> {
    match cell case Full(v) => Read(Some(v)) case Pending(ch) => Blocked(ch)
  }

  predicate CanStep<K, V>(ops: seq<Op<K, V>>, s: State<K, V>, t: nat) {
    && t < |ops|
    && match PcOf(s, t)
       case Start => true
       case Missed => true
       case Blocked(ch) => ch in s.shard.closed
       case _ => false
  }

  /** The next locked section of goroutine `t`, or its waking up. */
  function Step<K, V>(ops: seq<Op<K, V>>, s: State<K, V>, t: nat): State<K, V>
    requires CanStep(ops, s, t)
  {
    var key := ops[t].key;
    match PcOf(s, t)
    case Start =>
      (match ops[t]
       case Put(_, val, overwrite) =>
         var (shard, ok) := SetCell(s.shard, key, val, overwrite);
         State(shard, s.pcs[t := Inserted(ok)])
       case Await(_) =>
         s.(pcs := s.pcs[t := if key in s.shard.cells then Found(s.shard.cells[key]) else Missed]))
    case Missed =>
      if key in s.shard.cells then s.(pcs := s.pcs[t := Found(s.shard.cells[key])])
      else State(Claim(s.shard, key), s.pcs[t := Claimant(s.shard.next)])
    case Blocked(_) => s.(pcs := s.pcs[t := Read(GetCell(s.shard, key))])
  }

  ghost predicate StepAt<K, V>(ops: seq<Op<K, V>>, states: seq<State<K, V>>, threads: seq<nat>, i: nat)
    requires i < |threads| && i + 1 < |states|
  {
    CanStep(ops, states[i], threads[i]) && states[i + 1] == Step(ops, states[i], threads[i])
  }

  /** A run: which goroutine moves next, and the states in between. */
  ghost predicate IsRun<K, V>(ops: seq<Op<K, V>>, states: seq<State<K, V>>, threads: seq<nat>) {
    && |states| == |threads| + 1
    && states[0] == State(EmptyShard(), map[])
    && forall i {:trigger StepAt(ops, states, threads, i)} ::
         0 <= i < |threads| ==> StepAt(ops, states, threads, i)
  }

  /** Waiters hold a channel of their own key, a channel has one claimant, and whoever returns a value has one. */
  ghost predicate Inv<K(!new), V(!new)>(ops: seq<Op<K, V>>, s: State<K, V>) {
    && ChannelsMatch(s.shard)
    && (forall t :: t in s.pcs ==> t < |ops|)
    && (forall t :: t in s.pcs ==>
          match s.pcs[t]
          case Claimant(ch) => ops[t].Await? && ch in s.shard.owner && s.shard.owner[ch] == ops[t].key
          case Blocked(ch) => ops[t].Await? && ch in s.shard.owner && s.shard.owner[ch] == ops[t].key
          case Missed => ops[t].Await?
          case Read(r) => ops[t].Await? && r.Some?
          case _ => true)
    && (forall t, u :: t in s.pcs && u in s.pcs && s.pcs[t].Claimant? && s.pcs[t] == s.pcs[u] ==> t == u)
  }

  lemma StepKeepsInv<K(!new), V(!new)>(ops: seq<Op<K, V>>, s: State<K, V>, t: nat)
    requires Inv(ops, s) && CanStep(ops, s, t)
    ensures Inv(ops, Step(ops, s, t))
    ensures Forward(s.shard, Step(ops, s, t).shard)
  {
    var key := ops[t].key;
    match PcOf(s, t)
    case Start =>
      if ops[t].Put? {
        SetKeepsChannels(s.shard, key, ops[t].val, ops[t].overwrite);
      }
    case Missed =>
      if key !in s.shard.cells {
        ClaimKeepsChannels(s.shard, key);
      }
    case Blocked(ch) => ClosedMeansPopulated(s.shard, ch);
  }

  lemma {:induction false} RunKeepsInv<K(!new), V(!new)>(ops: seq<Op<K, V>>, states: seq<State<K, V>>, threads: seq<nat>, i: nat)
    requires IsRun(ops, states, threads) && i < |states|
    ensures Inv(ops, states[i])
  {
    if i > 0 {
      RunKeepsInv(ops, states, threads, i - 1);
      assert StepAt(ops, states, threads, i - 1);
      StepKeepsInv(ops, states[i - 1], threads[i - 1]);
    }
  }

  /** In every run a key has at most one claimant. */
  lemma OneClaimantPerKey<K(!new), V(!new)>(ops: seq<Op<K, V>>, states: seq<State<K, V>>, threads: seq<nat>, i: nat, t: nat, u: nat)
    requires IsRun(ops, states, threads) && i < |states|
    requires t in states[i].pcs && states[i].pcs[t].Claimant?
    requires u in states[i].pcs && states[i].pcs[u].Claimant?
    requires t < |ops| && u < |ops| && ops[t].key == ops[u].key
    ensures t == u
  {
    RunKeepsInv(ops, states, threads, i);
  }

  /** No channel is ever closed twice. */
  lemma NeverClosedTwice<K(!new), V(!new)>(ops: seq<Op<K, V>>, states: seq<State<K, V>>, threads: seq<nat>, i: nat)
    requires IsRun(ops, states, threads) && i < |states|
    ensures !states[i].shard.panicked
  {
    RunKeepsInv(ops, states, threads, i);
  }

  /** Populating a key tells whether it did, which it does exactly if it may overwrite or nothing was there. */
  lemma PutsTellWhetherTheyInserted<K(!new), V(!new)>(ops: seq<Op<K, V>>, states: seq<State<K, V>>, threads: seq<nat>, i: nat)
    requires IsRun(ops, states, threads) && i < |threads| && threads[i] < |ops| && ops[threads[i]].Put?
    ensures var op, before, after := ops[threads[i]], states[i], states[i + 1];
            var ok := op.overwrite || GetCell(before.shard, op.key).None?;
            && threads[i] in after.pcs && after.pcs[threads[i]] == Inserted(ok)
            && GetCell(after.shard, op.key) == if ok then Some(op.val) else GetCell(before.shard, op.key)
  {
    RunKeepsInv(ops, states, threads, i);
    assert StepAt(ops, states, threads, i);
    SetKeepsChannels(states[i].shard, ops[threads[i]].key, ops[threads[i]].val, ops[threads[i]].overwrite);
  }

  /** A waiter can go on exactly when its key is populated, and what it then reads is a value. */
  lemma WaitersWakeToAValue<K(!new), V(!new)>(ops: seq<Op<K, V>>, states: seq<State<K, V>>, threads: seq<nat>, i: nat, t: nat)
    requires IsRun(ops, states, threads) && i < |states|
    requires t in states[i].pcs && t < |ops|
    ensures states[i].pcs[t].Blocked? ==>
              (CanStep(ops, states[i], t) <==> GetCell(states[i].shard, ops[t].key).Some?)
    ensures states[i].pcs[t].Read? ==> states[i].pcs[t].result.Some?
  {
    RunKeepsInv(ops, states, threads, i);
    if states[i].pcs[t].Blocked? {
      ClosedMeansPopulated(states[i].shard, states[i].pcs[t].ch);
    }
  }

  /** From one state of a run to any later one, every key only moves from absent to pending to populated. */
  lemma {:induction false} KeysOnlyMoveForward<K(!new), V(!new)>(ops: seq<Op<K, V>>, states: seq<State<K, V>>, threads: seq<nat>, i: nat, j: nat)
    requires IsRun(ops, states, threads) && i <= j < |states|
    ensures Forward(states[i].shard, states[j].shard)
    decreases j
  {
    if i < j {
      KeysOnlyMoveForward(ops, states, threads, i, j - 1);
      RunKeepsInv(ops, states, threads, j - 1);
      assert StepAt(ops, states, threads, j - 1);
      StepKeepsInv(ops, states[j - 1], threads[j - 1]);
      ForwardIsTransitive(states[i].shard, states[j - 1].shard, states[j].shard);
    }
  }

  lemma ForwardIsTransitive<K(!new), V(!new)>(a: Shard<K, V>, b: Shard<K, V>, c: Shard<K, V>)
    requires Forward(a, b) && Forward(b, c)
    ensures Forward(a, c)
  {
    forall k
      ensures CellRank(a, k) <= CellRank(c, k)
      ensures k in a.cells && k in c.cells && a.cells[k].Pending? && c.cells[k].Pending? ==> a.cells[k] == c.cells[k]
    {
      assert CellRank(a, k) <= CellRank(b, k) <= CellRank(c, k);
    }
  }
}
