/**
 The sharded map: an array of shards, each a map of its own, chosen by some bits of the key's hash.
 Seen from outside it is one flat map.
 */
module ShardedMap {
  import opened Options
  import AM = AwaitableMap

  // ---------------------------------------------------------------- choosing a shard

  /** Bitwise and, on numbers of any width. */
  function And(a: nat, b: nat): nat {
    if a == 0 || b == 0 then 0
    else 2 * And(a / 2, b / 2) + (if a % 2 == 1 && b % 2 == 1 then 1 else 0)
  }

  lemma {:induction false} AndSelf(a: nat)
    ensures And(a, a) == a
  {
    if a > 0 {
      AndSelf(a / 2);
    }
  }

  lemma Halves(h: nat, m: nat)
    requires m > 0
    ensures h % (2 * m) == 2 * ((h / 2) % m) + h % 2
  {
    var q, r := (h / 2) / m, (h / 2) % m;
    assert h / 2 == m * q + r;
    assert h == (2 * m) * q + (2 * r + h % 2) by {
      assert 2 * (m * q) == (2 * m) * q;
    }
    RemainderIs(h, 2 * m, q, 2 * r + h % 2);
  }

  lemma AtLeastOnce(d: nat, k: nat)
    requires k >= 1
    ensures d * k >= d
  {
  }

  lemma RemainderIs(h: nat, d: nat, q: nat, r: nat)
    requires h == d * q + r && r < d
    ensures h % d == r
  {
    var q', r' := h / d, h % d;
    assert h == d * q' + r';
    assert d * (q - q') == d * q - d * q' == r' - r;
    assert d * (q' - q) == d * q' - d * q == r - r';
    if q' < q {
      AtLeastOnce(d, q - q');
    } else if q < q' {
      AtLeastOnce(d, q' - q);
    }
  }

  /** A count that shares no bit with its predecessor is a power of two; masking with the predecessor is
      then the remainder. */
  lemma {:induction false} MaskIsRemainder(h: nat, count: nat)
    requires count >= 1 && And(count, count - 1) == 0
    ensures And(h, count - 1) == h % count
    decreases count
  {
    if count > 1 {
      var m := count / 2;
      if count % 2 == 1 {
        AndSelf(m);
        assert false;
      }
      assert (count - 1) / 2 == m - 1 && (count - 1) % 2 == 1;
      MaskIsRemainder(h / 2, m);
      Halves(h, m);
    }
  }

  // ---------------------------------------------------------------- one shard

  /** `calls` lists every populated key of `cells` once, with its value, and no pending key. */
  ghost predicate Lists<K, V>(calls: seq<(K, V)>, cells: map<K, AM.Cell<V>>) {
    && (forall i :: 0 <= i < |calls| ==> calls[i].0 in cells && cells[calls[i].0] == AM.Full(calls[i].1))
    && (forall i, j :: 0 <= i < j < |calls| ==> calls[i].0 != calls[j].0)
    && (forall k :: k in cells && cells[k].Full? ==> exists i :: 0 <= i < |calls| && calls[i].0 == k)
  }

  /** Listing two maps that share no key, one after the other, lists their union. */
  lemma ListsUnion<K, V>(a: seq<(K, V)>, m: map<K, AM.Cell<V>>, b: seq<(K, V)>, n: map<K, AM.Cell<V>>)
    requires Lists(a, m) && Lists(b, n) && m.Keys !! n.Keys
    ensures Lists(a + b, m + n)
  {
    forall k | k in m + n && (m + n)[k].Full?
      ensures exists i :: 0 <= i < |a + b| && (a + b)[i].0 == k
    {
      if k in m {
        var i :| 0 <= i < |a| && a[i].0 == k;
        assert (a + b)[i].0 == k;
      } else {
        var i :| 0 <= i < |b| && b[i].0 == k;
        assert (a + b)[|a| + i].0 == k;
      }
    }
  }

  class Shard<K(==,!new), V(!new)> {
    var m: map<K, AM.Cell<V>>
    var closed: set<nat>
    var next: nat
    ghost var owner: map<nat, K>

    ghost function View(): AM.Shard<K, V>
      reads this
    {
      AM.Shard(m, owner, closed, next, false)
    }

    ghost predicate Valid()
      reads this
    {
      AM.ChannelsMatch(View())
    }

    constructor ()
      ensures Valid() && View() == AM.EmptyShard()
    {
      m, closed, next, owner := map[], {}, 0, map[];
    }

    /** Populates a key; an open channel of the key is closed. */
    method Set(key: K, val: V, overwrite: bool) returns (inserted: bool)
      requires Valid()
      modifies this
      ensures Valid()
      ensures (View(), inserted) == AM.SetCell(old(View()), key, val, overwrite)
      ensures inserted <==> overwrite || key !in old(m) || old(m[key]).Pending?
      ensures m == if inserted then old(m)[key := AM.Full(val)] else old(m)
    {
      AM.SetKeepsChannels(View(), key, val, overwrite);
      if key in m {
        var existing := m[key];
        if existing.Full? {
          if !overwrite {
            return false;
          }
          m := m[key := AM.Full(val)];
          return true;
        }
        m := m[key := AM.Full(val)];
        assert existing.ch !in closed;
        closed := closed + {existing.ch};
        return true;
      }
      m := m[key := AM.Full(val)];
      return true;
    }

    method Get(key: K, zero: V) returns (val: V)
      ensures val == if AM.GetCell(View(), key).Some? then AM.GetCell(View(), key).value else zero
    {
      if key in m && m[key].Full? {
        return m[key].val;
      }
      return zero;
    }

    method Contains(key: K) returns (present: bool)
      ensures present <==> key in m
    {
      return key in m;
    }

    /** Returns the value of a key or the channel to wait on; the first to ask makes the channel. */
    method GetOrWait(key: K) returns (val: Option<V>, wait: Option<nat>, first: bool)
      requires Valid()
      modifies this
      ensures Valid()
      ensures val.None? <==> wait.Some?
      ensures key in old(m) ==> !first && View() == old(View()) && val == AM.GetCell(View(), key)
      ensures key !in old(m) ==> first && View() == AM.Claim(old(View()), key) && wait == Some(old(next))
      ensures wait.Some? ==> key in m && m[key] == AM.Pending(wait.value)
    {
      if key in m {
        match m[key]
        case Full(v) => return Some(v), None, false;
        case Pending(ch) => return None, Some(ch), false;
      }
      AM.ClaimKeepsChannels(View(), key);
      var ch := next;
      m, owner, next := m[key := AM.Pending(ch)], owner[ch := key], next + 1;
      return None, Some(ch), true;
    }

    /** The calls made for the populated keys, in whatever order the map yields them. */
    method Range() returns (calls: seq<(K, V)>)
      ensures Lists(calls, m)
    {
      calls := [];
      var rest := m.Keys;
      while rest != {}
        invariant rest <= m.Keys
        invariant forall i :: 0 <= i < |calls| ==>
                    calls[i].0 in m && calls[i].0 !in rest && m[calls[i].0] == AM.Full(calls[i].1)
        invariant forall i, j :: 0 <= i < j < |calls| ==> calls[i].0 != calls[j].0
        invariant forall k :: k in m && k !in rest && m[k].Full? ==> exists i :: 0 <= i < |calls| && calls[i].0 == k
        decreases rest
      {
        var k :| k in rest;
        ghost var before := calls;
        if m[k].Full? {
          calls := calls + [(k, m[k].val)];
          assert calls[|before|].0 == k;
        }
        assert forall i :: 0 <= i < |before| ==> calls[i] == before[i];
        rest := rest - {k};
      }
    }

    /** The populated values alone, in such an order. */
    method Values() returns (vals: seq<V>, ghost calls: seq<(K, V)>)
      ensures ListsValues(vals, calls, m)
    {
      var all := Range();
      vals, calls := ValuesOf(all), all;
    }
  }

  function ValuesOf<K, V>(calls: seq<(K, V)>): seq<V> {
    seq(|calls|, i requires 0 <= i < |calls| => calls[i].1)
  }

  /** A listing of some cells and of the values in it. */
  ghost predicate ListsValues<K, V>(vals: seq<V>, calls: seq<(K, V)>, cells: map<K, AM.Cell<V>>) {
    Lists(calls, cells) && vals == ValuesOf(calls)
  }

  lemma ListsValuesUnion<K, V>(u: seq<V>, a: seq<(K, V)>, m: map<K, AM.Cell<V>>, v: seq<V>, b: seq<(K, V)>, n: map<K, AM.Cell<V>>)
    requires ListsValues(u, a, m) && ListsValues(v, b, n) && m.Keys !! n.Keys
    ensures ListsValues(u + v, a + b, m + n)
  {
    ListsUnion(a, m, b, n);
  }

  // ---------------------------------------------------------------- the whole map

  ghost function Lookup<K, V>(m: map<K, AM.Cell<V>>, k: K): Option<AM.Cell<V>> {
    if k in m then Some(m[k]) else None
  }

  class Map<K(==,!new), V(!new)> {
    const shards: seq<Shard<K, V>>
    const mask: nat
    const hasher: K -> nat
    const zero: V
    /** The contents, as one map. */
    ghost var flat: map<K, AM.Cell<V>>

    function Index(key: K): nat {
      And(hasher(key), mask)
    }

    /** The shards are separate objects; a key lives in the shard its hash selects and nowhere else. */
    ghost predicate Valid()
      reads this, shards
    {
      && (forall k :: Index(k) < |shards|)
      && (forall i, j :: 0 <= i < j < |shards| ==> shards[i] != shards[j])
      && (forall i :: 0 <= i < |shards| ==> shards[i].Valid())
      && (forall i, k :: 0 <= i < |shards| && k in shards[i].m ==> i == Index(k))
      && (forall k :: Lookup(flat, k) == Lookup(shards[Index(k)].m, k))
    }

    /** The count must be a power of two, as the source checks. */
    constructor (shardCount: nat, hasher: K -> nat, zero: V)
      requires shardCount >= 1 && And(shardCount, shardCount - 1) == 0
      ensures Valid() && fresh(shards) && |shards| == shardCount
      ensures flat == map[] && this.hasher == hasher && this.zero == zero && mask == shardCount - 1
    {
      var made: seq<Shard<K, V>> := [];
      for n := 0 to shardCount
        invariant |made| == n && fresh(made)
        invariant forall i :: 0 <= i < n ==> made[i].Valid() && made[i].m == map[]
        invariant forall i, j :: 0 <= i < j < n ==> made[i] != made[j]
      {
        var s := new Shard<K, V>();
        made := made + [s];
      }
      this.shards, this.mask, this.hasher, this.zero, this.flat := made, shardCount - 1, hasher, zero, map[];
      new;
      forall k: K
        ensures Index(k) < |shards|
      {
        MaskIsRemainder(hasher(k), shardCount);
      }
    }

    /** Adds or overwrites a key. */
    method Put(key: K, val: V, overwrite: bool) returns (inserted: bool)
      requires Valid()
      modifies this, shards
      ensures Valid()
      ensures inserted <==> overwrite || key !in old(flat) || old(flat[key]).Pending?
      ensures flat == if inserted then old(flat)[key := AM.Full(val)] else old(flat)
    {
      var i := Index(key);
      inserted := shards[i].Set(key, val, overwrite);
      if inserted {
        flat := flat[key := AM.Full(val)];
      }
    }

    /** Add inserts only a key that is not populated; Set always overwrites. */
    method Add(key: K, val: V) returns (inserted: bool)
      requires Valid()
      modifies this, shards
      ensures Valid()
      ensures inserted <==> key !in old(flat) || old(flat[key]).Pending?
      ensures flat == if inserted then old(flat)[key := AM.Full(val)] else old(flat)
    {
      inserted := Put(key, val, false);
    }

    method Set(key: K, val: V)
      requires Valid()
      modifies this, shards
      ensures Valid() && flat == old(flat)[key := AM.Full(val)]
    {
      var _ := Put(key, val, true);
    }

    method Get(key: K) returns (val: V)
      requires Valid()
      ensures val == if key in flat && flat[key].Full? then flat[key].val else zero
    {
      val := shards[Index(key)].Get(key, zero);
    }

    method Contains(key: K) returns (present: bool)
      requires Valid()
      ensures present <==> key in flat
    {
      present := shards[Index(key)].Contains(key);
    }

    method GetOrWait(key: K) returns (val: Option<V>, wait: Option<nat>, first: bool)
      requires Valid()
      modifies this, shards
      ensures Valid()
      ensures first <==> key !in old(flat)
      ensures key in old(flat) ==> flat == old(flat)
      ensures key !in old(flat) ==> wait.Some? && flat == old(flat)[key := AM.Pending(wait.value)]
      ensures val.Some? ==> key in flat && flat[key] == AM.Full(val.value)
      ensures wait.Some? ==> val.None? && key in flat && flat[key] == AM.Pending(wait.value)
    {
      var i := Index(key);
      val, wait, first := shards[i].GetOrWait(key);
      if first {
        flat := flat[key := AM.Pending(wait.value)];
      }
    }

    /** The contents of the first `n` shards. */
    ghost function Below(n: nat): map<K, AM.Cell<V>>
      reads this
    {
      map k | k in flat && Index(k) < n :: flat[k]
    }

    lemma BelowNext(n: nat)
      requires Valid() && n < |shards|
      ensures Below(n).Keys !! shards[n].m.Keys
      ensures Below(n + 1) == Below(n) + shards[n].m
    {
      var left, right := Below(n + 1), Below(n) + shards[n].m;
      forall k
        ensures Lookup(left, k) == Lookup(right, k)
      {
        assert Lookup(flat, k) == Lookup(shards[Index(k)].m, k);
      }
      assert forall k :: k in left <==> Lookup(left, k).Some?;
      assert forall k :: k in right <==> Lookup(right, k).Some?;
      assert forall k :: k in left ==> Lookup(left, k) == Some(left[k]) && Lookup(right, k) == Some(right[k]);
    }

    /** The calls for every populated key of the map, shard after shard. */
    method Range() returns (calls: seq<(K, V)>)
      requires Valid()
      ensures Lists(calls, flat)
    {
      calls := [];
      for n := 0 to |shards|
        invariant Lists(calls, Below(n))
      {
        var more := shards[n].Range();
        BelowNext(n);
        ListsUnion(calls, Below(n), more, shards[n].m);
        calls := calls + more;
      }
      assert Below(|shards|) == flat;
    }

    /** One value for every populated key, and no other. */
    method Values() returns (vals: seq<V>, ghost calls: seq<(K, V)>)
      requires Valid()
      ensures ListsValues(vals, calls, flat)
    {
      vals, calls := [], [];
      for n := 0 to |shards|
        invariant ListsValues(vals, calls, Below(n))
      {
        var more;
        ghost var listed;
        more, listed := shards[n].Values();
        BelowNext(n);
        ListsValuesUnion(vals, calls, Below(n), more, listed, shards[n].m);
        vals, calls := vals + more, calls + listed;
      }
      assert Below(|shards|) == flat;
    }
  }
}
