/**
 Cleaning the directory cache. Sizes are unsigned 64-bit numbers. While a clean runs, other
 goroutines mark entries: `others(k)` is what they mark before the k-th look at the marks.
 */
module DirCache {
  import opened Options
  import opened Strings

  const WORD := 0x1_0000_0000_0000_0000

  type Size = n: int | 0 <= n < WORD

  type Marks = map<string, Size>

  /** What the walk over the cache directory comes across; no size if it cannot be determined. */
  datatype Visit = Visit(path: string, name: string, isDir: bool, size: Option<Size>, atime: int)

  datatype Entry = Entry(path: string, size: Size, atime: int)

  /** What comes of an attempt to remove an entry. */
  datatype Outcome = Removed | NotRenamed | NotRemoved

  /** What becomes of an entry that is considered. */
  datatype Fate = Spared | Failed | Gone

  // ---------------------------------------------------------------- sums

  function Total(entries: seq<Entry>): nat {
    if entries == [] then 0 else Total(entries[..|entries| - 1]) + entries[|entries| - 1].size
  }

  lemma {:induction false} TotalOfPermutation(a: seq<Entry>, b: seq<Entry>)
    requires multiset(a) == multiset(b)
    ensures Total(a) == Total(b)
  {
    if a == [] {
      assert |multiset(b)| == 0;
    } else {
      assert a[|a| - 1] in multiset(a);
      var i: nat :| i < |b| && b[i] == a[|a| - 1];
      WithoutOne(a, b, i);
      TotalWithout(b, i);
      TotalOfPermutation(a[..|a| - 1], b[..i] + b[i + 1..]);
    }
  }

  lemma WithoutOne(a: seq<Entry>, b: seq<Entry>, i: nat)
    requires multiset(a) == multiset(b) && i < |b| && a != [] && b[i] == a[|a| - 1]
    ensures multiset(a[..|a| - 1]) == multiset(b[..i] + b[i + 1..])
  {
    assert a == a[..|a| - 1] + [b[i]];
    assert b == b[..i] + [b[i]] + b[i + 1..];
    assert multiset(a[..|a| - 1]) == multiset(a) - multiset{b[i]};
    assert multiset(b[..i] + b[i + 1..]) == multiset(b) - multiset{b[i]};
  }

  lemma {:induction false} TotalWithout(b: seq<Entry>, i: nat)
    requires i < |b|
    ensures Total(b) == b[i].size + Total(b[..i] + b[i + 1..])
  {
    var n := |b| - 1;
    if i == n {
      assert b[..i] + b[i + 1..] == b[..n];
    } else {
      var without := b[..i] + b[i + 1..];
      TotalWithout(b[..n], i);
      assert without[..|without| - 1] == b[..n][..i] + b[..n][i + 1..];
    }
  }

  // ---------------------------------------------------------------- the marks

  /** The marks when they are looked at for the k-th time. */
  function MarksAt(added: Marks, others: nat -> Marks, k: nat): Marks {
    if k == 0 then added else MarksAt(added, others, k - 1) + others(k - 1)
  }

  lemma {:induction false} MarksOnlyGrow(added: Marks, others: nat -> Marks, j: nat, k: nat)
    requires j <= k
    ensures MarksAt(added, others, j).Keys <= MarksAt(added, others, k).Keys
  {
    if j < k {
      MarksOnlyGrow(added, others, j, k - 1);
    }
  }

  /** A path is marked once it was marked before or has been by someone else, with the latest size. */
  lemma {:induction false} MarksAreTheLatest(added: Marks, others: nat -> Marks, k: nat, p: string)
    ensures p in MarksAt(added, others, k) <==> p in added || exists j: nat :: j < k && p in others(j)
    ensures (forall j: nat :: j < k ==> p !in others(j)) && p in added ==> MarksAt(added, others, k)[p] == added[p]
    ensures k > 0 && p in others(k - 1) ==> MarksAt(added, others, k)[p] == others(k - 1)[p]
  {
    if k > 0 {
      MarksAreTheLatest(added, others, k - 1, p);
    }
  }

  // ---------------------------------------------------------------- the walk

  /** Whether a name looks like that of a cache entry: a padded base64 hash of 20 or 32 bytes, with one more `=` for
      an entry that is being written. */
  predicate ShouldClean(compress: bool, suffix: string, name: string, isDir: bool) {
    compress != isDir && HasSuffix(name, suffix) &&
    var base := name[..|name| - |suffix|];
    ((|base| == 28 || |base| == 29) && base[27] == '=') || ((|base| == 44 || |base| == 45) && base[43] == '=')
  }

  /** A name made of a padded hash of 28 or 44 characters, at most one more character, and the suffix. */
  ghost predicate IsEntryName(name: string, hash: string, more: string, suffix: string) {
    && name == hash + more + suffix && |more| <= 1
    && (|hash| == 28 || |hash| == 44) && hash[|hash| - 1] == '='
  }

  /** Compressed entries are files, the others directories; either kind is known by its name. */
  lemma EntriesAreKnownByTheirNames(compress: bool, suffix: string, name: string, isDir: bool)
    ensures ShouldClean(compress, suffix, name, isDir) <==>
            (if compress then !isDir else isDir) && exists hash, more :: IsEntryName(name, hash, more, suffix)
  {
    if ShouldClean(compress, suffix, name, isDir) {
      var base := name[..|name| - |suffix|];
      var n := if |base| < 30 then 28 else 44;
      assert name == base[..n] + base[n..] + suffix;
      assert IsEntryName(name, base[..n], base[n..], suffix);
    }
    if hash, more :| IsEntryName(name, hash, more, suffix) {
      assert name[|name| - |suffix|..] == suffix && name[..|name| - |suffix|] == hash + more;
    }
  }

  /** A walk over the cache directory, with the marks at its start and those made meanwhile. */
  datatype Walk = Walk(compress: bool, suffix: string, visits: seq<Visit>, added: Marks, others: nat -> Marks)

  datatype Scan = Scan(marked: seq<Entry>, entries: seq<Entry>)

  /** The first `k` visits sorted into marked entries and others; marked ones count with the size they were marked with. */
  ghost function Scanned(w: Walk, k: nat): Scan
    requires k <= |w.visits|
  {
    if k == 0 then Scan([], [])
    else
      var before, v, marks := Scanned(w, k - 1), w.visits[k - 1], MarksAt(w.added, w.others, k);
      if !ShouldClean(w.compress, w.suffix, v.name, v.isDir) then before
      else if v.path in marks then before.(marked := before.marked + [Entry(v.path, marks[v.path], v.atime)])
      else if v.size.None? then before
      else before.(entries := before.entries + [Entry(v.path, v.size.value, v.atime)])
  }

  /** What the walk lists: the entries that are marked when it reaches them, with the size they were marked with, and
      those that are not but whose size it could determine. */
  lemma {:induction false} ScannedExactly(w: Walk, k: nat, e: Entry)
    requires k <= |w.visits|
    ensures e in Scanned(w, k).marked <==>
            exists j: nat :: j < k && IsEntry(w, j) && IsMarkedAs(w, j, e)
    ensures e in Scanned(w, k).entries <==>
            exists j: nat :: j < k && IsEntry(w, j) && IsUnmarkedAs(w, j, e)
  {
    if k > 0 {
      ScannedExactly(w, k - 1, e);
      var last := k - 1;
      assert e in Scanned(w, k).marked <==> e in Scanned(w, last).marked || (IsEntry(w, last) && IsMarkedAs(w, last, e));
      assert e in Scanned(w, k).entries <==> e in Scanned(w, last).entries || (IsEntry(w, last) && IsUnmarkedAs(w, last, e));
    }
  }

  ghost predicate IsEntry(w: Walk, j: nat)
    requires j < |w.visits|
  {
    ShouldClean(w.compress, w.suffix, w.visits[j].name, w.visits[j].isDir)
  }

  ghost predicate IsMarkedAs(w: Walk, j: nat, e: Entry)
    requires j < |w.visits|
  {
    var marks := MarksAt(w.added, w.others, j + 1);
    e.path == w.visits[j].path && e.atime == w.visits[j].atime && e.path in marks && marks[e.path] == e.size
  }

  ghost predicate IsUnmarkedAs(w: Walk, j: nat, e: Entry)
    requires j < |w.visits|
  {
    var v := w.visits[j];
    e.path == v.path && e.atime == v.atime && e.path !in MarksAt(w.added, w.others, j + 1) && v.size == Some(e.size)
  }

  ghost function Sum(scan: Scan): nat {
    Total(scan.marked) + Total(scan.entries)
  }

  /** The size of the k-th visit, an unmarked entry, could not be determined. */
  ghost predicate Fails(w: Walk, k: nat)
    requires k < |w.visits|
  {
    var v := w.visits[k];
    ShouldClean(w.compress, w.suffix, v.name, v.isDir) && v.path !in MarksAt(w.added, w.others, k + 1) && v.size.None?
  }

  /** How much the k-th visit adds to the sum. */
  ghost function Share(w: Walk, k: nat): Size
    requires k < |w.visits|
  {
    var v, marks := w.visits[k], MarksAt(w.added, w.others, k + 1);
    if !ShouldClean(w.compress, w.suffix, v.name, v.isDir) then 0
    else if v.path in marks then marks[v.path]
    else if v.size.None? then 0
    else v.size.value
  }

  lemma ScanStep(w: Walk, k: nat)
    requires k < |w.visits|
    ensures Sum(Scanned(w, k + 1)) == Sum(Scanned(w, k)) + Share(w, k)
  {
    var before, v, marks := Scanned(w, k), w.visits[k], MarksAt(w.added, w.others, k + 1);
    if v.path in marks {
      TotalAppend(before.marked, Entry(v.path, marks[v.path], v.atime));
    } else if v.size.Some? {
      TotalAppend(before.entries, Entry(v.path, v.size.value, v.atime));
    }
  }

  class Cache {
    const compress: bool
    const suffix: string
    var added: Marks
    var disk: set<string>

    constructor (compress: bool, disk: set<string>)
      ensures this.compress == compress && added == map[] && this.disk == disk
      ensures suffix == if compress then ".tar.gz" else ""
    {
      this.compress, suffix, added, this.disk := compress, if compress then ".tar.gz" else "", map[], disk;
    }

    /** Marks an entry, and the name it has while it is removed or written. */
    method MarkDir(path: string, size: Size)
      modifies this`added
      ensures added == old(added)[path := size][path + "=" := size]
    {
      added := added[path := size];
      added := added[path + "=" := size];
    }

    method IsMarked(path: string) returns (mark: Option<Size>)
      ensures mark == if path in added then Some(added[path]) else None
    {
      mark := if path in added then Some(added[path]) else None;
    }

    ghost function WalkFrom(visits: seq<Visit>, others: nat -> Marks): Walk
      reads this
    {
      Walk(compress, suffix, visits, added, others)
    }

    /** The walk: sums up all sizes modulo 2^64 and lists the entries that may go. It stops where a size cannot be
        determined. */
    method ScanDir(visits: seq<Visit>, others: nat -> Marks) returns (ok: bool, total: Size, entries: seq<Entry>, ghost k: nat)
      modifies this`added
      ensures k <= |visits| && added == MarksAt(old(added), others, if ok then k else k + 1)
      ensures var w := old(WalkFrom(visits, others));
              && entries == Scanned(w, k).entries && total == Sum(Scanned(w, k)) % WORD
              && if ok then k == |visits| else k < |visits| && Fails(w, k)
    {
      ghost var w := WalkFrom(visits, others);
      total, entries := 0, [];
      for i := 0 to |visits|
        invariant added == MarksAt(old(added), others, i)
        invariant entries == Scanned(w, i).entries && total == Sum(Scanned(w, i)) % WORD
      {
        added := added + others(i);
        ScanStep(w, i);
        AddTotal(Sum(Scanned(w, i)), Share(w, i));
        var v := visits[i];
        if ShouldClean(compress, suffix, v.name, v.isDir) {
          var mark := IsMarked(v.path);
          if mark.Some? {
            total := Add(total, mark.value);
          } else if v.size.None? {
            return false, total, entries, i;
          } else {
            entries := entries + [Entry(v.path, v.size.value, v.atime)];
            total := Add(total, v.size.value);
          }
        }
      }
      return true, total, entries, |visits|;
    }

    /** Renames the entry out of the way, then removes it. */
    method CleanPath(path: string, outcome: Outcome) returns (ok: bool)
      modifies this`disk
      ensures ok <==> outcome.Removed?
      ensures disk == Cleaned(old(disk), path, outcome)
    {
      if outcome.NotRenamed? {
        return false;
      }
      disk := disk - {path} + {path + "="};
      if outcome.NotRemoved? {
        return false;
      }
      disk := disk - {path + "="};
      return true;
    }

    /** Slims the cache if it has reached the high-water mark. The entries are sorted by a comparison that is not
        transitive, so any order can result. */
    method Clean(visits: seq<Visit>, others: nat -> Marks, sort: seq<Entry> -> seq<Entry>, later: nat -> Marks,
                 outcomes: nat -> Outcome, high: Size, low: Size)
      returns (total: Size, ghost k: nat, ghost n: nat)
      requires forall entries :: multiset(sort(entries)) == multiset(entries)
      modifies this
      ensures k <= |visits| && (k < |visits| ==> Fails(old(WalkFrom(visits, others)), k))
      ensures var scan := Scanned(old(WalkFrom(visits, others)), k);
              var e := Eviction(sort(scan.entries), MarksAt(old(added), others, k), later, outcomes);
              if k < |visits| || Sum(scan) % WORD < high then
                total == Sum(scan) % WORD && disk == old(disk)
              else
                && n <= |e.order|
                && (Sum(scan) < WORD ==> total == Total(scan.marked) + Kept(e, n, |e.order|))
                && (total < low || n == |e.order|)
                && (forall i: nat :: i + 1 < n ==> GoesOn(e, Sum(scan) % WORD, low, i))
                && disk == DiskAfter(e, old(disk), n)
    {
      n := 0;
      ghost var w := WalkFrom(visits, others);
      var ok, sum, entries;
      ok, sum, entries, k := ScanDir(visits, others);
      if !ok || sum < high {
        return sum, k, n;
      }
      var order := sort(entries);
      ghost var e := EvictionOf(order, later, outcomes);
      total, n := Evict(order, sum, low, later, outcomes);
      ghost var scan := Scanned(w, k);
      TotalOfPermutation(order, entries);
      if Sum(scan) < WORD {
        TotalIsWhatIsLeft(e, Total(scan.marked), sum, n);
      }
    }

    ghost function EvictionOf(order: seq<Entry>, later: nat -> Marks, outcomes: nat -> Outcome): Eviction
      reads this
    {
      Eviction(order, added, later, outcomes)
    }

    /** Goes through the entries in the given order and removes those that are not marked by then, until the total is
        below the low-water mark; `n` entries are considered. */
    method Evict(order: seq<Entry>, start: Size, low: Size, later: nat -> Marks, outcomes: nat -> Outcome)
      returns (total: Size, ghost n: nat)
      modifies this
      ensures n <= |order|
      ensures var e := old(EvictionOf(order, later, outcomes));
              && total == Left(e, start, n)
              && (forall k: nat :: k + 1 < n ==> GoesOn(e, start, low, k))
              && (n < |order| ==> n > 0 && !GoesOn(e, start, low, n - 1))
              && disk == DiskAfter(e, old(disk), n)
    {
      ghost var e := EvictionOf(order, later, outcomes);
      total, n := start, 0;
      for i := 0 to |order|
        invariant n == i && added == MarksAt(old(added), later, i)
        invariant total == Left(e, start, i)
        invariant forall k: nat :: k < i ==> GoesOn(e, start, low, k)
        invariant disk == DiskAfter(e, old(disk), i)
      {
        added := added + later(i);
        n := n + 1;
        var mark := IsMarked(order[i].path);
        if mark.Some? {
          continue;
        }
        var ok := CleanPath(order[i].path, outcomes(i));
        if !ok {
          continue;
        }
        LeftAfter(e, start, i);
        total := Subtract(total, order[i].size);
        if total < low {
          break;
        }
      }
    }
  }

  // ---------------------------------------------------------------- what eviction leaves

  /** An attempt to slim the cache: the order, the marks at its start and those made meanwhile, and what would come of
      removing each entry. */
  datatype Eviction = Eviction(order: seq<Entry>, added: Marks, later: nat -> Marks, outcomes: nat -> Outcome)

  /** What becomes of the k-th entry: it is spared if it is marked when its turn comes. */
  ghost function FateOf(e: Eviction, k: nat): Fate
    requires k < |e.order|
  {
    if e.order[k].path in MarksAt(e.added, e.later, k + 1) then Spared
    else if e.outcomes(k).Removed? then Gone
    else Failed
  }

  /** The size of what is gone after `n` entries were considered. */
  ghost function Freed(e: Eviction, n: nat): nat
    requires n <= |e.order|
  {
    if n == 0 then 0 else Freed(e, n - 1) + if FateOf(e, n - 1).Gone? then e.order[n - 1].size else 0
  }

  /** The running total after `n` entries, as 64-bit arithmetic has it. */
  ghost function Left(e: Eviction, start: Size, n: nat): Size
    requires n <= |e.order|
  {
    (start - Freed(e, n)) % WORD
  }

  ghost predicate GoesOn(e: Eviction, start: Size, low: Size, k: nat)
    requires k < |e.order|
  {
    FateOf(e, k).Gone? ==> low <= Left(e, start, k + 1)
  }

  /** The paths on disk after an attempt to remove one: it is renamed first, then removed. */
  function Cleaned(disk: set<string>, path: string, outcome: Outcome): set<string> {
    match outcome
    case Removed => disk - {path, path + "="}
    case NotRenamed => disk
    case NotRemoved => disk - {path} + {path + "="}
  }

  ghost function DiskAfter(e: Eviction, disk: set<string>, n: nat): set<string>
    requires n <= |e.order|
  {
    if n == 0 then disk
    else if FateOf(e, n - 1).Spared? then DiskAfter(e, disk, n - 1)
    else Cleaned(DiskAfter(e, disk, n - 1), e.order[n - 1].path, e.outcomes(n - 1))
  }

  /** The k-th removal renames or removes something at path `p`. */
  ghost predicate Touches(e: Eviction, k: nat, p: string)
    requires k < |e.order|
  {
    !FateOf(e, k).Spared? && !e.outcomes(k).NotRenamed? && p in {e.order[k].path, e.order[k].path + "="}
  }

  /** After the first `n` removals, the k-th was the last to touch `p`. */
  ghost predicate LastTouch(e: Eviction, n: nat, k: nat, p: string)
    requires n <= |e.order| && k < n
  {
    Touches(e, k, p) && forall j: nat :: k < j < n ==> !Touches(e, j, p)
  }

  /** The k-th entry was not marked when its turn came, and could be removed. */
  ghost predicate IsRemoved(e: Eviction, k: nat)
    requires k < |e.order|
  {
    e.order[k].path !in MarksAt(e.added, e.later, k + 1) && e.outcomes(k).Removed?
  }

  /** A removal that fails half-way leaves the entry under its temporary name. */
  ghost predicate Leaves(e: Eviction, k: nat, p: string)
    requires k < |e.order|
  {
    e.order[k].path !in MarksAt(e.added, e.later, k + 1) && e.outcomes(k).NotRemoved? && p == e.order[k].path + "="
  }

  /** What is on disk: the last removal that touched a path decides, and what none touched is as it was. */
  lemma {:induction false} DiskIsDecidedByLastTouch(e: Eviction, disk: set<string>, n: nat, p: string)
    requires n <= |e.order|
    ensures (forall k: nat :: k < n ==> !Touches(e, k, p)) ==> (p in DiskAfter(e, disk, n) <==> p in disk)
    ensures forall k: nat :: k < n && LastTouch(e, n, k, p) ==> (p in DiskAfter(e, disk, n) <==> Leaves(e, k, p))
  {
    if n > 0 {
      DiskIsDecidedByLastTouch(e, disk, n - 1, p);
      if Touches(e, n - 1, p) {
        assert e.order[n - 1].path != e.order[n - 1].path + "=";
      } else {
        assert p in DiskAfter(e, disk, n) <==> p in DiskAfter(e, disk, n - 1);
        forall k: nat | k < n && LastTouch(e, n, k, p)
          ensures p in DiskAfter(e, disk, n) <==> Leaves(e, k, p)
        {
          assert LastTouch(e, n - 1, k, p);
        }
      }
    }
  }

  lemma {:induction false} FindLastTouch(e: Eviction, n: nat, k: nat, p: string) returns (last: nat)
    requires k < n <= |e.order| && Touches(e, k, p)
    ensures k <= last < n && LastTouch(e, n, last, p)
    decreases n
  {
    if Touches(e, n - 1, p) {
      last := n - 1;
    } else {
      last := FindLastTouch(e, n - 1, k, p);
    }
  }

  /** Whatever disappears belongs to an entry that was not marked when its turn came. */
  lemma MarkedEntriesAreNotRemoved(e: Eviction, disk: set<string>, n: nat, p: string)
    requires n <= |e.order| && p in disk && p !in DiskAfter(e, disk, n)
    ensures exists k: nat :: k < n && p in {e.order[k].path, e.order[k].path + "="} &&
              e.order[k].path !in MarksAt(e.added, e.later, k + 1)
  {
    DiskIsDecidedByLastTouch(e, disk, n, p);
    var k: nat :| k < n && Touches(e, k, p);
    assert e.order[k].path !in MarksAt(e.added, e.later, k + 1);
  }

  /** An entry that was marked before the clean disappears exactly if its path is the temporary name of an entry that was
      removed, with nothing left there since. */
  lemma EntriesMarkedBeforeStay(e: Eviction, disk: set<string>, n: nat, p: string)
    requires n <= |e.order| && p in disk && p in e.added
    ensures p !in DiskAfter(e, disk, n) <==>
            exists k: nat :: k < n && LastTouch(e, n, k, p) && IsRemoved(e, k) && e.order[k].path + "=" == p
  {
    DiskIsDecidedByLastTouch(e, disk, n, p);
    if p !in DiskAfter(e, disk, n) {
      var k: nat :| k < n && Touches(e, k, p);
      var last := FindLastTouch(e, n, k, p);
      MarksOnlyGrow(e.added, e.later, 0, last + 1);
      assert e.order[last].path + "=" == p && IsRemoved(e, last);
    }
  }

  lemma MarkedIsNotRemoved(e: Eviction, k: nat)
    requires k < |e.order| && e.order[k].path in e.added
    ensures !IsRemoved(e, k)
  {
    MarksOnlyGrow(e.added, e.later, 0, k + 1);
  }

  /** Marking an entry, as MarkDir does, protects its temporary name from any clean that starts with these marks, and the
      entry itself unless it is the temporary name of another one. */
  lemma MarkDirProtects(e: Eviction, disk: set<string>, n: nat, path: string, size: Size, before: Marks)
    requires n <= |e.order| && e.added == before[path := size][path + "=" := size]
    ensures path + "=" in disk ==> path + "=" in DiskAfter(e, disk, n)
    ensures path in disk && (forall k: nat :: k < n ==> e.order[k].path + "=" != path) ==> path in DiskAfter(e, disk, n)
  {
    if path + "=" in disk && path + "=" !in DiskAfter(e, disk, n) {
      EntriesMarkedBeforeStay(e, disk, n, path + "=");
      var k: nat :| k < n && IsRemoved(e, k) && e.order[k].path + "=" == path + "=";
      assert e.order[k].path == (path + "=")[..|path|] == path;
      MarkedIsNotRemoved(e, k);
      assert false;
    }
    if path in disk {
      EntriesMarkedBeforeStay(e, disk, n, path);
    }
  }

  /** An entry whose size was taken off the total is there again exactly if its path is the temporary name of an entry
      whose removal failed half-way later. */
  lemma GoneEntriesLeaveTheDisk(e: Eviction, disk: set<string>, n: nat, k: nat)
    requires k < n <= |e.order| && IsRemoved(e, k)
    ensures e.order[k].path in DiskAfter(e, disk, n) <==>
            exists j: nat :: k < j < n && LastTouch(e, n, j, e.order[k].path) && Leaves(e, j, e.order[k].path)
  {
    var p := e.order[k].path;
    assert Touches(e, k, p);
    var last := FindLastTouch(e, n, k, p);
    DiskIsDecidedByLastTouch(e, disk, n, p);
    assert !Leaves(e, k, p);
  }

  lemma LeftAfter(e: Eviction, start: Size, n: nat)
    requires n < |e.order| && FateOf(e, n).Gone?
    ensures Left(e, start, n + 1) == Subtract(Left(e, start, n), e.order[n].size)
  {
  }

  /** The sizes of the first `m` entries, without those that are gone after `n` were considered. */
  ghost function Kept(e: Eviction, n: nat, m: nat): nat
    requires m <= |e.order|
  {
    if m == 0 then 0 else Kept(e, n, m - 1) + if m - 1 < n && IsRemoved(e, m - 1) then 0 else e.order[m - 1].size
  }

  lemma {:induction false} FreedPlusKept(e: Eviction, n: nat, m: nat)
    requires n <= |e.order| && m <= |e.order|
    ensures Freed(e, if n <= m then n else m) + Kept(e, n, m) == Total(e.order[..m])
  {
    if m > 0 {
      FreedPlusKept(e, n, m - 1);
      assert e.order[..m] == e.order[..m - 1] + [e.order[m - 1]];
      TotalAppend(e.order[..m - 1], e.order[m - 1]);
    }
  }

  /** If the sizes add up to less than 2^64, the running total never wraps around: after any number of entries it is the
      size of what was marked plus the size of what is left. */
  lemma TotalIsWhatIsLeft(e: Eviction, marked: nat, start: Size, n: nat)
    requires n <= |e.order| && marked + Total(e.order) < WORD && start == marked + Total(e.order)
    ensures Left(e, start, n) == marked + Kept(e, n, |e.order|)
  {
    FreedPlusKept(e, n, |e.order|);
    assert e.order[..|e.order|] == e.order;
  }

  function Add(a: Size, b: Size): Size {
    (a + b) % WORD
  }

  function Subtract(a: Size, b: Size): Size {
    (a - b) % WORD
  }

  lemma AddTotal(sum: nat, x: Size)
    ensures Add(sum % WORD, x) == (sum + x) % WORD
  {
  }

  lemma TotalAppend(entries: seq<Entry>, e: Entry)
    ensures Total(entries + [e]) == Total(entries) + e.size
  {
    assert (entries + [e])[..|entries|] == entries;
  }
}
