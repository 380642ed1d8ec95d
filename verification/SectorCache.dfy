/**
 * The disk device behind its write-back LRU sector cache. LevelFS calls the policy
 * write-through in its header; a sector is written back only when it is evicted or flushed.
 */
module SectorCache {
  type Byte = b: int | 0 <= b < 256
  type Sector = seq<Byte>

  /** Front of `lru` is the most recently used sector. */
  datatype Device = Device(
    lru: seq<nat>,
    cached: map<nat, Sector>,
    dirty: set<nat>,
    capacity: nat,
    enabled: bool,
    image: seq<Sector>)

  function Without(s: seq<nat>, k: nat): seq<nat> {
    if |s| == 0 then [] else if s[0] == k then Without(s[1..], k) else [s[0]] + Without(s[1..], k)
  }

  predicate Distinct(s: seq<nat>) {
    forall i, j :: 0 <= i < j < |s| ==> s[i] != s[j]
  }

  /* ---------- Operations ---------- */

  function Touch(d: Device, k: nat): Device {
    d.(lru := [k] + Without(d.lru, k))
  }

  function WriteBack(d: Device, k: nat): seq<Sector> {
    if k in d.dirty && k in d.cached && k < |d.image| then d.image[k := d.cached[k]] else d.image
  }

  function EvictOldest(d: Device): (r: Device)
    ensures |r.image| == |d.image| && r.capacity == d.capacity && r.enabled == d.enabled
  {
    if |d.lru| == 0 then d
    else
      var k := d.lru[|d.lru| - 1];
      d.(image := WriteBack(d, k), dirty := d.dirty - {k}, lru := d.lru[..|d.lru| - 1], cached := d.cached - {k})
  }

  /** The end of `put`, once there is room. */
  function Insert(d: Device, k: nat, buffer: Sector, isDirty: bool): Device {
    Touch(d.(cached := d.cached[k := buffer], dirty := if isDirty then d.dirty + {k} else d.dirty), k)
  }

  function Put(d: Device, k: nat, buffer: Sector, isDirty: bool): (r: Device)
    ensures |r.image| == |d.image| && r.capacity == d.capacity && r.enabled == d.enabled
  {
    if !d.enabled then d
    else
      Insert(if k !in d.cached && |d.cached| >= d.capacity then EvictOldest(d) else d, k, buffer, isDirty)
  }

  function Read(d: Device, k: nat): (r: (Device, Sector))
    requires k < |d.image|
    ensures |r.0.image| == |d.image| && r.0.capacity == d.capacity && r.0.enabled == d.enabled
  {
    if d.enabled && k in d.cached then (Touch(d, k), d.cached[k])
    else (Put(d, k, d.image[k], false), d.image[k])
  }

  function Write(d: Device, k: nat, buffer: Sector): (r: Device)
    ensures |r.image| == |d.image| && r.capacity == d.capacity && r.enabled == d.enabled
  {
    Put(d, k, buffer, true)
  }

  function Shrink(d: Device): (r: Device)
    ensures |r.image| == |d.image| && r.capacity == d.capacity && r.enabled == d.enabled
    decreases |d.lru|
  {
    if |d.lru| > 0 && |d.cached| > d.capacity then Shrink(EvictOldest(d)) else d
  }

  function SetCapacity(d: Device, capacity: nat): Device {
    Shrink(d.(capacity := capacity))
  }

  function FlushedImage(d: Device): (r: seq<Sector>)
    ensures |r| == |d.image|
  {
    seq(|d.image|, k requires 0 <= k < |d.image| =>
      if k in d.dirty && k in d.cached then d.cached[k] else d.image[k])
  }

  function Flush(d: Device): Device {
    d.(image := FlushedImage(d), dirty := {})
  }

  /* ---------- Transparency ---------- */

  /** The list holds exactly the cached sectors, each once. */
  ghost predicate Lists(lru: seq<nat>, keys: set<nat>) {
    && Distinct(lru) && |lru| == |keys|
    && (forall k :: k in lru <==> k in keys)
  }

  /** The list and the map hold the same sectors; a clean cached sector equals the image. */
  ghost predicate Coherent(d: Device) {
    Lists(d.lru, d.cached.Keys) && Clean(d.cached, d.dirty, d.image)
  }

  /** Cached sectors exist on the device, and those that are not dirty equal it. */
  ghost predicate Clean(cached: map<nat, Sector>, dirty: set<nat>, image: seq<Sector>) {
    forall k :: k in cached ==> k < |image| && (k !in dirty ==> cached[k] == image[k])
  }

  function Limit(capacity: nat): nat {
    if capacity == 0 then 1 else capacity
  }

  function ViewAt(d: Device, k: nat): Sector
    requires k < |d.image|
  {
    if k in d.cached then d.cached[k] else d.image[k]
  }

  /** The sector array a client believes it has. */
  function View(d: Device): (r: seq<Sector>)
    ensures |r| == |d.image|
    ensures forall k :: 0 <= k < |r| ==> r[k] == ViewAt(d, k)
  {
    seq(|d.image|, k requires 0 <= k < |d.image| => ViewAt(d, k))
  }

  lemma {:induction false} WithoutMembers(s: seq<nat>, k: nat)
    ensures forall x :: x in Without(s, k) <==> x in s && x != k
  {
    if |s| > 0 {
      assert s == [s[0]] + s[1..];
      WithoutMembers(s[1..], k);
    }
  }

  lemma {:induction false} WithoutDistinct(s: seq<nat>, k: nat)
    requires Distinct(s)
    ensures forall x :: x in Without(s, k) <==> x in s && x != k
    ensures Distinct(Without(s, k))
    ensures |Without(s, k)| == if k in s then |s| - 1 else |s|
  {
    WithoutMembers(s, k);
    if |s| > 0 {
      WithoutMembers(s[1..], k);
      WithoutDistinct(s[1..], k);
      assert s[0] !in s[1..];
    }
  }

  lemma DropLast(s: seq<nat>, keys: set<nat>)
    requires Lists(s, keys) && |s| > 0
    ensures s[|s| - 1] in keys
    ensures Lists(s[..|s| - 1], keys - {s[|s| - 1]})
  {
    assert s == s[..|s| - 1] + [s[|s| - 1]];
  }

  lemma MoveToFront(s: seq<nat>, keys: set<nat>, k: nat)
    requires Lists(s, keys)
    ensures Lists([k] + Without(s, k), keys + {k})
  {
    WithoutDistinct(s, k);
    assert if k in keys then keys + {k} == keys else |keys + {k}| == |keys| + 1;
  }

  lemma TouchKeeps(d: Device, k: nat)
    requires Coherent(d) && k in d.cached
    ensures Coherent(Touch(d, k)) && View(Touch(d, k)) == View(d)
  {
    MoveToFront(d.lru, d.cached.Keys, k);
    assert d.cached.Keys + {k} == d.cached.Keys;
    hide Lists;
  }

  lemma EvictKeeps(d: Device)
    requires Coherent(d)
    ensures Coherent(EvictOldest(d)) && View(EvictOldest(d)) == View(d)
    ensures |EvictOldest(d).cached| == if |d.cached| == 0 then 0 else |d.cached| - 1
    ensures EvictOldest(d).cached.Keys <= d.cached.Keys
  {
    if |d.lru| > 0 {
      EvictCoherent(d);
      EvictView(d);
    }
  }

  lemma EvictCoherent(d: Device)
    requires Coherent(d) && |d.lru| > 0
    ensures Coherent(EvictOldest(d))
    ensures EvictOldest(d).cached.Keys == d.cached.Keys - {d.lru[|d.lru| - 1]}
    ensures d.lru[|d.lru| - 1] in d.cached
  {
    DropLast(d.lru, d.cached.Keys);
    hide Lists;
    assert EvictOldest(d).cached.Keys == d.cached.Keys - {d.lru[|d.lru| - 1]};
  }

  lemma EvictView(d: Device)
    requires Coherent(d) && |d.lru| > 0
    ensures View(EvictOldest(d)) == View(d)
  {
    var d' := EvictOldest(d);
    hide Lists;
    assert forall i :: 0 <= i < |d.image| ==> ViewAt(d', i) == ViewAt(d, i);
  }

  lemma InsertCoherent(d: Device, k: nat, buffer: Sector, isDirty: bool)
    requires Coherent(d) && k < |d.image|
    requires isDirty || (k !in d.cached && buffer == d.image[k])
    ensures Coherent(Insert(d, k, buffer, isDirty))
    ensures Insert(d, k, buffer, isDirty).cached.Keys == d.cached.Keys + {k}
  {
    hide Lists, Without, Clean, Insert;
    MoveToFront(d.lru, d.cached.Keys, k);
    InsertFields(d, k, buffer, isDirty);
    CleanInsert(d.cached, d.dirty, d.image, k, buffer, isDirty);
    assert d.cached[k := buffer].Keys == d.cached.Keys + {k};
  }

  lemma CleanInsert(cached: map<nat, Sector>, dirty: set<nat>, image: seq<Sector>, k: nat, buffer: Sector, isDirty: bool)
    requires Clean(cached, dirty, image) && k < |image| && (isDirty || (k !in cached && buffer == image[k]))
    ensures Clean(cached[k := buffer], if isDirty then dirty + {k} else dirty, image)
  {
  }

  lemma InsertFields(d: Device, k: nat, buffer: Sector, isDirty: bool)
    ensures var d' := Insert(d, k, buffer, isDirty);
            && d'.lru == [k] + Without(d.lru, k) && d'.cached == d.cached[k := buffer] && d'.image == d.image
            && d'.dirty == if isDirty then d.dirty + {k} else d.dirty
  {
  }

  lemma InsertView(d: Device, k: nat, buffer: Sector, isDirty: bool)
    requires k < |d.image|
    ensures View(Insert(d, k, buffer, isDirty)) == View(d)[k := buffer]
  {
    var d' := Insert(d, k, buffer, isDirty);
    assert forall i :: 0 <= i < |d.image| ==> ViewAt(d', i) == if i == k then buffer else ViewAt(d, i);
  }

  lemma InsertKeeps(d: Device, k: nat, buffer: Sector, isDirty: bool)
    requires Coherent(d) && k < |d.image|
    requires isDirty || (k !in d.cached && buffer == d.image[k])
    ensures Coherent(Insert(d, k, buffer, isDirty))
    ensures View(Insert(d, k, buffer, isDirty)) == View(d)[k := buffer]
    ensures |Insert(d, k, buffer, isDirty).cached| == if k in d.cached then |d.cached| else |d.cached| + 1
  {
    InsertCoherent(d, k, buffer, isDirty);
    InsertView(d, k, buffer, isDirty);
    hide Coherent, View, Insert;
    assert k in d.cached ==> d.cached.Keys + {k} == d.cached.Keys;
    assert |Insert(d, k, buffer, isDirty).cached.Keys| == |Insert(d, k, buffer, isDirty).cached|;
  }

  /** Insertion of a sector that is either a write or a copy of the image. */
  lemma PutKeeps(d: Device, k: nat, buffer: Sector, isDirty: bool)
    requires Coherent(d) && d.enabled && k < |d.image|
    requires isDirty || (k !in d.cached && buffer == d.image[k])
    ensures Coherent(Put(d, k, buffer, isDirty))
    ensures View(Put(d, k, buffer, isDirty)) == View(d)[k := buffer]
    ensures |d.cached| <= Limit(d.capacity) ==> |Put(d, k, buffer, isDirty).cached| <= Limit(d.capacity)
  {
    if k !in d.cached && |d.cached| >= d.capacity {
      EvictKeeps(d);
      EvictImage(d, k);
      InsertKeeps(EvictOldest(d), k, buffer, isDirty);
    } else {
      InsertKeeps(d, k, buffer, isDirty);
    }
    hide Coherent, View;
  }

  /** Evicting another sector leaves this one's image alone. */
  lemma EvictImage(d: Device, k: nat)
    requires Coherent(d) && k < |d.image| && k !in d.cached
    ensures EvictOldest(d).image[k] == d.image[k]
  {
    if |d.lru| > 0 {
      assert d.lru[|d.lru| - 1] in d.lru;
    }
  }

  /** Shrinking keeps exactly the most recent sectors, in order, and the new bound. */
  lemma {:induction false} ShrinkRecent(d: Device)
    requires Coherent(d)
    ensures Shrink(d).lru == (if |d.lru| <= d.capacity then d.lru else d.lru[..d.capacity])
    decreases |d.lru|
  {
    hide Coherent, View;
    ListedIsCached(d, 0);
    if |d.lru| > d.capacity {
      EvictKeeps(d);
      ShrinkRecent(EvictOldest(d));
    }
  }

  lemma ResizeExact(d: Device, n: nat)
    requires Coherent(d)
    ensures var r := SetCapacity(d, n);
            && r.capacity == n && r.enabled == d.enabled
            && r.lru == (if |d.lru| <= n then d.lru else d.lru[..n])
            && (forall k :: k in r.cached <==> k in r.lru)
  {
    ShrinkRecent(d.(capacity := n));
    ShrinkKeeps(d.(capacity := n));
    hide Shrink;
  }

  /** A flush keeps every cached sector where it is, and leaves none dirty. */
  lemma FlushExact(d: Device)
    ensures var r := Flush(d);
            && r.lru == d.lru && r.cached == d.cached && r.capacity == d.capacity && r.enabled == d.enabled
            && r.dirty == {} && |r.image| == |d.image|
            && forall k :: 0 <= k < |d.image| ==>
                 r.image[k] == if k in d.dirty && k in d.cached then d.cached[k] else d.image[k]
  {
  }

  /** With the cache off a read delivers the device's sector and changes nothing; with it on it
      delivers the cached sector if there is one, and moves it to the front. */
  lemma ReadExact(d: Device, k: nat)
    requires k < |d.image|
    ensures !d.enabled ==> Read(d, k) == (d, d.image[k])
    ensures d.enabled ==> Read(d, k).1 == (if k in d.cached then d.cached[k] else d.image[k])
    ensures d.enabled ==> |Read(d, k).0.lru| > 0 && Read(d, k).0.lru[0] == k && k in Read(d, k).0.cached
  {
  }

  lemma {:induction false} ShrinkKeeps(d: Device)
    requires Coherent(d)
    ensures Coherent(Shrink(d)) && View(Shrink(d)) == View(d)
    ensures |Shrink(d).cached| <= d.capacity
    decreases |d.lru|
  {
    if |d.lru| > 0 && |d.cached| > d.capacity {
      EvictKeeps(d);
      ShrinkKeeps(EvictOldest(d));
    }
  }

  /** After a flush nothing is dirty and the image is exactly what the client sees. */
  lemma FlushKeeps(d: Device)
    requires Coherent(d)
    ensures Coherent(Flush(d)) && View(Flush(d)) == View(d) && Flush(d).image == View(d)
  {
  }

  datatype DiskOp =
    | ReadOp(sector: nat)
    | WriteOp(sector: nat, buffer: Sector)
    | ResizeOp(capacity: nat)
    | FlushOp

  predicate InBounds(op: DiskOp, n: nat) {
    (op.ReadOp? || op.WriteOp?) ==> op.sector < n
  }

  /** The cached disk: new state and what a read delivers. */
  function Exec(d: Device, op: DiskOp): (r: (Device, Sector))
    requires InBounds(op, |d.image|)
    ensures |r.0.image| == |d.image| && r.0.enabled == d.enabled
  {
    match op
    case ReadOp(k) => Read(d, k)
    case WriteOp(k, buffer) => (Write(d, k, buffer), [])
    case ResizeOp(n) => (SetCapacity(d, n), [])
    case FlushOp => (Flush(d), [])
  }

  /** The uncached sector array. */
  function ExecRaw(a: seq<Sector>, op: DiskOp): (r: (seq<Sector>, Sector))
    requires InBounds(op, |a|)
    ensures |r.0| == |a|
  {
    match op
    case ReadOp(k) => (a, a[k])
    case WriteOp(k, buffer) => (a[k := buffer], [])
    case ResizeOp(n) => (a, [])
    case FlushOp => (a, [])
  }

  lemma ExecKeeps(d: Device, op: DiskOp)
    requires Coherent(d) && d.enabled && InBounds(op, |d.image|)
    ensures Coherent(Exec(d, op).0)
    ensures (View(Exec(d, op).0), Exec(d, op).1) == ExecRaw(View(d), op)
  {
    match op
    case ReadOp(k) =>
      if k in d.cached {
        TouchKeeps(d, k);
      } else {
        PutKeeps(d, k, d.image[k], false);
        assert View(d)[k := d.image[k]] == View(d);
      }
    case WriteOp(k, buffer) => PutKeeps(d, k, buffer, true);
    case ResizeOp(n) =>
      assert View(d.(capacity := n)) == View(d);
      ShrinkKeeps(d.(capacity := n));
    case FlushOp => FlushKeeps(d);
  }

  function Outputs(d: Device, ops: seq<DiskOp>): (r: (Device, seq<Sector>))
    requires forall i :: 0 <= i < |ops| ==> InBounds(ops[i], |d.image|)
    decreases |ops|
  {
    if |ops| == 0 then (d, [])
    else
      var (d1, out) := Exec(d, ops[0]);
      var (d2, outs) := Outputs(d1, ops[1..]);
      (d2, [out] + outs)
  }

  function RawOutputs(a: seq<Sector>, ops: seq<DiskOp>): (r: (seq<Sector>, seq<Sector>))
    requires forall i :: 0 <= i < |ops| ==> InBounds(ops[i], |a|)
    decreases |ops|
  {
    if |ops| == 0 then (a, [])
    else
      var (a1, out) := ExecRaw(a, ops[0]);
      var (a2, outs) := RawOutputs(a1, ops[1..]);
      (a2, [out] + outs)
  }

  /** The cache is transparent: over any run of reads, writes, capacity changes (down to zero
      included) and flushes, every read delivers what the plain sector array delivers, and a
      final flush leaves that array on the device. */
  lemma {:induction false} Transparent(d: Device, ops: seq<DiskOp>)
    requires Coherent(d) && d.enabled
    requires forall i :: 0 <= i < |ops| ==> InBounds(ops[i], |d.image|)
    ensures var (d', outs) := Outputs(d, ops);
            var (a', rawOuts) := RawOutputs(View(d), ops);
            Coherent(d') && outs == rawOuts && View(d') == a' && Flush(d').image == a'
    decreases |ops|
  {
    if |ops| > 0 {
      ExecKeeps(d, ops[0]);
      Transparent(Exec(d, ops[0]).0, ops[1..]);
    } else {
      FlushKeeps(d);
    }
  }

  /* ---------- Where transparency ends ---------- */

  /** A switched-off cache acknowledges single-sector writes and drops them: the write is
      visible exactly when the cache is on or the sector already held those bytes. */
  lemma WriteVisible(d: Device, k: nat, buffer: Sector)
    requires Coherent(d) && k < |d.image|
    ensures View(Write(d, k, buffer))[k] == buffer <==> d.enabled || View(d)[k] == buffer
  {
    if d.enabled {
      PutKeeps(d, k, buffer, true);
    }
  }

  /** Dropping a sector from the cache without writing it back. */
  function Invalidate(d: Device, k: nat): Device {
    if k in d.cached then d.(lru := Without(d.lru, k), cached := d.cached - {k}) else d
  }

  /** Invalidation keeps the device coherent, and keeps its contents exactly when the dropped
      sector had nothing left to write. */
  lemma InvalidateExact(d: Device, k: nat)
    requires Coherent(d)
    ensures Coherent(Invalidate(d, k))
    ensures View(Invalidate(d, k)) == View(d) <==> (k in d.cached ==> d.cached[k] == d.image[k])
  {
    WithoutDistinct(d.lru, k);
    var d' := Invalidate(d, k);
    if k in d.cached {
      assert View(d)[k] == d.cached[k] && View(d')[k] == d.image[k];
      assert (d.cached - {k}).Keys == d.cached.Keys - {k};
      assert forall i :: 0 <= i < |d.image| && i != k ==> View(d')[i] == View(d)[i];
    }
  }

  /* ---------- The LRU stack theorem ---------- */

  function LruStep(lru: seq<nat>, k: nat, n: nat): seq<nat> {
    if k in lru then [k] + Without(lru, k)
    else if |lru| >= n && |lru| > 0 then [k] + lru[..|lru| - 1]
    else [k] + lru
  }

  /** Reads and writes move the list like one step of an LRU of max(capacity, 1) sectors. */
  lemma AccessIsLruStep(d: Device, k: nat, buffer: Sector)
    requires Coherent(d) && d.enabled && k < |d.image| && |d.cached| <= Limit(d.capacity)
    ensures Read(d, k).0.lru == LruStep(d.lru, k, Limit(d.capacity))
    ensures Write(d, k, buffer).lru == LruStep(d.lru, k, Limit(d.capacity))
    ensures |Read(d, k).0.cached| <= Limit(d.capacity) && |Write(d, k, buffer).cached| <= Limit(d.capacity)
  {
    if k in d.cached {
      TouchKeeps(d, k);
      assert d.cached[k := buffer].Keys == d.cached.Keys;
    } else {
      PutKeeps(d, k, d.image[k], false);
      PutLru(d, k, d.image[k], false);
    }
    PutKeeps(d, k, buffer, true);
    PutLru(d, k, buffer, true);
  }

  lemma PutLru(d: Device, k: nat, buffer: Sector, isDirty: bool)
    requires Coherent(d) && d.enabled && |d.cached| <= Limit(d.capacity)
    ensures Put(d, k, buffer, isDirty).lru == LruStep(d.lru, k, Limit(d.capacity))
  {
    ListedIsCached(d, k);
    hide Coherent, Without;
    if k !in d.cached {
      WithoutAbsent(d.lru, k);
      if |d.lru| > 0 {
        WithoutAbsent(d.lru[..|d.lru| - 1], k);
      }
    }
  }

  lemma ListedIsCached(d: Device, k: nat)
    requires Coherent(d)
    ensures |d.lru| == |d.cached.Keys| == |d.cached| && (k in d.lru <==> k in d.cached)
  {
  }

  lemma {:induction false} WithoutAbsent(s: seq<nat>, k: nat)
    requires k !in s
    ensures Without(s, k) == s
  {
    if |s| > 0 {
      WithoutAbsent(s[1..], k);
    }
  }

  function LruAfter(trace: seq<nat>, n: nat): seq<nat> {
    if |trace| == 0 then [] else LruStep(LruAfter(trace[..|trace| - 1], n), trace[|trace| - 1], n)
  }

  /** The distinct sectors of a trace, most recently used first. */
  function Recency(trace: seq<nat>): seq<nat> {
    if |trace| == 0 then []
    else [trace[|trace| - 1]] + Without(Recency(trace[..|trace| - 1]), trace[|trace| - 1])
  }

  function Take(s: seq<nat>, n: nat): seq<nat> {
    if |s| <= n then s else s[..n]
  }

  lemma TakeCons(x: nat, s: seq<nat>, n: nat)
    ensures Take([x] + s, n + 1) == [x] + Take(s, n) && Take(s, 0) == []
  {
  }

  lemma WithoutCons(x: nat, s: seq<nat>, k: nat)
    ensures Without([x] + s, k) == if x == k then Without(s, k) else [x] + Without(s, k)
  {
    assert ([x] + s)[1..] == s;
  }

  lemma TakeMembers(s: seq<nat>, n: nat)
    ensures forall x :: x in Take(s, n) ==> x in s
  {
  }

  /** Dropping a sector before or after cutting the list off. */
  predicate TakesAlike(s: seq<nat>, k: nat, n: nat)
    requires n > 0
  {
    Take(Without(s, k), n - 1) == if k in Take(s, n) then Without(Take(s, n), k) else Take(s, n - 1)
  }

  lemma TakesAlikeFront(rest: seq<nat>, k: nat, n: nat)
    requires k !in rest && n > 0
    ensures TakesAlike([k] + rest, k, n)
  {
    hide Take, Without;
    TakeCons(k, rest, n - 1);
    WithoutCons(k, rest, k);
    WithoutCons(k, Take(rest, n - 1), k);
    WithoutAbsent(rest, k);
    TakeMembers(rest, n - 1);
    WithoutAbsent(Take(rest, n - 1), k);
  }

  lemma TakesAlikeRest(x: nat, rest: seq<nat>, k: nat, n: nat)
    requires x != k && n > 1 && TakesAlike(rest, k, n - 1)
    ensures TakesAlike([x] + rest, k, n)
  {
    hide Take, Without;
    TakeCons(x, rest, n - 1);
    TakeCons(x, rest, n - 2);
    WithoutCons(x, rest, k);
    TakeCons(x, Without(rest, k), n - 2);
    WithoutCons(x, Take(rest, n - 1), k);
  }

  lemma {:induction false} WithoutTake(s: seq<nat>, k: nat, n: nat)
    requires Distinct(s) && n > 0
    ensures TakesAlike(s, k, n)
    decreases |s|
  {
    if |s| > 0 && (s[0] == k || n > 1) {
      var x, rest := s[0], s[1..];
      assert Distinct(rest) && x !in rest;
      hide TakesAlike, Distinct;
      assert s == [x] + rest;
      if x == k {
        TakesAlikeFront(rest, k, n);
      } else {
        WithoutTake(rest, k, n - 1);
        TakesAlikeRest(x, rest, k, n);
      }
    }
  }

  lemma {:induction false} RecencyDistinct(trace: seq<nat>)
    ensures Distinct(Recency(trace))
  {
    if |trace| > 0 {
      RecencyDistinct(trace[..|trace| - 1]);
      WithoutDistinct(Recency(trace[..|trace| - 1]), trace[|trace| - 1]);
    }
  }

  /** With n slots the list is always the n most recently used distinct sectors, in order. */
  lemma {:induction false} LruIsRecency(trace: seq<nat>, n: nat)
    requires n > 0
    ensures LruAfter(trace, n) == Take(Recency(trace), n)
  {
    if |trace| > 0 {
      var before, k := trace[..|trace| - 1], trace[|trace| - 1];
      LruIsRecency(before, n);
      RecencyDistinct(before);
      WithoutTake(Recency(before), k, n);
      assert Take(Recency(trace), n) == [k] + Take(Without(Recency(before), k), n - 1);
    }
  }

  predicate IsAccess(op: DiskOp) {
    op.ReadOp? || op.WriteOp?
  }

  function TraceOf(ops: seq<DiskOp>): seq<nat>
    requires forall i :: 0 <= i < |ops| ==> IsAccess(ops[i])
  {
    if |ops| == 0 then []
    else
      assert IsAccess(ops[0]);
      [ops[0].sector] + TraceOf(ops[1..])
  }

  lemma AccessKeeps(d: Device, op: DiskOp, history: seq<nat>)
    requires Coherent(d) && d.enabled && |d.cached| <= Limit(d.capacity)
    requires IsAccess(op) && InBounds(op, |d.image|)
    requires d.lru == LruAfter(history, Limit(d.capacity))
    ensures var d' := Exec(d, op).0;
            && Coherent(d') && d'.enabled && d'.capacity == d.capacity && |d'.cached| <= Limit(d.capacity)
            && d'.lru == LruAfter(history + [op.sector], Limit(d.capacity))
  {
    hide Coherent, LruStep, View, Read, Write;
    ExecKeeps(d, op);
    AccessIsLruStep(d, op.sector, if op.WriteOp? then op.buffer else []);
    assert (history + [op.sector])[..|history|] == history;
  }

  /** Stack theorem for the device itself: after any reads and writes its list is the most
      recently used distinct sectors of the whole history, in order. */
  lemma {:induction false} DeviceIsRecency(d: Device, history: seq<nat>, ops: seq<DiskOp>)
    requires Coherent(d) && d.enabled && |d.cached| <= Limit(d.capacity)
    requires d.lru == LruAfter(history, Limit(d.capacity))
    requires forall i :: 0 <= i < |ops| ==> InBounds(ops[i], |d.image|)
    requires forall i :: 0 <= i < |ops| ==> IsAccess(ops[i])
    ensures Outputs(d, ops).0.lru == Take(Recency(history + TraceOf(ops)), Limit(d.capacity))
    decreases |ops|
  {
    hide Coherent, LruStep, View, Recency, LruAfter, Exec, ExecRaw, Take;
    if |ops| > 0 {
      assert IsAccess(ops[0]);
      var k := ops[0].sector;
      var history1 := history + [k];
      AccessKeeps(d, ops[0], history);
      assert forall i :: 0 <= i < |ops| - 1 ==> ops[1..][i] == ops[i + 1];
      DeviceIsRecency(Exec(d, ops[0]).0, history1, ops[1..]);
      assert history1 + TraceOf(ops[1..]) == history + TraceOf(ops);
    } else {
      assert history + TraceOf(ops) == history;
      LruIsRecency(history, Limit(d.capacity));
    }
  }

  /* ---------- What a crash leaves ---------- */

  /** Power loss: the cache is gone, the device stays. */
  function Crash(d: Device): Device {
    d.(lru := [], cached := map[], dirty := {})
  }

  /** A crash loses nothing if and only if every cached sector equals the device. */
  lemma CrashExact(d: Device)
    requires Coherent(d)
    ensures Coherent(Crash(d)) && View(Crash(d)) == d.image
    ensures View(Crash(d)) == View(d) <==> forall k :: k in d.cached ==> d.cached[k] == d.image[k]
  {
    if View(d) == d.image {
      forall k | k in d.cached ensures d.cached[k] == d.image[k] {
        assert View(d)[k] == d.cached[k];
      }
    }
  }

  function Touched(ops: seq<DiskOp>): set<nat>
    requires forall i :: 0 <= i < |ops| ==> IsAccess(ops[i])
  {
    if |ops| == 0 then {}
    else
      assert IsAccess(ops[0]);
      {ops[0].sector} + Touched(ops[1..])
  }

  lemma AccessInPlace(d: Device, op: DiskOp)
    requires d.enabled && IsAccess(op) && InBounds(op, |d.image|)
    requires op.sector in d.cached || |d.cached| < d.capacity
    ensures var d' := Exec(d, op).0;
            && d'.image == d.image && d'.capacity == d.capacity && d'.enabled
            && d'.cached.Keys == d.cached.Keys + {op.sector}
  {
    hide Without;
  }

  lemma SubsetSize(a: set<nat>, b: set<nat>)
    requires a <= b
    ensures |a| <= |b|
  {
    assert b == a + (b - a);
  }

  /** As long as the sectors read and written fit into the cache, together with those already
      there, no write reaches the device: a crash loses them all, a journal's among them. */
  lemma {:induction false} CrashLosesWrites(d: Device, ops: seq<DiskOp>)
    requires d.enabled && forall i :: 0 <= i < |ops| ==> IsAccess(ops[i]) && InBounds(ops[i], |d.image|)
    requires |d.cached.Keys + Touched(ops)| <= d.capacity
    ensures Outputs(d, ops).0.image == d.image && View(Crash(Outputs(d, ops).0)) == d.image
    decreases |ops|
  {
    hide Exec, ExecRaw;
    if |ops| > 0 {
      assert IsAccess(ops[0]) && InBounds(ops[0], |d.image|);
      var k, all := ops[0].sector, d.cached.Keys + Touched(ops);
      SubsetSize(d.cached.Keys + {k}, all);
      assert k !in d.cached ==> |d.cached.Keys + {k}| == |d.cached.Keys| + 1;
      AccessInPlace(d, ops[0]);
      var d1 := Exec(d, ops[0]).0;
      assert d1.cached.Keys + Touched(ops[1..]) == all;
      assert forall i :: 0 <= i < |ops| - 1 ==> ops[1..][i] == ops[i + 1];
      CrashLosesWrites(d1, ops[1..]);
    }
  }

  function Hits(trace: seq<nat>, n: nat): nat {
    if |trace| == 0 then 0
    else
      Hits(trace[..|trace| - 1], n)
      + if trace[|trace| - 1] in LruAfter(trace[..|trace| - 1], n) then 1 else 0
  }

  /** Inclusion: a larger cache holds everything a smaller one holds, in the same order, ... */
  lemma LruInclusion(trace: seq<nat>, n: nat, m: nat)
    requires 0 < n <= m
    ensures LruAfter(trace, n) == Take(LruAfter(trace, m), n)
    ensures forall k :: k in LruAfter(trace, n) ==> k in LruAfter(trace, m)
  {
    LruIsRecency(trace, n);
    LruIsRecency(trace, m);
  }

  /** ... so it never has fewer hits, on any trace. */
  lemma {:induction false} MoreCapacityMoreHits(trace: seq<nat>, n: nat, m: nat)
    requires 0 < n <= m
    ensures Hits(trace, n) <= Hits(trace, m)
  {
    if |trace| > 0 {
      MoreCapacityMoreHits(trace[..|trace| - 1], n, m);
      LruInclusion(trace[..|trace| - 1], n, m);
    }
  }

  /* ---------- The device ---------- */

  lemma CachedInBounds(d: Device)
    requires Coherent(d)
    ensures forall k :: k in d.cached ==> k < |d.image|
  {
  }

  class DiskDevice {
    const image: array<Sector>
    var lruList: seq<nat>
    var cacheData: map<nat, Sector>
    var dirtyBits: set<nat>
    var maxEntries: nat
    var enabled: bool
    ghost var dev: Device

    ghost predicate Valid()
      reads this, image
    {
      && lruList == dev.lru && cacheData == dev.cached && dirtyBits == dev.dirty
      && maxEntries == dev.capacity && enabled == dev.enabled && image[..] == dev.image
      && Coherent(dev)
    }

    constructor (image: array<Sector>, maxSize: nat)
      ensures Valid() && this.image == image
      ensures dev == Device([], map[], {}, maxSize, true, image[..])
    {
      this.image := image;
      lruList, cacheData, dirtyBits := [], map[], {};
      maxEntries, enabled := maxSize, true;
      dev := Device([], map[], {}, maxSize, true, image[..]);
    }

    method WriteSectorDirect(sector: nat, data: Sector)
      requires sector < image.Length
      modifies image
      ensures image[..] == old(image[..])[sector := data]
    {
      image[sector] := data;
    }

    /** The write-back half of an eviction. */
    method CleanSector(key: nat)
      requires Valid() && (key in cacheData ==> key < image.Length)
      modifies `dirtyBits, image
      ensures image[..] == WriteBack(dev, key) && dirtyBits == dev.dirty - {key}
    {
      hide Coherent;
      if key in dirtyBits {
        if key in cacheData {
          WriteSectorDirect(key, cacheData[key]);
        }
        dirtyBits := dirtyBits - {key};
      }
    }

    method EvictOldestUnsafe()
      requires Valid()
      modifies this, image
      ensures Valid() && dev == EvictOldest(old(dev)) && View(dev) == View(old(dev))
    {
      hide Coherent, View, WriteBack;
      EvictKeeps(dev);
      CachedInBounds(dev);
      if |lruList| == 0 { return; }
      var oldest: nat := lruList[|lruList| - 1];
      CleanSector(oldest);
      lruList := lruList[..|lruList| - 1];
      cacheData := cacheData - {oldest};
      dev := EvictOldest(dev);
    }

    /** touchUnsafe: move the sector to the front of the list. */
    method TouchUnsafe(key: nat)
      modifies `lruList
      ensures lruList == [key] + Without(old(lruList), key)
    {
      if key in lruList {
        lruList := Without(lruList, key);
      } else {
        WithoutAbsent(lruList, key);
      }
      lruList := [key] + lruList;
    }

    /** The cache's `get`. */
    method Get(key: nat) returns (found: bool, buffer: Sector)
      requires Valid()
      modifies `lruList, `dev
      ensures Valid() && found == (enabled && key in cacheData)
      ensures found ==> buffer == cacheData[key] && dev == Touch(old(dev), key)
      ensures !found ==> dev == old(dev)
    {
      hide Coherent, View;
      found, buffer := false, [];
      if !enabled || key !in cacheData { return; }
      TouchKeeps(dev, key);
      TouchUnsafe(key);
      dev := Touch(dev, key);
      found, buffer := true, cacheData[key];
    }

    /** The cache's `put`: a written sector, or a clean copy of what the device holds. */
    method PutSector(key: nat, buffer: Sector, isDirty: bool)
      requires Valid() && key < image.Length
      requires isDirty || !enabled || (key !in cacheData && buffer == image[key])
      modifies this, image
      ensures Valid() && dev == Put(old(dev), key, buffer, isDirty)
    {
      hide Coherent, View, Without, WriteBack;
      if !enabled { return; }
      PutKeeps(dev, key, buffer, isDirty);
      if key !in cacheData && |cacheData| >= maxEntries {
        EvictOldestUnsafe();
      }
      cacheData := cacheData[key := buffer];
      if isDirty { dirtyBits := dirtyBits + {key}; }
      TouchUnsafe(key);
      InsertFields(dev, key, buffer, isDirty);
      hide Insert;
      dev := Insert(dev, key, buffer, isDirty);
    }

    method ReadSector(sector: nat) returns (buffer: Sector)
      requires Valid() && sector < image.Length
      modifies this, image
      ensures Valid() && (dev, buffer) == Read(old(dev), sector)
      ensures enabled ==> buffer == View(old(dev))[sector] && View(dev) == View(old(dev))
    {
      if enabled { ExecKeeps(dev, ReadOp(sector)); }
      var found;
      found, buffer := Get(sector);
      if found { return; }
      buffer := image[sector];
      PutSector(sector, buffer, false);
    }

    method WriteSector(sector: nat, buffer: Sector)
      requires Valid() && sector < image.Length
      modifies this, image
      ensures Valid() && dev == Write(old(dev), sector, buffer)
      ensures View(dev) == if enabled then View(old(dev))[sector := buffer] else View(old(dev))
    {
      if enabled { PutKeeps(dev, sector, buffer, true); }
      PutSector(sector, buffer, true);
    }

    method SetCacheSize(cap: nat)
      requires Valid()
      modifies this, image
      ensures Valid() && dev == SetCapacity(old(dev), cap)
      ensures View(dev) == View(old(dev)) && |cacheData| <= cap
    {
      assert View(dev.(capacity := cap)) == View(dev);
      ShrinkKeeps(dev.(capacity := cap));
      maxEntries := cap;
      dev := dev.(capacity := cap);
      while |cacheData| > maxEntries
        invariant Valid() && Shrink(dev) == SetCapacity(old(dev), cap)
        invariant maxEntries == cap && View(dev) == View(old(dev))
        decreases |cacheData|
      {
        EvictKeeps(dev);
        EvictOldestUnsafe();
      }
    }

    method FlushCache()
      requires Valid()
      modifies this, image
      ensures Valid() && dev == Flush(old(dev))
      ensures image[..] == View(old(dev)) && View(dev) == View(old(dev))
    {
      hide Coherent, View, FlushedImage;
      FlushKeeps(dev);
      CachedInBounds(dev);
      var pending := dirtyBits;
      while pending != {}
        modifies image
        invariant pending <= dirtyBits
        invariant forall k :: 0 <= k < image.Length ==>
                    image[k] == if k in dirtyBits && k !in pending && k in cacheData then cacheData[k] else dev.image[k]
        decreases pending
      {
        var k: nat :| k in pending;
        if k in cacheData {
          WriteSectorDirect(k, cacheData[k]);
        }
        pending := pending - {k};
      }
      dirtyBits := {};
      FlushedIs(dev, image[..]);
      dev := Flush(dev);
    }
  }

  lemma FlushedIs(d: Device, a: seq<Sector>)
    requires |a| == |d.image|
    requires forall k :: 0 <= k < |a| ==> a[k] == if k in d.dirty && k in d.cached then d.cached[k] else d.image[k]
    ensures a == FlushedImage(d)
  {
  }
}
