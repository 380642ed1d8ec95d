/**
 * The allocation map of a mounted volume as a value: one entry and one block of bytes for
 * every cluster, the LIT bookkeeping and the superblock counters. The operations here are
 * the specification that the class in Volume.dfy implements on the real two-level table.
 */
module ClusterMap {
  import opened DiskLayout

  type Byte = b: int | 0 <= b < 256
  type Bytes = seq<Byte>

  datatype LabEntry = LabEntry(next: nat, level: nat, flags: nat, refCount: nat)

  const FREE_ENTRY := LabEntry(LAT_FREE, 0, 0, 0)

  /** The allocator's own test of a free entry: both the link and the flags are clear. */
  predicate IsFree(e: LabEntry) {
    e.next == LAT_FREE && e.flags == 0
  }

  /** `flags | LAT_FLAG_USED`; the flag is bit 0. */
  function OrUsed(flags: nat): nat {
    if flags % 2 == 0 then flags + 1 else flags
  }

  /**
   * `flat` and `data` are indexed by cluster, `counts` by LIT slot; `mat` is the set of LIT
   * slots that have a LAB; `hint` and `free` are the superblock's freeClusterHint and
   * totalFreeClusters.
   */
  datatype Store = Store(
    flat: seq<LabEntry>,
    data: seq<Bytes>,
    mat: set<nat>,
    counts: seq<nat>,
    hint: nat,
    free: int)

  predicate Shaped(L: Layout, st: Store) {
    && |st.flat| == |st.data| == L.totalClusters
    && |st.counts| == L.LitCapacity()
  }

  predicate InRange(L: Layout, cs: seq<nat>) {
    forall i :: 0 <= i < |cs| ==> cs[i] < L.totalClusters
  }

  /** No entry links to a cluster outside the volume. */
  predicate LinksInRange(L: Layout, flat: seq<LabEntry>) {
    forall c :: 0 <= c < |flat| ==> flat[c].next < L.totalClusters || flat[c].next == LAT_END
  }

  /* ---------- Entries ---------- */

  /** What a lookup returns: reserved clusters read as chain ends whatever is stored. */
  function EntryOf(L: Layout, flat: seq<LabEntry>, c: nat): LabEntry
    requires |flat| == L.totalClusters
  {
    if c == 0 || c >= L.totalClusters then FREE_ENTRY
    else if L.Reserved(c) then FREE_ENTRY.(next := LAT_END)
    else flat[c]
  }

  function NextOf(L: Layout, flat: seq<LabEntry>, c: nat): nat
    requires |flat| == L.totalClusters
  {
    if c == 0 || c >= L.totalClusters || L.Reserved(c) then LAT_END else flat[c].next
  }

  /** Writing an entry materialises its group's LAB. What is written for a reserved cluster is
      stored like any other entry, although no lookup shows it. */
  function SetEntry(L: Layout, st: Store, c: nat, e: LabEntry): (r: Store)
    requires Shaped(L, st) && c < L.totalClusters
    ensures Shaped(L, r)
    ensures r.data == st.data && r.counts == st.counts && r.hint == st.hint && r.free == st.free
  {
    st.(flat := st.flat[c := e], mat := st.mat + {GroupOf(c)})
  }

  function Linked(e: LabEntry, next: nat): LabEntry {
    e.(next := next, flags := if next == LAT_END then OrUsed(e.flags) else e.flags)
  }

  function SetLink(L: Layout, st: Store, c: nat, next: nat): (r: Store)
    requires Shaped(L, st) && c < L.totalClusters
    ensures Shaped(L, r)
    ensures LinksInRange(L, st.flat) && (next < L.totalClusters || next == LAT_END) ==>
              LinksInRange(L, r.flat)
    ensures r.data == st.data && r.counts == st.counts && r.hint == st.hint && r.free == st.free
  {
    SetEntry(L, st, c, Linked(EntryOf(L, st.flat, c), next))
  }

  /** The slot updateLITAllocatedCount goes to, if it lies inside a LIT cluster. */
  function CountSlot(L: Layout, c: nat): int {
    var g := GroupOf(c);
    var ci, ei := g / 512, g % 512;
    if ci >= L.litClusters || ei >= LIT_SLOTS then -1 else ci * 170 + ei
  }

  function Bump(L: Layout, st: Store, c: nat, delta: int): (r: Store)
    requires Shaped(L, st)
    requires delta == 1 || delta == -1
    ensures Shaped(L, r) && r == st.(counts := r.counts)
  {
    var slot := CountSlot(L, c);
    if slot < 0 || slot !in st.mat || (delta < 0 && st.counts[slot] < 1) then st
    else st.(counts := st.counts[slot := st.counts[slot] + delta])
  }

  /* ---------- Allocation ---------- */

  predicate FreeAt(L: Layout, flat: seq<LabEntry>, c: nat) {
    c < |flat| && !L.Reserved(c) && IsFree(flat[c])
  }

  function FirstFree(L: Layout, flat: seq<LabEntry>, lo: nat, hi: nat): (c: nat)
    requires lo <= hi
    ensures lo <= c <= hi
    ensures forall k :: lo <= k < c ==> !FreeAt(L, flat, k)
    ensures c < hi ==> FreeAt(L, flat, c)
    decreases hi - lo
  {
    if lo == hi || FreeAt(L, flat, lo) then lo else FirstFree(L, flat, lo + 1, hi)
  }

  function ScanStart(hint: nat): nat {
    if hint == 0 then 1 else hint
  }

  /** Next fit: the first free cluster from the hint to the end of the volume, else the first
      one below the hint, else 0. Sound and complete for every value of the hint. */
  function NextFit(L: Layout, flat: seq<LabEntry>, hint: nat): (c: nat)
    requires |flat| == L.totalClusters > 0
    ensures c == 0 <==> forall k :: 0 <= k < L.totalClusters ==> !FreeAt(L, flat, k)
    ensures c != 0 ==> FreeAt(L, flat, c)
    ensures c >= ScanStart(hint) ==> forall k :: ScanStart(hint) <= k < c ==> !FreeAt(L, flat, k)
    ensures 0 < c < ScanStart(hint) ==>
              forall k :: 0 <= k < c || ScanStart(hint) <= k < L.totalClusters ==> !FreeAt(L, flat, k)
  {
    var total, start := L.totalClusters, ScanStart(hint);
    var a := if start < total then FirstFree(L, flat, start, total) else total;
    var stop := if start < total then start else total;
    var b := FirstFree(L, flat, 1, stop);
    if a < total then a else if b < stop then b else 0
  }

  const USED_ENTRY := LabEntry(LAT_END, 0, 1, 1)

  /** Allocate one cluster as a chain of its own; cluster 0 stands for a full disk. */
  function Allocate(L: Layout, st: Store, level: nat): (r: (Store, nat))
    requires Shaped(L, st) && L.totalClusters > 0
    ensures Shaped(L, r.0) && r.1 < L.totalClusters
    ensures LinksInRange(L, st.flat) ==> LinksInRange(L, r.0.flat)
  {
    var c := NextFit(L, st.flat, st.hint);
    if c == 0 then (st, 0)
    else
      var st1 := Bump(L, SetEntry(L, st, c, USED_ENTRY.(level := level)), c, 1);
      (st1.(hint := c + 1, free := st1.free - 1), c)
  }

  /* ---------- Freeing ---------- */

  function FreeList(L: Layout, st: Store, cs: seq<nat>): (r: Store)
    requires Shaped(L, st) && InRange(L, cs)
    ensures Shaped(L, r) && r.data == st.data && r.hint == st.hint && r.free == st.free + |cs|
    decreases |cs|
  {
    if |cs| == 0 then st
    else
      var st1 := SetEntry(L, Bump(L, st, cs[0], -1), cs[0], FREE_ENTRY);
      FreeList(L, st1.(free := st1.free + 1), cs[1..])
  }

  function FreeCluster(L: Layout, st: Store, c: nat): (r: Store)
    requires Shaped(L, st) && c < L.totalClusters
    ensures Shaped(L, r)
  {
    if L.Reserved(c) then st else FreeList(L, st, [c])
  }

  function FreeChain(L: Layout, st: Store, start: nat): (r: Store)
    requires Shaped(L, st)
    ensures Shaped(L, r)
  {
    if L.Reserved(start) then st else FreeList(L, st, ChainOf(L, st.flat, start))
  }

  /* ---------- Chains ---------- */

  /** The chain walk gives up once more than a million clusters are collected. */
  const CHAIN_CAP: nat := 1_000_001

  predicate Continues(L: Layout, chain: seq<nat>, current: nat) {
    && current != 0 && current != LAT_END && current != LAT_BAD && current < L.totalClusters
    && current !in chain
    && |chain| < CHAIN_CAP
  }

  function WalkFrom(L: Layout, flat: seq<LabEntry>, chain: seq<nat>): (r: seq<nat>)
    requires |flat| == L.totalClusters
    requires 0 < |chain| <= CHAIN_CAP
    requires InRange(L, chain)
    ensures chain <= r
    ensures |r| <= CHAIN_CAP && InRange(L, r)
    decreases CHAIN_CAP - |chain|
  {
    var current := NextOf(L, flat, chain[|chain| - 1]);
    if Continues(L, chain, current) then WalkFrom(L, flat, chain + [current]) else chain
  }

  function ChainOf(L: Layout, flat: seq<LabEntry>, start: nat): (r: seq<nat>)
    requires |flat| == L.totalClusters
    ensures InRange(L, r)
  {
    if start == 0 || start >= L.totalClusters then []
    else if L.Reserved(start) then [start]
    else WalkFrom(L, flat, [start])
  }

  /* ---------- Files ---------- */

  function Zeros(n: nat): (z: Bytes)
    ensures |z| == n
  {
    seq(n, i => 0)
  }

  /** File contents as the sequence of zero-padded cluster images a write produces. */
  function Chunks(data: Bytes): (r: seq<Bytes>)
    ensures |r| == ClustersFor(|data|)
    ensures forall i :: 0 <= i < |r| ==> |r[i]| == CLUSTER_SIZE
  {
    if |data| == 0 then []
    else if |data| <= CLUSTER_SIZE then [data + Zeros(CLUSTER_SIZE - |data|)]
    else [data[..CLUSTER_SIZE]] + Chunks(data[CLUSTER_SIZE..])
  }

  function PutData(st: Store, c: nat, block: Bytes): Store
    requires c < |st.data|
  {
    st.(data := st.data[c := block])
  }

  /** The write loop: overwrite the chain from `current`, extending it one allocation at a
      time, and end it after the last cluster written. False when the disk fills up. */
  function WriteChunks(L: Layout, st: Store, current: nat, chunks: seq<Bytes>, level: nat): (r: (Store, bool))
    requires Shaped(L, st) && LinksInRange(L, st.flat) && 0 < current < L.totalClusters
    requires |chunks| > 0
    ensures Shaped(L, r.0)
    decreases |chunks|
  {
    var st1 := PutData(st, current, chunks[0]);
    var next := NextOf(L, st1.flat, current);
    if |chunks| == 1 then (SetLink(L, st1, current, LAT_END), true)
    else if next == LAT_END || next == 0 then
      var (st2, c) := Allocate(L, st1, level);
      if c == 0 then (SetLink(L, st2, current, LAT_END), false)
      else WriteChunks(L, SetLink(L, st2, current, c), c, chunks[1..], level)
    else
      WriteChunks(L, st1, next, chunks[1..], level)
  }

  /** The clusters that write visits. */
  function WrittenChain(L: Layout, st: Store, current: nat, chunks: seq<Bytes>, level: nat): (r: seq<nat>)
    requires Shaped(L, st) && LinksInRange(L, st.flat) && 0 < current < L.totalClusters
    requires |chunks| > 0
    ensures |r| > 0 && r[0] == current
    decreases |chunks|
  {
    var st1 := PutData(st, current, chunks[0]);
    var next := NextOf(L, st1.flat, current);
    if |chunks| == 1 then [current]
    else if next == LAT_END || next == 0 then
      var (st2, c) := Allocate(L, st1, level);
      if c == 0 then [current]
      else [current] + WrittenChain(L, SetLink(L, st2, current, c), c, chunks[1..], level)
    else
      [current] + WrittenChain(L, st1, next, chunks[1..], level)
  }

  /** The pre-allocation loop of an import: link `n` fresh clusters after `last` and end the
      chain there, dropping whatever `last` linked to. A full disk abandons the loop midway. */
  function Preallocate(L: Layout, st: Store, last: nat, n: nat, level: nat): (r: (Store, seq<nat>, bool))
    requires Shaped(L, st) && last < L.totalClusters
    ensures Shaped(L, r.0)
    decreases n
  {
    if n == 0 then (SetLink(L, st, last, LAT_END), [], true)
    else
      var (st1, c) := Allocate(L, st, level);
      if c == 0 then (st1, [], false)
      else
        var r := Preallocate(L, SetLink(L, st1, last, c), c, n - 1, level);
        (r.0, [c] + r.1, r.2)
  }

  /** Read along a chain until `remaining` bytes are collected. */
  function ReadAlong(data: seq<Bytes>, chain: seq<nat>, remaining: nat): Bytes
    requires forall i :: 0 <= i < |chain| ==> chain[i] < |data| && |data[chain[i]]| == CLUSTER_SIZE
    decreases |chain|
  {
    if |chain| == 0 || remaining == 0 then []
    else
      var n := if remaining < CLUSTER_SIZE then remaining else CLUSTER_SIZE;
      data[chain[0]][..n] + ReadAlong(data, chain[1..], remaining - n)
  }
}
