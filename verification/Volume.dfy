/**
 * The mounted volume: superblock counters and one array of clusters holding the LIT, the LAB
 * pool and the file data. Each method takes the same steps as the LevelFS function it is named
 * after; its contract ties the new state to the allocation map of ClusterMap.dfy, which the
 * two-level table represents.
 */
module Volumes {
  import opened DiskLayout
  import opened ClusterMap
  import opened ChainStore
  import opened FileStore

  datatype LitEntry = LitEntry(labCluster: nat, baseCluster: nat, allocatedCount: nat, flags: nat)

  const EMPTY_LIT := LitEntry(0, 0, 0, 0)

  /** What a cluster holds: raw bytes, 170 LIT entries, or 256 LAB entries. */
  datatype Block =
    | Data(bytes: Bytes)
    | Lit(entries: seq<LitEntry>)
    | Lab(labs: seq<LabEntry>)

  /* ---------- The table as a value ---------- */

  predicate LitShape(L: Layout, d: seq<Block>) {
    && |d| == L.totalClusters
    && L.litStartCluster + L.litClusters <= |d|
    && forall k :: L.litStartCluster <= k < L.litStartCluster + L.litClusters ==>
         d[k].Lit? && |d[k].entries| == LIT_SLOTS
  }

  function LitAt(L: Layout, d: seq<Block>, slot: nat): LitEntry
    requires LitShape(L, d) && slot < L.LitCapacity()
  {
    d[L.litStartCluster + slot / 170].entries[slot % 170]
  }

  /** The LIT as one sequence of entries. */
  function LitView(L: Layout, d: seq<Block>): (lit: seq<LitEntry>)
    requires LitShape(L, d)
    ensures |lit| == L.LitCapacity()
  {
    seq(L.LitCapacity(), slot requires 0 <= slot < L.LitCapacity() => LitAt(L, d, slot))
  }

  /** The metadata regions lie below the usable clusters, in this order. */
  predicate Zoned(L: Layout) {
    && Addressable(L)
    && L.litStartCluster == 1 && L.litStartCluster + L.litClusters == L.labPoolStart
    && L.labPoolClusters == L.Groups() && L.labPoolStart + L.labPoolClusters < L.totalClusters
  }

  lemma FormatZoned(L: Layout)
    requires WellFormed(L)
    ensures Zoned(L)
  {
  }

  predicate IsLab(b: Block) {
    b.Lab? && |b.labs| == LAB_ENTRIES
  }

  /** The LIT records exactly the materialised groups and their counts. */
  ghost predicate SlotsOk(L: Layout, lit: seq<LitEntry>, mat: set<nat>, counts: seq<nat>) {
    && |lit| == |counts|
    && (forall g :: g in mat ==> g < L.Groups() && g < |lit|)
    && (forall s :: 0 <= s < |lit| ==>
          && lit[s].allocatedCount == counts[s]
          && (lit[s].labCluster != 0 <==> s in mat)
          && (s in mat ==> lit[s].baseCluster == 256 * s)
          && (s !in mat ==> counts[s] == 0))
  }

  /** Every materialised group has a LAB among the first `used` clusters of the pool ... */
  ghost predicate LabsOk(L: Layout, lit: seq<LitEntry>, d: seq<Block>, used: nat, mat: set<nat>) {
    forall s :: 0 <= s < |lit| && s in mat ==>
      && L.labPoolStart <= lit[s].labCluster < L.labPoolStart + used
      && lit[s].labCluster < |d| && IsLab(d[lit[s].labCluster])
  }

  /** ... and shares it with no other group. */
  ghost predicate LabsApart(lit: seq<LitEntry>, mat: set<nat>) {
    forall s, t :: 0 <= s < |lit| && 0 <= t < |lit| && s in mat && t in mat && s != t ==>
      lit[s].labCluster != lit[t].labCluster
  }

  /** `used` counts exactly the materialised groups. */
  ghost predicate LitOk(L: Layout, lit: seq<LitEntry>, d: seq<Block>, used: nat, st: Store) {
    && |d| == L.totalClusters && used == |st.mat|
    && SlotsOk(L, lit, st.mat, st.counts) && LabsOk(L, lit, d, used, st.mat) && LabsApart(lit, st.mat)
  }

  /** The entry the two-level lookup finds. */
  function Lookup(lit: seq<LitEntry>, d: seq<Block>, c: nat): LabEntry
    requires GroupOf(c) < |lit|
  {
    var lab := lit[GroupOf(c)].labCluster;
    if lab == 0 || lab >= |d| || !IsLab(d[lab]) then FREE_ENTRY
    else d[lab].labs[OffsetIn(c)]
  }

  lemma GroupInLit(L: Layout, c: nat)
    requires Zoned(L) && c < L.totalClusters
    ensures GroupOf(c) < L.Groups() <= L.LitCapacity()
  {
  }

  ghost predicate EntriesOk(L: Layout, lit: seq<LitEntry>, d: seq<Block>, flat: seq<LabEntry>) {
    && |flat| == L.totalClusters
    && forall c {:trigger flat[c]} :: 0 <= c < |flat| ==>
         GroupOf(c) < |lit| && flat[c] == Lookup(lit, d, c)
  }

  ghost predicate DataOk(L: Layout, d: seq<Block>, data: seq<Bytes>) {
    && |d| == |data| == L.totalClusters
    && (forall c :: 0 <= c < |data| ==> |data[c]| == CLUSTER_SIZE)
    && forall c :: 0 <= c < |data| && !L.Reserved(c) ==> d[c] == Data(data[c])
  }

  ghost predicate Represents(L: Layout, d: seq<Block>, used: nat, st: Store) {
    && Zoned(L) && Shaped(L, st) && LitShape(L, d)
    && LitOk(L, LitView(L, d), d, used, st)
    && EntriesOk(L, LitView(L, d), d, st.flat)
    && DataOk(L, d, st.data)
  }

  lemma MetadataReserved(L: Layout)
    requires Zoned(L)
    ensures forall c :: 1 <= c < L.labPoolStart + L.labPoolClusters ==> L.Reserved(c)
  {
  }

  lemma {:induction false} SubsetOfRange(s: set<nat>, n: nat)
    requires forall k :: k in s ==> k < n
    ensures |s| <= n
    decreases n
  {
    if n > 0 {
      SubsetOfRange(s - {n - 1}, n - 1);
    } else {
      assert s == {};
    }
  }

  /** The pool can never overflow: the LABs handed out are at most as many as it has, and
      strictly fewer while some group still has none. */
  lemma PoolNeverOverflows(L: Layout, d: seq<Block>, used: nat, st: Store)
    requires Represents(L, d, used, st)
    ensures used <= L.labPoolClusters
    ensures (exists g :: 0 <= g < L.Groups() && g !in st.mat) ==> used < L.labPoolClusters
  {
    SubsetOfRange(st.mat, L.Groups());
    if g :| 0 <= g < L.Groups() && g !in st.mat {
      SubsetOfRange(st.mat + {g}, L.Groups());
    }
  }

  /* ---------- The four ways the code changes a block ---------- */

  const FRESH_LAB := seq(LAB_ENTRIES, i => FREE_ENTRY)

  function WithLit(L: Layout, d: seq<Block>, slot: nat, e: LitEntry): seq<Block>
    requires LitShape(L, d) && slot < L.LitCapacity()
  {
    var k := L.litStartCluster + slot / 170;
    d[k := Lit(d[k].entries[slot % 170 := e])]
  }

  lemma WithLitView(L: Layout, d: seq<Block>, slot: nat, e: LitEntry)
    requires LitShape(L, d) && slot < L.LitCapacity()
    ensures LitShape(L, WithLit(L, d, slot, e))
    ensures LitView(L, WithLit(L, d, slot, e)) == LitView(L, d)[slot := e]
  {
    forall s | 0 <= s < L.LitCapacity()
      ensures LitAt(L, WithLit(L, d, slot, e), s) == if s == slot then e else LitAt(L, d, s)
    {
      assert s != slot ==> s / 170 != slot / 170 || s % 170 != slot % 170;
    }
  }

  lemma LitViewFrame(L: Layout, d: seq<Block>, k: nat, b: Block)
    requires LitShape(L, d) && k < |d|
    requires k < L.litStartCluster || k >= L.litStartCluster + L.litClusters
    ensures LitShape(L, d[k := b]) && LitView(L, d[k := b]) == LitView(L, d)
  {
    assert forall s :: 0 <= s < L.LitCapacity() ==> LitAt(L, d[k := b], s) == LitAt(L, d, s);
  }

  lemma EntriesFrame(L: Layout, lit: seq<LitEntry>, d: seq<Block>, d': seq<Block>, used: nat, st: Store)
    requires Zoned(L) && |d'| == |d| && LitOk(L, lit, d, used, st) && EntriesOk(L, lit, d, st.flat)
    requires forall s :: 0 <= s < |lit| && s in st.mat ==> d'[lit[s].labCluster] == d[lit[s].labCluster]
    ensures EntriesOk(L, lit, d', st.flat)
  {
    forall c | 0 <= c < |st.flat|
      ensures GroupOf(c) < |lit| && st.flat[c] == Lookup(lit, d', c)
    {
      var was := st.flat[c];
      assert was == Lookup(lit, d, c);
    }
  }

  /** Changing a LIT cluster leaves the LABs and the data where they were. */
  lemma LitBlocksFrame(L: Layout, lit: seq<LitEntry>, d: seq<Block>, d': seq<Block>, used: nat, st: Store)
    requires Zoned(L) && |d'| == |d| && LitOk(L, lit, d, used, st) && DataOk(L, d, st.data)
    requires EntriesOk(L, lit, d, st.flat)
    requires forall k :: L.labPoolStart <= k < |d| ==> d'[k] == d[k]
    ensures LitOk(L, lit, d', used, st) && DataOk(L, d', st.data) && EntriesOk(L, lit, d', st.flat)
  {
    MetadataReserved(L);
    EntriesFrame(L, lit, d, d', used, st);
  }

  lemma DataFrame(L: Layout, d: seq<Block>, data: seq<Bytes>, k: nat, b: Block)
    requires DataOk(L, d, data) && k < |d| && L.Reserved(k)
    ensures DataOk(L, d[k := b], data)
  {
  }

  /** A fresh LAB in the next pool cluster, before the LIT points to it. */
  lemma SpareLab(L: Layout, d: seq<Block>, used: nat, st: Store)
    requires Represents(L, d, used, st) && used < L.labPoolClusters
    ensures L.labPoolStart + used < |d|
    ensures Represents(L, d[L.labPoolStart + used := Lab(FRESH_LAB)], used, st)
  {
    var lab, lit := L.labPoolStart + used, LitView(L, d);
    MetadataReserved(L);
    LitViewFrame(L, d, lab, Lab(FRESH_LAB));
    DataFrame(L, d, st.data, lab, Lab(FRESH_LAB));
    LabSwap(L, lit, d, used, st, lab, Lab(FRESH_LAB));
    EntriesFrame(L, lit, d, d[lab := Lab(FRESH_LAB)], used, st);
  }

  lemma LinkSlot(L: Layout, lit: seq<LitEntry>, mat: set<nat>, counts: seq<nat>, g: nat, e: LitEntry)
    requires SlotsOk(L, lit, mat, counts) && g < L.Groups() && g < |lit| && g !in mat
    requires 0 < e.labCluster && e.allocatedCount == 0 && e.baseCluster == 256 * g
    ensures SlotsOk(L, lit[g := e], mat + {g}, counts)
  {
  }

  lemma LinkApart(L: Layout, lit: seq<LitEntry>, d: seq<Block>, used: nat, mat: set<nat>, g: nat, e: LitEntry)
    requires LabsOk(L, lit, d, used, mat) && LabsApart(lit, mat) && g < |lit|
    requires e.labCluster == L.labPoolStart + used < |d| && IsLab(d[e.labCluster])
    ensures LabsOk(L, lit[g := e], d, used + 1, mat + {g}) && LabsApart(lit[g := e], mat + {g})
  {
  }

  lemma LinkEntries(L: Layout, lit: seq<LitEntry>, d: seq<Block>, used: nat, st: Store, g: nat, e: LitEntry)
    requires LitOk(L, lit, d, used, st) && EntriesOk(L, lit, d, st.flat)
    requires g < |lit| && g !in st.mat && e.labCluster < |d| && d[e.labCluster] == Lab(FRESH_LAB)
    ensures EntriesOk(L, lit[g := e], d, st.flat)
  {
    forall c | 0 <= c < |st.flat|
      ensures GroupOf(c) < |lit| && st.flat[c] == Lookup(lit[g := e], d, c)
    {
      var was := st.flat[c];
      assert was == Lookup(lit, d, c);
    }
  }

  /** The LIT entry that materialises group `g`. */
  lemma LinkLab(L: Layout, d: seq<Block>, used: nat, st: Store, g: nat, e: LitEntry)
    requires Represents(L, d, used, st) && used < L.labPoolClusters && g < L.Groups() && g !in st.mat
    requires e.labCluster == L.labPoolStart + used && e.allocatedCount == 0 && e.baseCluster == 256 * g
    requires e.labCluster < |d| && d[e.labCluster] == Lab(FRESH_LAB)
    ensures g < L.LitCapacity()
    ensures Represents(L, WithLit(L, d, g, e), used + 1, st.(mat := st.mat + {g}))
  {
    hide SlotsOk, LabsOk, LabsApart, EntriesOk, DataOk, LitView;
    var lit := LitView(L, d);
    var d', st' := WithLit(L, d, g, e), st.(mat := st.mat + {g});
    WithLitView(L, d, g, e);
    LinkSlot(L, lit, st.mat, st.counts, g, e);
    LinkApart(L, lit, d, used, st.mat, g, e);
    LinkEntries(L, lit, d, used, st, g, e);
    assert |st.mat + {g}| == used + 1;
    LitBlocksFrame(L, lit[g := e], d, d', used + 1, st');
  }

  lemma SetInLabEntries(L: Layout, lit: seq<LitEntry>, d: seq<Block>, used: nat, st: Store, c: nat, e: LabEntry)
    requires Zoned(L) && LitOk(L, lit, d, used, st) && EntriesOk(L, lit, d, st.flat)
    requires c < L.totalClusters && GroupOf(c) < |lit| && GroupOf(c) in st.mat
    ensures var lab := lit[GroupOf(c)].labCluster;
            && lab < |d| && IsLab(d[lab])
            && EntriesOk(L, lit, d[lab := Lab(d[lab].labs[OffsetIn(c) := e])],
                         st.flat[c := e])
  {
    var g := GroupOf(c);
    var lab := lit[g].labCluster;
    var d' := d[lab := Lab(d[lab].labs[OffsetIn(c) := e])];
    var flat' := st.flat[c := e];
    forall k | 0 <= k < |flat'|
      ensures GroupOf(k) < |lit| && flat'[k] == Lookup(lit, d', k)
    {
      var was := st.flat[k];
      assert was == Lookup(lit, d, k);
      assert k != c && GroupOf(k) == g ==>
               OffsetIn(k) != OffsetIn(c);
    }
  }

  /** A materialised group's LAB is a reserved cluster outside the LIT. */
  lemma LabPlace(L: Layout, d: seq<Block>, used: nat, st: Store, g: nat)
    requires Represents(L, d, used, st) && g in st.mat
    ensures g < |LitView(L, d)|
    ensures var lab := LitView(L, d)[g].labCluster;
            L.labPoolStart <= lab < L.labPoolStart + L.labPoolClusters && lab < |d| && IsLab(d[lab]) && L.Reserved(lab)
  {
    PoolNeverOverflows(L, d, used, st);
    MetadataReserved(L);
  }

  /** An entry written in the LAB of its group. */
  lemma SetInLab(L: Layout, d: seq<Block>, used: nat, st: Store, c: nat, e: LabEntry)
    requires Represents(L, d, used, st) && c < L.totalClusters && GroupOf(c) in st.mat
    ensures GroupOf(c) < |LitView(L, d)|
    ensures var lab := LitView(L, d)[GroupOf(c)].labCluster;
            && lab < |d| && IsLab(d[lab])
            && Represents(L, d[lab := Lab(d[lab].labs[OffsetIn(c) := e])], used, SetEntry(L, st, c, e))
  {
    hide SlotsOk, LabsOk, LabsApart, EntriesOk, DataOk, LitView;
    var g := GroupOf(c);
    LabPlace(L, d, used, st, g);
    var lit := LitView(L, d);
    var lab := lit[g].labCluster;
    SetInLabEntries(L, lit, d, used, st, c, e);
    var b := Lab(d[lab].labs[OffsetIn(c) := e]);
    LitViewFrame(L, d, lab, b);
    DataFrame(L, d, st.data, lab, b);
    var st' := SetEntry(L, st, c, e);
    assert st'.mat == st.mat;
    LabSwap(L, lit, d, used, st, lab, b);
    LitOkDepends(L, lit, d[lab := b], used, st, st');
  }

  /** LitOk looks only at the materialised groups and the counts of the store. */
  lemma LitOkDepends(L: Layout, lit: seq<LitEntry>, d: seq<Block>, used: nat, st: Store, st': Store)
    requires LitOk(L, lit, d, used, st) && st'.mat == st.mat && st'.counts == st.counts
    ensures LitOk(L, lit, d, used, st')
  {
  }

  lemma LabSwap(L: Layout, lit: seq<LitEntry>, d: seq<Block>, used: nat, st: Store, lab: nat, b: Block)
    requires LitOk(L, lit, d, used, st) && lab < |d| && IsLab(b)
    ensures LitOk(L, lit, d[lab := b], used, st)
  {
  }

  /** A new count in a materialised LIT entry. */
  lemma SetCount(L: Layout, d: seq<Block>, used: nat, st: Store, slot: nat, n: nat)
    requires Represents(L, d, used, st) && slot < |st.counts| && slot in st.mat
    ensures Represents(L, WithLit(L, d, slot, LitAt(L, d, slot).(allocatedCount := n)), used,
                       st.(counts := st.counts[slot := n]))
  {
    var lit := LitView(L, d);
    var e := LitAt(L, d, slot).(allocatedCount := n);
    WithLitView(L, d, slot, e);
    var d' := WithLit(L, d, slot, e);
    LitBlocksFrame(L, lit, d, d', used, st);
    SetCountLit(L, lit, d', used, st, slot, e);
  }

  lemma SetCountLit(L: Layout, lit: seq<LitEntry>, d: seq<Block>, used: nat, st: Store, slot: nat, e: LitEntry)
    requires LitOk(L, lit, d, used, st) && EntriesOk(L, lit, d, st.flat)
    requires slot < |lit| && slot in st.mat
    requires e.labCluster == lit[slot].labCluster && e.baseCluster == lit[slot].baseCluster
    ensures LitOk(L, lit[slot := e], d, used, st.(counts := st.counts[slot := e.allocatedCount]))
    ensures EntriesOk(L, lit[slot := e], d, st.flat)
  {
    forall c | 0 <= c < |st.flat|
      ensures GroupOf(c) < |lit| && st.flat[c] == Lookup(lit[slot := e], d, c)
    {
      var was := st.flat[c];
      assert was == Lookup(lit, d, c);
    }
  }

  /** File data in a usable cluster: no metadata can be hit. */
  lemma SetData(L: Layout, d: seq<Block>, used: nat, st: Store, c: nat, bytes: Bytes)
    requires Represents(L, d, used, st) && c < L.totalClusters && !L.Reserved(c) && |bytes| == CLUSTER_SIZE
    ensures Represents(L, d[c := Data(bytes)], used, PutData(st, c, bytes))
  {
    PoolNeverOverflows(L, d, used, st);
    MetadataReserved(L);
    var d' := d[c := Data(bytes)];
    LitViewFrame(L, d, c, Data(bytes));
    EntriesFrame(L, LitView(L, d), d, d', used, st);
  }

  /** The table does not depend on the allocator's counters. */
  lemma CountersApart(L: Layout, d: seq<Block>, used: nat, st: Store, hint: nat, free: int)
    requires Represents(L, d, used, st)
    ensures Represents(L, d, used, st.(hint := hint, free := free))
  {
    hide SlotsOk, LabsOk, LabsApart, EntriesOk, DataOk;
  }

  lemma RepresentsShaped(L: Layout, d: seq<Block>, used: nat, st: Store)
    requires Represents(L, d, used, st)
    ensures Shaped(L, st) && |d| == L.totalClusters > 0 && Zoned(L)
  {
  }

  lemma RepresentsFull(L: Layout, d: seq<Block>, used: nat, st: Store)
    requires Represents(L, d, used, st)
    ensures Shaped(L, st) && |d| == L.totalClusters && Addressable(L) && FullBlocks(st)
    ensures forall c :: 0 <= c < |d| && !L.Reserved(c) ==> d[c] == Data(st.data[c])
  {
  }

  /* ---------- The mounted volume ---------- */

  /** A scan that found nothing free from the hint up to `c` has found the next fit. */
  lemma NextFitIs(L: Layout, flat: seq<LabEntry>, hint: nat, c: nat)
    requires |flat| == L.totalClusters > 0 && FreeAt(L, flat, c) && c > 0
    requires forall k :: ScanStart(hint) <= k < (if c < ScanStart(hint) then L.totalClusters else c) ==>
               !FreeAt(L, flat, k)
    requires c < ScanStart(hint) ==> forall k :: 0 <= k < c ==> !FreeAt(L, flat, k)
    ensures NextFit(L, flat, hint) == c
  {
  }

  lemma SkipNotFree(L: Layout, flat: seq<LabEntry>, c: nat)
    ensures forall k :: c <= k < L.SkipPastReserved(c) ==> !FreeAt(L, flat, k)
  {
  }

  /** One step of the chain walk. */
  lemma WalkStep(L: Layout, flat: seq<LabEntry>, chain: seq<nat>)
    requires |flat| == L.totalClusters && 0 < |chain| <= CHAIN_CAP && InRange(L, chain)
    ensures var current := NextOf(L, flat, chain[|chain| - 1]);
            if Continues(L, chain, current) then
              InRange(L, chain + [current]) && WalkFrom(L, flat, chain) == WalkFrom(L, flat, chain + [current])
            else WalkFrom(L, flat, chain) == chain
  {
  }

  lemma AllocateCases(L: Layout, st: Store, level: nat)
    requires Shaped(L, st) && L.totalClusters > 0
    ensures var c := NextFit(L, st.flat, st.hint);
            && (c == 0 ==> Allocate(L, st, level) == (st, 0))
            && (c != 0 ==>
                  Allocate(L, st, level) ==
                  (Bump(L, SetEntry(L, st, c, USED_ENTRY.(level := level)), c, 1).(hint := c + 1, free := st.free - 1), c))
  {
  }

  /* ---------- One iteration of the write loop, against the specification ---------- */

  lemma FirstChunk(data: Bytes, offset: nat, buffer: Bytes)
    requires offset < |data|
    requires var chunk := if |data| - offset < CLUSTER_SIZE then |data| - offset else CLUSTER_SIZE;
             buffer == data[offset..offset + chunk] + Zeros(CLUSTER_SIZE - chunk)
    ensures var chunks := Chunks(data[offset..]);
            && |chunks| > 0 && chunks[0] == buffer && |buffer| == CLUSTER_SIZE
            && (|chunks| == 1 <==> offset + CLUSTER_SIZE >= |data|)
            && (|chunks| > 1 ==> chunks[1..] == Chunks(data[offset + CLUSTER_SIZE..]))
  {
    var rest := data[offset..];
    if |rest| <= CLUSTER_SIZE {
      assert data[offset..offset + |rest|] == rest;
      assert |rest| == CLUSTER_SIZE ==> rest + Zeros(0) == rest;
    } else {
      assert buffer == rest[..CLUSTER_SIZE];
      assert rest[CLUSTER_SIZE..] == data[offset + CLUSTER_SIZE..];
    }
  }

  /** What the write visits, cluster by cluster: the first one, then the rest of the loop. */
  lemma WriteStep(L: Layout, st: Store, current: nat, chunks: seq<Bytes>, level: nat)
    requires Shaped(L, st) && LinksInRange(L, st.flat) && 0 < current < L.totalClusters && |chunks| > 0
    ensures WrittenChain(L, st, current, chunks, level)[0] == current
    ensures var st1 := PutData(st, current, chunks[0]);
            && Shaped(L, st1)
            && (|chunks| == 1 ==> WriteChunks(L, st, current, chunks, level) == (SetLink(L, st1, current, LAT_END), true))
            && (|chunks| > 1 ==>
                  var next := NextOf(L, st.flat, current);
                  if next != LAT_END && next != 0 then
                    && 0 < next < L.totalClusters
                    && Rest(L, st, current, chunks, level, st1, next)
                  else
                    var (st2, c) := Allocate(L, st1, level);
                    if c == 0 then WriteChunks(L, st, current, chunks, level) == (SetLink(L, st2, current, LAT_END), false)
                    else Rest(L, st, current, chunks, level, SetLink(L, st2, current, c), c))
  {
    NextInRange(L, st.flat, current);
  }

  /** The loop goes on from `next` in `st1`. */
  predicate Rest(L: Layout, st: Store, current: nat, chunks: seq<Bytes>, level: nat, st1: Store, next: nat)
    requires Shaped(L, st) && LinksInRange(L, st.flat) && 0 < current < L.totalClusters && |chunks| > 1
  {
    && Shaped(L, st1) && LinksInRange(L, st1.flat) && 0 < next < L.totalClusters
    && WriteChunks(L, st, current, chunks, level) == WriteChunks(L, st1, next, chunks[1..], level)
    && WrittenChain(L, st, current, chunks, level) == [current] + WrittenChain(L, st1, next, chunks[1..], level)
  }

  predicate AllUsable(L: Layout, w: seq<nat>) {
    forall i :: 0 <= i < |w| ==> !L.Reserved(w[i])
  }

  lemma FirstUsable(L: Layout, w: seq<nat>)
    requires AllUsable(L, w) && |w| > 0
    ensures !L.Reserved(w[0])
  {
  }

  lemma UsableTail(L: Layout, x: nat, w: seq<nat>)
    requires AllUsable(L, [x] + w)
    ensures !L.Reserved(x) && AllUsable(L, w)
  {
    assert ([x] + w)[0] == x && forall i :: 0 <= i < |w| ==> ([x] + w)[i + 1] == w[i];
  }

  /* ---------- Reading ---------- */

  /** Every cluster packs into one cluster of bytes, and file data packs as it is. */
  predicate Packs(raw: Block -> Bytes, d: seq<Block>) {
    forall c :: 0 <= c < |d| ==> |raw(d[c])| == CLUSTER_SIZE && (d[c].Data? ==> raw(d[c]) == d[c].bytes)
  }

  function Packed(raw: Block -> Bytes, d: seq<Block>): (r: seq<Bytes>)
    requires Packs(raw, d)
    ensures |r| == |d| && forall c :: 0 <= c < |r| ==> |r[c]| == CLUSTER_SIZE
  {
    seq(|d|, c requires 0 <= c < |d| => raw(d[c]))
  }

  lemma ReadOne(data: seq<Bytes>, chain: seq<nat>, i: nat, remaining: nat)
    requires forall k :: 0 <= k < |chain| ==> chain[k] < |data| && |data[chain[k]]| == CLUSTER_SIZE
    requires i < |chain| && remaining > 0
    ensures var n := if remaining < CLUSTER_SIZE then remaining else CLUSTER_SIZE;
            ReadAlong(data, chain[i..], remaining)
            == data[chain[i]][..n] + ReadAlong(data, chain[i + 1..], remaining - n)
  {
    assert chain[i..][0] == chain[i] && chain[i..][1..] == chain[i + 1..];
  }

  /** Along usable clusters only file data is read. */
  lemma {:induction false} PackedUsable(L: Layout, d: seq<Block>, data: seq<Bytes>, chain: seq<nat>, size: nat,
                                        raw: Block -> Bytes)
    requires |d| == |data| == L.totalClusters && Packs(raw, d)
    requires forall c :: 0 <= c < |data| ==> |data[c]| == CLUSTER_SIZE
    requires forall c :: 0 <= c < |d| && !L.Reserved(c) ==> d[c] == Data(data[c])
    requires forall i :: 0 <= i < |chain| ==> chain[i] < |d| && !L.Reserved(chain[i])
    ensures ReadAlong(Packed(raw, d), chain, size) == ReadAlong(data, chain, size)
    decreases |chain|
  {
    if |chain| > 0 && size > 0 {
      assert Packed(raw, d)[chain[0]] == data[chain[0]];
      PackedUsable(L, d, data, chain[1..], if size < CLUSTER_SIZE then 0 else size - CLUSTER_SIZE, raw);
    }
  }

  class Volume {
    const sb: Layout
    const disk: array<Block>
    var nextFreeLAB: nat
    var freeClusterHint: nat
    var totalFreeClusters: int
    ghost var store: Store

    ghost predicate Valid()
      reads this, disk
    {
      && Represents(sb, disk[..], nextFreeLAB, store)
      && freeClusterHint == store.hint && totalFreeClusters == store.free
    }

    /** Format a raw image. Every usable cluster comes out free, although only the LIT and the
        first sixteen LABs are initialised. */
    constructor Format(image: array<Block>, diskSizeBytes: nat)
      requires diskSizeBytes < 0x1_0000_0000_0000_0000
      requires image.Length == diskSizeBytes / 512 / 8 > 0
      requires WellFormed(FormatLayout(image.Length))
      requires forall i :: 0 <= i < image.Length ==> image[i].Data? && |image[i].bytes| == CLUSTER_SIZE
      modifies image
      ensures Valid() && disk == image && sb == FormatLayout(image.Length)
      ensures store == FormattedStore(sb, old(RawBytes(image[..])))
      ensures var labs := if sb.labPoolClusters < 16 then sb.labPoolClusters else 16;
              forall k :: 0 <= k < image.Length ==>
                disk[k] == if 1 <= k < sb.labPoolStart then Lit(seq(170, i => LitEntry(0, 0, 0, 0)))
                           else if sb.labPoolStart <= k < sb.labPoolStart + labs then Lab(seq(256, i => LabEntry(0, 0, 0, 0)))
                           else old(image[k])
    {
      var layout := FormatLayout(image.Length);
      sb := layout;
      disk := image;
      nextFreeLAB := 0;
      freeClusterHint := layout.rootDirCluster + 2;
      totalFreeClusters := layout.totalClusters - (layout.rootDirCluster + 2) - 1;
      store := FormattedStore(layout, RawBytes(image[..]));
      new;
      ghost var raw := image[..];
      FormatZoned(layout);
      MetadataReserved(layout);
      hide FormatLayout, Layout.Reserved, WellFormed;
      Fill(image, layout.litStartCluster, layout.litClusters, Lit(seq(LIT_SLOTS, i => EMPTY_LIT)));
      Fill(image, layout.labPoolStart,
           if layout.labPoolClusters < 16 then layout.labPoolClusters else 16, Lab(FRESH_LAB));
      FormattedRepresents(layout, raw, image[..], store);
    }

    /** Initialise `n` clusters from `start` on. */
    static method Fill(image: array<Block>, start: nat, n: nat, b: Block)
      requires start + n <= image.Length
      modifies image
      ensures forall k :: 0 <= k < image.Length ==> image[k] == if start <= k < start + n then b else old(image[k])
    {
      var c := 0;
      while c < n
        invariant 0 <= c <= n
        invariant forall k :: 0 <= k < image.Length ==> image[k] == if start <= k < start + c then b else old(image[k])
      {
        image[start + c] := b;
        c := c + 1;
      }
    }

    /** getLABEntry */
    method GetLABEntry(cluster: nat) returns (e: LabEntry)
      requires Valid()
      ensures e == EntryOf(sb, store.flat, cluster)
    {
      if cluster == 0 || cluster >= sb.totalClusters {
        return FREE_ENTRY;
      }
      if sb.Reserved(cluster) {
        return FREE_ENTRY.(next := LAT_END);
      }
      LookupIs(sb, disk[..], nextFreeLAB, store, cluster);
      hide LitOk, EntriesOk, DataOk, LitView;
      var litIndex, labOffset := GroupOf(cluster), OffsetIn(cluster);
      var litClusterIdx, litEntryIdx := litIndex / 170, litIndex % 170;
      if sb.litStartCluster + litClusterIdx >= sb.totalClusters {
        return FREE_ENTRY;
      }
      var labCluster := disk[sb.litStartCluster + litClusterIdx].entries[litEntryIdx].labCluster;
      if labCluster == 0 {
        return FREE_ENTRY;
      }
      if labCluster < sb.labPoolStart || labCluster >= sb.labPoolStart + sb.labPoolClusters {
        assert false;
      }
      e := disk[labCluster].labs[labOffset];
    }

    /** getLATEntry */
    method GetLATEntry(cluster: nat) returns (next: nat)
      requires Valid()
      ensures next == NextOf(sb, store.flat, cluster)
    {
      if cluster == 0 || cluster >= sb.totalClusters { return LAT_END; }
      if sb.Reserved(cluster) { return LAT_END; }
      var entry := GetLABEntry(cluster);
      next := entry.next;
    }

    /** The part of setLABEntry that gives a group the next LAB of the pool, unchecked. */
    method MaterialiseLAB(litIndex: nat) returns (labCluster: nat)
      requires Valid() && litIndex < sb.Groups() && litIndex !in store.mat
      modifies this, disk
      ensures Valid() && store == old(store).(mat := old(store).mat + {litIndex})
      ensures labCluster == LitView(sb, disk[..])[litIndex].labCluster
    {
      hide LitOk, EntriesOk, DataOk;
      ghost var d0 := disk[..];
      PoolNeverOverflows(sb, d0, nextFreeLAB, store);
      SpareLab(sb, d0, nextFreeLAB, store);
      labCluster := sb.labPoolStart + nextFreeLAB;
      disk[labCluster] := Lab(FRESH_LAB);
      ghost var d1 := disk[..];
      assert d1 == d0[labCluster := Lab(FRESH_LAB)];
      var e := LitEntry(labCluster, BaseOf(litIndex), 0, 0);
      LinkLab(sb, d1, nextFreeLAB, store, litIndex, e);
      WithLitView(sb, d1, litIndex, e);
      var litCluster := sb.litStartCluster + litIndex / 170;
      disk[litCluster] := Lit(disk[litCluster].entries[litIndex % 170 := e]);
      assert disk[..] == WithLit(sb, d1, litIndex, e);
      nextFreeLAB := nextFreeLAB + 1;
      store := store.(mat := store.mat + {litIndex});
    }

    /** The part of setLABEntry that rewrites the group's LAB. */
    method StoreInLAB(labCluster: nat, cluster: nat, value: LabEntry)
      requires Valid() && cluster < sb.totalClusters && GroupOf(cluster) in store.mat
      requires GroupOf(cluster) < |LitView(sb, disk[..])|
      requires labCluster == LitView(sb, disk[..])[GroupOf(cluster)].labCluster
      modifies this, disk
      ensures Valid() && store == SetEntry(sb, old(store), cluster, value)
    {
      hide LitOk, EntriesOk, DataOk, LitView;
      ghost var d := disk[..];
      SetInLab(sb, d, nextFreeLAB, store, cluster, value);
      disk[labCluster] := Lab(disk[labCluster].labs[OffsetIn(cluster) := value]);
      assert disk[..] == d[labCluster := Lab(d[labCluster].labs[OffsetIn(cluster) := value])];
      store := SetEntry(sb, store, cluster, value);
    }

    /** setLABEntry */
    method SetLABEntry(cluster: nat, value: LabEntry)
      requires Valid() && cluster < sb.totalClusters
      modifies this, disk
      ensures Valid() && store == SetEntry(sb, old(store), cluster, value)
    {
      hide LitOk, EntriesOk, DataOk, LitView;
      var litIndex := GroupOf(cluster);
      GroupInLit(sb, cluster);
      LitEntryAt(sb, disk[..], nextFreeLAB, store, litIndex);
      var labCluster := disk[sb.litStartCluster + litIndex / 170].entries[litIndex % 170].labCluster;
      if labCluster == 0 {
        labCluster := MaterialiseLAB(litIndex);
      } else {
        assert store.mat == store.mat + {litIndex};
      }
      StoreInLAB(labCluster, cluster, value);
    }

    /** setLATEntry */
    method SetLATEntry(cluster: nat, value: nat)
      requires Valid() && cluster < sb.totalClusters
      modifies this, disk
      ensures Valid() && store == SetLink(sb, old(store), cluster, value)
    {
      var entry := GetLABEntry(cluster);
      entry := entry.(next := value);
      if value == LAT_END {
        entry := entry.(flags := OrUsed(entry.flags));
      }
      SetLABEntry(cluster, entry);
    }

    /** Rewrite the count of a LIT entry in its cluster. */
    method StoreCount(slot: nat, n: nat)
      requires Valid() && slot < |store.counts| && slot in store.mat
      modifies disk, `store
      ensures Valid() && store == old(store).(counts := old(store).counts[slot := n])
    {
      hide LitOk, EntriesOk, DataOk, LitView;
      ghost var d := disk[..];
      SetCount(sb, d, nextFreeLAB, store, slot, n);
      var entries := disk[sb.litStartCluster + slot / 170].entries;
      disk[sb.litStartCluster + slot / 170] :=
        Lit(entries[slot % 170 := entries[slot % 170].(allocatedCount := n)]);
      assert disk[..] == WithLit(sb, d, slot, LitAt(sb, d, slot).(allocatedCount := n));
      store := store.(counts := store.counts[slot := n]);
    }

    /** updateLITAllocatedCount: it splits the LIT index at 512, and past slot 170 it would leave
        its 4096-byte buffer, where nothing of the table is touched. */
    method UpdateLITAllocatedCount(cluster: nat, delta: int)
      requires Valid() && (delta == 1 || delta == -1)
      modifies disk, `store
      ensures Valid() && store == Bump(sb, old(store), cluster, delta)
    {
      hide LitOk, EntriesOk, DataOk, LitView;
      var litIndex := GroupOf(cluster);
      var litClusterIdx, litEntryIdx := litIndex / 512, litIndex % 512;
      if litClusterIdx >= sb.litClusters || litEntryIdx >= LIT_SLOTS {
        return;
      }
      var slot := litClusterIdx * 170 + litEntryIdx;
      assert slot / 170 == litClusterIdx && slot % 170 == litEntryIdx && slot < sb.LitCapacity();
      LitEntryAt(sb, disk[..], nextFreeLAB, store, slot);
      var e := disk[sb.litStartCluster + litClusterIdx].entries[litEntryIdx];
      if e.labCluster != 0 && (delta > 0 || e.allocatedCount >= 1) {
        StoreCount(slot, e.allocatedCount + delta);
      }
    }

    /** The step freeCluster and freeChain share: clear one entry and count it as free. */
    method FreeOne(cluster: nat)
      requires Valid() && cluster < sb.totalClusters
      modifies this, disk
      ensures Shaped(sb, old(store))
      ensures Valid() && store == FreeStep(sb, old(store), cluster)
    {
      hide Represents, Bump, SetEntry;
      RepresentsShaped(sb, disk[..], nextFreeLAB, store);
      UpdateLITAllocatedCount(cluster, -1);
      SetLABEntry(cluster, FREE_ENTRY);
      CountersApart(sb, disk[..], nextFreeLAB, store, store.hint, store.free + 1);
      totalFreeClusters := totalFreeClusters + 1;
      store := store.(free := store.free + 1);
    }

    /** freeCluster */
    method FreeClusterAt(cluster: nat)
      requires Valid() && cluster < sb.totalClusters
      modifies this, disk
      ensures Valid() && store == FreeCluster(sb, old(store), cluster)
    {
      hide Represents, SetEntry, Bump;
      RepresentsShaped(sb, disk[..], nextFreeLAB, store);
      if cluster == 0 || sb.Reserved(cluster) {
        return;
      }
      FreeListStep(sb, store, [cluster]);
      FreeOne(cluster);
    }

    /** getChain */
    method GetChain(startCluster: nat) returns (chain: seq<nat>)
      requires Valid()
      ensures chain == ChainOf(sb, store.flat, startCluster)
    {
      hide Represents, WalkFrom;
      RepresentsShaped(sb, disk[..], nextFreeLAB, store);
      if startCluster == 0 || startCluster >= sb.totalClusters { return []; }
      chain := [startCluster];
      if sb.Reserved(startCluster) { return; }
      var current := GetLATEntry(startCluster);
      while current != 0 && current != LAT_END && current != LAT_BAD && current < sb.totalClusters
        invariant 0 < |chain| <= 1_000_000 && InRange(sb, chain)
        invariant current == NextOf(sb, store.flat, chain[|chain| - 1])
        invariant WalkFrom(sb, store.flat, chain) == ChainOf(sb, store.flat, startCluster)
        decreases CHAIN_CAP - |chain|
      {
        WalkStep(sb, store.flat, chain);
        if current in chain { break; }
        chain := chain + [current];
        if |chain| > 1_000_000 {
          WalkStep(sb, store.flat, chain);
          break;
        }
        current := GetLATEntry(current);
      }
      WalkStep(sb, store.flat, chain);
    }

    /** freeChain */
    method FreeChainAt(startCluster: nat)
      requires Valid()
      modifies this, disk
      ensures Valid() && store == FreeChain(sb, old(store), startCluster)
    {
      hide Represents, SetEntry, Bump, WalkFrom;
      RepresentsShaped(sb, disk[..], nextFreeLAB, store);
      if startCluster == 0 || sb.Reserved(startCluster) { return; }
      var chain := GetChain(startCluster);
      var i := 0;
      while i < |chain|
        invariant 0 <= i <= |chain| && Valid() && InRange(sb, chain[i..]) && Shaped(sb, store)
        invariant FreeList(sb, store, chain[i..]) == FreeList(sb, old(store), chain)
      {
        assert chain[i..][0] == chain[i] && chain[i..][1..] == chain[i + 1..];
        FreeListStep(sb, store, chain[i..]);
        FreeOne(chain[i]);
        i := i + 1;
      }
    }

    /** The end of a successful scan: mark the cluster used, count it and move the hint. */
    method TakeCluster(c: nat, levelID: nat)
      requires Valid() && c < sb.totalClusters
      modifies this, disk
      ensures Shaped(sb, old(store))
      ensures Valid() && store == Bump(sb, SetEntry(sb, old(store), c, USED_ENTRY.(level := levelID)), c, 1)
                                  .(hint := c + 1, free := old(store).free - 1)
    {
      hide Represents, Bump, SetEntry;
      RepresentsShaped(sb, disk[..], nextFreeLAB, store);
      SetLABEntry(c, LabEntry(LAT_END, levelID, 1, 1));
      UpdateLITAllocatedCount(c, 1);
      CountersApart(sb, disk[..], nextFreeLAB, store, c + 1, store.free - 1);
      freeClusterHint := c + 1;
      totalFreeClusters := totalFreeClusters - 1;
      store := store.(hint := c + 1, free := store.free - 1);
    }

    /** The test the scan makes of one cluster. */
    method ProbeFree(c: nat) returns (free: bool)
      requires Valid() && 0 < c < sb.totalClusters
      ensures free == FreeAt(sb, store.flat, c)
    {
      hide Represents;
      RepresentsShaped(sb, disk[..], nextFreeLAB, store);
      free := false;
      if !sb.Reserved(c) {
        var entry := GetLABEntry(c);
        free := entry.next == LAT_FREE && entry.flags == 0;
      }
    }

    /** allocClusterForLevel: the wrapping scan ends because it moves forward within each of at
        most two passes. Cluster 0 means no free cluster exists. */
    method AllocClusterForLevel(levelID: nat) returns (cluster: nat)
      requires Valid()
      modifies this, disk
      ensures Valid() && (store, cluster) == Allocate(sb, old(store), levelID)
    {
      hide Represents, NextFit, Allocate, Bump, SetEntry, FreeAt, Layout.Reserved, Layout.SkipPastReserved;
      RepresentsShaped(sb, disk[..], nextFreeLAB, store);
      AllocateCases(sb, store, levelID);
      var c := freeClusterHint;
      if c == 0 { c := 1; }
      var startC := c;
      var wrapped := false;
      while true
        invariant Valid() && store == old(store)
        invariant 1 <= c && startC == ScanStart(store.hint)
        invariant !wrapped ==> startC <= c
        invariant forall k :: startC <= k < (if wrapped then sb.totalClusters else c) && k < sb.totalClusters ==>
                    !FreeAt(sb, store.flat, k)
        invariant wrapped ==> forall k :: 0 <= k < c && k < sb.totalClusters ==> !FreeAt(sb, store.flat, k)
        decreases !wrapped, sb.totalClusters - c
      {
        SkipNotFree(sb, store.flat, c);
        c := sb.SkipPastReserved(c);
        if c >= sb.totalClusters {
          if wrapped { return 0; }
          wrapped := true;
          c := 1;
          continue;
        }
        if wrapped && c >= startC { return 0; }
        var free := ProbeFree(c);
        if free {
          NextFitIs(sb, store.flat, store.hint, c);
          TakeCluster(c, levelID);
          return c;
        }
        c := c + 1;
      }
    }

    /** One cluster of file data, as the eight sector writes leave it. */
    method WriteCluster(cluster: nat, buffer: Bytes)
      requires Valid() && cluster < sb.totalClusters && !sb.Reserved(cluster) && |buffer| == CLUSTER_SIZE
      modifies disk, `store
      ensures Valid() && store == PutData(old(store), cluster, buffer)
    {
      ghost var d := disk[..];
      SetData(sb, d, nextFreeLAB, store, cluster, buffer);
      disk[cluster] := Data(buffer);
      assert disk[..] == d[cluster := Data(buffer)];
      store := PutData(store, cluster, buffer);
    }

    /** The loop of `write`: overwrite, extend, and end the chain. False when the disk fills up
        midway. Only usable clusters may be visited, as on any well-formed chain; the table need
        not be sound otherwise. */
    method WriteFileData(startCluster: nat, data: Bytes, levelID: nat) returns (ok: bool)
      requires Valid() && |data| > 0 && 0 < startCluster < sb.totalClusters
      requires Shaped(sb, store) && LinksInRange(sb, store.flat)
      requires AllUsable(sb, WrittenChain(sb, store, startCluster, Chunks(data), levelID))
      modifies this, disk
      ensures Shaped(sb, old(store)) && LinksInRange(sb, old(store).flat)
      ensures Valid() && (store, ok) == WriteChunks(sb, old(store), startCluster, Chunks(data), levelID)
    {
      hide Represents, LinksInRange, WriteChunks, WrittenChain, AllUsable, Allocate, SetLink, NextOf, Layout.Reserved;
      RepresentsShaped(sb, disk[..], nextFreeLAB, store);
      ghost var result := WriteChunks(sb, store, startCluster, Chunks(data), levelID);
      var current, offset := startCluster, 0;
      assert data[0..] == data;
      while true
        invariant Valid() && 0 <= offset < |data|
        invariant Shaped(sb, store) && LinksInRange(sb, store.flat) && 0 < current < sb.totalClusters
        invariant AllUsable(sb, WrittenChain(sb, store, current, Chunks(data[offset..]), levelID))
        invariant WriteChunks(sb, store, current, Chunks(data[offset..]), levelID) == result
        decreases |data| - offset
      {
        ghost var st0, chunks := store, Chunks(data[offset..]);
        var chunk := if |data| - offset < CLUSTER_SIZE then |data| - offset else CLUSTER_SIZE;
        var buffer := data[offset..offset + chunk] + Zeros(CLUSTER_SIZE - chunk);
        FirstChunk(data, offset, buffer);
        WriteStep(sb, st0, current, chunks, levelID);
        FirstUsable(sb, WrittenChain(sb, st0, current, chunks, levelID));
        WriteCluster(current, buffer);
        offset := offset + chunk;
        if offset >= |data| {
          SetLATEntry(current, LAT_END);
          return true;
        }
        var next := GetLATEntry(current);
        if next == LAT_END || next == 0 {
          next := AllocClusterForLevel(levelID);
          if next == 0 {
            SetLATEntry(current, LAT_END);
            return false;
          }
          SetLATEntry(current, next);
        }
        assert Rest(sb, st0, current, chunks, levelID, store, next);
        UsableTail(sb, current, WrittenChain(sb, store, next, chunks[1..], levelID));
        current := next;
      }
    }

    /** The read loop: collect `size` bytes from the clusters of a chain in order, metadata or
        not. */
    method ReadClusters(chain: seq<nat>, size: nat, raw: Block -> Bytes) returns (content: Bytes)
      requires Packs(raw, disk[..]) && forall i :: 0 <= i < |chain| ==> chain[i] < disk.Length
      ensures content == ReadAlong(Packed(raw, disk[..]), chain, size)
    {
      ghost var data := Packed(raw, disk[..]);
      assert forall c :: 0 <= c < disk.Length ==> data[c] == raw(disk[c]);
      hide Packs, Packed;
      content := [];
      var remaining, i := size, 0;
      assert chain[0..] == chain;
      while i < |chain|
        invariant 0 <= i <= |chain| && remaining >= 0
        invariant content + ReadAlong(data, chain[i..], remaining) == ReadAlong(data, chain, size)
      {
        if remaining == 0 { break; }
        ReadOne(data, chain, i, remaining);
        var toRead := if remaining < CLUSTER_SIZE then remaining else CLUSTER_SIZE;
        content := content + raw(disk[chain[i]])[..toRead];
        remaining := remaining - toRead;
        i := i + 1;
      }
    }

    /** readFileContent on any entry of any table; on one whose chain is well formed it is the
        file. `raw` says how the records of metadata clusters are packed into bytes. */
    method ReadFileData(startCluster: nat, size: nat, raw: Block -> Bytes) returns (content: Bytes)
      requires Valid() && Packs(raw, disk[..])
      ensures Shaped(sb, store) && FullBlocks(store)
      ensures content == ReadAlong(Packed(raw, disk[..]), ChainOf(sb, store.flat, startCluster), size)
      ensures (forall i :: 0 <= i < |ChainOf(sb, store.flat, startCluster)| ==>
                 !sb.Reserved(ChainOf(sb, store.flat, startCluster)[i])) ==>
                content == ReadFile(sb, store, startCluster, size)
    {
      RepresentsFull(sb, disk[..], nextFreeLAB, store);
      hide Represents, ChainOf, Packs;
      var chain := GetChain(startCluster);
      content := ReadClusters(chain, size, raw);
      if forall i :: 0 <= i < |chain| ==> !sb.Reserved(chain[i]) {
        PackedUsable(sb, disk[..], store.data, chain, size, raw);
      }
    }

    /** The pre-allocation loop of importFile, starting from the entry's first cluster. */
    method PreallocateClusters(firstCluster: nat, clustersNeeded: nat, levelID: nat)
      returns (chain: seq<nat>, ok: bool)
      requires Valid() && firstCluster < sb.totalClusters && clustersNeeded > 0
      modifies this, disk
      ensures Shaped(sb, old(store)) && |chain| > 0 && chain[0] == firstCluster
      ensures Valid() && (store, chain[1..], ok) == Preallocate(sb, old(store), firstCluster, clustersNeeded - 1, levelID)
    {
      hide Represents, NextFit, Allocate, SetLink;
      RepresentsShaped(sb, disk[..], nextFreeLAB, store);
      ghost var result := Preallocate(sb, store, firstCluster, clustersNeeded - 1, levelID);
      chain := [firstCluster];
      assert chain[1..] + result.1 == result.1;
      var i := 1;
      while i < clustersNeeded
        invariant 1 <= i <= clustersNeeded && |chain| == i && chain[0] == firstCluster
        invariant Valid() && Shaped(sb, store) && chain[i - 1] < sb.totalClusters
        invariant var r := Preallocate(sb, store, chain[i - 1], clustersNeeded - i, levelID);
                  result == (r.0, chain[1..] + r.1, r.2)
      {
        ghost var r := Preallocate(sb, store, chain[i - 1], clustersNeeded - i, levelID);
        var next := AllocClusterForLevel(levelID);
        assert next == 0 ==> chain[1..] + r.1 == chain[1..];
        if next == 0 {
          return chain, false;
        }
        SetLATEntry(chain[i - 1], next);
        assert r.1[0] == next && chain[1..] + r.1 == (chain + [next])[1..] + r.1[1..];
        chain := chain + [next];
        i := i + 1;
      }
      SetLATEntry(chain[i - 1], LAT_END);
      assert chain[1..] + [] == chain[1..];
      ok := true;
    }
  }

  /** What the two-level lookup finds for a cluster. */
  lemma LookupIs(L: Layout, d: seq<Block>, used: nat, st: Store, c: nat)
    requires Represents(L, d, used, st) && c < L.totalClusters
    ensures GroupOf(c) < L.LitCapacity() && L.litStartCluster + GroupOf(c) / 170 < L.totalClusters
    ensures var lab := LitAt(L, d, GroupOf(c)).labCluster;
            if lab == 0 then st.flat[c] == FREE_ENTRY
            else
              && L.labPoolStart <= lab < L.labPoolStart + L.labPoolClusters && lab < |d|
              && IsLab(d[lab]) && st.flat[c] == d[lab].labs[OffsetIn(c)]
  {
    var g, was := GroupOf(c), st.flat[c];
    GroupInLit(L, c);
    LitEntryAt(L, d, used, st, g);
    assert was == Lookup(LitView(L, d), d, c);
    if LitAt(L, d, g).labCluster != 0 {
      LabPlace(L, d, used, st, g);
    }
  }

  /** What the LIT says about a group. */
  lemma LitEntryAt(L: Layout, d: seq<Block>, used: nat, st: Store, g: nat)
    requires Represents(L, d, used, st) && g < L.LitCapacity()
    ensures LitView(L, d)[g] == LitAt(L, d, g)
    ensures LitAt(L, d, g).labCluster != 0 <==> g in st.mat
    ensures LitAt(L, d, g).allocatedCount == st.counts[g]
  {
  }

  function RawBytes(d: seq<Block>): (r: seq<Bytes>)
    ensures |r| == |d|
  {
    seq(|d|, i requires 0 <= i < |d| => if d[i].Data? then d[i].bytes else [])
  }

  /** The freshly formatted blocks represent the all-free map: a zeroed LIT has no LABs. */
  lemma FormattedRepresents(L: Layout, raw: seq<Block>, d: seq<Block>, st: Store)
    requires WellFormed(L) && |raw| == |d| == L.totalClusters
    requires forall i :: 0 <= i < |raw| ==> raw[i].Data? && |raw[i].bytes| == CLUSTER_SIZE
    requires forall k :: 1 <= k < L.labPoolStart ==> d[k] == Lit(seq(LIT_SLOTS, i => EMPTY_LIT))
    requires forall k :: 0 <= k < |d| && !L.Reserved(k) ==> d[k] == raw[k]
    requires st == FormattedStore(L, RawBytes(raw))
    ensures Represents(L, d, 0, st)
  {
    FormatZoned(L);
    var lit := LitView(L, d);
    assert forall s :: 0 <= s < |lit| ==> lit[s] == EMPTY_LIT;
    FormattedEntries(L, lit, d, st);
    hide FormatLayout;
  }

  lemma FormattedEntries(L: Layout, lit: seq<LitEntry>, d: seq<Block>, st: Store)
    requires Zoned(L) && |lit| == L.LitCapacity() && |d| == L.totalClusters == |st.flat|
    requires forall s :: 0 <= s < |lit| ==> lit[s] == EMPTY_LIT
    requires forall c :: 0 <= c < |st.flat| ==> st.flat[c] == FREE_ENTRY
    ensures EntriesOk(L, lit, d, st.flat)
  {
    forall c | 0 <= c < |st.flat|
      ensures GroupOf(c) < |lit| && st.flat[c] == Lookup(lit, d, c)
    {
      GroupInLit(L, c);
    }
  }
}
