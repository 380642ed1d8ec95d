/**
 * The defragmenter: find the leftmost long-enough run of unlinked clusters, copy a file's chain
 * there, relink it and unlink the old clusters. The table here has one entry a cluster, which is
 * what the algorithm assumes; DefragTable.dfy says what its lookups really address.
 */
module Defrag {
  import opened DiskLayout
  import opened ClusterMap
  import opened ChainStore
  import opened FileRuns

  /** The defragmenter's own chain walk gives up after this many clusters. */
  const WALK_LIMIT: nat := 100_000

  /** getChain of the defragmenter. */
  function Walk(flat: seq<LabEntry>, current: nat, limit: nat): (r: seq<nat>)
    requires forall c :: 0 <= c < |flat| ==> flat[c].next < |flat| || flat[c].next == LAT_END
    requires current < |flat| || current == LAT_END
    ensures |r| <= limit && forall i :: 0 <= i < |r| ==> r[i] < |flat|
    decreases limit
  {
    if current == 0 || current == LAT_END || limit == 0 then []
    else if flat[current].next == current then [current]
    else [current] + Walk(flat, flat[current].next, limit - 1)
  }

  function Fragments(ch: seq<nat>): (r: nat)
    ensures r >= 1
  {
    if |ch| <= 1 then 1
    else Fragments(ch[..|ch| - 1]) + if ch[|ch| - 1] != ch[|ch| - 2] + 1 then 1 else 0
  }

  predicate Adjacent(ch: seq<nat>, i: nat)
    requires 1 <= i < |ch|
  {
    ch[i] == ch[i - 1] + 1
  }

  /** One fragment means every cluster follows the one before it. */
  lemma {:induction false} OneFragment(ch: seq<nat>)
    ensures Fragments(ch) == 1 <==> forall i :: 1 <= i < |ch| ==> Adjacent(ch, i)
    decreases |ch|
  {
    if |ch| > 1 {
      var t := ch[..|ch| - 1];
      OneFragment(t);
      assert forall i :: 1 <= i < |t| ==> Adjacent(t, i) == Adjacent(ch, i);
      assert Fragments(ch) == 1 <==> Fragments(t) == 1 && Adjacent(ch, |t|);
    }
  }

  /** Where a chain breaks. */
  ghost function Breaks(ch: seq<nat>): set<nat> {
    set i: nat | 1 <= i < |ch| && !Adjacent(ch, i)
  }

  /** The count is one plus the number of breaks. */
  lemma {:induction false} FragmentsCount(ch: seq<nat>)
    ensures Fragments(ch) == 1 + |Breaks(ch)|
    decreases |ch|
  {
    if |ch| <= 1 {
      assert Breaks(ch) == {};
    } else {
      var t, n := ch[..|ch| - 1], |ch| - 1;
      FragmentsCount(t);
      forall i | 1 <= i < n ensures Adjacent(ch, i) == Adjacent(t, i) { }
      assert Adjacent(ch, n) == (ch[n] == ch[n - 1] + 1);
      hide Adjacent;
      assert Breaks(ch) == if Adjacent(ch, n) then Breaks(t) else Breaks(t) + {n};
    }
  }

  /** The walk on any table: it follows the links from the start, and ends only at a link to 0, an
      end mark, a cluster linked to itself, or the limit. */
  lemma {:induction false} WalkFollows(L: Layout, flat: seq<LabEntry>, start: nat, limit: nat)
    requires |flat| == L.totalClusters && LinksInRange(L, flat) && (start < |flat| || start == LAT_END)
    ensures var w := Walk(flat, start, limit);
            && (|w| == 0 <==> start == 0 || start == 0xFFFF_FFFF_FFFF_FFFF || limit == 0)
            && (|w| > 0 ==> w[0] == start)
            && (forall i :: 0 <= i < |w| - 1 ==> w[i + 1] == flat[w[i]].next && w[i + 1] != w[i])
            && (0 < |w| < limit ==>
                  var last := w[|w| - 1];
                  flat[last].next == 0 || flat[last].next == 0xFFFF_FFFF_FFFF_FFFF || flat[last].next == last)
    decreases limit
  {
    if start != 0 && start != LAT_END && limit > 0 && flat[start].next != start {
      WalkFollows(L, flat, flat[start].next, limit - 1);
      var w, t := Walk(flat, start, limit), Walk(flat, flat[start].next, limit - 1);
      assert w == [start] + t;
      assert forall i :: 1 <= i < |w| ==> w[i] == t[i - 1];
    }
  }

  /** `n` clusters from `start` on, all unlinked. */
  predicate IsRun(flat: seq<LabEntry>, start: nat, n: nat) {
    start + n <= |flat| && forall k :: start <= k < start + n ==> flat[k].next == LAT_FREE
  }

  /** The shortest run the search accepts. */
  function Wanted(needed: nat): nat {
    if needed == 0 then 1 else needed
  }

  /** The leftmost run of `n` unlinked clusters at or above `from`, or 0. */
  function FirstRun(flat: seq<LabEntry>, from: nat, n: nat): (r: nat)
    requires from > 0 && n > 0
    ensures r != 0 ==> from <= r && IsRun(flat, r, n) && forall s :: from <= s < r ==> !IsRun(flat, s, n)
    ensures r == 0 <==> forall s :: from <= s ==> !IsRun(flat, s, n)
    decreases |flat| - from
  {
    if from + n > |flat| then 0
    else if IsRun(flat, from, n) then from
    else FirstRun(flat, from + 1, n)
  }

  lemma FirstRunIs(flat: seq<LabEntry>, from: nat, n: nat, r: nat)
    requires from > 0 && n > 0
    requires r != 0 ==> from <= r && IsRun(flat, r, n) && forall s :: from <= s < r ==> !IsRun(flat, s, n)
    requires r == 0 ==> forall s :: from <= s ==> !IsRun(flat, s, n)
    ensures r == FirstRun(flat, from, n)
  {
    hide IsRun;
    var f := FirstRun(flat, from, n);
    assert f != 0 ==> IsRun(flat, f, n);
  }

  /** Where the search begins. */
  function DataStart(L: Layout): nat {
    L.labPoolStart + L.labPoolClusters
  }

  function RunOf(start: nat, n: nat): (r: seq<nat>)
    ensures |r| == n && forall i :: 0 <= i < n ==> r[i] == start + i
  {
    seq(n, i requires 0 <= i => start + i)
  }

  /** The table after a move: the run linked as one chain, the old clusters unlinked, every
      other field as it was. */
  function Moved(flat: seq<LabEntry>, src: seq<nat>, start: nat): (r: seq<LabEntry>)
    ensures |r| == |flat|
    ensures forall c :: 0 <= c < |r| ==> r[c] == flat[c].(next := MovedNext(flat, src, start, c))
  {
    seq(|flat|, c requires 0 <= c < |flat| => flat[c].(next := MovedNext(flat, src, start, c)))
  }

  function MovedNext(flat: seq<LabEntry>, src: seq<nat>, start: nat, c: nat): nat
    requires c < |flat|
  {
    if c in src then LAT_FREE
    else if start <= c < start + |src| then (if c == start + |src| - 1 then LAT_END else c + 1)
    else flat[c].next
  }

  function MovedData(data: seq<Bytes>, src: seq<nat>, start: nat): (r: seq<Bytes>)
    requires forall i :: 0 <= i < |src| ==> src[i] < |data|
    ensures |r| == |data|
    ensures forall c :: 0 <= c < |r| ==>
              r[c] == if start <= c < start + |src| then data[src[c - start]] else data[c]
  {
    seq(|data|, c requires 0 <= c < |data| => if start <= c < start + |src| then data[src[c - start]] else data[c])
  }

  /** Linked clusters that form a chain, whether reserved or not. */
  predicate LinkedChain(flat: seq<LabEntry>, ch: seq<nat>) {
    && |ch| > 0 && Distinct(ch)
    && (forall i :: 0 <= i < |ch| ==> 0 < ch[i] < |flat|)
    && (forall i {:trigger flat[ch[i]]} :: 0 <= i < |ch| ==> flat[ch[i]].next == SuccIn(ch, i))
  }

  /** No cluster of the run is reserved. */
  predicate Clear(L: Layout, start: nat, n: nat) {
    forall k :: start <= k < start + n ==> !L.Reserved(k)
  }

  lemma ChainIsLinked(L: Layout, flat: seq<LabEntry>, ch: seq<nat>)
    ensures IsChain(L, flat, ch) <==> LinkedChain(flat, ch) && forall i :: 0 <= i < |ch| ==> !L.Reserved(ch[i])
  {
  }

  /** What a move needs: distinct linked clusters, and as many unlinked ones in a run. */
  ghost predicate Movable(flat: seq<LabEntry>, src: seq<nat>, start: nat) {
    && |src| > 0 && Distinct(src) && start > 0 && IsRun(flat, start, |src|)
    && forall i :: 0 <= i < |src| ==> 0 < src[i] < |flat| && flat[src[i]].next != LAT_FREE
  }

  /* ---------- What a move preserves ---------- */

  /** The run and the old clusters have none in common. */
  lemma Disjoint(flat: seq<LabEntry>, src: seq<nat>, start: nat)
    requires Movable(flat, src, start)
    ensures Apart(src, start) && forall c :: start <= c < start + |src| ==> c !in src
  {
  }

  /** The run holds none of the old clusters. */
  predicate Apart(src: seq<nat>, start: nat) {
    forall i :: 0 <= i < |src| ==> !(start <= src[i] < start + |src|)
  }

  /** After a move the run is one linked chain if and only if it held none of the old clusters,
      and then one the file system can follow if and only if none of it is reserved. It always
      counts as one fragment. */
  lemma MovedIsChain(L: Layout, flat: seq<LabEntry>, src: seq<nat>, start: nat)
    requires |src| > 0 && start > 0 && start + |src| <= |flat|
    ensures LinkedChain(Moved(flat, src, start), RunOf(start, |src|)) <==> Apart(src, start)
    ensures IsChain(L, Moved(flat, src, start), RunOf(start, |src|)) <==> Apart(src, start) && Clear(L, start, |src|)
    ensures Fragments(RunOf(start, |src|)) == 1
  {
    var run, flat' := RunOf(start, |src|), Moved(flat, src, start);
    RunOneFragment(start, |src|);
    ChainIsLinked(L, flat', run);
    if Apart(src, start) {
      RunIsChain(flat, src, start);
    } else {
      var i :| 0 <= i < |src| && start <= src[i] < start + |src|;
      assert run[src[i] - start] == src[i] && flat'[src[i]].next == LAT_FREE;
      if LinkedChain(flat', run) { Unlinkable(flat', run); }
    }
    hide LinkedChain, IsChain;
    if k :| start <= k < start + |src| && L.Reserved(k) {
      assert run[k - start] == k;
    }
  }

  lemma RunIsChain(flat: seq<LabEntry>, src: seq<nat>, start: nat)
    requires start + |src| <= |flat| && 0 < start && |src| > 0 && Apart(src, start)
    ensures LinkedChain(Moved(flat, src, start), RunOf(start, |src|))
  {
    var ch, flat' := RunOf(start, |src|), Moved(flat, src, start);
    forall i | 0 <= i < |ch| ensures flat'[ch[i]].next == SuccIn(ch, i) {
      assert ch[i] !in src;
    }
  }

  lemma {:induction false} RunOneFragment(start: nat, n: nat)
    ensures Fragments(RunOf(start, n)) == 1
    decreases n
  {
    if n > 1 {
      assert RunOf(start, n)[..n - 1] == RunOf(start, n - 1);
      RunOneFragment(start, n - 1);
    }
  }

  /** Every other chain keeps its links, and the run holds none of its clusters. */
  lemma OthersKept(flat: seq<LabEntry>, src: seq<nat>, start: nat, other: seq<nat>)
    requires Movable(flat, src, start) && LinkedChain(flat, other)
    requires forall c :: c in other ==> c !in src
    ensures LinkedChain(Moved(flat, src, start), other)
    ensures forall c :: c in other ==> !(start <= c < start + |src|)
  {
    Unlinkable(flat, other);
    forall i | 0 <= i < |other|
      ensures Moved(flat, src, start)[other[i]] == flat[other[i]] && !(start <= other[i] < start + |src|)
    {
      assert other[i] in other;
    }
  }

  /** The clusters of a chain are linked. */
  lemma Unlinkable(flat: seq<LabEntry>, ch: seq<nat>)
    requires LinkedChain(flat, ch)
    ensures forall i :: 0 <= i < |ch| ==> flat[ch[i]].next != LAT_FREE
  {
    forall i | 0 <= i < |ch| ensures flat[ch[i]].next != LAT_FREE {
      assert flat[ch[i]].next == SuccIn(ch, i);
    }
  }

  /** The moved file reads the same bytes, for every size. */
  lemma {:induction false} BytesKept(data: seq<Bytes>, src: seq<nat>, start: nat, k: nat, size: nat)
    requires k <= |src| && start + |src| <= |data|
    requires forall i :: 0 <= i < |src| ==> src[i] < |data|
    requires forall c :: 0 <= c < |data| ==> |data[c]| == CLUSTER_SIZE
    ensures ReadAlong(MovedData(data, src, start), RunOf(start, |src|)[k..], size) == ReadAlong(data, src[k..], size)
    decreases |src| - k
  {
    var run, data' := RunOf(start, |src|), MovedData(data, src, start);
    if k < |src| && size > 0 {
      var n := if size < CLUSTER_SIZE then size else CLUSTER_SIZE;
      assert run[k..][1..] == run[k + 1..] && src[k..][1..] == src[k + 1..];
      BytesKept(data, src, start, k + 1, size - n);
    }
  }

  ghost function FreeLinks(flat: seq<LabEntry>): set<nat> {
    set c: nat | c < |flat| && flat[c].next == LAT_FREE
  }

  ghost function ClustersOf(ch: seq<nat>): set<nat> {
    set c | c in ch
  }

  lemma {:induction false} DistinctSize(ch: seq<nat>)
    requires Distinct(ch)
    ensures |ClustersOf(ch)| == |ch|
  {
    if |ch| > 0 {
      var t, x := ch[..|ch| - 1], ch[|ch| - 1];
      DistinctSize(t);
      assert ch == t + [x];
      assert x !in t;
      assert ClustersOf(ch) == ClustersOf(t) + {x};
    }
  }

  lemma RunDistinct(start: nat, n: nat)
    ensures Distinct(RunOf(start, n))
    ensures forall c :: c in ClustersOf(RunOf(start, n)) <==> start <= c < start + n
  {
    forall c | start <= c < start + n ensures c in RunOf(start, n) {
      assert RunOf(start, n)[c - start] == c;
    }
  }

  lemma FreeLinksAfter(flat: seq<LabEntry>, src: seq<nat>, start: nat)
    requires Movable(flat, src, start)
    ensures FreeLinks(Moved(flat, src, start))
            == FreeLinks(flat) - ClustersOf(RunOf(start, |src|)) + ClustersOf(src)
    ensures ClustersOf(RunOf(start, |src|)) <= FreeLinks(flat) && ClustersOf(src) !! FreeLinks(flat)
  {
    RunDistinct(start, |src|);
    Disjoint(flat, src, start);
    hide Distinct, RunOf;
  }

  /** A move neither creates nor loses unlinked clusters. */
  lemma FreeLinksConserved(flat: seq<LabEntry>, src: seq<nat>, start: nat)
    requires Movable(flat, src, start)
    ensures |FreeLinks(Moved(flat, src, start))| == |FreeLinks(flat)|
  {
    hide Distinct, FreeLinks, ClustersOf;
    var run := ClustersOf(RunOf(start, |src|));
    FreeLinksAfter(flat, src, start);
    RunDistinct(start, |src|);
    DistinctSize(src);
    DistinctSize(RunOf(start, |src|));
    assert |FreeLinks(flat) - run| == |FreeLinks(flat)| - |run|;
  }

  /** What the allocator sees afterwards: its free test also reads the flags, which a move leaves
      behind. The run is gone from its free set, and of the old clusters only usable ones whose
      flags were already clear come back. */
  lemma AllocatorFreeSet(L: Layout, flat: seq<LabEntry>, src: seq<nat>, start: nat)
    requires Movable(flat, src, start)
    ensures FreeSet(L, Moved(flat, src, start))
            == FreeSet(L, flat) - ClustersOf(RunOf(start, |src|))
               + (set c | c in src && c < |flat| && !L.Reserved(c) && flat[c].flags == 0)
  {
    RunDistinct(start, |src|);
    Disjoint(flat, src, start);
    var flat' := Moved(flat, src, start);
    forall c: nat | c < |flat|
      ensures FreeAt(L, flat', c) <==>
                (FreeAt(L, flat, c) && !(start <= c < start + |src|))
                || (c in src && !L.Reserved(c) && flat[c].flags == 0)
    {
    }
  }

  lemma SubsetSize(a: set<nat>, b: set<nat>)
    ensures |a - b| == |a| - |b| <==> b <= a
  {
    assert |a - b| == |a| - |a * b|;
    assert (b - a) + (a * b) == b && |(b - a) + (a * b)| == |b - a| + |a * b|;
  }

  /** So moving a chain made by the allocator onto unlinked clusters without flags gives nothing
      back to it, and takes as many clusters from it as the chain has if and only if none of the
      run is reserved: the tallied counter becomes wrong. */
  lemma MoveLeaks(L: Layout, flat: seq<LabEntry>, src: seq<nat>, start: nat)
    requires Movable(flat, src, start)
    requires forall c :: c in src ==> c < |flat| && flat[c].flags != 0
    requires forall k :: start <= k < start + |src| ==> flat[k].flags == 0
    ensures |FreeSet(L, Moved(flat, src, start))| == |FreeSet(L, flat)| - |src| <==> Clear(L, start, |src|)
    ensures FreeSet(L, Moved(flat, src, start)) == FreeSet(L, flat) - ClustersOf(RunOf(start, |src|))
  {
    AllocatorFreeSet(L, flat, src, start);
    RunDistinct(start, |src|);
    DistinctSize(RunOf(start, |src|));
    hide RunOf, ClustersOf, Layout.Reserved, Distinct, IsRun, FreeSet, Clear;
    var run := ClustersOf(RunOf(start, |src|));
    assert (set c | c in src && c < |flat| && !L.Reserved(c) && flat[c].flags == 0) == {};
    SubsetSize(FreeSet(L, flat), run);
    RunFree(L, flat, start, |src|);
  }

  lemma RunFree(L: Layout, flat: seq<LabEntry>, start: nat, n: nat)
    requires IsRun(flat, start, n) && forall k :: start <= k < start + n ==> flat[k].flags == 0
    ensures ClustersOf(RunOf(start, n)) <= FreeSet(L, flat) <==> Clear(L, start, n)
  {
    RunDistinct(start, n);
    hide RunOf, ClustersOf, Layout.Reserved;
    var run := ClustersOf(RunOf(start, n));
    if run <= FreeSet(L, flat) {
      forall k | start <= k < start + n ensures !L.Reserved(k) {
        assert k in run;
      }
    }
  }

  /* ---------- Where the run lies ---------- */

  /** On every table reached from a formatted volume the reserved clusters read as unlinked if and
      only if no directory has been grown behind one of them. */
  lemma ReachedReservedFree(L: Layout, data: seq<Bytes>, ops: seq<Op>)
    requires WellFormed(L) && |data| == L.totalClusters
    ensures Inv(L, FormattedStore(L, data), map[])
    ensures ReservedFree(L, Run(L, FormattedStore(L, data), map[], ops).0.flat)
            <==> !GrewIn(L, FormattedStore(L, data), map[], ops)
  {
    FormatInv(L, data);
    RunReserved(L, FormattedStore(L, data), map[], ops);
  }

  /** File operations alone leave them unlinked. */
  lemma FilesReservedFree(L: Layout, data: seq<Bytes>, ops: seq<FileOp>)
    requires WellFormed(L) && |data| == L.totalClusters
    requires forall c :: 0 <= c < |data| ==> |data[c]| == CLUSTER_SIZE
    requires forall i :: 0 <= i < |ops| ==> !ops[i].GrowDir?
    ensures Holds(L, FileState(FormattedStore(L, data), map[], map[]))
    ensures ReservedFree(L, FileRun(L, FileState(FormattedStore(L, data), map[], map[]), ops).st.flat)
  {
    hide Holds, FileRun;
    FormattedHolds(L, data);
    FileRunReserved(L, FileState(FormattedStore(L, data), map[], map[]), ops);
  }

  /** So does any move of a file onto a run that is clear of them. */
  lemma MovedReservedFree(L: Layout, flat: seq<LabEntry>, src: seq<nat>, start: nat)
    requires start + |src| <= |flat| && ReservedFree(L, flat) && Clear(L, start, |src|)
    ensures ReservedFree(L, Moved(flat, src, start))
  {
  }

  /** The search does not skip reserved clusters. What it finds is clear of them if and only if
      no run of `n` begins in the metadata from the data start up to the root directory, and some
      run of `n` lies between the root directory and the backup superblock in the last cluster. */
  predicate RoomAbove(L: Layout, flat: seq<LabEntry>, n: nat) {
    && (forall k :: DataStart(L) <= k < L.rootDirCluster + 2 ==> !IsRun(flat, k, n))
    && (exists s :: L.rootDirCluster + 2 <= s <= |flat| && s + n < |flat| && IsRun(flat, s, n))
  }

  lemma RoomExact(L: Layout, flat: seq<LabEntry>, n: nat)
    requires WellFormed(L) && |flat| == L.totalClusters && n > 0
    ensures var s := FirstRun(flat, DataStart(L), n);
            s != 0 && Clear(L, s, n) <==> RoomAbove(L, flat, n)
  {
    ReservedAt(L);
    hide FormatLayout, Layout.Reserved, IsRun;
    var s, top := FirstRun(flat, DataStart(L), n), L.rootDirCluster + 2;
    if s != 0 && Clear(L, s, n) {
      RunInside(flat, s, n);
      assert !L.Reserved(s) && !L.Reserved(s + n - 1);
      assert top <= s && s + n < |flat|;
    }
    if RoomAbove(L, flat, n) {
      var t :| top <= t <= |flat| && t + n < |flat| && IsRun(flat, t, n);
      assert top <= s <= t;
    }
  }

  lemma RunInside(flat: seq<LabEntry>, s: nat, n: nat)
    requires IsRun(flat, s, n)
    ensures s + n <= |flat|
  {
  }

  lemma ReservedAt(L: Layout)
    requires WellFormed(L)
    ensures 0 < DataStart(L) && DataStart(L) == L.levelRegistryCluster && DataStart(L) + 22 == L.rootDirCluster + 2
    ensures forall c :: 0 <= c < L.totalClusters ==>
              (L.Reserved(c) <==> c < L.rootDirCluster + 2 || c == L.totalClusters - 1)
  {
    forall c | 0 <= c < L.totalClusters
      ensures L.Reserved(c) <==> c < L.rootDirCluster + 2 || c == L.totalClusters - 1
    {
      FormatReserved(L, c);
    }
  }

  /** In particular a file is moved onto the level registry if and only if enough clusters from
      there on are unlinked; while the reserved ones are, that is every file of at most 22
      clusters. */
  lemma SmallFilesHitRegistry(L: Layout, flat: seq<LabEntry>, n: nat)
    requires WellFormed(L) && |flat| == L.totalClusters && n > 0
    ensures DataStart(L) > 0 && L.Reserved(L.levelRegistryCluster)
    ensures FirstRun(flat, DataStart(L), n) == L.levelRegistryCluster <==> IsRun(flat, L.levelRegistryCluster, n)
    ensures n <= 22 && ReservedFree(L, flat) ==> IsRun(flat, L.levelRegistryCluster, n)
  {
    ReservedAt(L);
    hide FormatLayout, Layout.Reserved;
  }

  lemma ChainLink(flat: seq<LabEntry>, ch: seq<nat>, k: nat)
    requires |flat| < LAT_BAD && LinkedChain(flat, ch) && k < |ch|
    ensures 0 < ch[k] < |flat| && ch[k] != LAT_END
    ensures flat[ch[k]].next == SuccIn(ch, k) && SuccIn(ch, k) != ch[k]
  {
  }

  /** The first `n` clusters of a chain, from position `k`. */
  function Part(ch: seq<nat>, k: nat, n: nat): seq<nat>
    requires k <= |ch|
  {
    if |ch| - k <= n then ch[k..] else ch[k..k + n]
  }

  lemma PartCons(ch: seq<nat>, k: nat, n: nat)
    requires k < |ch| && n > 0
    ensures Part(ch, k, n) == [ch[k]] + Part(ch, k + 1, n - 1)
  {
  }

  lemma PartNone(ch: seq<nat>, k: nat, n: nat)
    requires k <= |ch| && (k == |ch| || n == 0)
    ensures Part(ch, k, n) == []
  {
  }

  lemma WalkCons(flat: seq<LabEntry>, current: nat, limit: nat)
    requires forall c :: 0 <= c < |flat| ==> flat[c].next < |flat| || flat[c].next == LAT_END
    requires 0 < current < |flat| && current != LAT_END && flat[current].next != current
    ensures Walk(flat, current, limit)
            == if limit == 0 then [] else [current] + Walk(flat, flat[current].next, limit - 1)
    ensures Walk(flat, LAT_END, limit) == []
  {
  }

  lemma {:induction false} WalkAlong(L: Layout, flat: seq<LabEntry>, ch: seq<nat>, k: nat, limit: nat)
    requires |flat| == L.totalClusters < LAT_BAD && LinksInRange(L, flat)
    requires LinkedChain(flat, ch) && k <= |ch|
    ensures |ch| > 0 && (k < |ch| ==> ch[k] < |flat|)
    ensures Walk(flat, if k < |ch| then ch[k] else LAT_END, limit) == Part(ch, k, limit)
    decreases |ch| - k
  {
    hide LinkedChain, Walk, Part;
    ChainFacts(flat, ch);
    if k < |ch| {
      ChainLink(flat, ch, k);
      WalkCons(flat, ch[k], limit);
      if limit > 0 {
        WalkAlong(L, flat, ch, k + 1, limit - 1);
        PartCons(ch, k, limit);
      } else {
        PartNone(ch, k, 0);
      }
    } else {
      ChainLink(flat, ch, 0);
      WalkCons(flat, ch[0], limit);
      PartNone(ch, k, limit);
    }
  }

  /** The defragmenter's walk returns the whole chain if and only if it has at most 100,000
      clusters; a longer one is cut there, so moving it loses the rest of the file. */
  lemma WalkIsChain(L: Layout, flat: seq<LabEntry>, ch: seq<nat>)
    requires |flat| == L.totalClusters < LAT_BAD && LinksInRange(L, flat) && LinkedChain(flat, ch)
    ensures Walk(flat, ch[0], 100_000) == Part(ch, 0, 100_000) <= ch
    ensures Walk(flat, ch[0], 100_000) == ch <==> |ch| <= 100_000
  {
    hide LinkedChain;
    WalkAlong(L, flat, ch, 0, WALK_LIMIT);
    assert ch[0..] == ch;
  }

  /* ---------- The defragmenter ---------- */

  datatype Entry = Entry(startCluster: nat, size: nat, isFile: bool, writable: bool)

  datatype Outcome = Skipped | WouldMove | NoSpace | Relocated

  class Defragmenter {
    const L: Layout
    const table: array<LabEntry>
    const data: array<Bytes>
    const entries: array<Entry>

    /** One entry per cluster. */
    ghost predicate Valid()
      reads this, table, data
    {
      && table.Length == data.Length == L.totalClusters && Addressable(L)
      && DataStart(L) > 0
      && (forall c :: 0 <= c < data.Length ==> |data[c]| == CLUSTER_SIZE)
    }

    constructor (L: Layout, table: array<LabEntry>, data: array<Bytes>, entries: array<Entry>)
      ensures this.L == L && this.table == table && this.data == data && this.entries == entries
    {
      this.L, this.table, this.data, this.entries := L, table, data, entries;
    }

    method GetChain(startCluster: nat) returns (chain: seq<nat>)
      requires Valid() && LinksInRange(L, table[..]) && startCluster < L.totalClusters
      ensures chain == Walk(table[..], startCluster, 100_000)
    {
      hide Addressable, Layout.Reserved;
      chain := [];
      var current: nat, limit: nat := startCluster, 100_000;
      while current != 0 && current != LAT_END && limit > 0
        invariant 0 <= limit && (current < table.Length || current == LAT_END)
        invariant chain + Walk(table[..], current, limit) == Walk(table[..], startCluster, WALK_LIMIT)
        decreases limit
      {
        ghost var rest := Walk(table[..], current, limit);
        var next := table[current].next;
        assert table[..][current] == table[current];
        assert next == current ==> rest == [current];
        assert next != current ==> chain + rest == chain + [current] + Walk(table[..], next, limit - 1);
        chain := chain + [current];
        if next == current { return; }
        current, limit := next, limit - 1;
      }
    }

    /** The fragment count analyzeFile reports. */
    method CountFragments(chain: seq<nat>) returns (count: nat)
      ensures count == Fragments(chain)
    {
      count := 1;
      var i := 1;
      while i < |chain|
        invariant 1 <= i && (i <= |chain| || |chain| == 0)
        invariant |chain| > 0 ==> count == Fragments(chain[..i])
        invariant |chain| == 0 ==> count == 1
      {
        assert chain[..i + 1][..i] == chain[..i];
        if chain[i] != chain[i - 1] + 1 { count := count + 1; }
        i := i + 1;
      }
      assert |chain| > 0 ==> chain[..i] == chain;
    }

    /** The leftmost run of `needed` unlinked clusters (of one, when none is needed) at or above
        the data start, reserved or not, or 0 when there is none. */
    method FindContiguousSpace(needed: nat) returns (start: nat)
      requires Valid()
      ensures start == FirstRun(table[..], DataStart(L), Wanted(needed))
    {
      var dataStart := L.labPoolStart + L.labPoolClusters;
      var consecutive, candidateStart, c := 0, 0, dataStart;
      while c < L.totalClusters
        invariant dataStart <= c && (c <= L.totalClusters || c == dataStart) && 0 <= consecutive < Wanted(needed)
        invariant dataStart <= c - consecutive
        invariant consecutive > 0 ==> candidateStart == c - consecutive
        invariant forall k :: c - consecutive <= k < c ==> k < table.Length && table[k].next == LAT_FREE
        invariant c - consecutive > dataStart ==> table[c - consecutive - 1].next != LAT_FREE
        invariant forall s :: dataStart <= s && s + Wanted(needed) <= c ==> !IsRun(table[..], s, Wanted(needed))
      {
        if table[c].next == LAT_FREE {
          if consecutive == 0 { candidateStart := c; }
          consecutive := consecutive + 1;
          if consecutive >= needed {
            FirstRunIs(table[..], dataStart, Wanted(needed), candidateStart);
            return candidateStart;
          }
          assert c - consecutive >= dataStart ==> table[..][c - consecutive].next != LAT_FREE;
        } else {
          consecutive := 0;
          assert table[..][c].next != LAT_FREE;
        }
        c := c + 1;
      }
      FirstRunIs(table[..], dataStart, Wanted(needed), 0);
      start := 0;
    }

    /** moveClusterChain with a device that reads back what it writes: copy through a backup,
        repoint the entry, link the run, then unlink the old clusters. */
    method MoveClusterChain(oldChain: seq<nat>, newStart: nat, entryIdx: nat)
      requires Valid() && entryIdx < entries.Length
      requires InRange(L, oldChain) && newStart + |oldChain| <= L.totalClusters
      modifies table, data, entries
      ensures table[..] == Moved(old(table[..]), oldChain, newStart)
      ensures data[..] == MovedData(old(data[..]), oldChain, newStart)
      ensures entries[..] ==
              if |oldChain| == 0 then old(entries[..])
              else old(entries[..])[entryIdx := old(entries[entryIdx]).(startCluster := newStart)]
    {
      if |oldChain| == 0 { return; }
      CopyClusters(oldChain, newStart);
      entries[entryIdx] := entries[entryIdx].(startCluster := newStart);
      LinkRun(newStart, |oldChain|);
      Unlink(oldChain);
    }

    /** Copy a chain's clusters through a backup buffer. */
    method CopyClusters(oldChain: seq<nat>, newStart: nat)
      requires newStart + |oldChain| <= data.Length
      requires forall i :: 0 <= i < |oldChain| ==> oldChain[i] < data.Length
      modifies data
      ensures data[..] == MovedData(old(data[..]), oldChain, newStart)
    {
      var backup := ReadBackup(oldChain);
      WriteBackup(backup, newStart);
      assert data[..] == MovedData(old(data[..]), oldChain, newStart);
    }

    method ReadBackup(oldChain: seq<nat>) returns (backup: seq<Bytes>)
      requires forall i :: 0 <= i < |oldChain| ==> oldChain[i] < data.Length
      ensures |backup| == |oldChain| && forall k :: 0 <= k < |backup| ==> backup[k] == data[oldChain[k]]
    {
      backup := [];
      var i := 0;
      while i < |oldChain|
        invariant 0 <= i <= |oldChain| && |backup| == i
        invariant forall k :: 0 <= k < i ==> backup[k] == data[oldChain[k]]
      {
        backup := backup + [data[oldChain[i]]];
        i := i + 1;
      }
    }

    method WriteBackup(backup: seq<Bytes>, newStart: nat)
      requires newStart + |backup| <= data.Length
      modifies data
      ensures forall c :: 0 <= c < data.Length ==>
                data[c] == if newStart <= c < newStart + |backup| then backup[c - newStart] else old(data[c])
    {
      var i := 0;
      while i < |backup|
        invariant 0 <= i <= |backup|
        invariant forall c :: 0 <= c < data.Length ==>
                    data[c] == if newStart <= c < newStart + i then backup[c - newStart] else old(data[c])
      {
        data[newStart + i] := backup[i];
        i := i + 1;
      }
    }

    method LinkRun(newStart: nat, n: nat)
      requires newStart + n <= table.Length
      modifies table
      ensures forall c :: 0 <= c < table.Length ==>
                table[c] == if newStart <= c < newStart + n
                            then old(table[c]).(next := if c == newStart + n - 1 then LAT_END else c + 1)
                            else old(table[c])
    {
      var i := 0;
      while i < n
        invariant 0 <= i <= n
        invariant forall c :: 0 <= c < table.Length ==>
                    table[c] == if newStart <= c < newStart + i
                                then old(table[c]).(next := if c == newStart + n - 1 then LAT_END else c + 1)
                                else old(table[c])
      {
        if i < n - 1 {
          table[newStart + i] := table[newStart + i].(next := newStart + i + 1);
        } else {
          table[newStart + i] := table[newStart + i].(next := LAT_END);
        }
        i := i + 1;
      }
    }

    method Unlink(chain: seq<nat>)
      requires forall i :: 0 <= i < |chain| ==> chain[i] < table.Length
      modifies table
      ensures forall c :: 0 <= c < table.Length ==>
                table[c] == if c in chain then old(table[c]).(next := LAT_FREE) else old(table[c])
    {
      var i := 0;
      while i < |chain|
        invariant 0 <= i <= |chain|
        invariant forall c :: 0 <= c < table.Length ==>
                    table[c] == if c in chain[..i] then old(table[c]).(next := LAT_FREE) else old(table[c])
      {
        table[chain[i]] := table[chain[i]].(next := LAT_FREE);
        assert chain[..i + 1] == chain[..i] + [chain[i]];
        i := i + 1;
      }
      assert chain[..i] == chain;
    }

    /** defragFile on any entry and any table with links in range: the new state, whatever the
        walk `w` from the entry has seen. The run is one chain exactly when it held no cluster of
        the walk, and one the file system can follow exactly when it is also clear of reserved
        clusters. */
    method DefragFile(entryIdx: nat, force: bool, dryRun: bool) returns (outcome: Outcome)
      requires Valid() && LinksInRange(L, table[..]) && entryIdx < entries.Length
      requires entries[entryIdx].startCluster < L.totalClusters
      modifies table, data, entries
      ensures Valid() && LinksInRange(L, table[..])
      ensures outcome != Relocated ==>
                table[..] == old(table[..]) && data[..] == old(data[..]) && entries[..] == old(entries[..])
      ensures var e, w := old(entries[entryIdx]), Walk(old(table[..]), old(entries[entryIdx]).startCluster, 100_000);
              && (outcome == Skipped <==>
                    !e.isFile || e.startCluster == 0 || (!e.writable && !force) || Fragments(w) == 1)
              && (outcome == WouldMove <==>
                    dryRun && e.isFile && e.startCluster != 0 && (e.writable || force) && Fragments(w) > 1)
              && (outcome == NoSpace ==> |w| > 0 && FirstRun(old(table[..]), DataStart(L), |w|) == 0)
      ensures outcome == Relocated ==>
                var w := Walk(old(table[..]), old(entries[entryIdx]).startCluster, 100_000);
                var s := entries[entryIdx].startCluster;
                && |w| > 0 && s == FirstRun(old(table[..]), DataStart(L), |w|) && s != 0
                && entries[..] == old(entries[..])[entryIdx := old(entries[entryIdx]).(startCluster := s)]
                && table[..] == Moved(old(table[..]), w, s)
                && data[..] == MovedData(old(data[..]), w, s)
                && Fragments(RunOf(s, |w|)) == 1
                && (LinkedChain(table[..], RunOf(s, |w|)) <==> Apart(w, s))
                && (IsChain(L, table[..], RunOf(s, |w|)) <==> Apart(w, s) && Clear(L, s, |w|))
      ensures outcome == Relocated && WellFormed(L) ==>
                var w := Walk(old(table[..]), old(entries[entryIdx]).startCluster, 100_000);
                var s := entries[entryIdx].startCluster;
                IsChain(L, table[..], RunOf(s, |w|)) <==> Apart(w, s) && RoomAbove(L, old(table[..]), |w|)
    {
      hide LinkedChain, IsChain, Fragments, Clear, RoomAbove, Apart, WellFormed, Moved, MovedData, LinksInRange;
      var entry := entries[entryIdx];
      if !entry.isFile || entry.startCluster == 0 { return Skipped; }
      ghost var flat := table[..];
      WalkStarts(L, flat, entry.startCluster);
      hide Walk;
      var chain := GetChain(entry.startCluster);
      var count := CountFragments(chain);
      if !entry.writable && !force { return Skipped; }
      if count <= 1 { return Skipped; }
      if dryRun { return WouldMove; }
      assert Wanted(|chain|) == |chain|;
      var newStart := FindContiguousSpace(|chain|);
      if newStart == 0 { return NoSpace; }
      MovedIsChain(L, flat, chain, newStart);
      MovedSound(L, flat, data[..], chain, newStart);
      if WellFormed(L) { RoomExact(L, flat, |chain|); }
      MoveClusterChain(chain, newStart, entryIdx);
      outcome := Relocated;
    }
  }

  /** The walk from a cluster holds at least that cluster. */
  lemma WalkStarts(L: Layout, flat: seq<LabEntry>, start: nat)
    requires Addressable(L) && |flat| == L.totalClusters && LinksInRange(L, flat) && 0 < start < |flat|
    ensures var w := Walk(flat, start, WALK_LIMIT); |w| > 0 && InRange(L, w)
  {
  }

  lemma ChainFacts(flat: seq<LabEntry>, ch: seq<nat>)
    requires LinkedChain(flat, ch)
    ensures |ch| > 0 && 0 < ch[0] < |flat| && |Part(ch, 0, WALK_LIMIT)| > 0
  {
  }

  /** Whatever part of a chain the walk sees can be moved to a run, which holds none of it. */
  lemma WalkMovable(flat: seq<LabEntry>, ch: seq<nat>, start: nat)
    requires LinkedChain(flat, ch) && start > 0 && IsRun(flat, start, |Part(ch, 0, WALK_LIMIT)|)
    ensures Movable(flat, Part(ch, 0, WALK_LIMIT), start) && Apart(Part(ch, 0, WALK_LIMIT), start)
  {
    Unlinkable(flat, ch);
    var w := Part(ch, 0, WALK_LIMIT);
    assert forall i :: 0 <= i < |w| ==> w[i] == ch[i];
  }

  /** A move keeps links in range and blocks full. */
  lemma MovedSound(L: Layout, flat: seq<LabEntry>, data: seq<Bytes>, src: seq<nat>, start: nat)
    requires start + |src| <= |flat| && InRange(L, src)
    requires LinksInRange(L, flat) && |data| == |flat| == L.totalClusters
    requires forall c :: 0 <= c < |data| ==> |data[c]| == CLUSTER_SIZE
    ensures LinksInRange(L, Moved(flat, src, start))
    ensures forall c :: 0 <= c < |data| ==> |MovedData(data, src, start)[c]| == CLUSTER_SIZE
  {
  }

  /** A second pass over a moved file finds one fragment and skips it. */
  lemma SecondPassSkips(L: Layout, flat: seq<LabEntry>, src: seq<nat>, start: nat)
    requires Movable(flat, src, start) && |src| <= WALK_LIMIT
    requires |flat| == L.totalClusters < LAT_BAD && LinksInRange(L, flat) && LinksInRange(L, Moved(flat, src, start))
    ensures Fragments(Walk(Moved(flat, src, start), start, WALK_LIMIT)) == 1
  {
    Disjoint(flat, src, start);
    MovedIsChain(L, flat, src, start);
    var run := RunOf(start, |src|);
    WalkIsChain(L, Moved(flat, src, start), run);
    assert run[0] == start;
  }

  /** Allocation at a free hint. */
  lemma AllocateHint(L: Layout, st: Store, level: nat)
    requires Shaped(L, st) && st.hint > 0 && FreeAt(L, st.flat, st.hint)
    ensures var (st1, c) := Allocate(L, st, level);
            c == st.hint && st1.hint == c + 1 && st1.flat == st.flat[c := USED_ENTRY.(level := level)]
  {
    var c := NextFit(L, st.flat, st.hint);
    assert c == st.hint;
  }

  lemma Layout256(L: Layout)
    requires L == FormatLayout(256)
    ensures WellFormed(L) && L.totalClusters == 256 && L.rootDirCluster == 23 && L.levelRegistryCluster == 3
    ensures forall c :: 25 <= c < 255 ==> !L.Reserved(c)
    ensures L.Reserved(3) && DataStart(L) == 3
  {
  }

  lemma CreateAtHint(L: Layout, st: Store, owners: Owners)
    requires Inv(L, st, owners) && st.hint > 0 && FreeAt(L, st.flat, st.hint)
    ensures var (st1, o1) := Step(L, st, owners, Create(0));
            && Inv(L, st1, o1) && o1 == owners[st.hint := [st.hint]]
            && st1.hint == st.hint + 1 && st1.flat == st.flat[st.hint := USED_ENTRY.(level := 0)]
  {
    CreateInv(L, st, owners, 0);
    AllocateHint(L, st, 0);
  }

  lemma ExtendAtHint(L: Layout, st: Store, owners: Owners, head: nat)
    requires Inv(L, st, owners) && st.hint > 0 && FreeAt(L, st.flat, st.hint)
    requires head in owners && owners[head] == [head] && head != st.hint
    ensures var (st1, o1) := Step(L, st, owners, Extend(head, 0));
            && Inv(L, st1, o1) && |st1.flat| == |st.flat| && head < |st.flat|
            && st1.flat[head].next == st.hint && st1.flat[st.hint].next == LAT_END
  {
    ExtendInv(L, st, owners, head, 0);
    AllocateHint(L, st, 0);
    assert IsChain(L, st.flat, owners[head]);
  }

  /** The table after the three operations of the example below. */
  lemma ThreeSteps(L: Layout, data: seq<Bytes>)
    requires L == FormatLayout(256) && |data| == 256
    ensures WellFormed(L) && L.totalClusters == 256 && Inv(L, FormattedStore(L, data), map[])
    ensures var flat := Run(L, FormattedStore(L, data), map[], [Create(0), Create(0), Extend(25, 0)]).0.flat;
            |flat| == 256 && flat[25].next == 27 && flat[27].next == LAT_END
  {
    Layout256(L);
    FormatInv(L, data);
    hide FormatLayout, Layout.Reserved, Inv, NextFit, Allocate, Step;
    var ops := [Create(0), Create(0), Extend(25, 0)];
    var st0 := FormattedStore(L, data);
    CreateAtHint(L, st0, map[]);
    var (st1, o1) := Step(L, st0, map[], ops[0]);
    CreateAtHint(L, st1, o1);
    var (st2, o2) := Step(L, st1, o1, ops[1]);
    ExtendAtHint(L, st2, o2, 25);
    var (st3, o3) := Step(L, st2, o2, ops[2]);
    assert ops[1..] == [ops[1], ops[2]] && ops[1..][1..] == [ops[2]];
    assert Run(L, st3, o3, []) == (st3, o3);
    assert Run(L, st2, o2, [ops[2]]) == (st3, o3);
    assert Run(L, st1, o1, ops[1..]) == (st3, o3);
  }

  /** A file in clusters 25 and 27 whose move onto clusters 3 and 4 puts its bytes there and leaves
      it no chain the file system can follow. */
  ghost predicate Overwrites(L: Layout, flat: seq<LabEntry>, data: seq<Bytes>)
    requires |flat| == |data| == 256
  {
    && IsChain(L, flat, [25, 27]) && Fragments([25, 27]) == 2 && Movable(flat, [25, 27], 3)
    && MovedData(data, [25, 27], 3)[3] == data[25] && MovedData(data, [25, 27], 3)[4] == data[27]
    && !IsChain(L, Moved(flat, [25, 27], 3), [3, 4])
  }

  lemma TwoClusters(L: Layout, flat: seq<LabEntry>, data: seq<Bytes>)
    requires |flat| == |data| == 256 && L.Reserved(3) && !L.Reserved(25) && !L.Reserved(27)
    requires flat[25].next == 27 && flat[27].next == LAT_END && IsRun(flat, 3, 2)
    ensures Overwrites(L, flat, data)
  {
    hide Layout.Reserved;
    var ch := [25, 27];
    assert ch[..1] == [25] && Fragments([25]) == 1;
    assert [3, 4][0] == 3;
  }

  lemma NoGrowthReserved(L: Layout, data: seq<Bytes>, ops: seq<Op>)
    requires WellFormed(L) && |data| == L.totalClusters && forall i :: 0 <= i < |ops| ==> !ops[i].Grow?
    ensures Inv(L, FormattedStore(L, data), map[])
    ensures ReservedFree(L, Run(L, FormattedStore(L, data), map[], ops).0.flat)
  {
    hide Inv, ReservedFree, GrewIn, Run;
    ReachedReservedFree(L, data, ops);
    NoGrowth(L, FormattedStore(L, data), map[], ops);
  }

  /** The smallest case: two files on a formatted volume of 256 clusters, the first extended once.
      Its chain is 25, 27; the search offers clusters 3 and 4, the level registry, and the move
      puts the file's bytes there. */
  lemma RegistryOverwritten(L: Layout, data: seq<Bytes>, flat: seq<LabEntry>)
    requires L == FormatLayout(256) && |data| == 256 && Inv(L, FormattedStore(L, data), map[])
    requires flat == Run(L, FormattedStore(L, data), map[], [Create(0), Create(0), Extend(25, 0)]).0.flat
    ensures L.levelRegistryCluster == 3 == DataStart(L) && L.Reserved(3)
    ensures FirstRun(flat, 3, 2) == 3
    ensures |flat| == 256 && Overwrites(L, flat, data)
  {
    hide FormatLayout, Run, Layout.Reserved, Overwrites, Inv, ReservedFree, FirstRun, FormattedStore, WellFormed;
    Layout256(L);
    ThreeSteps(L, data);
    NoGrowthReserved(L, data, [Create(0), Create(0), Extend(25, 0)]);
    SmallFilesHitRegistry(L, flat, 2);
    TwoClusters(L, flat, data);
  }

  lemma Formatted256(L: Layout, data: seq<Bytes>)
    requires L == FormatLayout(256) && |data| == 256
    ensures WellFormed(L) && Inv(L, FormattedStore(L, data), map[]) && L.Reserved(24)
    ensures L.rootDirCluster == 23 && DataStart(L) == 3 && forall c :: 25 <= c < 255 ==> !L.Reserved(c)
  {
    Layout256(L);
    FormatInv(L, data);
  }

  /** The case that breaks it: once the root directory, whose entries are in cluster 24, has grown,
      a file of 22 clusters is moved to cluster 26 and on, clear of the metadata. */
  lemma GrownRootClear(data: seq<Bytes>)
    requires |data| == 256
    ensures var L := FormatLayout(256);
            && WellFormed(L) && Inv(L, FormattedStore(L, data), map[])
            && var flat := Run(L, FormattedStore(L, data), map[], [Grow(24, 0)]).0.flat;
            && DataStart(L) == 3 && FirstRun(flat, 3, 22) == 26 && Clear(L, 26, 22)
  {
    var L := FormatLayout(256);
    Formatted256(L, data);
    hide FormatLayout, Layout.Reserved, Inv, NextFit, Allocate;
    var st0 := FormattedStore(L, data);
    AllocateHint(L, st0, 0);
    var (st1, o1) := Step(L, st0, map[], Grow(24, 0));
    StepInv(L, st0, map[], Grow(24, 0));
    var ops := [Grow(24, 0)];
    assert Run(L, st1, o1, ops[1..]) == (st1, o1);
    assert Run(L, st0, map[], ops) == (st1, o1);
    assert st1.flat[24].next == 25 && st1.flat[25].next == LAT_END;
    assert forall k :: 26 <= k < 256 ==> st1.flat[k].next == LAT_FREE;
    hide Run, Step;
    forall s | 3 <= s < 26 ensures !IsRun(st1.flat, s, 22) {
      assert s <= 24 < s + 22 || s == 25;
    }
    FirstRunIs(st1.flat, 3, 22, 26);
  }
}
