/**
 * What the allocation map promises: counters that equal cardinalities, chains that stay
 * separate over every run of allocate, extend, truncate and free, and chain walks that
 * terminate on any table.
 */
module ChainStore {
  import opened DiskLayout
  import opened ClusterMap

  /* ---------- Counters ---------- */

  ghost function FreeSet(L: Layout, flat: seq<LabEntry>): set<nat> {
    set c: nat | c < |flat| && FreeAt(L, flat, c)
  }

  predicate UsedAt(L: Layout, flat: seq<LabEntry>, c: nat) {
    c < |flat| && !L.Reserved(c) && !IsFree(flat[c])
  }

  ghost function UsedIn(L: Layout, flat: seq<LabEntry>, g: nat): set<nat> {
    set c: nat | c < |flat| && UsedAt(L, flat, c) && GroupOf(c) == g
  }

  /** The group whose clusters updateLITAllocatedCount counts in a LIT slot: the slot's own
      group up to slot 169, another one from there on. */
  function CountedGroup(slot: nat): (g: nat)
    ensures slot < 170 ==> g == slot
    ensures slot >= 170 ==> g >= 512
  {
    512 * (slot / 170) + slot % 170
  }

  /** What an allocatedCount says: nothing before the slot has a LAB, never more than the used
      clusters of the group it counts, and exactly those of its own group in the first 170. */
  ghost predicate SlotOk(L: Layout, flat: seq<LabEntry>, mat: set<nat>, counts: seq<nat>, slot: nat)
    requires slot < |counts|
  {
    && (slot !in mat ==> counts[slot] == 0)
    && counts[slot] <= |UsedIn(L, flat, CountedGroup(slot))|
    && (slot < 170 ==> counts[slot] == |UsedIn(L, flat, slot)|)
  }

  ghost predicate CountsRight(L: Layout, flat: seq<LabEntry>, mat: set<nat>, counts: seq<nat>) {
    forall slot :: 0 <= slot < |counts| ==> SlotOk(L, flat, mat, counts, slot)
  }

  /** The free counter and the first 170 allocatedCounts tell the truth, the others are bounded,
      and only groups with a LAB hold used clusters. */
  ghost predicate Tally(L: Layout, st: Store) {
    && Addressable(L) && Shaped(L, st)
    && st.free == |FreeSet(L, st.flat)|
    && (forall c :: 0 <= c < |st.flat| && UsedAt(L, st.flat, c) ==> GroupOf(c) in st.mat)
    && CountsRight(L, st.flat, st.mat, st.counts)
  }

  lemma SetInFree(L: Layout, flat: seq<LabEntry>, c: nat, e: LabEntry)
    requires c < |flat| && !L.Reserved(c)
    ensures FreeSet(L, flat[c := e]) ==
            if IsFree(e) then FreeSet(L, flat) + {c} else FreeSet(L, flat) - {c}
  {
    var flat' := flat[c := e];
    assert forall k :: 0 <= k < |flat| && k != c ==> FreeAt(L, flat', k) == FreeAt(L, flat, k);
    assert FreeAt(L, flat', c) == IsFree(e);
  }

  lemma SetInUsed(L: Layout, flat: seq<LabEntry>, c: nat, e: LabEntry, g: nat)
    requires c < |flat| && !L.Reserved(c)
    ensures UsedIn(L, flat[c := e], g) ==
            if GroupOf(c) != g then UsedIn(L, flat, g)
            else if IsFree(e) then UsedIn(L, flat, g) - {c} else UsedIn(L, flat, g) + {c}
  {
    var flat' := flat[c := e];
    assert forall k :: 0 <= k < |flat| && k != c ==> UsedAt(L, flat', k) == UsedAt(L, flat, k);
    assert UsedAt(L, flat', c) == !IsFree(e);
  }

  lemma Split512(q: nat, r: nat)
    requires r < 512
    ensures (512 * q + r) / 512 == q && (512 * q + r) % 512 == r
  {
  }

  lemma Split170(q: nat, r: nat)
    requires r < 170
    ensures (170 * q + r) / 170 == q && (170 * q + r) % 170 == r
  {
  }

  lemma CountSlotIs(L: Layout, c: nat, slot: nat)
    requires c < L.totalClusters && slot < L.LitCapacity()
    ensures CountSlot(L, c) == slot <==> GroupOf(c) == CountedGroup(slot)
  {
    hide GroupOf;
    var g, q, r := GroupOf(c), slot / 170, slot % 170;
    assert slot == 170 * q + r && g == 512 * (g / 512) + g % 512;
    Split512(q, r);
    if g % 512 < 170 { Split170(g / 512, g % 512); }
  }

  /** The slot's count is exact for the group it counts, and will be from now on. */
  ghost predicate Tracks(L: Layout, st: Store, slot: nat) {
    slot < |st.counts| && slot in st.mat && st.counts[slot] == |UsedIn(L, st.flat, CountedGroup(slot))|
  }

  /** A slot's count after a free cluster was taken. */
  lemma SlotTaken(L: Layout, st: Store, c: nat, e: LabEntry, slot: nat)
    requires Addressable(L) && Shaped(L, st) && FreeAt(L, st.flat, c) && !IsFree(e)
    requires slot < |st.counts| && SlotOk(L, st.flat, st.mat, st.counts, slot)
    ensures var st' := Bump(L, SetEntry(L, st, c, e), c, 1);
            SlotOk(L, st'.flat, st'.mat, st'.counts, slot) && (Tracks(L, st, slot) ==> Tracks(L, st', slot))
  {
    var g := CountedGroup(slot);
    CountSlotIs(L, c, slot);
    SetInUsed(L, st.flat, c, e, g);
    assert c !in UsedIn(L, st.flat, g);
    hide UsedIn, CountSlot;
  }

  /** A slot's count after a used cluster was freed. */
  lemma SlotFreed(L: Layout, st: Store, c: nat, slot: nat)
    requires Addressable(L) && Shaped(L, st) && UsedAt(L, st.flat, c) && GroupOf(c) in st.mat
    requires slot < |st.counts| && SlotOk(L, st.flat, st.mat, st.counts, slot)
    ensures var st' := SetEntry(L, Bump(L, st, c, -1), c, FREE_ENTRY);
            SlotOk(L, st'.flat, st'.mat, st'.counts, slot) && (Tracks(L, st, slot) ==> Tracks(L, st', slot))
  {
    var g := CountedGroup(slot);
    CountSlotIs(L, c, slot);
    SetInUsed(L, st.flat, c, FREE_ENTRY, g);
    assert GroupOf(c) == g ==> c in UsedIn(L, st.flat, g);
    hide UsedIn, CountSlot;
  }

  /** A slot's count after a used cluster was relinked. */
  lemma SlotRelinked(L: Layout, st: Store, c: nat, e: LabEntry, slot: nat)
    requires Addressable(L) && Shaped(L, st) && UsedAt(L, st.flat, c) && !IsFree(e)
    requires slot < |st.counts| && SlotOk(L, st.flat, st.mat, st.counts, slot)
    ensures var st' := SetEntry(L, st, c, e);
            SlotOk(L, st'.flat, st'.mat, st'.counts, slot) && (Tracks(L, st, slot) ==> Tracks(L, st', slot))
  {
    var g := CountedGroup(slot);
    SetInUsed(L, st.flat, c, e, g);
    assert GroupOf(c) == g ==> c in UsedIn(L, st.flat, g);
    assert UsedIn(L, st.flat[c := e], g) == UsedIn(L, st.flat, g);
  }

  ghost predicate KeepsTracking(L: Layout, st: Store, st': Store) {
    forall slot :: Tracks(L, st, slot) ==> Tracks(L, st', slot)
  }

  /** Allocation keeps the counters right. */
  lemma AllocateTally(L: Layout, st: Store, level: nat)
    requires Tally(L, st)
    ensures Tally(L, Allocate(L, st, level).0) && KeepsTracking(L, st, Allocate(L, st, level).0)
  {
    var c := NextFit(L, st.flat, st.hint);
    if c != 0 {
      var e := USED_ENTRY.(level := level);
      var st' := Allocate(L, st, level).0;
      assert st'.flat == st.flat[c := e];
      SetInFree(L, st.flat, c, e);
      assert c in FreeSet(L, st.flat);
      forall slot | 0 <= slot < |st.counts|
        ensures SlotOk(L, st'.flat, st'.mat, st'.counts, slot) && (Tracks(L, st, slot) ==> Tracks(L, st', slot))
      {
        SlotTaken(L, st, c, e, slot);
      }
    }
  }

  /** Relinking a used cluster to anything but LAT_FREE keeps the counters right. */
  lemma SetLinkTally(L: Layout, st: Store, c: nat, next: nat)
    requires Tally(L, st)
    requires UsedAt(L, st.flat, c) && next != LAT_FREE
    ensures Tally(L, SetLink(L, st, c, next)) && KeepsTracking(L, st, SetLink(L, st, c, next))
  {
    var e := Linked(EntryOf(L, st.flat, c), next);
    var st' := SetLink(L, st, c, next);
    SetInFree(L, st.flat, c, e);
    assert c !in FreeSet(L, st.flat);
    assert FreeSet(L, st.flat[c := e]) == FreeSet(L, st.flat);
    forall slot | 0 <= slot < |st.counts|
      ensures SlotOk(L, st'.flat, st'.mat, st'.counts, slot) && (Tracks(L, st, slot) ==> Tracks(L, st', slot))
    {
      SlotRelinked(L, st, c, e, slot);
    }
  }

  function FreeStep(L: Layout, st: Store, c: nat): (r: Store)
    requires Shaped(L, st) && c < L.totalClusters
    ensures Shaped(L, r)
  {
    var st1 := SetEntry(L, Bump(L, st, c, -1), c, FREE_ENTRY);
    st1.(free := st1.free + 1)
  }

  lemma FreeStepTally(L: Layout, st: Store, c: nat)
    requires Tally(L, st) && UsedAt(L, st.flat, c)
    ensures Tally(L, FreeStep(L, st, c)) && KeepsTracking(L, st, FreeStep(L, st, c))
    ensures FreeStep(L, st, c).flat == st.flat[c := FREE_ENTRY]
  {
    var st' := FreeStep(L, st, c);
    SetInFree(L, st.flat, c, FREE_ENTRY);
    assert c !in FreeSet(L, st.flat);
    forall slot | 0 <= slot < |st.counts|
      ensures SlotOk(L, st'.flat, st'.mat, st'.counts, slot) && (Tracks(L, st, slot) ==> Tracks(L, st', slot))
    {
      SlotFreed(L, st, c, slot);
    }
  }

  /** updateLITAllocatedCount splits the LIT index at 512 where every lookup splits it at 170:
      it goes to the cluster's own group exactly in the first 170 groups. */
  lemma CountSlotExact(L: Layout, c: nat)
    requires Addressable(L) && c < L.totalClusters
    ensures CountSlot(L, c) == GroupOf(c) <==> GroupOf(c) < 170
  {
    var g := GroupOf(c);
    assert L.litClusters >= 1;
    if g >= 512 { assert g == 512 * (g / 512) + g % 512; }
  }

  /** So an allocation keeps its group's count exact if and only if the group is one of the
      first 170. */
  lemma AllocateCountExact(L: Layout, st: Store, level: nat)
    requires Addressable(L) && Shaped(L, st)
    requires forall g :: 0 <= g < |st.counts| ==> st.counts[g] == |UsedIn(L, st.flat, g)|
    ensures var (st', c) := Allocate(L, st, level);
            c != 0 ==>
              && GroupOf(c) < |st'.counts|
              && (st'.counts[GroupOf(c)] == |UsedIn(L, st'.flat, GroupOf(c))| <==> GroupOf(c) < 170)
  {
    var (st', c) := Allocate(L, st, level);
    if c != 0 {
      CountSlotExact(L, c);
      var g := GroupOf(c);
      assert g < L.Groups();
      SetInUsed(L, st.flat, c, USED_ENTRY.(level := level), g);
      assert c !in UsedIn(L, st.flat, g);
    }
  }

  predicate Distinct(s: seq<nat>) {
    forall i, j :: 0 <= i < j < |s| ==> s[i] != s[j]
  }

  /** Freeing clears exactly the listed entries and touches no other. */
  lemma {:induction false} FreeListEntries(L: Layout, st: Store, cs: seq<nat>)
    requires Shaped(L, st) && InRange(L, cs)
    ensures var flat' := FreeList(L, st, cs).flat;
            forall c :: 0 <= c < |flat'| ==> flat'[c] == if c in cs then FREE_ENTRY else st.flat[c]
    decreases |cs|
  {
    if |cs| > 0 {
      var rest := cs[1..];
      FreeListEntries(L, FreeStep(L, st, cs[0]), rest);
      assert forall c :: c in cs <==> c == cs[0] || c in rest;
    }
  }

  /** The exact free counter predicts the allocator: the scan finds nothing if and only if the
      counter is 0. */
  lemma FullDiskExact(L: Layout, st: Store)
    requires Tally(L, st)
    ensures st.free >= 0
    ensures NextFit(L, st.flat, st.hint) == 0 <==> st.free == 0
  {
    var c := NextFit(L, st.flat, st.hint);
    if c == 0 {
      assert FreeSet(L, st.flat) == {};
    } else {
      assert c in FreeSet(L, st.flat);
    }
  }

  /** The entry an allocation leaves: an end mark, the level, the used flag and one reference; the
      next scan starts behind it. */
  lemma AllocatedEntry(L: Layout, st: Store, level: nat)
    requires Tally(L, st) && st.free > 0
    ensures var (st', c) := Allocate(L, st, level);
            && FreeAt(L, st.flat, c) && st'.hint == c + 1 && st'.free == st.free - 1
            && st'.flat == st.flat[c := LabEntry(0xFFFF_FFFF_FFFF_FFFF, level, 1, 1)] && st'.data == st.data
  {
    FullDiskExact(L, st);
  }

  /** A lookup shows what is stored for a usable cluster, an end mark for a reserved one and a free
      entry elsewhere; the link alone is an end mark for every cluster that is not usable. */
  lemma LookupExact(L: Layout, flat: seq<LabEntry>, c: nat)
    requires |flat| == L.totalClusters
    ensures 0 < c < L.totalClusters && !L.Reserved(c) ==> EntryOf(L, flat, c) == flat[c] && NextOf(L, flat, c) == flat[c].next
    ensures 0 < c < L.totalClusters && L.Reserved(c) ==> EntryOf(L, flat, c) == LabEntry(0xFFFF_FFFF_FFFF_FFFF, 0, 0, 0)
    ensures c == 0 || c >= L.totalClusters ==> EntryOf(L, flat, c) == LabEntry(0, 0, 0, 0)
    ensures c == 0 || c >= L.totalClusters || L.Reserved(c) ==> NextOf(L, flat, c) == 0xFFFF_FFFF_FFFF_FFFF
  {
  }

  /** Relinking a usable cluster changes its link, and sets the used flag (bit 0) under an end mark;
      level, references and the other flags stay. */
  lemma RelinkedEntry(L: Layout, st: Store, c: nat, next: nat)
    requires Shaped(L, st) && 0 < c < L.totalClusters && !L.Reserved(c)
    ensures var e, e' := st.flat[c], SetLink(L, st, c, next).flat[c];
            && e'.next == next && e'.level == e.level && e'.refCount == e.refCount
            && e'.flags / 2 == e.flags / 2
            && e'.flags % 2 == if next == 0xFFFF_FFFF_FFFF_FFFF then 1 else e.flags % 2
    ensures forall k :: 0 <= k < L.totalClusters && k != c ==> SetLink(L, st, c, next).flat[k] == st.flat[k]
  {
  }

  /** freeCluster clears a usable cluster's entry and counts it; a reserved one it leaves alone. */
  lemma FreedCluster(L: Layout, st: Store, c: nat)
    requires Shaped(L, st) && c < L.totalClusters
    ensures var st' := FreeCluster(L, st, c);
            && st'.flat == (if L.Reserved(c) then st.flat else st.flat[c := LabEntry(0, 0, 0, 0)])
            && st'.free == (if L.Reserved(c) then st.free else st.free + 1)
  {
    if !L.Reserved(c) { FreeListStep(L, st, [c]); }
  }

  lemma TrackingTransitive(L: Layout, a: Store, b: Store, c: Store)
    requires KeepsTracking(L, a, b) && KeepsTracking(L, b, c)
    ensures KeepsTracking(L, a, c)
  {
  }

  /** Freeing distinct used clusters keeps the counters right, clears exactly their entries and
      touches no other. */
  lemma {:induction false} FreeListTally(L: Layout, st: Store, cs: seq<nat>)
    requires Tally(L, st) && Distinct(cs)
    requires forall i :: 0 <= i < |cs| ==> UsedAt(L, st.flat, cs[i])
    ensures InRange(L, cs) && Tally(L, FreeList(L, st, cs)) && KeepsTracking(L, st, FreeList(L, st, cs))
    ensures var flat' := FreeList(L, st, cs).flat;
            && (forall i :: 0 <= i < |cs| ==> flat'[cs[i]] == FREE_ENTRY)
            && (forall c :: 0 <= c < |flat'| && c !in cs ==> flat'[c] == st.flat[c])
    decreases |cs|
  {
    assert Shaped(L, st);
    FreeListEntries(L, st, cs);
    hide Tally, KeepsTracking, SetEntry, Bump;
    if |cs| > 0 {
      var st1, rest := FreeStep(L, st, cs[0]), cs[1..];
      FreeStepTally(L, st, cs[0]);
      FreeListTally(L, st1, rest);
      TrackingTransitive(L, st, st1, FreeList(L, st1, rest));
      assert FreeList(L, st, cs) == FreeList(L, st1, rest) by { FreeListStep(L, st, cs); }
    } else {
      TrackingSame(L, st);
    }
  }

  lemma TrackingSame(L: Layout, st: Store)
    ensures KeepsTracking(L, st, st)
  {
  }

  lemma FreeListStep(L: Layout, st: Store, cs: seq<nat>)
    requires Shaped(L, st) && InRange(L, cs) && |cs| > 0
    ensures FreeList(L, st, cs) == FreeList(L, FreeStep(L, st, cs[0]), cs[1..])
  {
  }

  /** freeCluster counts a cluster as freed whether or not it was in use: on a tallied volume
      its counters stay exact if and only if the cluster was in use. */
  lemma FreeClusterExact(L: Layout, st: Store, c: nat)
    requires Tally(L, st) && c < L.totalClusters && !L.Reserved(c)
    ensures Tally(L, FreeCluster(L, st, c)) <==> !IsFree(st.flat[c])
  {
    if UsedAt(L, st.flat, c) {
      FreeListTally(L, st, [c]);
    } else {
      SetInFree(L, st.flat, c, FREE_ENTRY);
      assert FreeList(L, st, [c]) == FreeList(L, FreeStep(L, st, c), []);
      assert FreeSet(L, st.flat[c := FREE_ENTRY]) == FreeSet(L, st.flat);
    }
  }

  /* ---------- Walks on an arbitrary table ---------- */

  predicate IsWalk(L: Layout, flat: seq<LabEntry>, w: seq<nat>)
    requires |flat| == L.totalClusters
  {
    && InRange(L, w) && Distinct(w)
    && forall i :: 0 <= i < |w| - 1 ==> w[i + 1] == NextOf(L, flat, w[i])
  }

  /** The walk cannot be continued: an end mark, a link out of range, a repeat, or the cap. */
  predicate Maximal(L: Layout, flat: seq<LabEntry>, w: seq<nat>)
    requires |flat| == L.totalClusters && |w| > 0
  {
    var next := NextOf(L, flat, w[|w| - 1]);
    next == 0 || next >= LAT_BAD || next >= L.totalClusters || next in w || |w| >= 1_000_001
  }

  lemma {:induction false} WalkFromIsWalk(L: Layout, flat: seq<LabEntry>, chain: seq<nat>)
    requires Addressable(L) && |flat| == L.totalClusters
    requires 0 < |chain| <= CHAIN_CAP && IsWalk(L, flat, chain)
    ensures IsWalk(L, flat, WalkFrom(L, flat, chain)) && Maximal(L, flat, WalkFrom(L, flat, chain))
    decreases CHAIN_CAP - |chain|
  {
    var current := NextOf(L, flat, chain[|chain| - 1]);
    if Continues(L, chain, current) {
      assert IsWalk(L, flat, chain + [current]);
      WalkFromIsWalk(L, flat, chain + [current]);
    }
  }

  lemma {:induction false} DistinctBounded(s: seq<nat>, n: nat)
    requires Distinct(s) && forall i :: 0 <= i < |s| ==> s[i] < n
    ensures |s| <= n
    decreases n
  {
    if |s| > 0 {
      assert s[0] < n;
      var top := n - 1;
      if top in s {
        var i :| 0 <= i < |s| && s[i] == top;
        var t := s[..i] + s[i + 1..];
        assert Distinct(t);
        DistinctBounded(t, top);
      } else {
        DistinctBounded(s, top);
      }
    }
  }

  /** On any table at all, cyclic or corrupt, the chain of an in-range usable cluster is a
      duplicate-free walk along the links, of at most totalClusters clusters, and it stops
      only where it must. */
  lemma ChainOfIsWalk(L: Layout, flat: seq<LabEntry>, start: nat)
    requires Addressable(L) && |flat| == L.totalClusters
    ensures var w := ChainOf(L, flat, start);
            && IsWalk(L, flat, w) && |w| <= L.totalClusters
            && (|w| == 0 <==> start == 0 || start >= L.totalClusters)
            && (|w| > 0 ==> w[0] == start && ((L.Reserved(start) && |w| == 1) || Maximal(L, flat, w)))
  {
    var w := ChainOf(L, flat, start);
    if 0 < start < L.totalClusters && !L.Reserved(start) {
      WalkFromIsWalk(L, flat, [start]);
    }
    DistinctBounded(w, L.totalClusters);
  }

  /* ---------- Well-formed chains ---------- */

  function SuccIn(ch: seq<nat>, i: nat): nat
    requires i < |ch|
  {
    if i + 1 < |ch| then ch[i + 1] else LAT_END
  }

  predicate IsChain(L: Layout, flat: seq<LabEntry>, ch: seq<nat>) {
    && |ch| > 0 && Distinct(ch)
    && (forall i :: 0 <= i < |ch| ==> 0 < ch[i] < |flat| && !L.Reserved(ch[i]))
    && (forall i {:trigger flat[ch[i]]} :: 0 <= i < |ch| ==> flat[ch[i]].next == SuccIn(ch, i))
  }

  /** Clusters on a chain are in use. */
  lemma ChainUsed(L: Layout, flat: seq<LabEntry>, ch: seq<nat>)
    requires IsChain(L, flat, ch)
    ensures forall i :: 0 <= i < |ch| ==> UsedAt(L, flat, ch[i])
  {
    forall i | 0 <= i < |ch| ensures UsedAt(L, flat, ch[i]) {
      assert flat[ch[i]].next == SuccIn(ch, i);
    }
  }

  lemma ChainContinues(L: Layout, flat: seq<LabEntry>, ch: seq<nat>, k: nat)
    requires Addressable(L) && |flat| == L.totalClusters && IsChain(L, flat, ch)
    requires k < |ch| && k < CHAIN_CAP
    ensures Continues(L, ch[..k], ch[k])
  {
  }

  lemma {:induction false} WalkAlongChain(L: Layout, flat: seq<LabEntry>, ch: seq<nat>, k: nat)
    requires Addressable(L) && |flat| == L.totalClusters && IsChain(L, flat, ch)
    requires 0 < k <= |ch| && k <= CHAIN_CAP
    ensures InRange(L, ch[..k])
    ensures WalkFrom(L, flat, ch[..k]) == if |ch| <= CHAIN_CAP then ch else ch[..CHAIN_CAP]
    decreases |ch| - k
  {
    var so := ch[..k];
    assert so[|so| - 1] == ch[k - 1];
    assert flat[ch[k - 1]].next == SuccIn(ch, k - 1);
    if k == |ch| {
      assert so == ch;
    } else if k < CHAIN_CAP {
      assert so + [ch[k]] == ch[..k + 1];
      ChainContinues(L, flat, ch, k);
      WalkAlongChain(L, flat, ch, k + 1);
    }
  }

  /** On a well-formed chain the walk returns exactly that chain, or its first 1,000,001 clusters. */
  lemma ChainOfIsChain(L: Layout, flat: seq<LabEntry>, ch: seq<nat>)
    requires Addressable(L) && |flat| == L.totalClusters && IsChain(L, flat, ch)
    ensures ChainOf(L, flat, ch[0]) == if |ch| <= 1_000_001 then ch else ch[..1_000_001]
  {
    WalkAlongChain(L, flat, ch, 1);
    assert ch[..1] == [ch[0]];
  }

  /** Changing entries off a chain leaves it a chain. */
  lemma ChainFrame(L: Layout, flat: seq<LabEntry>, flat': seq<LabEntry>, ch: seq<nat>)
    requires |flat| == |flat'| && IsChain(L, flat, ch)
    requires forall i :: 0 <= i < |ch| ==> flat'[ch[i]] == flat[ch[i]]
    ensures IsChain(L, flat', ch)
  {
  }

  /* ---------- Runs ---------- */

  type Owners = map<nat, seq<nat>>

  /** Every owner's head maps to its own well-formed chain; chains share no cluster. */
  ghost predicate Separate(L: Layout, flat: seq<LabEntry>, owners: Owners) {
    && (forall h :: h in owners ==> IsChain(L, flat, owners[h]) && owners[h][0] == h)
    && (forall h1, h2, c :: h1 in owners && h2 in owners && c in owners[h1] && c in owners[h2] ==> h1 == h2)
  }

  ghost predicate Inv(L: Layout, st: Store, owners: Owners) {
    && Tally(L, st) && LinksInRange(L, st.flat) && Separate(L, st.flat, owners)
  }

  datatype Op =
    | Create(level: nat)
    | Extend(head: nat, level: nat)
    | Truncate(head: nat, keep: nat)
    | Delete(head: nat)
    | Grow(last: nat, level: nat)

  /** One operation of a client that owns the chains in `owners`. Operations that name an
      unknown head or meet a full disk change nothing; truncation leaks the tail, and a chain
      too long for the walk is freed only up to the cap. Grow is what a directory that is full
      does when its last cluster is reserved, as the root directory's is. */
  function Step(L: Layout, st: Store, owners: Owners, op: Op): (r: (Store, Owners))
    requires Shaped(L, st) && L.totalClusters > 0
    requires forall h :: h in owners ==> |owners[h]| > 0 && InRange(L, owners[h])
  {
    match op
    case Create(level) =>
      var (st1, c) := Allocate(L, st, level);
      if c == 0 then (st1, owners) else (st1, owners[c := [c]])
    case Extend(head, level) =>
      if head !in owners then (st, owners)
      else
        var ch := owners[head];
        assert |ch| > 0 && InRange(L, ch);
        var (st1, c) := Allocate(L, st, level);
        if c == 0 then (st1, owners)
        else (SetLink(L, st1, ch[|ch| - 1], c), owners[head := ch + [c]])
    case Truncate(head, keep) =>
      if head !in owners || keep == 0 || keep > |owners[head]| then (st, owners)
      else
        var ch := owners[head];
        assert InRange(L, ch);
        (SetLink(L, st, ch[keep - 1], LAT_END), owners[head := ch[..keep]])
    case Delete(head) =>
      if head !in owners then (st, owners)
      else (FreeChain(L, st, head), owners - {head})
    case Grow(last, level) =>
      if !(0 < last < L.totalClusters && L.Reserved(last)) then (st, owners)
      else
        var (st1, c) := Allocate(L, st, level);
        if c == 0 then (st1, owners) else (SetLink(L, st1, last, c), owners)
  }

  lemma AllocateFrame(L: Layout, st: Store, level: nat)
    requires Shaped(L, st) && L.totalClusters > 0
    ensures var (st1, c) := Allocate(L, st, level);
            && st1.data == st.data
            && (c == 0 ==> st1 == st)
            && (c != 0 ==> FreeAt(L, st.flat, c) && st1.flat == st.flat[c := USED_ENTRY.(level := level)])
  {
  }

  /** Give `head` a new chain that avoids the other owners' clusters, leaving their entries alone. */
  lemma ReplaceOwner(L: Layout, flat: seq<LabEntry>, flat': seq<LabEntry>, owners: Owners,
                     head: nat, ch: seq<nat>)
    requires |flat| == |flat'| && Separate(L, flat, owners)
    requires IsChain(L, flat', ch) && ch[0] == head
    requires forall h, c :: h in owners && h != head && c in owners[h] ==> c !in ch && flat'[c] == flat[c]
    ensures Separate(L, flat', owners[head := ch])
  {
    var owners' := owners[head := ch];
    forall h | h in owners' ensures IsChain(L, flat', owners'[h]) && owners'[h][0] == h {
      if h != head {
        assert forall i :: 0 <= i < |owners[h]| ==> owners[h][i] in owners[h];
        ChainFrame(L, flat, flat', owners[h]);
      }
    }
  }

  lemma CreateInv(L: Layout, st: Store, owners: Owners, level: nat)
    requires Inv(L, st, owners)
    ensures var (st', owners') := Step(L, st, owners, Create(level));
            Inv(L, st', owners') && KeepsTracking(L, st, st')
  {
    AllocateTally(L, st, level);
    AllocateFrame(L, st, level);
    var (st1, c) := Allocate(L, st, level);
    if c != 0 {
      NotOnChains(L, st.flat, owners, c);
      ReplaceOwner(L, st.flat, st1.flat, owners, c, [c]);
    }
  }

  /** A free cluster lies on no owned chain. */
  lemma NotOnChains(L: Layout, flat: seq<LabEntry>, owners: Owners, c: nat)
    requires L.totalClusters == |flat| && Separate(L, flat, owners) && FreeAt(L, flat, c)
    ensures forall h :: h in owners ==> c !in owners[h]
  {
    forall h | h in owners ensures c !in owners[h] {
      ChainUsed(L, flat, owners[h]);
    }
  }

  lemma ExtendInv(L: Layout, st: Store, owners: Owners, head: nat, level: nat)
    requires Inv(L, st, owners) && head in owners
    ensures var (st', owners') := Step(L, st, owners, Extend(head, level));
            Inv(L, st', owners') && KeepsTracking(L, st, st')
  {
    AllocateTally(L, st, level);
    AllocateFrame(L, st, level);
    var (st1, c) := Allocate(L, st, level);
    if c != 0 {
      NotOnChains(L, st.flat, owners, c);
      var ch := owners[head];
      var last := ch[|ch| - 1];
      ChainUsed(L, st.flat, ch);
      assert last != c && last in ch;
      SetLinkTally(L, st1, last, c);
      var st2 := SetLink(L, st1, last, c);
      ExtendedChain(L, st.flat, st2.flat, ch, c);
      ReplaceOwner(L, st.flat, st2.flat, owners, head, ch + [c]);
    }
  }

  lemma ExtendedChain(L: Layout, flat: seq<LabEntry>, flat': seq<LabEntry>, ch: seq<nat>, c: nat)
    requires |flat| == |flat'| && IsChain(L, flat, ch)
    requires 0 < c < |flat| && !L.Reserved(c) && c !in ch
    requires forall k :: 0 <= k < |flat| && k != c && k != ch[|ch| - 1] ==> flat'[k] == flat[k]
    requires flat'[ch[|ch| - 1]].next == c && flat'[c].next == LAT_END
    ensures IsChain(L, flat', ch + [c])
  {
    var ch' := ch + [c];
    assert forall i :: 0 <= i < |ch| ==> ch'[i] == ch[i];
    forall i | 0 <= i < |ch'|
      ensures flat'[ch'[i]].next == SuccIn(ch', i)
    {
      if i < |ch| - 1 { assert flat[ch[i]].next == SuccIn(ch, i); }
    }
  }

  lemma TruncateInv(L: Layout, st: Store, owners: Owners, head: nat, keep: nat)
    requires Inv(L, st, owners) && head in owners && 0 < keep <= |owners[head]|
    ensures var (st', owners') := Step(L, st, owners, Truncate(head, keep));
            Inv(L, st', owners') && KeepsTracking(L, st, st')
  {
    var ch := owners[head];
    ChainUsed(L, st.flat, ch);
    SetLinkTally(L, st, ch[keep - 1], LAT_END);
    var st' := SetLink(L, st, ch[keep - 1], LAT_END);
    TruncatedChain(L, st.flat, st'.flat, ch, keep);
    assert ch[keep - 1] in ch && forall c :: c in ch[..keep] ==> c in ch;
    ReplaceOwner(L, st.flat, st'.flat, owners, head, ch[..keep]);
  }

  lemma TruncatedChain(L: Layout, flat: seq<LabEntry>, flat': seq<LabEntry>, ch: seq<nat>, keep: nat)
    requires |flat| == |flat'| && IsChain(L, flat, ch) && 0 < keep <= |ch|
    requires forall k :: 0 <= k < |flat| && k != ch[keep - 1] ==> flat'[k] == flat[k]
    requires flat'[ch[keep - 1]].next == LAT_END
    ensures IsChain(L, flat', ch[..keep])
  {
    var ch' := ch[..keep];
    assert forall i :: 0 <= i < keep ==> ch'[i] == ch[i];
    forall i | 0 <= i < keep
      ensures flat'[ch'[i]].next == SuccIn(ch', i)
    {
      if i < keep - 1 { assert flat[ch[i]].next == SuccIn(ch, i); }
    }
  }

  lemma PrefixUsed(L: Layout, flat: seq<LabEntry>, ch: seq<nat>, w: seq<nat>)
    requires IsChain(L, flat, ch) && w <= ch
    ensures Distinct(w) && (forall i :: 0 <= i < |w| ==> UsedAt(L, flat, w[i]))
    ensures forall c :: c in w ==> c in ch
  {
    ChainUsed(L, flat, ch);
    assert forall i :: 0 <= i < |w| ==> w[i] == ch[i];
  }

  /** Deleting an owned chain frees it (up to the walk's cap) and leaves every other chain. */
  lemma DeleteSeparate(L: Layout, flat: seq<LabEntry>, flat': seq<LabEntry>, owners: Owners,
                       head: nat, freed: seq<nat>)
    requires |flat| == |flat'| && Separate(L, flat, owners) && head in owners
    requires forall c :: c in freed ==> c in owners[head]
    requires forall c :: 0 <= c < |flat'| && c !in freed ==> flat'[c] == flat[c]
    ensures Separate(L, flat', owners - {head})
  {
    var owners' := owners - {head};
    forall h | h in owners' ensures IsChain(L, flat', owners'[h]) && owners'[h][0] == h {
      assert forall i :: 0 <= i < |owners[h]| ==> owners[h][i] in owners[h] && owners[h][i] !in freed;
      ChainFrame(L, flat, flat', owners[h]);
    }
  }

  lemma DeleteInv(L: Layout, st: Store, owners: Owners, head: nat)
    requires Inv(L, st, owners) && head in owners
    ensures var (st', owners') := Step(L, st, owners, Delete(head));
            Inv(L, st', owners') && KeepsTracking(L, st, st')
  {
    ChainOfIsChain(L, st.flat, owners[head]);
    var freed := ChainOf(L, st.flat, head);
    PrefixUsed(L, st.flat, owners[head], freed);
    FreeListTally(L, st, freed);
    var flat' := FreeList(L, st, freed).flat;
    DeleteSeparate(L, st.flat, flat', owners, head, freed);
    forall c | 0 <= c < |flat'| ensures flat'[c].next < L.totalClusters || flat'[c].next == LAT_END {
      if c in freed { assert flat'[c] == FREE_ENTRY; }
    }
  }

  /** What is stored for a reserved cluster touches no counter and no chain. */
  lemma ReservedEntry(L: Layout, st: Store, owners: Owners, c: nat, e: LabEntry)
    requires Tally(L, st) && Separate(L, st.flat, owners) && c < L.totalClusters && L.Reserved(c)
    ensures Tally(L, SetEntry(L, st, c, e)) && KeepsTracking(L, st, SetEntry(L, st, c, e))
    ensures Separate(L, SetEntry(L, st, c, e).flat, owners)
  {
    var flat' := st.flat[c := e];
    assert forall k :: 0 <= k < |flat'| ==> FreeAt(L, flat', k) == FreeAt(L, st.flat, k);
    assert forall k :: 0 <= k < |flat'| ==> UsedAt(L, flat', k) == UsedAt(L, st.flat, k);
    assert FreeSet(L, flat') == FreeSet(L, st.flat);
    forall g: nat ensures UsedIn(L, flat', g) == UsedIn(L, st.flat, g) { }
    forall slot | 0 <= slot < |st.counts|
      ensures SlotOk(L, flat', st.mat + {GroupOf(c)}, st.counts, slot)
    {
      assert SlotOk(L, st.flat, st.mat, st.counts, slot);
    }
    forall h | h in owners ensures IsChain(L, flat', owners[h]) {
      ChainFrame(L, st.flat, flat', owners[h]);
    }
  }

  lemma GrowInv(L: Layout, st: Store, owners: Owners, last: nat, level: nat)
    requires Inv(L, st, owners)
    ensures var (st', owners') := Step(L, st, owners, Grow(last, level));
            Inv(L, st', owners') && KeepsTracking(L, st, st')
  {
    var (st1, c) := Allocate(L, st, level);
    AllocateTally(L, st, level);
    AllocateFrame(L, st, level);
    if c != 0 && 0 < last < L.totalClusters && L.Reserved(last) {
      NotOnChains(L, st.flat, owners, c);
      forall h | h in owners ensures IsChain(L, st1.flat, owners[h]) {
        assert forall i :: 0 <= i < |owners[h]| ==> owners[h][i] in owners[h];
        ChainFrame(L, st.flat, st1.flat, owners[h]);
      }
      ReservedEntry(L, st1, owners, last, Linked(EntryOf(L, st1.flat, last), c));
      TrackingTransitive(L, st, st1, SetLink(L, st1, last, c));
    }
  }

  /** Directory growth behind a reserved cluster is lost: the new cluster is taken from the free
      ones and linked, but a lookup still reads the reserved cluster as the end of its chain. */
  lemma GrowthLost(L: Layout, st: Store, last: nat, level: nat)
    requires Tally(L, st) && 0 < last < L.totalClusters && L.Reserved(last) && st.free > 0
    ensures var (st', owners) := Step(L, st, map[], Grow(last, level));
            && st'.free == st.free - 1 && |st'.flat| == L.totalClusters
            && FreeAt(L, st.flat, st'.flat[last].next) && !FreeAt(L, st'.flat, st'.flat[last].next)
            && ChainOf(L, st'.flat, last) == [last] == ChainOf(L, st.flat, last)
  {
    FullDiskExact(L, st);
    AllocateFrame(L, st, level);
  }

  /** The clusters a chain walk reaches. */
  function Reached(ch: seq<nat>): seq<nat> {
    if |ch| <= 1_000_001 then ch else ch[..1_000_001]
  }

  lemma FreeListSet(L: Layout, st: Store, cs: seq<nat>)
    requires Shaped(L, st) && InRange(L, cs) && forall i :: 0 <= i < |cs| ==> !L.Reserved(cs[i])
    ensures FreeSet(L, FreeList(L, st, cs).flat) == FreeSet(L, st.flat) + (set c | c in cs)
  {
    FreeListEntries(L, st, cs);
    var flat' := FreeList(L, st, cs).flat;
    hide FreeList, Layout.Reserved;
    forall c: nat | c < |flat'| ensures FreeAt(L, flat', c) <==> FreeAt(L, st.flat, c) || c in cs {
    }
  }

  lemma FreeChainIs(L: Layout, st: Store, ch: seq<nat>)
    requires Addressable(L) && Shaped(L, st) && IsChain(L, st.flat, ch)
    ensures InRange(L, Reached(ch)) && forall i :: 0 <= i < |Reached(ch)| ==> !L.Reserved(Reached(ch)[i])
    ensures FreeChain(L, st, ch[0]) == FreeList(L, st, Reached(ch))
  {
    ChainOfIsChain(L, st.flat, ch);
  }

  /** Freeing an owned chain clears exactly the entries of its clusters (the first 1,000,001 of
      them), makes exactly these free, and counts each. */
  lemma FreeChainExact(L: Layout, st: Store, owners: Owners, head: nat)
    requires Inv(L, st, owners) && head in owners
    ensures var st', w := FreeChain(L, st, head), Reached(owners[head]);
            && |st'.flat| == |st.flat| && st'.data == st.data && st'.hint == st.hint
            && (forall c :: 0 <= c < |st.flat| ==>
                  st'.flat[c] == if c in w then LabEntry(0, 0, 0, 0) else st.flat[c])
            && FreeSet(L, st'.flat) == FreeSet(L, st.flat) + (set c | c in w)
            && st'.free == st.free + |w|
  {
    assert IsChain(L, st.flat, owners[head]) && owners[head][0] == head;
    assert Addressable(L) && Shaped(L, st);
    hide Inv, IsChain, FreeSet, FreeList, FreeChain;
    FreeChainIs(L, st, owners[head]);
    FreeListEntries(L, st, Reached(owners[head]));
    FreeListSet(L, st, Reached(owners[head]));
  }

  /** What each operation does for the owners and the free clusters. */
  lemma StepEffect(L: Layout, st: Store, owners: Owners, op: Op)
    requires Inv(L, st, owners)
    ensures var (st', owners') := Step(L, st, owners, op);
            match op
            case Create(level) =>
              if st.free == 0 then st' == st && owners' == owners
              else exists c :: FreeAt(L, st.flat, c) && owners' == owners[c := [c]] && st'.free == st.free - 1
            case Extend(head, level) =>
              if st.free == 0 || head !in owners then st' == st && owners' == owners
              else exists c :: FreeAt(L, st.flat, c) && owners' == owners[head := owners[head] + [c]] && st'.free == st.free - 1
            case Truncate(head, keep) =>
              if head !in owners || keep == 0 || keep > |owners[head]| then st' == st && owners' == owners
              else owners' == owners[head := owners[head][..keep]] && st'.free == st.free
            case Delete(head) =>
              if head !in owners then st' == st && owners' == owners
              else owners' == owners - {head} && st'.free == st.free + |Reached(owners[head])|
            case Grow(last, level) =>
              owners' == owners && st'.free == st.free - (if Grows(L, st, op) then 1 else 0)
  {
    FullDiskExact(L, st);
    match op {
      case Create(level) => if st.free > 0 { AllocatedEntry(L, st, level); }
      case Extend(head, level) => if st.free > 0 { AllocatedEntry(L, st, level); }
      case Delete(head) => if head in owners { FreeChainExact(L, st, owners, head); }
      case _ =>
    }
  }

  lemma StepInv(L: Layout, st: Store, owners: Owners, op: Op)
    requires Inv(L, st, owners)
    ensures var (st', owners') := Step(L, st, owners, op); Inv(L, st', owners') && KeepsTracking(L, st, st')
  {
    match op
    case Create(level) => CreateInv(L, st, owners, level);
    case Extend(head, level) => if head in owners { ExtendInv(L, st, owners, head, level); }
    case Truncate(head, keep) =>
      if head in owners && 0 < keep <= |owners[head]| { TruncateInv(L, st, owners, head, keep); }
    case Delete(head) => if head in owners { DeleteInv(L, st, owners, head); }
    case Grow(last, level) => GrowInv(L, st, owners, last, level);
  }

  ghost function Run(L: Layout, st: Store, owners: Owners, ops: seq<Op>): (r: (Store, Owners))
    requires Inv(L, st, owners)
    decreases |ops|
  {
    if |ops| == 0 then (st, owners)
    else
      StepInv(L, st, owners, ops[0]);
      var (st1, owners1) := Step(L, st, owners, ops[0]);
      Run(L, st1, owners1, ops[1..])
  }

  /** Over every run: live chains stay acyclic, disjoint, off the reserved clusters and ended
      by LAT_END; totalFreeClusters is the number of free clusters, the first 170 allocatedCounts
      are exact, and a count that tracks its group goes on doing so. */
  lemma {:induction false} RunInv(L: Layout, st: Store, owners: Owners, ops: seq<Op>)
    requires Inv(L, st, owners)
    ensures var (st', owners') := Run(L, st, owners, ops); Inv(L, st', owners') && KeepsTracking(L, st, st')
    decreases |ops|
  {
    if |ops| > 0 {
      StepInv(L, st, owners, ops[0]);
      var (st1, owners1) := Step(L, st, owners, ops[0]);
      RunInv(L, st1, owners1, ops[1..]);
    }
  }

  predicate SameReserved(L: Layout, flat: seq<LabEntry>, flat': seq<LabEntry>) {
    |flat'| == |flat| && forall c :: 0 <= c < |flat| && L.Reserved(c) ==> flat'[c] == flat[c]
  }

  /** Reserved clusters whose stored entry has never been linked. */
  predicate ReservedFree(L: Layout, flat: seq<LabEntry>) {
    forall c :: 0 <= c < |flat| && L.Reserved(c) ==> flat[c].next == LAT_FREE
  }

  /** The operation grows a directory behind a reserved cluster, and the disk has room. */
  predicate Grows(L: Layout, st: Store, op: Op) {
    op.Grow? && 0 < op.last < L.totalClusters && L.Reserved(op.last) && st.free > 0
  }

  /** An owner's chain, and so its walk, avoids the reserved clusters. */
  lemma OwnedUsable(L: Layout, flat: seq<LabEntry>, owners: Owners, h: nat)
    requires Addressable(L) && |flat| == L.totalClusters && Separate(L, flat, owners) && h in owners
    ensures !L.Reserved(h) && forall c :: c in ChainOf(L, flat, h) ==> !L.Reserved(c)
  {
    assert IsChain(L, flat, owners[h]);
    ChainOfIsChain(L, flat, owners[h]);
    var w := ChainOf(L, flat, h);
    assert forall i :: 0 <= i < |w| ==> w[i] == owners[h][i];
  }

  /** Growth links the reserved cluster it is about; nothing else changes what the table holds
      for a reserved cluster. */
  lemma StepReserved(L: Layout, st: Store, owners: Owners, op: Op)
    requires Inv(L, st, owners)
    ensures var flat' := Step(L, st, owners, op).0.flat;
            if Grows(L, st, op) then
              SameReserved(L, st.flat[op.last := flat'[op.last]], flat') && flat'[op.last].next != LAT_FREE
            else SameReserved(L, st.flat, flat')
  {
    FullDiskExact(L, st);
    hide Bump, NextFit, CountsRight;
    match op {
      case Extend(head, _) => if head in owners { assert IsChain(L, st.flat, owners[head]); }
      case Truncate(head, _) => if head in owners { assert IsChain(L, st.flat, owners[head]); }
      case Delete(head) =>
        if head in owners {
          OwnedUsable(L, st.flat, owners, head);
          FreeListEntries(L, st, ChainOf(L, st.flat, head));
        }
      case _ =>
    }
  }

  /** Some operation of the run grew a directory behind a reserved cluster. */
  ghost predicate GrewIn(L: Layout, st: Store, owners: Owners, ops: seq<Op>)
    requires Inv(L, st, owners)
    decreases |ops|
  {
    |ops| > 0 && (Grows(L, st, ops[0]) ||
      (StepInv(L, st, owners, ops[0]);
       var (st1, owners1) := Step(L, st, owners, ops[0]);
       GrewIn(L, st1, owners1, ops[1..])))
  }

  lemma {:induction false} NoGrowth(L: Layout, st: Store, owners: Owners, ops: seq<Op>)
    requires Inv(L, st, owners) && forall i :: 0 <= i < |ops| ==> !ops[i].Grow?
    ensures !GrewIn(L, st, owners, ops)
    decreases |ops|
  {
    hide Step;
    if |ops| > 0 {
      StepInv(L, st, owners, ops[0]);
      var (st1, owners1) := Step(L, st, owners, ops[0]);
      assert !ops[0].Grow? && forall i :: 0 <= i < |ops| - 1 ==> ops[1..][i] == ops[i + 1];
      NoGrowth(L, st1, owners1, ops[1..]);
    }
  }

  lemma StepReservedFree(L: Layout, st: Store, owners: Owners, op: Op)
    requires Inv(L, st, owners)
    ensures ReservedFree(L, Step(L, st, owners, op).0.flat) <==> ReservedFree(L, st.flat) && !Grows(L, st, op)
  {
    var flat' := Step(L, st, owners, op).0.flat;
    StepReserved(L, st, owners, op);
    hide Inv, Step;
    if !Grows(L, st, op) && !ReservedFree(L, st.flat) {
      var c :| 0 <= c < |st.flat| && L.Reserved(c) && st.flat[c].next != LAT_FREE;
      assert flat'[c] == st.flat[c];
    }
  }

  /** Over every run: the reserved clusters stay unlinked in the table if and only if no directory
      was grown behind one. */
  lemma {:induction false} RunReserved(L: Layout, st: Store, owners: Owners, ops: seq<Op>)
    requires Inv(L, st, owners)
    ensures ReservedFree(L, Run(L, st, owners, ops).0.flat)
            <==> ReservedFree(L, st.flat) && !GrewIn(L, st, owners, ops)
    decreases |ops|
  {
    hide Step, ReservedFree, Grows;
    if |ops| > 0 {
      StepInv(L, st, owners, ops[0]);
      StepReservedFree(L, st, owners, ops[0]);
      var (st1, owners1) := Step(L, st, owners, ops[0]);
      RunReserved(L, st1, owners1, ops[1..]);
    }
  }

  /** A group's count, exactly. In the first 170 groups it is always right. From there on the slot
      counts another group: it is right if and only if no cluster of the group is in use, when
      that other group lies beyond the volume, and if and only if both groups have equally many
      used clusters, when the slot tracks the other group. It tracks that group from any moment
      on at which it has a LAB and the other group is unused, and before it has one it is right. */
  lemma CountExactIff(L: Layout, st: Store, g: nat)
    requires Tally(L, st) && g < L.Groups()
    ensures g < |st.counts|
    ensures var exact := st.counts[g] == |UsedIn(L, st.flat, g)|;
            && (g < 170 || g !in st.mat ==> exact)
            && (g in st.mat && UsedIn(L, st.flat, CountedGroup(g)) == {} ==> Tracks(L, st, g))
            && (g >= 170 && CountedGroup(g) >= L.Groups() ==>
                  st.counts[g] == 0 && (exact <==> UsedIn(L, st.flat, g) == {}))
            && (Tracks(L, st, g) ==>
                  (exact <==> |UsedIn(L, st.flat, g)| == |UsedIn(L, st.flat, CountedGroup(g))|))
  {
    assert SlotOk(L, st.flat, st.mat, st.counts, g);
    if g !in st.mat {
      assert UsedIn(L, st.flat, g) == {};
    }
    if CountedGroup(g) >= L.Groups() {
      assert UsedIn(L, st.flat, CountedGroup(g)) == {};
    }
  }

  /** What the formatter leaves behind: nothing allocated, no LAB in use. */
  function FormattedStore(L: Layout, data: seq<Bytes>): Store
    requires |data| == L.totalClusters
  {
    Store(seq(L.totalClusters, i => FREE_ENTRY), data, {}, seq(L.LitCapacity(), i => 0),
          L.rootDirCluster + 2, L.totalClusters - (L.rootDirCluster + 2) - 1)
  }

  /** Formatting establishes the invariant. */
  lemma FormatInv(L: Layout, data: seq<Bytes>)
    requires WellFormed(L) && |data| == L.totalClusters
    ensures Inv(L, FormattedStore(L, data), map[])
  {
    var st := FormattedStore(L, data);
    FormatFreeCount(L);
    assert forall c :: 0 <= c < L.totalClusters ==> (FreeAt(L, st.flat, c) <==> !L.Reserved(c));
    assert FreeSet(L, st.flat) == Usable(L);
    forall g | 0 <= g < |st.counts| ensures st.counts[g] == |UsedIn(L, st.flat, g)| {
      assert UsedIn(L, st.flat, g) == {};
    }
  }

  /** From a formatted volume of at most 512 groups, after any run: a group's allocatedCount is
      the number of its used clusters if and only if the group is one of the first 170 or has no
      used cluster. */
  lemma FormattedRunCounts(L: Layout, data: seq<Bytes>, ops: seq<Op>, g: nat)
    requires WellFormed(L) && |data| == L.totalClusters && g < L.Groups() <= 512
    ensures Inv(L, FormattedStore(L, data), map[]) && g < L.LitCapacity()
    ensures var st := Run(L, FormattedStore(L, data), map[], ops).0;
            && Shaped(L, st)
            && (st.counts[g] == |UsedIn(L, st.flat, g)| <==> g < 170 || UsedIn(L, st.flat, g) == {})
  {
    FormatInv(L, data);
    RunInv(L, FormattedStore(L, data), map[], ops);
    CountExactIff(L, Run(L, FormattedStore(L, data), map[], ops).0, g);
  }
}
