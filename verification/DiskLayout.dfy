/**
 * On-disk layout of a LevelFS v2 volume: the regions the formatter carves out,
 * the reserved clusters the allocator must never hand out, and the addressing
 * of the Level Index Table (LIT).
 */
module DiskLayout {
  const CLUSTER_SIZE: nat := 4096

  const LAT_FREE: nat := 0
  const LAT_END: nat := 0xFFFF_FFFF_FFFF_FFFF
  const LAT_BAD: nat := 0xFFFF_FFFF_FFFF_FFFE

  /** LAB entries in one cluster, and clusters per LIT entry. */
  const LAB_ENTRIES: nat := 256
  /** Whole 24-byte LIT entries in one cluster: what the lookups divide by. */
  const LIT_SLOTS: nat := 170

  function GroupOf(c: nat): nat { c / 256 }

  function OffsetIn(c: nat): nat { c % 256 }

  function BaseOf(g: nat): nat { g * 256 }

  /** Clusters needed to hold n bytes. */
  function ClustersFor(n: nat): nat { (n + 4095) / 4096 }

  /** The layout part of the superblock; it never changes after formatting. */
  datatype Layout = Layout(
    totalClusters: nat,
    backupSBCluster: nat,
    litStartCluster: nat,
    litClusters: nat,
    labPoolStart: nat,
    labPoolClusters: nat,
    levelRegistryCluster: nat,
    levelRegistryClusters: nat,
    journalStartCluster: nat,
    journalSectors: nat,
    rootDirCluster: nat)
  {
    function JournalSpan(): nat {
      journalSectors / 8 + 1
    }

    predicate Reserved(c: nat) {
      || c == 0
      || c == backupSBCluster
      || litStartCluster <= c < litStartCluster + litClusters
      || labPoolStart <= c < labPoolStart + labPoolClusters
      || levelRegistryCluster <= c < levelRegistryCluster + levelRegistryClusters
      || journalStartCluster <= c < journalStartCluster + JournalSpan()
      || rootDirCluster <= c <= rootDirCluster + 1
    }

    /** One jump of the allocation scan. It stops at `c` exactly when `c` is usable,
        and otherwise jumps forward over reserved clusters only. */
    function SkipPastReserved(c: nat): (r: nat)
      ensures c <= r
      ensures r == c <==> !Reserved(c)
      ensures forall k :: c <= k < r ==> Reserved(k)
    {
      if c == 0 then 1
      else if c == backupSBCluster then c + 1
      else if litStartCluster <= c < litStartCluster + litClusters then
        litStartCluster + litClusters
      else if labPoolStart <= c < labPoolStart + labPoolClusters then
        labPoolStart + labPoolClusters
      else if levelRegistryCluster <= c < levelRegistryCluster + levelRegistryClusters then
        levelRegistryCluster + levelRegistryClusters
      else if journalStartCluster <= c < journalStartCluster + JournalSpan() then
        journalStartCluster + JournalSpan()
      else if rootDirCluster <= c <= rootDirCluster + 1 then
        rootDirCluster + 2
      else c
    }

    /** LIT entries (groups of 256 clusters) the volume needs. */
    function Groups(): nat {
      (totalClusters + 255) / 256
    }

    /** LIT entries the LIT region has room for. */
    function LitCapacity(): nat {
      170 * litClusters
    }
  }

  /** The layout arithmetic of the formatter, by number of clusters. */
  function FormatLayout(total: nat): Layout
    requires total > 0
  {
    var groups := (total + 255) / 256;
    var litClusters := ClustersFor(groups * 24);
    var labPoolStart := 1 + litClusters;
    var registry := labPoolStart + groups;
    var journalSectors := (1024 * 72 + 511) / 512;
    var journal := registry + 2;
    var root := journal + (journalSectors + 7) / 8;
    Layout(total, total - 1, 1, litClusters, labPoolStart, groups,
           registry, 2, journal, journalSectors, root)
  }

  /** Every group's LIT entry has a slot inside the LIT region, at 170 entries a cluster. */
  predicate LitFits(L: Layout) {
    L.Groups() <= L.LitCapacity()
  }

  /** All the chain layer needs: 64-bit cluster numbers and a LIT that fits. */
  predicate Addressable(L: Layout) {
    0 < L.totalClusters < LAT_BAD && LitFits(L)
  }

  /** The layouts of mounted volumes: produced by the formatter, large enough for their own
      metadata, and addressable. */
  predicate WellFormed(L: Layout) {
    && Addressable(L)
    && L == FormatLayout(L.totalClusters)
    && L.rootDirCluster + 3 <= L.totalClusters
  }

  /** Format, part 1: the reserved clusters are exactly the metadata prefix and the
      backup superblock in the last cluster. */
  lemma FormatReserved(L: Layout, c: nat)
    requires 0 < L.totalClusters
    requires L == FormatLayout(L.totalClusters)
    requires c < L.totalClusters
    ensures L.Reserved(c) <==> c < L.rootDirCluster + 2 || c == L.totalClusters - 1
  {
    assert L.journalSectors == 144;
    assert L.rootDirCluster == L.journalStartCluster + 18;
  }

  /** The usable clusters of a formatted volume. */
  ghost function Usable(L: Layout): set<nat> {
    set c: nat | c < L.totalClusters && !L.Reserved(c)
  }

  lemma {:induction false} IntervalSize(lo: nat, hi: nat, s: set<nat>)
    requires lo <= hi
    requires forall c: nat :: c in s <==> lo <= c < hi
    ensures |s| == hi - lo
    decreases hi - lo
  {
    if lo < hi {
      assert lo in s;
      IntervalSize(lo + 1, hi, s - {lo});
    } else {
      assert s == {};
    }
  }

  /** Format, part 2: the free counter it stores (total - reserved - 1) is exactly the
      number of usable clusters. */
  lemma FormatFreeCount(L: Layout)
    requires 0 < L.totalClusters
    requires L == FormatLayout(L.totalClusters)
    requires L.rootDirCluster + 3 <= L.totalClusters
    ensures |Usable(L)| == L.totalClusters - (L.rootDirCluster + 2) - 1
  {
    forall c: nat | c < L.totalClusters
      ensures c in Usable(L) <==> L.rootDirCluster + 2 <= c < L.totalClusters - 1
    {
      FormatReserved(L, c);
    }
    IntervalSize(L.rootDirCluster + 2, L.totalClusters - 1, Usable(L));
  }

  /** The LIT is sized by bytes but addressed at 170 entries a cluster. Each group's LIT
      cluster lies in the LIT region if and only if LitFits. */
  lemma LitAddressing(L: Layout)
    requires 0 < L.totalClusters
    requires L == FormatLayout(L.totalClusters)
    ensures LitFits(L) <==> forall g :: 0 <= g < L.Groups() ==> g / 170 < L.litClusters
  {
    var g := L.Groups() - 1;
    assert g / 170 < L.litClusters <==> g < L.LitCapacity();
  }

  /** A volume of 341 groups (87296 clusters) does not fit: its last LIT lookup lands in the
      first cluster of the LAB pool. Every smaller volume does. */
  lemma LitFitsBelow341()
    ensures forall n :: 0 < n <= BaseOf(340) ==> LitFits(FormatLayout(n))
    ensures var L := FormatLayout(BaseOf(341));
            !LitFits(L) && L.litStartCluster + (L.Groups() - 1) / LIT_SLOTS == L.labPoolStart
  {
    forall n | 0 < n <= BaseOf(340)
      ensures LitFits(FormatLayout(n))
    {
      var groups := FormatLayout(n).Groups();
      assert groups <= 340;
      assert groups > 170 ==> ClustersFor(groups * 24) >= 2;
    }
  }
}
