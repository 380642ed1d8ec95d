/**
 * Where the defragmenter looks for a cluster's entry. Its getLABEntry and setLABEntry divide the
 * cluster number by 256 and take the quotient as an absolute sector of the volume; they never use
 * the LIT. A sector holds 32 entries, although the remainder goes up to 255.
 */
module DefragTable {
  import opened DiskLayout
  import opened ClusterMap
  import opened Volumes

  /** An entry's place: a sector of the volume, and the position among its 32 entries. From
      position 32 on it lies beyond the sector that was read. */
  datatype Place = Place(sector: nat, index: nat)

  /** The place the defragmenter reads and writes for a cluster. */
  function AddressedPlace(c: nat): Place {
    Place(c / 256, c % 256)
  }

  /** The cluster's own entry, in the LAB of its group: eight sectors of 32 entries. */
  function OwnPlace(lab: nat, c: nat): Place {
    Place(8 * lab + OffsetIn(c) / 32, OffsetIn(c) % 32)
  }

  /** The lookup lands on the cluster's own entry if and only if it is one of the first 32 of its
      group and the group's number is the first sector of the group's LAB. */
  lemma OwnEntryExact(L: Layout, d: seq<Block>, used: nat, st: Store, c: nat)
    requires Represents(L, d, used, st) && c < L.totalClusters && GroupOf(c) in st.mat
    ensures GroupOf(c) < |LitView(L, d)|
    ensures var lab := LitView(L, d)[GroupOf(c)].labCluster;
            AddressedPlace(c) == OwnPlace(lab, c) <==> OffsetIn(c) < 32 && GroupOf(c) == 8 * lab
  {
    LabPlace(L, d, used, st, GroupOf(c));
    hide Represents, LitView;
  }

  /** So on a volume of at most 8 * labPoolStart groups, which every volume of up to 16 groups is,
      it never does: what is read and written lies in the superblock's cluster or the LIT. */
  lemma SmallVolumesMiss(L: Layout, d: seq<Block>, used: nat, st: Store, c: nat)
    requires Represents(L, d, used, st) && c < L.totalClusters && GroupOf(c) in st.mat
    requires L.Groups() <= 8 * L.labPoolStart
    ensures GroupOf(c) < |LitView(L, d)|
    ensures AddressedPlace(c) != OwnPlace(LitView(L, d)[GroupOf(c)].labCluster, c)
    ensures AddressedPlace(c).sector / 8 < L.labPoolStart
  {
    LabPlace(L, d, used, st, GroupOf(c));
    OwnEntryExact(L, d, used, st, c);
    GroupInLit(L, c);
    hide Represents, LitView;
  }

  lemma SixteenGroups(L: Layout)
    requires Zoned(L) && L.Groups() <= 16
    ensures L.Groups() <= 8 * L.labPoolStart
  {
    assert L.litClusters >= 1;
  }

  /** On any volume the sector lies in the superblock's cluster, the LIT or the LAB pool, never in
      a file: a link the defragmenter writes goes to other metadata unless it is the own entry. */
  lemma AlwaysMetadata(L: Layout, c: nat)
    requires Zoned(L) && c < L.totalClusters
    ensures AddressedPlace(c).sector / 8 < L.labPoolStart + L.labPoolClusters
    ensures L.Reserved(AddressedPlace(c).sector / 8)
  {
    MetadataReserved(L);
    GroupInLit(L, c);
    var k := AddressedPlace(c).sector / 8;
    assert k <= GroupOf(c);
  }

  /* ---------- Writing a link ---------- */

  /** setLABEntry on the volume's sectors of 32 entries: read a sector into a buffer of 256
      entries, change one of them, write the first 32 back. */
  function SetLinkAt(sectors: seq<seq<LabEntry>>, c: nat, next: nat): seq<seq<LabEntry>>
    requires forall i :: 0 <= i < |sectors| ==> |sectors[i]| == 32
    requires c / 256 < |sectors|
  {
    if c % 256 < 32 then sectors[c / 256 := sectors[c / 256][c % 256 := sectors[c / 256][c % 256].(next := next)]]
    else sectors
  }

  /** The write reaches a cluster's own entry exactly when the lookup does; for the last 224
      clusters of every group it changes nothing anywhere. */
  lemma LinkWritten(L: Layout, d: seq<Block>, used: nat, st: Store, sectors: seq<seq<LabEntry>>, c: nat, next: nat)
    requires Represents(L, d, used, st) && c < L.totalClusters && GroupOf(c) in st.mat
    requires |sectors| == 8 * L.totalClusters && forall i :: 0 <= i < |sectors| ==> |sectors[i]| == 32
    requires forall i, j :: 0 <= i < |sectors| && 0 <= j < 32 ==> sectors[i][j].next != next
    ensures c / 256 < |sectors| && GroupOf(c) < |LitView(L, d)|
    ensures OffsetIn(c) >= 32 ==> SetLinkAt(sectors, c, next) == sectors
    ensures var lab := LitView(L, d)[GroupOf(c)].labCluster;
            var own := OwnPlace(lab, c);
            && own.sector < |sectors|
            && (SetLinkAt(sectors, c, next)[own.sector][own.index].next == next
                <==> OffsetIn(c) < 32 && GroupOf(c) == 8 * lab)
  {
    OwnEntryExact(L, d, used, st, c);
    LabPlace(L, d, used, st, GroupOf(c));
    RepresentsShaped(L, d, used, st);
    hide Represents, LitView;
    var own := OwnPlace(LitView(L, d)[GroupOf(c)].labCluster, c);
    assert own.index < 32;
  }
}
