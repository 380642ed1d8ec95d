/**
 * Whole runs of file creation, overwriting and removal. At every moment each live file reads
 * back what its last write left in it, whatever happened to the other files in between.
 */
module FileRuns {
  import opened DiskLayout
  import opened ClusterMap
  import opened ChainStore
  import opened FileStore

  /** `size` is the directory entry's size field; `contents` what the last write left behind. */
  datatype File = File(size: nat, contents: Bytes)

  /** Directory entries are named by their start cluster; `owners` are their chains. */
  datatype FileState = FileState(st: Store, owners: Owners, files: map<nat, File>)

  datatype FileOp =
    | WriteNew(bytes: Bytes, level: nat)
    | Overwrite(head: nat, bytes: Bytes, level: nat)
    | Remove(head: nat)
    | GrowDir(last: nat, level: nat)

  ghost predicate Holds(L: Layout, fs: FileState) {
    && Inv(L, fs.st, fs.owners) && FullBlocks(fs.st)
    && fs.files.Keys == fs.owners.Keys
    && forall h :: h in fs.files ==> ReadFile(L, fs.st, h, fs.files[h].size) == fs.files[h].contents
  }

  /** Write `bytes` to a live file. The entry's size is always set to |bytes|; what a reader
      then gets is all of `bytes` or, on a full disk or a file beyond the walk's cap, a prefix. */
  ghost function WriteFile(L: Layout, fs: FileState, head: nat, bytes: Bytes, level: nat): (r: FileState)
    requires Holds(L, fs) && head in fs.owners && |bytes| > 0
    ensures Holds(L, r)
    ensures forall h :: h in fs.files && h != head ==> h in r.files && r.files[h] == fs.files[h]
  {
    hide Holds, FullBlocks, LinksInRange, WriteChunks;
    WriteHolds(L, fs, head, bytes, level);
    AfterWrite(L, fs, head, bytes, level)
  }

  ghost function AfterWrite(L: Layout, fs: FileState, head: nat, bytes: Bytes, level: nat): (r: FileState)
    requires Shaped(L, fs.st) && LinksInRange(L, fs.st.flat) && 0 < head < L.totalClusters && |bytes| > 0
    requires FullBlocks(WriteChunks(L, fs.st, head, Chunks(bytes), level).0)
    ensures head in r.files && r.files[head].size == |bytes|
    ensures forall h :: h in fs.files && h != head ==> h in r.files && r.files[h] == fs.files[h]
  {
    var st' := WriteChunks(L, fs.st, head, Chunks(bytes), level).0;
    FileState(st',
              fs.owners[head := WrittenChain(L, fs.st, head, Chunks(bytes), level)],
              fs.files[head := File(|bytes|, ReadFile(L, st', head, |bytes|))])
  }

  /** A chain untouched in both its links and its bytes reads the same. */
  lemma ReadFrame(L: Layout, st: Store, st': Store, ch: seq<nat>, size: nat)
    requires Addressable(L) && Shaped(L, st) && Shaped(L, st') && FullBlocks(st) && FullBlocks(st')
    requires IsChain(L, st.flat, ch) && IsChain(L, st'.flat, ch)
    requires forall c :: c in ch ==> c < L.totalClusters && st'.data[c] == st.data[c]
    ensures ReadFile(L, st', ch[0], size) == ReadFile(L, st, ch[0], size)
  {
    ChainOfIsChain(L, st.flat, ch);
    ChainOfIsChain(L, st'.flat, ch);
    var w := ChainOf(L, st.flat, ch[0]);
    assert forall i :: 0 <= i < |w| ==> w[i] in ch;
    ReadAlongFrame(st.data, st'.data, w, size);
  }

  lemma {:induction false} ReadAlongFrame(data: seq<Bytes>, data': seq<Bytes>, w: seq<nat>, size: nat)
    requires |data| == |data'|
    requires forall i :: 0 <= i < |w| ==> w[i] < |data| && |data[w[i]]| == CLUSTER_SIZE && data'[w[i]] == data[w[i]]
    ensures ReadAlong(data', w, size) == ReadAlong(data, w, size)
    decreases |w|
  {
    if |w| > 0 && size > 0 {
      var n := if size < CLUSTER_SIZE then size else CLUSTER_SIZE;
      ReadAlongFrame(data, data', w[1..], size - n);
    }
  }

  lemma WriteHolds(L: Layout, fs: FileState, head: nat, bytes: Bytes, level: nat)
    requires Holds(L, fs) && head in fs.owners && |bytes| > 0
    ensures Shaped(L, fs.st) && LinksInRange(L, fs.st.flat)
    ensures 0 < head < L.totalClusters && FullBlocks(WriteChunks(L, fs.st, head, Chunks(bytes), level).0)
    ensures var r := AfterWrite(L, fs, head, bytes, level);
            && Holds(L, r)
            && r.files[head].contents <= bytes
            && (r.files[head].contents == bytes <==>
                  |Chunks(bytes)| <= |fs.owners[head]| + fs.st.free && |Chunks(bytes)| <= 1_000_001)
  {
    assert IsChain(L, fs.st.flat, fs.owners[head]) && fs.owners[head][0] == head;
    WriteThenRead(L, fs.st, fs.owners[head], bytes, level);
    WriteKeepsOthers(L, fs.st, fs.owners, head, Chunks(bytes), level);
    var r := AfterWrite(L, fs, head, bytes, level);
    forall h | h in r.files ensures ReadFile(L, r.st, h, r.files[h].size) == r.files[h].contents {
      if h != head {
        OthersRead(L, fs, r.st, r.owners, h);
      }
    }
  }

  lemma OthersRead(L: Layout, fs: FileState, st': Store, owners': Owners, h: nat)
    requires Holds(L, fs) && h in fs.files
    requires Inv(L, st', owners') && FullBlocks(st') && h in owners' && owners'[h] == fs.owners[h]
    requires forall c :: c in fs.owners[h] ==> c < L.totalClusters && st'.data[c] == fs.st.data[c]
    ensures ReadFile(L, st', h, fs.files[h].size) == fs.files[h].contents
  {
    ReadFrame(L, fs.st, st', fs.owners[h], fs.files[h].size);
  }

  /** The clusters of an owned chain are in range. */
  lemma OwnedInRange(L: Layout, flat: seq<LabEntry>, owners: Owners, h: nat)
    requires |flat| == L.totalClusters && Separate(L, flat, owners) && h in owners
    ensures forall c :: c in owners[h] ==> c < L.totalClusters
  {
    assert IsChain(L, flat, owners[h]);
  }

  lemma HeadsOwned(L: Layout, flat: seq<LabEntry>, owners: Owners)
    requires |flat| == L.totalClusters && Separate(L, flat, owners)
    ensures forall h :: h in owners ==> h in owners[h]
  {
    forall h | h in owners ensures h in owners[h] {
      assert IsChain(L, flat, owners[h]) && owners[h][0] == h;
    }
  }

  /** A new file: one cluster is allocated as its chain, then it is written like any other. */
  ghost function NewFile(L: Layout, fs: FileState, level: nat): (r: (FileState, nat))
    requires Holds(L, fs)
    ensures Holds(L, r.0)
    ensures r.1 != 0 ==> r.1 in r.0.owners && r.1 !in fs.owners
    ensures r.1 == 0 ==> r.0 == fs
    ensures forall h :: h in fs.files ==> h in r.0.files && r.0.files[h] == fs.files[h]
  {
    var (st1, c) := Allocate(L, fs.st, level);
    if c == 0 then AllocateFrame(L, fs.st, level); (fs, 0)
    else
      NewFileHolds(L, fs, level);
      (FileState(st1, fs.owners[c := [c]], fs.files[c := File(0, [])]), c)
  }

  lemma NewFileInv(L: Layout, st: Store, owners: Owners, level: nat)
    requires Inv(L, st, owners)
    ensures var (st1, c) := Allocate(L, st, level);
            && st1.data == st.data
            && (c != 0 ==> c !in owners && Inv(L, st1, owners[c := [c]]))
  {
    AllocateFrame(L, st, level);
    var (st1, c) := Allocate(L, st, level);
    if c != 0 {
      CreateInv(L, st, owners, level);
      NotOnChains(L, st.flat, owners, c);
      HeadsOwned(L, st.flat, owners);
    }
  }

  /** Files whose chains and bytes are untouched still read the same. */
  lemma FilesKept(L: Layout, fs: FileState, st': Store, owners': Owners)
    requires Holds(L, fs) && Inv(L, st', owners') && FullBlocks(st')
    ensures forall h :: h in fs.files && h in owners' && owners'[h] == fs.owners[h]
              && (forall c :: c in fs.owners[h] && c < L.totalClusters ==> st'.data[c] == fs.st.data[c])
              ==> ReadFile(L, st', h, fs.files[h].size) == fs.files[h].contents
  {
    forall h | h in fs.files && h in owners' && owners'[h] == fs.owners[h]
               && (forall c :: c in fs.owners[h] && c < L.totalClusters ==> st'.data[c] == fs.st.data[c])
      ensures ReadFile(L, st', h, fs.files[h].size) == fs.files[h].contents
    {
      OwnedInRange(L, fs.st.flat, fs.owners, h);
      OthersRead(L, fs, st', owners', h);
    }
  }

  lemma NewFileHolds(L: Layout, fs: FileState, level: nat)
    requires Holds(L, fs)
    ensures var (st1, c) := Allocate(L, fs.st, level);
            c != 0 ==> c !in fs.owners && Holds(L, FileState(st1, fs.owners[c := [c]], fs.files[c := File(0, [])]))
  {
    NewFileInv(L, fs.st, fs.owners, level);
    var (st1, c) := Allocate(L, fs.st, level);
    if c != 0 {
      FilesKept(L, fs, st1, fs.owners[c := [c]]);
    }
  }

  lemma RemoveHolds(L: Layout, fs: FileState, head: nat)
    requires Holds(L, fs) && head in fs.owners
    ensures Holds(L, FileState(FreeChain(L, fs.st, head), fs.owners - {head}, fs.files - {head}))
  {
    hide CountsRight, LinksInRange, Separate, ReadFile;
    DeleteInv(L, fs.st, fs.owners, head);
    FilesKept(L, fs, FreeChain(L, fs.st, head), fs.owners - {head});
  }

  ghost function FileStep(L: Layout, fs: FileState, op: FileOp): (r: FileState)
    requires Holds(L, fs)
    ensures Holds(L, r)
    ensures forall h :: h in fs.files && !Touches(op, h) ==> h in r.files && r.files[h] == fs.files[h]
  {
    match op
    case WriteNew(bytes, level) =>
      if |bytes| == 0 then fs
      else
        var (fs1, c) := NewFile(L, fs, level);
        if c == 0 then fs1 else WriteFile(L, fs1, c, bytes, level)
    case Overwrite(head, bytes, level) =>
      if |bytes| == 0 || head !in fs.owners then fs else WriteFile(L, fs, head, bytes, level)
    case Remove(head) =>
      if head !in fs.owners then fs
      else
        RemoveHolds(L, fs, head);
        FileState(FreeChain(L, fs.st, head), fs.owners - {head}, fs.files - {head})
    case GrowDir(last, level) =>
      GrowHolds(L, fs, last, level);
      fs.(st := Step(L, fs.st, fs.owners, Grow(last, level)).0)
  }

  lemma GrowData(L: Layout, st: Store, owners: Owners, last: nat, level: nat)
    requires Inv(L, st, owners)
    ensures Step(L, st, owners, Grow(last, level)).0.data == st.data
    ensures Step(L, st, owners, Grow(last, level)).1 == owners
  {
    AllocateFrame(L, st, level);
  }

  /** Growing a directory behind a reserved cluster leaves every file readable. */
  lemma GrowHolds(L: Layout, fs: FileState, last: nat, level: nat)
    requires Holds(L, fs)
    ensures Inv(L, fs.st, fs.owners) && Holds(L, fs.(st := Step(L, fs.st, fs.owners, Grow(last, level)).0))
  {
    assert Inv(L, fs.st, fs.owners);
    GrowInv(L, fs.st, fs.owners, last, level);
    GrowData(L, fs.st, fs.owners, last, level);
    hide Inv, ReadFile, Step;
    FilesKept(L, fs, Step(L, fs.st, fs.owners, Grow(last, level)).0, fs.owners);
  }

  /** What each operation does to the files. A new file or an overwritten one gets its full size,
      and reads back its bytes if and only if their clusters are at most the free ones (and the
      file's old ones) beforehand, and at most 1,000,001. */
  lemma FileStepEffect(L: Layout, fs: FileState, op: FileOp)
    requires Holds(L, fs)
    ensures var r := FileStep(L, fs, op);
            match op
            case WriteNew(bytes, level) =>
              if |bytes| == 0 || fs.st.free == 0 then r == fs
              else
                exists c ::
                  && c !in fs.files && r.files.Keys == fs.files.Keys + {c} && r.files[c].size == |bytes|
                  && (r.files[c].contents == bytes <==> |Chunks(bytes)| <= fs.st.free && |Chunks(bytes)| <= 1_000_001)
            case Overwrite(head, bytes, level) =>
              if |bytes| == 0 || head !in fs.files then r == fs
              else
                && r.files.Keys == fs.files.Keys && r.files[head].size == |bytes|
                && (r.files[head].contents == bytes <==>
                      |Chunks(bytes)| <= |fs.owners[head]| + fs.st.free && |Chunks(bytes)| <= 1_000_001)
            case Remove(head) =>
              if head !in fs.files then r == fs
              else
                && r.files == fs.files - {head} && r.st.free == fs.st.free + |Reached(fs.owners[head])|
                && FreeSet(L, r.st.flat) == FreeSet(L, fs.st.flat) + (set c | c in Reached(fs.owners[head]))
            case GrowDir(last, level) => r.files == fs.files && r.owners == fs.owners
  {
    match op
    case WriteNew(bytes, level) =>
      FullDiskExact(L, fs.st);
      if |bytes| > 0 && fs.st.free > 0 {
        var (fs1, c) := NewFile(L, fs, level);
        NewFileAlone(L, fs, level);
        NewFileComplete(L, fs, bytes, level);
        hide Holds, NewFile, WriteFile;
        WrittenKeys(L, fs1, c, bytes, level);
      }
    case Overwrite(head, bytes, level) =>
      if |bytes| > 0 && head in fs.files {
        WriteHolds(L, fs, head, bytes, level);
        WrittenKeys(L, fs, head, bytes, level);
      }
    case Remove(head) =>
      if head in fs.files { FreeChainExact(L, fs.st, fs.owners, head); }
    case GrowDir(last, level) => GrowData(L, fs.st, fs.owners, last, level);
  }

  lemma WrittenKeys(L: Layout, fs: FileState, head: nat, bytes: Bytes, level: nat)
    requires Holds(L, fs) && head in fs.owners && |bytes| > 0
    ensures var r := WriteFile(L, fs, head, bytes, level);
            r.files.Keys == fs.files.Keys && head in r.files && r.files[head].size == |bytes|
  {
    WriteHolds(L, fs, head, bytes, level);
  }

  lemma NewFileComplete(L: Layout, fs: FileState, bytes: Bytes, level: nat)
    requires Holds(L, fs) && |bytes| > 0
    ensures var (fs1, c) := NewFile(L, fs, level);
            && (c != 0 <==> fs.st.free > 0)
            && (c != 0 ==> c in fs1.owners)
            && (c != 0 ==> (WriteFile(L, fs1, c, bytes, level).files[c].contents == bytes
                            <==> |Chunks(bytes)| <= fs.st.free && |Chunks(bytes)| <= 1_000_001))
  {
    FullDiskExact(L, fs.st);
    var (fs1, c) := NewFile(L, fs, level);
    if c != 0 {
      NewFileAlone(L, fs, level);
      hide Holds, NewFile;
      WriteHolds(L, fs1, c, bytes, level);
    }
  }

  lemma NewFileAlone(L: Layout, fs: FileState, level: nat)
    requires Holds(L, fs)
    ensures var (fs1, c) := NewFile(L, fs, level);
            c != 0 ==>
              && c in fs1.owners && fs1.owners[c] == [c] && fs1.st.free == fs.st.free - 1
              && c !in fs.files && fs1.files.Keys == fs.files.Keys + {c}
  {
    var (st1, c) := Allocate(L, fs.st, level);
    NewFileInv(L, fs.st, fs.owners, level);
    hide Holds, Inv, Allocate;
  }

  /** Runs start from a freshly formatted volume. */
  lemma FormattedHolds(L: Layout, data: seq<Bytes>)
    requires WellFormed(L) && |data| == L.totalClusters
    requires forall c :: 0 <= c < |data| ==> |data[c]| == CLUSTER_SIZE
    ensures Holds(L, FileState(FormattedStore(L, data), map[], map[]))
  {
    FormatInv(L, data);
  }

  ghost function FileRun(L: Layout, fs: FileState, ops: seq<FileOp>): (r: FileState)
    requires Holds(L, fs)
    ensures Holds(L, r)
    decreases |ops|
  {
    if |ops| == 0 then fs else FileRun(L, FileStep(L, fs, ops[0]), ops[1..])
  }

  predicate Touches(op: FileOp, h: nat) {
    (op.Overwrite? || op.Remove?) && op.head == h
  }

  lemma {:induction false} RunKeepsEntry(L: Layout, fs: FileState, h: nat, ops: seq<FileOp>)
    requires Holds(L, fs) && h in fs.files
    requires forall i :: 0 <= i < |ops| ==> !Touches(ops[i], h)
    ensures var r := FileRun(L, fs, ops); h in r.files && r.files[h] == fs.files[h]
    decreases |ops|
  {
    hide Holds, FileStep;
    if |ops| > 0 {
      assert !Touches(ops[0], h);
      RunKeepsEntry(L, FileStep(L, fs, ops[0]), h, ops[1..]);
    }
  }

  /** Durability: after an overwrite that fits into the file's clusters and the free ones, any run
      of operations on other files leaves it reading back exactly the bytes written. */
  lemma FileSurvives(L: Layout, fs: FileState, h: nat, bytes: Bytes, level: nat, ops: seq<FileOp>)
    requires Holds(L, fs) && h in fs.owners && |bytes| > 0
    requires |Chunks(bytes)| <= |fs.owners[h]| + fs.st.free && |Chunks(bytes)| <= 1_000_001
    requires forall i :: 0 <= i < |ops| ==> !Touches(ops[i], h)
    ensures ReadFile(L, FileRun(L, fs, [Overwrite(h, bytes, level)] + ops).st, h, |bytes|) == bytes
  {
    FileStepEffect(L, fs, Overwrite(h, bytes, level));
    var fs1 := FileStep(L, fs, Overwrite(h, bytes, level));
    hide FileStep;
    RunKeepsEntry(L, fs1, h, ops);
    assert ([Overwrite(h, bytes, level)] + ops)[1..] == ops;
  }

  /* ---------- Reserved clusters ---------- */

  lemma WriteReserved(L: Layout, fs: FileState, head: nat, bytes: Bytes, level: nat)
    requires Holds(L, fs) && head in fs.owners && |bytes| > 0
    ensures SameReserved(L, fs.st.flat, WriteFile(L, fs, head, bytes, level).st.flat)
  {
    WriteHolds(L, fs, head, bytes, level);
    assert Inv(L, fs.st, fs.owners);
    assert IsChain(L, fs.st.flat, fs.owners[head]) && fs.owners[head][0] == head;
    hide Holds, FullBlocks;
    WriteWorks(L, fs.st, fs.owners[head], Chunks(bytes), level);
    WrittenReserved(L, fs.st, fs.owners[head], Chunks(bytes), level);
  }

  lemma WrittenReserved(L: Layout, st: Store, ch: seq<nat>, chunks: seq<Bytes>, level: nat)
    requires Tally(L, st) && LinksInRange(L, st.flat) && IsChain(L, st.flat, ch) && |chunks| > 0
    ensures 0 < ch[0] < L.totalClusters
    ensures SameReserved(L, st.flat, WriteChunks(L, st, ch[0], chunks, level).0.flat)
  {
    WriteWorks(L, st, ch, chunks, level);
    WrittenUsable(L, st, ch, chunks, level);
  }

  lemma NewFileReserved(L: Layout, fs: FileState, level: nat)
    requires Holds(L, fs)
    ensures SameReserved(L, fs.st.flat, NewFile(L, fs, level).0.st.flat)
  {
    assert Shaped(L, fs.st) && L.totalClusters > 0;
    hide Holds, Allocate;
    AllocateFrame(L, fs.st, level);
  }

  lemma SelfReserved(L: Layout, flat: seq<LabEntry>)
    ensures SameReserved(L, flat, flat)
  {
  }

  lemma ReservedTransitive(L: Layout, a: seq<LabEntry>, b: seq<LabEntry>, c: seq<LabEntry>)
    requires SameReserved(L, a, b) && SameReserved(L, b, c)
    ensures SameReserved(L, a, c)
  {
  }

  lemma FileStepReserved(L: Layout, fs: FileState, op: FileOp)
    requires Holds(L, fs) && !op.GrowDir?
    ensures SameReserved(L, fs.st.flat, FileStep(L, fs, op).st.flat)
  {
    assert Inv(L, fs.st, fs.owners) && Shaped(L, fs.st);
    SelfReserved(L, fs.st.flat);
    hide Holds, WriteFile, NewFile, FreeChain, Inv, SameReserved;
    match op
    case WriteNew(bytes, level) =>
      if |bytes| > 0 {
        var (fs1, c) := NewFile(L, fs, level);
        NewFileReserved(L, fs, level);
        if c != 0 {
          WriteReserved(L, fs1, c, bytes, level);
          ReservedTransitive(L, fs.st.flat, fs1.st.flat, WriteFile(L, fs1, c, bytes, level).st.flat);
        }
      }
    case Overwrite(head, bytes, level) =>
      if |bytes| > 0 && head in fs.owners { WriteReserved(L, fs, head, bytes, level); }
    case Remove(head) =>
      if head in fs.owners { RemoveReserved(L, fs.st, fs.owners, head); }
  }

  lemma RemoveReserved(L: Layout, st: Store, owners: Owners, head: nat)
    requires Inv(L, st, owners) && head in owners
    ensures Shaped(L, st) && SameReserved(L, st.flat, FreeChain(L, st, head).flat)
  {
    StepReserved(L, st, owners, Delete(head));
  }

  /** No run of file operations without directory growth changes what the table holds for a
      reserved cluster. */
  lemma {:induction false} FileRunReserved(L: Layout, fs: FileState, ops: seq<FileOp>)
    requires Holds(L, fs) && forall i :: 0 <= i < |ops| ==> !ops[i].GrowDir?
    ensures SameReserved(L, fs.st.flat, FileRun(L, fs, ops).st.flat)
    decreases |ops|
  {
    hide Holds, FileStep;
    if |ops| > 0 {
      assert !ops[0].GrowDir? && forall i :: 0 <= i < |ops| - 1 ==> ops[1..][i] == ops[i + 1];
      FileStepReserved(L, fs, ops[0]);
      FileRunReserved(L, FileStep(L, fs, ops[0]), ops[1..]);
    }
  }
}
