/**
 * Files on the chain store: whatever is written is read back, other files keep their
 * clusters and their bytes, and a full disk leaves a readable prefix.
 */
module FileStore {
  import opened DiskLayout
  import opened ClusterMap
  import opened ChainStore

  /** Every cluster holds one cluster of bytes. */
  predicate FullBlocks(st: Store) {
    forall c :: 0 <= c < |st.data| ==> |st.data[c]| == CLUSTER_SIZE
  }

  /** readFileContent: follow the entry's chain until its size is used up. */
  function ReadFile(L: Layout, st: Store, start: nat, size: nat): Bytes
    requires Shaped(L, st) && FullBlocks(st)
  {
    ReadAlong(st.data, ChainOf(L, st.flat, start), size)
  }

  /* ---------- The write loop ---------- */

  lemma ConsChain(L: Layout, flat: seq<LabEntry>, a: nat, w: seq<nat>)
    requires IsChain(L, flat, w) && a !in w
    requires 0 < a < |flat| && !L.Reserved(a) && flat[a].next == w[0]
    ensures IsChain(L, flat, [a] + w)
  {
    var ch := [a] + w;
    assert forall i :: 1 <= i < |ch| ==> ch[i] == w[i - 1];
    forall i | 0 <= i < |ch| ensures flat[ch[i]].next == SuccIn(ch, i) {
      if i > 0 { assert flat[w[i - 1]].next == SuccIn(w, i - 1); }
    }
  }

  lemma TailChain(L: Layout, flat: seq<LabEntry>, ch: seq<nat>)
    requires IsChain(L, flat, ch) && |ch| > 1
    ensures IsChain(L, flat, ch[1..]) && ch[0] !in ch[1..] && flat[ch[0]].next == ch[1]
  {
    var t := ch[1..];
    assert flat[ch[0]].next == SuccIn(ch, 0);
    forall i | 0 <= i < |t| ensures flat[t[i]].next == SuccIn(t, i) {
      assert flat[ch[i + 1]].next == SuccIn(ch, i + 1);
    }
  }

  /** Everything the write loop establishes, by the chain `w` it leaves behind. */
  ghost predicate Written(L: Layout, st: Store, ch: seq<nat>, chunks: seq<Bytes>,
                          st': Store, w: seq<nat>, ok: bool)
    requires Shaped(L, st)
  {
    && Tally(L, st') && LinksInRange(L, st'.flat)
    && IsChain(L, st'.flat, w)
    && |w| <= |chunks| && (ok <==> |w| == |chunks|)
    && (forall i :: 0 <= i < |w| ==> st'.data[w[i]] == chunks[i])
    && (forall c :: c in w ==> c in ch || FreeAt(L, st.flat, c))
    && (forall c :: 0 <= c < L.totalClusters && c !in w ==>
          st'.flat[c] == st.flat[c] && st'.data[c] == st.data[c])
    && (!ok ==> forall c :: 0 <= c < L.totalClusters ==> !FreeAt(L, st'.flat, c))
  }

  /** One visited cluster in front of the rest of the loop. */
  lemma WrittenCons(L: Layout, st: Store, ch: seq<nat>, chunks: seq<Bytes>,
                    st1: Store, ch1: seq<nat>, st': Store, w: seq<nat>, ok: bool)
    requires Tally(L, st) && IsChain(L, st.flat, ch) && |chunks| > 1 && Shaped(L, st1)
    requires |w| > 0 && Written(L, st1, ch1, chunks[1..], st', w, ok)
    requires ch[0] !in ch1 && !FreeAt(L, st1.flat, ch[0]) && st1.flat[ch[0]].next == w[0]
    requires st1.data[ch[0]] == chunks[0]
    requires forall c :: c in ch1 ==> c in ch || FreeAt(L, st.flat, c)
    requires forall c :: FreeAt(L, st1.flat, c) ==> FreeAt(L, st.flat, c)
    requires forall c :: 0 <= c < L.totalClusters && c != ch[0] && c !in w ==>
               st1.flat[c] == st.flat[c] && st1.data[c] == st.data[c]
    ensures Written(L, st, ch, chunks, st', [ch[0]] + w, ok)
  {
    var w' := [ch[0]] + w;
    assert ch[0] !in w;
    ConsChain(L, st'.flat, ch[0], w);
    assert forall i :: 1 <= i < |w'| ==> w'[i] == w[i - 1] && chunks[1..][i - 1] == chunks[i];
    assert forall c :: c in w' <==> c == ch[0] || c in w;
  }

  lemma WrittenLast(L: Layout, st: Store, ch: seq<nat>, chunks: seq<Bytes>)
    requires Tally(L, st) && LinksInRange(L, st.flat) && IsChain(L, st.flat, ch)
    requires |chunks| > 0
    ensures var st' := SetLink(L, PutData(st, ch[0], chunks[0]), ch[0], LAT_END);
            && (|chunks| == 1 ==> Written(L, st, ch, chunks, st', [ch[0]], true))
            && (|chunks| > 1 && NextFit(L, st.flat, st.hint) == 0 ==> Written(L, st, ch, chunks, st', [ch[0]], false))
  {
    ChainUsed(L, st.flat, ch);
    var st1 := PutData(st, ch[0], chunks[0]);
    SetLinkTally(L, st1, ch[0], LAT_END);
    var st' := SetLink(L, st1, ch[0], LAT_END);
    assert IsChain(L, st'.flat, [ch[0]]);
    assert forall c :: FreeAt(L, st'.flat, c) ==> FreeAt(L, st.flat, c);
  }

  /** The main induction: the loop leaves a chain holding the chunks, built only from the old
      chain and clusters that were free; it fails only when no free cluster is left. */
  lemma {:induction false} WriteWorks(L: Layout, st: Store, ch: seq<nat>, chunks: seq<Bytes>, level: nat)
    requires Tally(L, st) && LinksInRange(L, st.flat) && IsChain(L, st.flat, ch)
    requires |chunks| > 0
    ensures var (st', ok) := WriteChunks(L, st, ch[0], chunks, level);
            Written(L, st, ch, chunks, st', WrittenChain(L, st, ch[0], chunks, level), ok)
    decreases |chunks|, 1
  {
    if |chunks| == 1 || (|ch| == 1 && NextFit(L, st.flat, st.hint) == 0) {
      assert |ch| == 1 ==> st.flat[ch[0]].next == SuccIn(ch, 0);
      WrittenLast(L, st, ch, chunks);
    } else if |ch| == 1 {
      WriteWorksExtending(L, st, ch, chunks, level);
    } else {
      WriteWorksFollowing(L, st, ch, chunks, level);
    }
  }

  /** One iteration that overwrites the end of the chain and links a fresh cluster to it. */
  function Extended(L: Layout, st: Store, current: nat, chunks: seq<Bytes>, level: nat): (r: (Store, nat))
    requires Shaped(L, st) && LinksInRange(L, st.flat) && 0 < current < L.totalClusters && |chunks| > 0
    ensures Shaped(L, r.0) && LinksInRange(L, r.0.flat) && r.1 < L.totalClusters
  {
    var (st2, c) := Allocate(L, PutData(st, current, chunks[0]), level);
    (SetLink(L, st2, current, c), c)
  }

  lemma WriteUnfolds(L: Layout, st: Store, current: nat, chunks: seq<Bytes>, level: nat)
    requires Shaped(L, st) && LinksInRange(L, st.flat) && 0 < current < L.totalClusters && |chunks| > 1
    requires NextOf(L, st.flat, current) == LAT_END && NextFit(L, st.flat, st.hint) != 0
    ensures var (st3, c) := Extended(L, st, current, chunks, level);
            && WriteChunks(L, st, current, chunks, level) == WriteChunks(L, st3, c, chunks[1..], level)
            && WrittenChain(L, st, current, chunks, level)
               == [current] + WrittenChain(L, st3, c, chunks[1..], level)
  {
  }

  lemma {:induction false} WriteWorksExtending(L: Layout, st: Store, ch: seq<nat>, chunks: seq<Bytes>, level: nat)
    requires Tally(L, st) && LinksInRange(L, st.flat) && IsChain(L, st.flat, ch)
    requires |chunks| > 1 && |ch| == 1 && NextFit(L, st.flat, st.hint) != 0
    ensures var (st', ok) := WriteChunks(L, st, ch[0], chunks, level);
            Written(L, st, ch, chunks, st', WrittenChain(L, st, ch[0], chunks, level), ok)
    decreases |chunks|, 0
  {
    WriteExtends(L, st, ch, chunks, level);
    var (st3, c) := Extended(L, st, ch[0], chunks, level);
    WriteUnfolds(L, st, ch[0], chunks, level);
    WriteWorks(L, st3, [c], chunks[1..], level);
    var (st', ok) := WriteChunks(L, st3, c, chunks[1..], level);
    WrittenCons(L, st, ch, chunks, st3, [c], st', WrittenChain(L, st3, c, chunks[1..], level), ok);
  }

  lemma {:induction false} WriteWorksFollowing(L: Layout, st: Store, ch: seq<nat>, chunks: seq<Bytes>, level: nat)
    requires Tally(L, st) && LinksInRange(L, st.flat) && IsChain(L, st.flat, ch)
    requires |chunks| > 1 && |ch| > 1
    ensures var (st', ok) := WriteChunks(L, st, ch[0], chunks, level);
            Written(L, st, ch, chunks, st', WrittenChain(L, st, ch[0], chunks, level), ok)
    decreases |chunks|, 0
  {
    WriteFollows(L, st, ch, chunks);
    var st1 := PutData(st, ch[0], chunks[0]);
    WriteWorks(L, st1, ch[1..], chunks[1..], level);
    var (st', ok) := WriteChunks(L, st1, ch[1], chunks[1..], level);
    WrittenCons(L, st, ch, chunks, st1, ch[1..], st', WrittenChain(L, st1, ch[1], chunks[1..], level), ok);
  }

  /** The following step: the next cluster of the old chain starts a chain of its own. */
  lemma WriteFollows(L: Layout, st: Store, ch: seq<nat>, chunks: seq<Bytes>)
    requires Tally(L, st) && IsChain(L, st.flat, ch) && |ch| > 1 && |chunks| > 0
    ensures var st1 := PutData(st, ch[0], chunks[0]);
            && Tally(L, st1) && NextOf(L, st1.flat, ch[0]) == ch[1]
            && ch[1] != 0 && ch[1] != LAT_END
            && IsChain(L, st1.flat, ch[1..]) && ch[1..][0] == ch[1] && ch[0] !in ch[1..]
            && !FreeAt(L, st1.flat, ch[0]) && st1.flat[ch[0]].next == ch[1]
  {
    TailChain(L, st.flat, ch);
    ChainUsed(L, st.flat, ch);
  }

  /** The extending step: a free cluster becomes a chain of its own, linked from the old end. */
  lemma WriteExtends(L: Layout, st: Store, ch: seq<nat>, chunks: seq<Bytes>, level: nat)
    requires Tally(L, st) && LinksInRange(L, st.flat) && IsChain(L, st.flat, ch) && |ch| == 1
    requires |chunks| > 0 && NextFit(L, st.flat, st.hint) != 0
    ensures st.flat[ch[0]].next == LAT_END
    ensures var st1 := PutData(st, ch[0], chunks[0]);
            var (st3, c) := Extended(L, st, ch[0], chunks, level);
            && c != 0 && c != ch[0] && FreeAt(L, st.flat, c)
            && Tally(L, st3) && LinksInRange(L, st3.flat) && IsChain(L, st3.flat, [c])
            && st3.flat[ch[0]].next == c && !FreeAt(L, st3.flat, ch[0])
            && st3.data == st1.data && st3.free == st.free - 1
            && (forall k :: FreeAt(L, st3.flat, k) ==> FreeAt(L, st.flat, k))
            && (forall k :: 0 <= k < L.totalClusters && k != ch[0] && k != c ==> st3.flat[k] == st.flat[k])
  {
    assert st.flat[ch[0]].next == SuccIn(ch, 0);
    ChainUsed(L, st.flat, ch);
    var st1 := PutData(st, ch[0], chunks[0]);
    assert Tally(L, st1);
    AllocateTally(L, st1, level);
    AllocateFrame(L, st1, level);
    var (st2, c) := Allocate(L, st1, level);
    SetLinkTally(L, st2, ch[0], c);
  }

  /** On a well-formed chain the loop visits usable clusters only. */
  lemma WrittenUsable(L: Layout, st: Store, ch: seq<nat>, chunks: seq<Bytes>, level: nat)
    requires Tally(L, st) && LinksInRange(L, st.flat) && IsChain(L, st.flat, ch) && |chunks| > 0
    ensures 0 < ch[0] < L.totalClusters
    ensures forall c :: c in WrittenChain(L, st, ch[0], chunks, level) ==> !L.Reserved(c)
  {
    WriteWorks(L, st, ch, chunks, level);
  }

  lemma NextInRange(L: Layout, flat: seq<LabEntry>, c: nat)
    requires |flat| == L.totalClusters && LinksInRange(L, flat)
    ensures NextOf(L, flat, c) == LAT_END || NextOf(L, flat, c) < L.totalClusters
  {
  }

  /** The loop completes if and only if the chunks fit into the old chain and the free clusters,
      as the free counter gives them before the write. */
  lemma {:induction false} WriteFits(L: Layout, st: Store, ch: seq<nat>, chunks: seq<Bytes>, level: nat)
    requires Tally(L, st) && LinksInRange(L, st.flat) && IsChain(L, st.flat, ch) && |chunks| > 0
    ensures st.free >= 0 && 0 < ch[0] < L.totalClusters
    ensures WriteChunks(L, st, ch[0], chunks, level).1 <==> |chunks| <= |ch| + st.free
    decreases |chunks|
  {
    FullDiskExact(L, st);
    assert |ch| == 1 ==> st.flat[ch[0]].next == SuccIn(ch, 0);
    if |chunks| > 1 && |ch| > 1 {
      WriteFollows(L, st, ch, chunks);
      WriteFits(L, PutData(st, ch[0], chunks[0]), ch[1..], chunks[1..], level);
    } else if |chunks| > 1 && st.free > 0 {
      WriteExtends(L, st, ch, chunks, level);
      WriteUnfolds(L, st, ch[0], chunks, level);
      var (st3, c) := Extended(L, st, ch[0], chunks, level);
      WriteFits(L, st3, [c], chunks[1..], level);
    }
  }

  /* ---------- Reading back ---------- */

  lemma {:induction false} ReadPrefix(data: seq<Bytes>, w: seq<nat>, bytes: Bytes)
    requires |w| <= |Chunks(bytes)|
    requires forall i :: 0 <= i < |w| ==> w[i] < |data| && data[w[i]] == Chunks(bytes)[i]
    ensures ReadAlong(data, w, |bytes|) ==
            bytes[..if |w| * 4096 < |bytes| then |w| * 4096 else |bytes|]
    decreases |w|
  {
    if |w| > 0 {
      var n := if |bytes| < CLUSTER_SIZE then |bytes| else CLUSTER_SIZE;
      assert data[w[0]][..n] == bytes[..n];
      var rest := bytes[n..];
      if |bytes| > CLUSTER_SIZE {
        assert Chunks(bytes) == [bytes[..CLUSTER_SIZE]] + Chunks(rest);
        assert forall i :: 0 <= i < |w[1..]| ==> data[w[1..][i]] == Chunks(bytes)[i + 1];
        ReadPrefix(data, w[1..], rest);
      } else {
        assert ReadAlong(data, w[1..], 0) == [];
      }
    }
  }

  lemma WrittenFull(L: Layout, st: Store, ch: seq<nat>, chunks: seq<Bytes>, st': Store, w: seq<nat>, ok: bool)
    requires Shaped(L, st) && FullBlocks(st) && Written(L, st, ch, chunks, st', w, ok)
    requires forall i :: 0 <= i < |chunks| ==> |chunks[i]| == CLUSTER_SIZE
    ensures FullBlocks(st')
  {
    assert Shaped(L, st');
    hide Tally, LinksInRange, IsChain, FreeAt;
    forall c | 0 <= c < |st'.data| ensures |st'.data[c]| == CLUSTER_SIZE {
      if c in w {
        var i :| 0 <= i < |w| && w[i] == c;
        assert st'.data[w[i]] == chunks[i];
      }
    }
  }

  /** A chain that holds a file's first chunks reads back that prefix: all of it if and only if
      all chunks are there and the walk reaches them. */
  lemma ReadWritten(L: Layout, st: Store, w: seq<nat>, bytes: Bytes)
    requires Addressable(L) && Shaped(L, st) && FullBlocks(st) && IsChain(L, st.flat, w) && |w| <= |Chunks(bytes)|
    requires forall i :: 0 <= i < |w| && w[i] < |st.data| ==> st.data[w[i]] == Chunks(bytes)[i]
    ensures ReadFile(L, st, w[0], |bytes|) <= bytes
    ensures ReadFile(L, st, w[0], |bytes|) == bytes <==> |w| == |Chunks(bytes)| && |w| <= 1_000_001
  {
    ChainOfIsChain(L, st.flat, w);
    var walk := ChainOf(L, st.flat, w[0]);
    hide IsChain;
    assert forall i :: 0 <= i < |walk| ==> walk[i] == w[i];
    ReadPrefix(st.data, walk, bytes);
  }

  /** Writing then reading a chain: the read returns the bytes of the clusters that were
      written and that the walk reaches. It is all of them if and only if they fit into the old
      chain and the free clusters, and the file has at most 1,000,001 clusters. */
  lemma WriteThenRead(L: Layout, st: Store, ch: seq<nat>, bytes: Bytes, level: nat)
    requires Tally(L, st) && LinksInRange(L, st.flat) && FullBlocks(st)
    requires IsChain(L, st.flat, ch) && |bytes| > 0
    ensures var (st', ok) := WriteChunks(L, st, ch[0], Chunks(bytes), level);
            && FullBlocks(st')
            && ReadFile(L, st', ch[0], |bytes|) <= bytes
            && (ok <==> |Chunks(bytes)| <= |ch| + st.free)
            && (ReadFile(L, st', ch[0], |bytes|) == bytes <==>
                  |Chunks(bytes)| <= |ch| + st.free && |Chunks(bytes)| <= 1_000_001)
  {
    var chunks := Chunks(bytes);
    assert 0 < ch[0] < L.totalClusters;
    hide IsChain, LinksInRange, WriteChunks, WrittenChain, FreeAt, CountsRight, ReadFile;
    WriteFits(L, st, ch, chunks, level);
    WriteWorks(L, st, ch, chunks, level);
    var (st', ok) := WriteChunks(L, st, ch[0], chunks, level);
    var w := WrittenChain(L, st, ch[0], chunks, level);
    WrittenFull(L, st, ch, chunks, st', w, ok);
    ReadWritten(L, st', w, bytes);
  }

  /** On a volume of at most 1,000,001 clusters the walk's cap plays no part. */
  lemma WriteThenReadSmall(L: Layout, st: Store, ch: seq<nat>, bytes: Bytes, level: nat)
    requires Tally(L, st) && LinksInRange(L, st.flat) && FullBlocks(st)
    requires IsChain(L, st.flat, ch) && |bytes| > 0 && L.totalClusters <= 1_000_001
    ensures 0 < ch[0] < L.totalClusters
    ensures var (st', ok) := WriteChunks(L, st, ch[0], Chunks(bytes), level);
            && FullBlocks(st')
            && (ReadFile(L, st', ch[0], |bytes|) == bytes <==> |Chunks(bytes)| <= |ch| + st.free)
  {
    assert 0 < ch[0] < L.totalClusters;
    hide IsChain, LinksInRange, WriteChunks, ReadFile, WrittenChain;
    WriteThenRead(L, st, ch, bytes, level);
    WriteWorks(L, st, ch, Chunks(bytes), level);
    WrittenShort(L, WriteChunks(L, st, ch[0], Chunks(bytes), level).0, WrittenChain(L, st, ch[0], Chunks(bytes), level));
  }

  lemma WrittenShort(L: Layout, st: Store, w: seq<nat>)
    requires Shaped(L, st) && IsChain(L, st.flat, w)
    ensures |w| <= L.totalClusters
  {
    DistinctBounded(w, L.totalClusters);
  }

  /** The cluster images of a file: its bytes in order, then zeros. */
  lemma {:induction false} ChunkAt(data: Bytes, i: nat, k: nat)
    requires i < |Chunks(data)| && k < 4096
    ensures Chunks(data)[i][k] == if 4096 * i + k < |data| then data[4096 * i + k] else 0
    decreases i
  {
    if i > 0 {
      assert |data| > CLUSTER_SIZE;
      ChunkAt(data[CLUSTER_SIZE..], i - 1, k);
    }
  }

  /** Clusters a write allocates carry its level; all others keep theirs. */
  lemma {:induction false} WriteLevels(L: Layout, st: Store, ch: seq<nat>, chunks: seq<Bytes>, level: nat)
    requires Tally(L, st) && LinksInRange(L, st.flat) && IsChain(L, st.flat, ch) && |chunks| > 0
    ensures 0 < ch[0] < L.totalClusters
    ensures var st', w := WriteChunks(L, st, ch[0], chunks, level).0, WrittenChain(L, st, ch[0], chunks, level);
            forall c :: 0 <= c < L.totalClusters ==>
              st'.flat[c].level == if c in w && FreeAt(L, st.flat, c) then level else st.flat[c].level
    decreases |chunks|
  {
    assert |ch| == 1 ==> st.flat[ch[0]].next == SuccIn(ch, 0);
    ChainUsed(L, st.flat, ch);
    if |chunks| > 1 && |ch| > 1 {
      WriteFollows(L, st, ch, chunks);
      WriteLevels(L, PutData(st, ch[0], chunks[0]), ch[1..], chunks[1..], level);
    } else if |chunks| > 1 && NextFit(L, st.flat, st.hint) != 0 {
      WriteExtends(L, st, ch, chunks, level);
      WriteUnfolds(L, st, ch[0], chunks, level);
      ExtendedLevels(L, st, ch[0], chunks, level);
      var (st3, c) := Extended(L, st, ch[0], chunks, level);
      WriteLevels(L, st3, [c], chunks[1..], level);
    }
  }

  lemma ExtendedLevels(L: Layout, st: Store, current: nat, chunks: seq<Bytes>, level: nat)
    requires Shaped(L, st) && LinksInRange(L, st.flat) && 0 < current < L.totalClusters && |chunks| > 0
    requires !L.Reserved(current) && !FreeAt(L, st.flat, current) && NextFit(L, st.flat, st.hint) != 0
    ensures var (st3, c) := Extended(L, st, current, chunks, level);
            && st3.flat[c].level == level && st3.flat[current].level == st.flat[current].level
            && !FreeAt(L, st3.flat, c)
  {
  }

  /** A write to one owned chain: the owner holds the written chain, the invariant survives,
      and every other owner keeps its chain and its bytes. */
  lemma WriteKeepsOthers(L: Layout, st: Store, owners: Owners, head: nat, chunks: seq<Bytes>, level: nat)
    requires Inv(L, st, owners) && head in owners && |chunks| > 0
    ensures var (st', ok) := WriteChunks(L, st, head, chunks, level);
            && Inv(L, st', owners[head := WrittenChain(L, st, head, chunks, level)])
            && (forall h, c :: h in owners && h != head && c in owners[h] ==> st'.data[c] == st.data[c])
  {
    WriteWorks(L, st, owners[head], chunks, level);
    var (st', ok) := WriteChunks(L, st, head, chunks, level);
    var w := WrittenChain(L, st, head, chunks, level);
    forall h, c | h in owners && h != head && c in owners[h]
      ensures c < L.totalClusters && c !in w && st'.flat[c] == st.flat[c] && st'.data[c] == st.data[c]
    {
      ChainUsed(L, st.flat, owners[h]);
      assert c !in owners[head];
    }
    ReplaceOwner(L, st.flat, st'.flat, owners, head, w);
  }

  /* ---------- Pre-allocation for imports ---------- */

  /** The pre-allocated clusters were free, form one chain of n+1 clusters behind `last`, and no
      other entry and no byte of data changes; only a disk without a free cluster stops it. */
  ghost predicate Preallocated(L: Layout, st: Store, last: nat, n: nat, st': Store, rest: seq<nat>, ok: bool)
    requires Shaped(L, st)
  {
    && Tally(L, st') && LinksInRange(L, st'.flat) && st'.data == st.data
    && (forall c :: c in rest ==> FreeAt(L, st.flat, c))
    && (forall c :: 0 <= c < L.totalClusters && c != last && c !in rest ==> st'.flat[c] == st.flat[c])
    && (ok ==> |rest| == n && IsChain(L, st'.flat, [last] + rest))
    && (!ok ==> forall c :: 0 <= c < L.totalClusters ==> !FreeAt(L, st'.flat, c))
  }

  lemma {:induction false} PreallocateWorks(L: Layout, st: Store, last: nat, n: nat, level: nat)
    requires Tally(L, st) && LinksInRange(L, st.flat) && UsedAt(L, st.flat, last)
    ensures var (st', rest, ok) := Preallocate(L, st, last, n, level);
            Preallocated(L, st, last, n, st', rest, ok)
    decreases n, 1
  {
    if n == 0 || NextFit(L, st.flat, st.hint) == 0 {
      PreallocateEnd(L, st, last, n);
    } else {
      PreallocateMore(L, st, last, n, level);
    }
  }

  lemma {:induction false} PreallocateMore(L: Layout, st: Store, last: nat, n: nat, level: nat)
    requires Tally(L, st) && LinksInRange(L, st.flat) && UsedAt(L, st.flat, last)
    requires n > 0 && NextFit(L, st.flat, st.hint) != 0
    ensures var (st', rest, ok) := Preallocate(L, st, last, n, level);
            Preallocated(L, st, last, n, st', rest, ok)
    decreases n, 0
  {
    hide Tally, LinksInRange, IsChain, NextFit, Preallocate, Preallocated;
    PreallocateStep(L, st, last, level);
    var (st2, c) := Appended(L, st, last, level);
    PreallocateWorks(L, st2, c, n - 1, level);
    var r := Preallocate(L, st2, c, n - 1, level);
    PreallocateCons(L, st, last, n, st2, c, r.0, r.1, r.2);
    PreallocateUnfolds(L, st, last, n, level);
  }

  /** One iteration: a fresh cluster linked behind `last`. */
  function Appended(L: Layout, st: Store, last: nat, level: nat): (r: (Store, nat))
    requires Shaped(L, st) && last < L.totalClusters
    ensures Shaped(L, r.0) && r.1 < L.totalClusters
  {
    var (st1, c) := Allocate(L, st, level);
    (SetLink(L, st1, last, c), c)
  }

  lemma PreallocateUnfolds(L: Layout, st: Store, last: nat, n: nat, level: nat)
    requires Shaped(L, st) && last < L.totalClusters && n > 0 && NextFit(L, st.flat, st.hint) != 0
    ensures var (st2, c) := Appended(L, st, last, level);
            var r := Preallocate(L, st2, c, n - 1, level);
            Preallocate(L, st, last, n, level) == (r.0, [c] + r.1, r.2)
  {
  }

  lemma PreallocateEnd(L: Layout, st: Store, last: nat, n: nat)
    requires Tally(L, st) && LinksInRange(L, st.flat) && UsedAt(L, st.flat, last)
    ensures Preallocated(L, st, last, 0, SetLink(L, st, last, LAT_END), [], true)
    ensures NextFit(L, st.flat, st.hint) == 0 ==> Preallocated(L, st, last, n, st, [], false)
  {
    SetLinkTally(L, st, last, LAT_END);
    assert IsChain(L, SetLink(L, st, last, LAT_END).flat, [last]);
    assert [last] + [] == [last];
  }

  lemma PreallocateStep(L: Layout, st: Store, last: nat, level: nat)
    requires Tally(L, st) && LinksInRange(L, st.flat) && UsedAt(L, st.flat, last)
    requires NextFit(L, st.flat, st.hint) != 0
    ensures var (st2, c) := Appended(L, st, last, level);
            && c != 0 && FreeAt(L, st.flat, c) && Tally(L, st2) && LinksInRange(L, st2.flat)
            && UsedAt(L, st2.flat, c) && st2.data == st.data
            && UsedAt(L, st2.flat, last) && st2.flat[last].next == c && st2.free == st.free - 1
            && forall k :: 0 <= k < L.totalClusters && k != last && k != c ==> st2.flat[k] == st.flat[k]
  {
    AllocateTally(L, st, level);
    AllocateFrame(L, st, level);
    var (st1, c) := Allocate(L, st, level);
    SetLinkTally(L, st1, last, c);
  }

  lemma PreallocateCons(L: Layout, st: Store, last: nat, n: nat, st2: Store, c: nat,
                        st': Store, rest: seq<nat>, ok: bool)
    requires Shaped(L, st) && Shaped(L, st2) && n > 0 && Preallocated(L, st2, c, n - 1, st', rest, ok)
    requires UsedAt(L, st.flat, last) && FreeAt(L, st.flat, c) && st2.data == st.data
    requires UsedAt(L, st2.flat, last) && st2.flat[last].next == c
    requires forall k :: 0 <= k < L.totalClusters && k != last && k != c ==> st2.flat[k] == st.flat[k]
    ensures Preallocated(L, st, last, n, st', [c] + rest, ok)
  {
    assert last !in rest && last != c;
    if ok {
      assert last !in [c] + rest;
      ConsChain(L, st'.flat, last, [c] + rest);
    }
    assert forall k :: k in [c] + rest <==> k == c || k in rest;
  }

  lemma PreallocateStops(L: Layout, st: Store, last: nat, n: nat, level: nat)
    requires Shaped(L, st) && last < L.totalClusters
    ensures n == 0 ==> Preallocate(L, st, last, n, level).2
    ensures n > 0 && NextFit(L, st.flat, st.hint) == 0 ==> !Preallocate(L, st, last, n, level).2
  {
  }

  /** Pre-allocation completes if and only if that many clusters are free beforehand. */
  lemma {:induction false} PreallocateFits(L: Layout, st: Store, last: nat, n: nat, level: nat)
    requires Tally(L, st) && LinksInRange(L, st.flat) && UsedAt(L, st.flat, last)
    ensures st.free >= 0 && (Preallocate(L, st, last, n, level).2 <==> n <= st.free)
    decreases n, 1
  {
    FullDiskExact(L, st);
    if n > 0 && NextFit(L, st.flat, st.hint) != 0 {
      PreallocateFitsMore(L, st, last, n, level);
    } else {
      PreallocateStops(L, st, last, n, level);
      hide Preallocate;
    }
  }

  lemma {:induction false} PreallocateFitsMore(L: Layout, st: Store, last: nat, n: nat, level: nat)
    requires Tally(L, st) && LinksInRange(L, st.flat) && UsedAt(L, st.flat, last)
    requires n > 0 && NextFit(L, st.flat, st.hint) != 0
    ensures Preallocate(L, st, last, n, level).2 <==> n <= st.free
    decreases n, 0
  {
    hide Tally, LinksInRange, IsChain, NextFit, Preallocate, FreeAt, UsedAt, CountsRight;
    PreallocateStep(L, st, last, level);
    var (st2, c) := Appended(L, st, last, level);
    PreallocateFits(L, st2, c, n - 1, level);
    PreallocateUnfolds(L, st, last, n, level);
  }

  /** The level of every entry: the pre-allocated ones' is `level`, all others keep theirs. */
  predicate LevelsAre(flat: seq<LabEntry>, flat': seq<LabEntry>, rest: seq<nat>, level: nat) {
    |flat'| == |flat| && forall c :: 0 <= c < |flat| ==> flat'[c].level == if c in rest then level else flat[c].level
  }

  lemma {:induction false} PreallocateLevels(L: Layout, st: Store, last: nat, n: nat, level: nat)
    requires Tally(L, st) && LinksInRange(L, st.flat) && UsedAt(L, st.flat, last)
    ensures var r := Preallocate(L, st, last, n, level); LevelsAre(st.flat, r.0.flat, r.1, level)
    decreases n, 1
  {
    if n > 0 && NextFit(L, st.flat, st.hint) != 0 {
      PreallocateLevelsMore(L, st, last, n, level);
    }
  }

  lemma {:induction false} PreallocateLevelsMore(L: Layout, st: Store, last: nat, n: nat, level: nat)
    requires Tally(L, st) && LinksInRange(L, st.flat) && UsedAt(L, st.flat, last)
    requires n > 0 && NextFit(L, st.flat, st.hint) != 0
    ensures var r := Preallocate(L, st, last, n, level); LevelsAre(st.flat, r.0.flat, r.1, level)
    decreases n, 0
  {
    hide Tally, LinksInRange, IsChain, NextFit, Preallocate, FreeAt, UsedAt, CountsRight;
    PreallocateStep(L, st, last, level);
    AppendedLevels(L, st, last, level);
    var (st2, c) := Appended(L, st, last, level);
    PreallocateLevels(L, st2, c, n - 1, level);
    PreallocateUnfolds(L, st, last, n, level);
    var r := Preallocate(L, st2, c, n - 1, level);
    LevelsCons(st.flat, st2.flat, r.0.flat, last, c, r.1, level);
  }

  lemma LevelsCons(flat: seq<LabEntry>, flat2: seq<LabEntry>, flat': seq<LabEntry>, last: nat, c: nat, rest: seq<nat>,
                   level: nat)
    requires |flat2| == |flat| && LevelsAre(flat2, flat', rest, level) && last < |flat| && c < |flat|
    requires flat2[c].level == level && flat2[last].level == flat[last].level
    requires forall k :: 0 <= k < |flat| && k != last && k != c ==> flat2[k] == flat[k]
    ensures LevelsAre(flat, flat', [c] + rest, level)
  {
  }

  lemma AppendedLevels(L: Layout, st: Store, last: nat, level: nat)
    requires Shaped(L, st) && UsedAt(L, st.flat, last) && NextFit(L, st.flat, st.hint) != 0
    ensures var (st2, c) := Appended(L, st, last, level);
            st2.flat[c].level == level && st2.flat[last].level == st.flat[last].level
  {
  }

  /** When they fit, all the clusters asked for are there. */
  lemma PreallocateAll(L: Layout, st: Store, last: nat, n: nat, level: nat)
    requires Tally(L, st) && LinksInRange(L, st.flat) && UsedAt(L, st.flat, last) && n <= st.free
    ensures Shaped(L, st) && last < L.totalClusters
    ensures Preallocate(L, st, last, n, level).2 && |Preallocate(L, st, last, n, level).1| == n
  {
    assert Shaped(L, st) && last < L.totalClusters;
    PreallocateFits(L, st, last, n, level);
    PreallocateWorks(L, st, last, n, level);
    hide Tally, LinksInRange, IsChain, Preallocate, FreeAt;
  }
}
