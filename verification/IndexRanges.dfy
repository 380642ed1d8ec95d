/**
 * ParallelExecutor: the cutting of an index range into chunks for the workers of the pool.
 */
module IndexRanges {
  function Range(lo: nat, hi: nat): (r: seq<nat>)
    requires lo <= hi
    ensures |r| == hi - lo && forall i :: 0 <= i < |r| ==> r[i] == lo + i
  {
    seq(hi - lo, i requires 0 <= i => lo + i)
  }

  /** The indices a list of half-open chunks visits, in order. */
  function Visited(chunks: seq<(nat, nat)>): seq<nat>
    requires forall i :: 0 <= i < |chunks| ==> chunks[i].0 <= chunks[i].1
  {
    if |chunks| == 0 then []
    else Visited(chunks[..|chunks| - 1]) + Range(chunks[|chunks| - 1].0, chunks[|chunks| - 1].1)
  }

  function Times(i: nat, k: int): int {
    i * k
  }

  lemma TimesSteps(i: nat, k: int)
    ensures Times(0, k) == 0 && Times(i + 1, k) == Times(i, k) + k
  {
  }

  lemma CeilCovers(range: nat, n: nat)
    requires n > 0
    ensures Times(n, (range + n - 1) / n) >= range && (range + n - 1) / n >= if range > 0 then 1 else 0
  {
    var q := (range + n - 1) / n;
    assert range + n - 1 == q * n + (range + n - 1) % n;
  }

  /** parallelForRange: the chunks handed to the pool visit each index of the range exactly
      once, in order, with at most one chunk a worker. */
  method ChunkRange(start: nat, end: nat, numWorkers: nat) returns (chunks: seq<(nat, nat)>)
    requires numWorkers > 0
    ensures |chunks| <= numWorkers
    ensures forall i :: 0 <= i < |chunks| ==> chunks[i].0 < chunks[i].1
    ensures Visited(chunks) == if start <= end then Range(start, end) else []
  {
    hide Times;
    var range := end - start;
    var chunkSize := (range + numWorkers - 1) / numWorkers;
    if start <= end { CeilCovers(range, numWorkers); }
    chunks := [];
    var i := 0;
    TimesSteps(0, chunkSize);
    while i < numWorkers && start + Times(i, chunkSize) < end
      invariant 0 <= i <= numWorkers && |chunks| == i && (start > end ==> i == 0)
      invariant Times(i, chunkSize) >= 0 && (i == 0 ==> Times(i, chunkSize) == 0)
      invariant forall k :: 0 <= k < |chunks| ==> chunks[k].0 < chunks[k].1
      invariant start <= end ==> Visited(chunks) == Range(start, Least(start + Times(i, chunkSize), end))
    {
      var chunkStart := start + Times(i, chunkSize);
      var chunkEnd := if chunkStart + chunkSize < end then chunkStart + chunkSize else end;
      TimesSteps(i, chunkSize);
      VisitedSnoc(chunks, start, chunkStart, chunkEnd);
      chunks := chunks + [(chunkStart, chunkEnd)];
      i := i + 1;
    }
  }

  function Least(x: int, y: int): int {
    if x < y then x else y
  }

  lemma VisitedSnoc(chunks: seq<(nat, nat)>, start: nat, mid: nat, end: nat)
    requires forall i :: 0 <= i < |chunks| ==> chunks[i].0 <= chunks[i].1
    requires start <= mid <= end && Visited(chunks) == Range(start, mid)
    ensures Visited(chunks + [(mid, end)]) == Range(start, end)
  {
    hide Range, Visited;
    var all := chunks + [(mid, end)];
    assert all[..|all| - 1] == chunks;
    VisitedLast(all);
    assert Visited(all) == Visited(chunks) + Range(mid, end);
    RangeAppend(start, mid, end);
  }

  lemma VisitedLast(chunks: seq<(nat, nat)>)
    requires |chunks| > 0 && forall i :: 0 <= i < |chunks| ==> chunks[i].0 <= chunks[i].1
    ensures Visited(chunks) == Visited(chunks[..|chunks| - 1]) + Range(chunks[|chunks| - 1].0, chunks[|chunks| - 1].1)
  {
  }

  lemma RangeAppend(lo: nat, mid: nat, hi: nat)
    requires lo <= mid <= hi
    ensures Range(lo, hi) == Range(lo, mid) + Range(mid, hi)
  {
  }
}
