/**
 * importFile: the clusters of a pre-allocated chain are written by pool tasks, one sector at a
 * time, in whatever order the workers get to them. The volume that results does not depend on
 * the schedule, and reading the chain gives the imported bytes.
 */
module ParallelImport {
  import opened DiskLayout
  import opened ClusterMap
  import opened ChainStore
  import opened FileStore
  import opened ThreadPool

  type Sector = Bytes

  /** Task t writes the eight sectors buffers[t] to cluster chain[t]. */
  datatype Job = Job(chain: seq<nat>, buffers: seq<seq<Sector>>)

  predicate JobOk(job: Job, sectors: nat) {
    && |job.chain| == |job.buffers| && Distinct(job.chain)
    && (forall t :: 0 <= t < |job.buffers| ==> |job.buffers[t]| == 8)
    && (forall t :: 0 <= t < |job.chain| ==> 8 * job.chain[t] + 8 <= sectors)
  }

  /** The pool, the device's sectors, and how many sectors each task has written. */
  datatype Progress = Progress(pool: Pool, disk: seq<Sector>, written: seq<nat>)

  predicate CanStep(job: Job, s: Progress, a: Action) {
    Enabled(s.pool, a) && (a.Enqueue? ==> s.pool.enqueued < |job.chain|)
  }

  /** Only a running task's step touches the device. */
  function StepImport(job: Job, s: Progress, a: Action): Progress
    requires CanStep(job, s, a)
  {
    var pool := Apply(s.pool, a);
    if a.Work? && s.pool.workers[a.w].task < |job.chain| && s.pool.workers[a.w].task < |s.written| then
      var t, k := s.pool.workers[a.w].task, s.pool.workers[a.w].step;
      var x := 8 * job.chain[t] + k;
      if x < |s.disk| && t < |job.buffers| && k < |job.buffers[t]| then
        Progress(pool, s.disk[x := job.buffers[t][k]], s.written[t := k + 1])
      else s.(pool := pool)
    else s.(pool := pool)
  }

  /* ---------- What the device holds at any moment ---------- */

  function IndexOf(chain: seq<nat>, c: nat): (t: nat)
    ensures t <= |chain|
    ensures t < |chain| ==> chain[t] == c
    ensures t == |chain| ==> c !in chain
  {
    if |chain| == 0 || chain[0] == c then 0 else 1 + IndexOf(chain[1..], c)
  }

  lemma IndexOfDistinct(chain: seq<nat>, t: nat)
    requires Distinct(chain) && t < |chain|
    ensures IndexOf(chain, chain[t]) == t
  {
    var u := IndexOf(chain, chain[t]);
    assert u < |chain| && chain[u] == chain[t];
  }

  function Expected(job: Job, initial: seq<Sector>, written: seq<nat>, x: nat): Sector
    requires x < |initial| && |written| == |job.chain| && JobOk(job, |initial|)
  {
    var t := IndexOf(job.chain, x / 8);
    if t < |job.chain| && x % 8 < written[t] then job.buffers[t][x % 8] else initial[x]
  }

  /** How far task t has come, as far as worker `w` knows. */
  predicate WorkerKnows(w: Worker, written: seq<nat>) {
    && (w.Taken? ==> w.task < |written| && written[w.task] == 0)
    && (w.Running? ==> w.task < |written| && w.step <= TASK_STEPS && written[w.task] == w.step)
  }

  ghost predicate ImportInv(job: Job, initial: seq<Sector>, s: Progress) {
    && JobOk(job, |initial|) && PoolInv(s.pool)
    && |s.written| == |job.chain| && s.pool.enqueued <= |job.chain| && |s.disk| == |initial|
    && (forall w :: 0 <= w < |s.pool.workers| ==> WorkerKnows(s.pool.workers[w], s.written))
    && (forall t :: 0 <= t < |s.written| && Occurrences(s.pool.done, t) > 0 ==> s.written[t] == TASK_STEPS)
    && (forall t :: 0 <= t < |s.written| && t >= Popped(s.pool) ==> s.written[t] == 0)
    && (forall x :: 0 <= x < |s.disk| ==> s.disk[x] == Expected(job, initial, s.written, x))
  }

  lemma {:induction false} HasOne(ws: seq<Worker>, w: nat, t: nat)
    requires w < |ws|
    ensures Has(ws[w], t) <= InHand(ws, t)
    decreases |ws|
  {
    if w < |ws| - 1 {
      HasOne(ws[..|ws| - 1], w, t);
    }
  }

  lemma {:induction false} HasTwo(ws: seq<Worker>, w: nat, v: nat, t: nat)
    requires w < v < |ws|
    ensures Has(ws[w], t) + Has(ws[v], t) <= InHand(ws, t)
    decreases |ws|
  {
    if v < |ws| - 1 {
      HasTwo(ws[..|ws| - 1], w, v, t);
    } else {
      HasOne(ws[..|ws| - 1], w, t);
    }
  }

  /** A task in hand is held by one worker, is not done, and was popped. */
  lemma SoleHolder(p: Pool, w: nat)
    requires PoolInv(p) && w < |p.workers| && (p.workers[w].Taken? || p.workers[w].Running?)
    ensures var t := p.workers[w].task;
            && Occurrences(p.done, t) == 0 && t < Popped(p)
            && forall v :: 0 <= v < |p.workers| && v != w ==> Has(p.workers[v], t) == 0
  {
    var t := p.workers[w].task;
    assert Once(p, t);
    HasOne(p.workers, w, t);
    forall v | 0 <= v < |p.workers| && v != w ensures Has(p.workers[v], t) == 0 {
      if v < w { HasTwo(p.workers, v, w, t); } else { HasTwo(p.workers, w, v, t); }
    }
  }

  /** One sector written. */
  lemma DiskStep(job: Job, initial: seq<Sector>, written: seq<nat>, disk: seq<Sector>, t: nat, k: nat)
    requires JobOk(job, |initial|) && |written| == |job.chain| && |disk| == |initial|
    requires t < |job.chain| && k < 8 && written[t] == k
    requires forall x :: 0 <= x < |disk| ==> disk[x] == Expected(job, initial, written, x)
    ensures 8 * job.chain[t] + k < |disk|
    ensures var disk' := disk[8 * job.chain[t] + k := job.buffers[t][k]];
            forall x :: 0 <= x < |disk| ==> disk'[x] == Expected(job, initial, written[t := k + 1], x)
  {
    var at := 8 * job.chain[t] + k;
    IndexOfDistinct(job.chain, t);
    assert at / 8 == job.chain[t] && at % 8 == k;
    var disk' := disk[at := job.buffers[t][k]];
    forall x | 0 <= x < |disk'|
      ensures disk'[x] == Expected(job, initial, written[t := k + 1], x)
    {
      assert disk[x] == Expected(job, initial, written, x);
      assert IndexOf(job.chain, x / 8) == t ==> x / 8 == job.chain[t];
    }
  }

  lemma WorkInv(job: Job, initial: seq<Sector>, s: Progress, w: nat)
    requires ImportInv(job, initial, s) && CanStep(job, s, Work(w))
    ensures ImportInv(job, initial, StepImport(job, s, Work(w)))
  {
    var t, k := s.pool.workers[w].task, s.pool.workers[w].step;
    assert WorkerKnows(s.pool.workers[w], s.written);
    ThreadPool.StepInv(s.pool, Work(w));
    SoleHolder(s.pool, w);
    DiskStep(job, initial, s.written, s.disk, t, k);
    hide PoolInv, Expected, Occurrences;
    var s' := StepImport(job, s, Work(w));
    forall v | 0 <= v < |s'.pool.workers| ensures WorkerKnows(s'.pool.workers[v], s'.written) {
      if v != w { assert WorkerKnows(s.pool.workers[v], s.written) && Has(s.pool.workers[v], t) == 0; }
    }
  }

  lemma TakeKeeps(job: Job, initial: seq<Sector>, s: Progress, w: nat)
    requires ImportInv(job, initial, s) && CanStep(job, s, Take(w))
    ensures ImportInv(job, initial, StepImport(job, s, Take(w)))
  {
    ThreadPool.StepInv(s.pool, Take(w));
    assert s.pool.queue[0] == Popped(s.pool);
    hide PoolInv, Expected, Occurrences;
    var s' := StepImport(job, s, Take(w));
    forall v | 0 <= v < |s'.pool.workers| ensures WorkerKnows(s'.pool.workers[v], s'.written) {
      assert WorkerKnows(s.pool.workers[v], s.written);
    }
  }

  lemma CompleteKeeps(job: Job, initial: seq<Sector>, s: Progress, w: nat)
    requires ImportInv(job, initial, s) && CanStep(job, s, Complete(w))
    ensures ImportInv(job, initial, StepImport(job, s, Complete(w)))
  {
    ThreadPool.StepInv(s.pool, Complete(w));
    assert WorkerKnows(s.pool.workers[w], s.written);
    var s' := StepImport(job, s, Complete(w));
    assert s'.pool.done[..|s'.pool.done| - 1] == s.pool.done;
    hide PoolInv, Expected;
    forall v | 0 <= v < |s'.pool.workers| ensures WorkerKnows(s'.pool.workers[v], s'.written) {
      assert WorkerKnows(s.pool.workers[v], s.written);
    }
  }

  lemma OtherKeeps(job: Job, initial: seq<Sector>, s: Progress, a: Action)
    requires ImportInv(job, initial, s) && CanStep(job, s, a)
    requires !a.Take? && !a.Work? && !a.Complete?
    ensures ImportInv(job, initial, StepImport(job, s, a))
  {
    ThreadPool.StepInv(s.pool, a);
    hide PoolInv, Expected, Occurrences;
    var s' := StepImport(job, s, a);
    forall v | 0 <= v < |s'.pool.workers| ensures WorkerKnows(s'.pool.workers[v], s'.written) {
      assert WorkerKnows(s.pool.workers[v], s.written);
    }
  }

  predicate CanRunImport(job: Job, s: Progress, actions: seq<Action>)
    decreases |actions|
  {
    |actions| > 0 ==> CanStep(job, s, actions[0]) && CanRunImport(job, StepImport(job, s, actions[0]), actions[1..])
  }

  function RunImport(job: Job, s: Progress, actions: seq<Action>): Progress
    requires CanRunImport(job, s, actions)
    decreases |actions|
  {
    if |actions| == 0 then s else RunImport(job, StepImport(job, s, actions[0]), actions[1..])
  }

  lemma {:induction false} RunImportInv(job: Job, initial: seq<Sector>, s: Progress, actions: seq<Action>)
    requires ImportInv(job, initial, s) && CanRunImport(job, s, actions)
    ensures ImportInv(job, initial, RunImport(job, s, actions))
    decreases |actions|
  {
    hide ImportInv, CanStep, StepImport;
    if |actions| > 0 {
      var a := actions[0];
      match a {
        case Work(w) => WorkInv(job, initial, s, w);
        case Take(w) => TakeKeeps(job, initial, s, w);
        case Complete(w) => CompleteKeeps(job, initial, s, w);
        case _ => OtherKeeps(job, initial, s, a);
      }
      RunImportInv(job, initial, StepImport(job, s, a), actions[1..]);
    }
  }

  function StartImport(initial: seq<Sector>, tasks: nat, numThreads: nat): Progress {
    Progress(Start(numThreads), initial, seq(tasks, i => 0))
  }

  lemma StartImportInv(job: Job, initial: seq<Sector>, numThreads: nat)
    requires JobOk(job, |initial|)
    ensures ImportInv(job, initial, StartImport(initial, |job.chain|, numThreads))
  {
    StartInv(numThreads);
    hide PoolInv;
  }

  /** The volume after the import, whatever the schedule. */
  function Imported(job: Job, initial: seq<Sector>): (r: seq<Sector>)
    requires JobOk(job, |initial|)
    ensures |r| == |initial|
  {
    seq(|initial|, x requires 0 <= x < |initial| =>
      var t := IndexOf(job.chain, x / 8);
      if t < |job.chain| then job.buffers[t][x % 8] else initial[x])
  }

  /** A schedule after which every future is ready. */
  predicate AllDone(job: Job, initial: seq<Sector>, numThreads: nat, actions: seq<Action>) {
    && CanRunImport(job, StartImport(initial, |job.chain|, numThreads), actions)
    && var s := RunImport(job, StartImport(initial, |job.chain|, numThreads), actions);
       forall t :: 0 <= t < |job.chain| ==> Occurrences(s.pool.done, t) > 0
  }

  /** Every schedule gets there: once all tasks are enqueued and the pool has no productive step
      left, every future is ready. */
  lemma ImportCompletes(job: Job, initial: seq<Sector>, numThreads: nat, actions: seq<Action>)
    requires JobOk(job, |initial|) && numThreads > 0
    requires CanRunImport(job, StartImport(initial, |job.chain|, numThreads), actions)
    requires var s := RunImport(job, StartImport(initial, |job.chain|, numThreads), actions);
             s.pool.enqueued == |job.chain| && forall a :: !CanProgress(s.pool, a)
    ensures AllDone(job, initial, numThreads, actions)
  {
    StartImportInv(job, initial, numThreads);
    RunImportInv(job, initial, StartImport(initial, |job.chain|, numThreads), actions);
    RunImportWorkers(job, StartImport(initial, |job.chain|, numThreads), actions);
    QuietAllRun(RunImport(job, StartImport(initial, |job.chain|, numThreads), actions).pool);
  }

  lemma StepWorkers(job: Job, s: Progress, a: Action)
    requires CanStep(job, s, a)
    ensures |StepImport(job, s, a).pool.workers| == |s.pool.workers|
  {
  }

  lemma {:induction false} RunImportWorkers(job: Job, s: Progress, actions: seq<Action>)
    requires CanRunImport(job, s, actions)
    ensures |RunImport(job, s, actions).pool.workers| == |s.pool.workers|
    decreases |actions|
  {
    hide CanStep, StepImport;
    if |actions| > 0 {
      StepWorkers(job, s, actions[0]);
      RunImportWorkers(job, StepImport(job, s, actions[0]), actions[1..]);
    }
  }

  /** Schedule independence: however many workers there are and however their steps interleave,
      once every future is ready the device is the imported volume. */
  lemma ScheduleIndependent(job: Job, initial: seq<Sector>, numThreads: nat, actions: seq<Action>)
    requires JobOk(job, |initial|)
    requires AllDone(job, initial, numThreads, actions)
    ensures RunImport(job, StartImport(initial, |job.chain|, numThreads), actions).disk == Imported(job, initial)
  {
    StartImportInv(job, initial, numThreads);
    RunImportInv(job, initial, StartImport(initial, |job.chain|, numThreads), actions);
    hide PoolInv, RunImport, CanRunImport, StartImport;
  }

  /* ---------- Reading the imported file back ---------- */

  /** A cluster image as eight sectors, and back. */
  function Sectors(b: Bytes): (r: seq<Sector>)
    requires |b| == CLUSTER_SIZE
    ensures |r| == 8
  {
    seq(8, k requires 0 <= k < 8 => b[512 * k..512 * k + 512])
  }

  function JoinSectors(s: seq<Sector>): Bytes
    requires |s| == 8
  {
    s[0] + s[1] + s[2] + s[3] + s[4] + s[5] + s[6] + s[7]
  }

  function ClusterBytes(disk: seq<Sector>, c: nat): Bytes
    requires 8 * c + 8 <= |disk|
  {
    JoinSectors(disk[8 * c..8 * c + 8])
  }

  function Image(disk: seq<Sector>, clusters: nat): (r: seq<Bytes>)
    requires 8 * clusters <= |disk|
    ensures |r| == clusters
  {
    seq(clusters, c requires 0 <= c < clusters => ClusterBytes(disk, c))
  }

  /** The buffers of an import: at least one cluster, zero-padded at the end. */
  function Buffers(file: Bytes): (r: seq<Bytes>)
    ensures |r| > 0 && forall i :: 0 <= i < |r| ==> |r[i]| == CLUSTER_SIZE
  {
    if |file| == 0 then [Zeros(CLUSTER_SIZE)] else Chunks(file)
  }

  function ImportJob(chain: seq<nat>, file: Bytes): (job: Job)
    requires |chain| == |Buffers(file)|
    ensures job.chain == chain && |job.chain| == |job.buffers|
  {
    Job(chain, seq(|chain|, t requires 0 <= t < |chain| => Sectors(Buffers(file)[t])))
  }

  lemma SectorsJoin(b: Bytes)
    requires |b| == CLUSTER_SIZE
    ensures JoinSectors(Sectors(b)) == b
  {
    assert b[0..512] + b[512..1024] == b[0..1024];
    assert b[0..1024] + b[1024..1536] == b[0..1536];
    assert b[0..1536] + b[1536..2048] == b[0..2048];
    assert b[0..2048] + b[2048..2560] == b[0..2560];
    assert b[0..2560] + b[2560..3072] == b[0..3072];
    assert b[0..3072] + b[3072..3584] == b[0..3584];
    assert b[0..3584] + b[3584..4096] == b;
  }

  /** On the imported volume the chain's clusters hold the buffers and all others are as before. */
  lemma ImportedClusters(chain: seq<nat>, file: Bytes, initial: seq<Sector>, c: nat)
    requires |chain| == |Buffers(file)| && JobOk(ImportJob(chain, file), |initial|) && 8 * c + 8 <= |initial|
    ensures var t := IndexOf(chain, c);
            ClusterBytes(Imported(ImportJob(chain, file), initial), c)
            == if t < |chain| then Buffers(file)[t] else ClusterBytes(initial, c)
  {
    hide Imported, ImportJob, Sectors, Buffers, JobOk, IndexOf, JoinSectors;
    var disk, t := Imported(ImportJob(chain, file), initial), IndexOf(chain, c);
    var expected := if t < |chain| then Sectors(Buffers(file)[t]) else initial[8 * c..8 * c + 8];
    forall k | 0 <= k < 8 ensures disk[8 * c..8 * c + 8][k] == expected[k] {
      ImportedSector(chain, file, initial, c, k);
    }
    assert disk[8 * c..8 * c + 8] == expected;
    if t < |chain| {
      SectorsJoin(Buffers(file)[t]);
    }
  }

  lemma ImportedSector(chain: seq<nat>, file: Bytes, initial: seq<Sector>, c: nat, k: nat)
    requires |chain| == |Buffers(file)| && JobOk(ImportJob(chain, file), |initial|)
    requires 8 * c + 8 <= |initial| && k < 8
    ensures Imported(ImportJob(chain, file), initial)[8 * c + k]
            == var t := IndexOf(chain, c);
               if t < |chain| then Sectors(Buffers(file)[t])[k] else initial[8 * c + k]
  {
    hide Sectors, Buffers;
    assert (8 * c + k) / 8 == c && (8 * c + k) % 8 == k;
  }

  /** The tasks of an import write distinct whole clusters of the device. */
  lemma ImportJobOk(L: Layout, flat: seq<LabEntry>, chain: seq<nat>, file: Bytes, sectors: nat)
    requires |flat| == L.totalClusters && IsChain(L, flat, chain) && |chain| == |Buffers(file)|
    requires sectors == 8 * L.totalClusters
    ensures JobOk(ImportJob(chain, file), sectors)
  {
  }

  /** Import in parallel along a chain under any schedule, read the chain back: the bytes are
      the file's, and no cluster outside the chain changed. */
  lemma ImportReadBack(L: Layout, st: Store, chain: seq<nat>, file: Bytes,
                       initial: seq<Sector>, numThreads: nat, actions: seq<Action>)
    requires Addressable(L) && Shaped(L, st) && FullBlocks(st)
    requires IsChain(L, st.flat, chain) && |chain| == |Buffers(file)| <= 1_000_001
    requires |initial| == 8 * L.totalClusters && st.data == Image(initial, L.totalClusters)
    requires AllDone(ImportJob(chain, file), initial, numThreads, actions)
    ensures var s := RunImport(ImportJob(chain, file), StartImport(initial, |chain|, numThreads), actions);
            && |s.disk| == |initial|
            && var st' := st.(data := Image(s.disk, L.totalClusters));
            && FullBlocks(st')
            && ReadFile(L, st', chain[0], |file|) == file
            && forall c :: 0 <= c < L.totalClusters && c !in chain ==> st'.data[c] == st.data[c]
  {
    var job := ImportJob(chain, file);
    ImportJobOk(L, st.flat, chain, file, |initial|);
    ScheduleIndependent(job, initial, numThreads, actions);
    ImportedImage(L, st, chain, file, initial);
    ReadImported(L, st.(data := Image(Imported(job, initial), L.totalClusters)), chain, file);
  }

  /** The clusters an import of a file that fits is written to. */
  ghost function ImportChain(L: Layout, st: Store, first: nat, file: Bytes, level: nat): (chain: seq<nat>)
    requires Tally(L, st) && LinksInRange(L, st.flat) && UsedAt(L, st.flat, first)
    requires |Buffers(file)| - 1 <= st.free
    ensures |chain| == |Buffers(file)|
  {
    hide Tally, LinksInRange, Preallocate, Buffers;
    PreallocateAll(L, st, first, |Buffers(file)| - 1, level);
    [first] + Preallocate(L, st, first, |Buffers(file)| - 1, level).1
  }

  /** The whole import of a file that fits into the free clusters: pre-allocate behind the entry's first cluster, let the pool write the
      clusters, read the entry back. Only the first cluster and formerly free ones change, and
      the counters stay exact. */
  lemma ImportWorks(L: Layout, st: Store, first: nat, file: Bytes, level: nat,
                    initial: seq<Sector>, numThreads: nat, actions: seq<Action>)
    requires Tally(L, st) && LinksInRange(L, st.flat) && FullBlocks(st) && UsedAt(L, st.flat, first)
    requires |initial| == 8 * L.totalClusters && st.data == Image(initial, L.totalClusters)
    requires |Buffers(file)| <= 1_000_001 && |Buffers(file)| - 1 <= st.free
    requires AllDone(ImportJob(ImportChain(L, st, first, file, level), file), initial, numThreads, actions)
    ensures var st1 := Preallocate(L, st, first, |Buffers(file)| - 1, level).0;
            var chain := ImportChain(L, st, first, file, level);
            var s := RunImport(ImportJob(chain, file), StartImport(initial, |chain|, numThreads), actions);
            && |s.disk| == |initial|
            && var st' := st1.(data := Image(s.disk, L.totalClusters));
            && Tally(L, st') && FullBlocks(st') && IsChain(L, st'.flat, chain)
            && ReadFile(L, st', first, |file|) == file
            && forall c :: 0 <= c < L.totalClusters && c != first && !FreeAt(L, st.flat, c) ==>
                 st'.data[c] == st.data[c] && st'.flat[c] == st.flat[c]
  {
    hide IsChain, Buffers, ImportJob, Preallocate, ReadFile, AllDone, Image, RunImport, StartImport, FreeAt, CountsRight, LinksInRange;
    PreallocateWorks(L, st, first, |Buffers(file)| - 1, level);
    PreallocateAll(L, st, first, |Buffers(file)| - 1, level);
    var (st1, rest, ok) := Preallocate(L, st, first, |Buffers(file)| - 1, level);
    var chain := [first] + rest;
    DoneRuns(ImportJob(chain, file), initial, numThreads, actions);
    ImportReadBack(L, st1, chain, file, initial, numThreads, actions);
    var s := RunImport(ImportJob(chain, file), StartImport(initial, |chain|, numThreads), actions);
    var data := Image(s.disk, L.totalClusters);
    DataApart(L, st1, data);
    assert forall c :: c in chain <==> c == first || c in rest;
  }

  /** The counters do not depend on the data. */
  lemma DataApart(L: Layout, st: Store, data: seq<Bytes>)
    requires Tally(L, st) && |data| == L.totalClusters
    ensures Tally(L, st.(data := data))
  {
  }

  lemma DoneRuns(job: Job, initial: seq<Sector>, numThreads: nat, actions: seq<Action>)
    requires AllDone(job, initial, numThreads, actions)
    ensures CanRunImport(job, StartImport(initial, |job.chain|, numThreads), actions)
  {
  }

  lemma ImportedImage(L: Layout, st: Store, chain: seq<nat>, file: Bytes, initial: seq<Sector>)
    requires Shaped(L, st) && FullBlocks(st) && Distinct(chain) && |chain| == |Buffers(file)|
    requires |initial| == 8 * L.totalClusters && st.data == Image(initial, L.totalClusters)
    requires JobOk(ImportJob(chain, file), |initial|)
    ensures var data := Image(Imported(ImportJob(chain, file), initial), L.totalClusters);
            && (forall t :: 0 <= t < |chain| ==> chain[t] < |data| && data[chain[t]] == Buffers(file)[t])
            && (forall c :: 0 <= c < |data| ==> |data[c]| == CLUSTER_SIZE)
            && (forall c :: 0 <= c < |data| && c !in chain ==> data[c] == st.data[c])
  {
    var data := Image(Imported(ImportJob(chain, file), initial), L.totalClusters);
    forall c | 0 <= c < L.totalClusters
      ensures data[c] == var t := IndexOf(chain, c); if t < |chain| then Buffers(file)[t] else st.data[c]
    {
      ImportedClusters(chain, file, initial, c);
    }
    hide ImportJob, Imported, ClusterBytes;
    forall t | 0 <= t < |chain| ensures chain[t] < |data| && data[chain[t]] == Buffers(file)[t] {
      IndexOfDistinct(chain, t);
    }
  }

  lemma ReadImported(L: Layout, st: Store, chain: seq<nat>, file: Bytes)
    requires Addressable(L) && Shaped(L, st) && FullBlocks(st)
    requires IsChain(L, st.flat, chain) && |chain| == |Buffers(file)| <= 1_000_001
    requires forall t :: 0 <= t < |chain| ==> chain[t] < |st.data| && st.data[chain[t]] == Buffers(file)[t]
    ensures ReadFile(L, st, chain[0], |file|) == file
  {
    ChainOfIsChain(L, st.flat, chain);
    if |file| > 0 {
      ReadPrefix(st.data, chain, file);
    }
  }
}
