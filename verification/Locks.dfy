/**
 * Shared and exclusive locks on files and on byte ranges of files. Both tables follow the same
 * rules; they differ in which pairs of locks meet: all locks of a file, or those whose ranges
 * overlap.
 */
module Locks {
  const TWO64: nat := 0x1_0000_0000_0000_0000

  datatype Kind = NoLock | Shared | Exclusive

  datatype Status = Acquired | TimedOut | Invalid

  datatype ByteRange = ByteRange(start: nat, length: nat) {
    /** The end wraps around like the 64-bit sum it is. */
    function End(): nat {
      (start + length) % 0x1_0000_0000_0000_0000
    }

    predicate Overlaps(other: ByteRange) {
      start < other.End() && other.start < End()
    }
  }

  predicate Plain(r: ByteRange) {
    0 < r.length && r.start + r.length < TWO64
  }

  predicate Covers(r: ByteRange, k: nat) {
    r.start <= k < r.start + r.length
  }

  /** For non-empty ranges that do not wrap, overlapping means sharing a byte. */
  lemma OverlapIsSharing(a: ByteRange, b: ByteRange)
    requires Plain(a) && Plain(b)
    ensures a.Overlaps(b) <==>
              exists k :: Covers(a, k) && Covers(b, k)
  {
    var m := if a.start < b.start then b.start else a.start;
    assert a.Overlaps(b) ==> Covers(a, m) && Covers(b, m);
  }

  /** A range that is empty or reaches 2^64 does not even overlap itself, so nothing excludes a
      second owner from it. */
  lemma SelfOverlap(r: ByteRange)
    requires r.start < TWO64 && r.length < TWO64
    ensures r.Overlaps(r) <==> Plain(r)
  {
  }

  datatype Lock = Lock(owner: nat, kind: Kind, range: ByteRange)

  /** Locks by the start cluster of their file. */
  type Table = map<nat, seq<Lock>>

  function At(m: Table, c: nat): seq<Lock> {
    if c in m then m[c] else []
  }

  predicate Meets(whole: bool, a: ByteRange, b: ByteRange) {
    whole || a.Overlaps(b)
  }

  /** A held lock stands in the way of a request. */
  predicate Blocks(whole: bool, held: Lock, wanted: Lock) {
    && held.owner != wanted.owner && Meets(whole, held.range, wanted.range)
    && (held.kind == Exclusive || (wanted.kind == Exclusive && held.kind == Shared))
  }

  predicate Conflict(whole: bool, locks: seq<Lock>, wanted: Lock) {
    exists i :: 0 <= i < |locks| && Blocks(whole, locks[i], wanted)
  }

  /* ---------- Operations ---------- */

  /** The wait loop holds the manager's mutex, so a conflict can only end in a timeout. */
  function Acquire(whole: bool, m: Table, c: nat, wanted: Lock): (Table, Status) {
    if wanted.kind == NoLock then (m, Invalid)
    else if Conflict(whole, At(m, c), wanted) then (m, TimedOut)
    else (m[c := At(m, c) + [wanted]], Acquired)
  }

  predicate Releases(whole: bool, l: Lock, owner: nat, range: ByteRange) {
    l.owner == owner && (whole || l.range == range)
  }

  /** The first lock a release applies to, or the number of locks. */
  function FirstHeld(whole: bool, locks: seq<Lock>, owner: nat, range: ByteRange): (r: nat)
    ensures r <= |locks|
    ensures r < |locks| ==> Releases(whole, locks[r], owner, range)
    ensures forall k :: 0 <= k < r ==> !Releases(whole, locks[k], owner, range)
  {
    if |locks| == 0 || Releases(whole, locks[0], owner, range) then 0
    else 1 + FirstHeld(whole, locks[1..], owner, range)
  }

  function Release(whole: bool, m: Table, c: nat, owner: nat, range: ByteRange): (Table, bool) {
    var locks := At(m, c);
    var i := FirstHeld(whole, locks, owner, range);
    if i == |locks| then (m, false)
    else if |locks| == 1 then (m - {c}, true)
    else (m[c := locks[..i] + locks[i + 1..]], true)
  }

  function Without(locks: seq<Lock>, owner: nat): (r: seq<Lock>)
    ensures forall i :: 0 <= i < |r| ==> r[i].owner != owner
  {
    if |locks| == 0 then []
    else if locks[0].owner == owner then Without(locks[1..], owner)
    else [locks[0]] + Without(locks[1..], owner)
  }

  function ReleaseAll(m: Table, owner: nat): Table {
    map c | c in m :: Without(m[c], owner)
  }

  /* ---------- Mutual exclusion ---------- */

  /** Two locks of different owners that meet are both shared. */
  predicate Compatible(whole: bool, a: Lock, b: Lock) {
    a.owner != b.owner && (Meets(whole, a.range, b.range) || Meets(whole, b.range, a.range))
    ==> a.kind == Shared && b.kind == Shared
  }

  predicate ListOk(whole: bool, locks: seq<Lock>) {
    && (forall i :: 0 <= i < |locks| ==> locks[i].kind != NoLock)
    && (forall i, j :: 0 <= i < j < |locks| ==> Compatible(whole, locks[i], locks[j]))
  }

  ghost predicate Exclusion(whole: bool, m: Table) {
    forall c :: c in m ==> ListOk(whole, m[c])
  }

  lemma AcquireKeeps(whole: bool, m: Table, c: nat, wanted: Lock)
    requires Exclusion(whole, m)
    ensures Exclusion(whole, Acquire(whole, m, c, wanted).0)
  {
    var locks := At(m, c);
    if wanted.kind != NoLock && !Conflict(whole, locks, wanted) {
      forall i | 0 <= i < |locks| ensures Compatible(whole, locks[i], wanted) {
        assert !Blocks(whole, locks[i], wanted);
      }
      assert ListOk(whole, locks + [wanted]);
    }
  }

  /** A request is granted exactly when the file's locks stay compatible with it. */
  lemma AcquireExact(whole: bool, m: Table, c: nat, wanted: Lock)
    requires ListOk(whole, At(m, c)) && wanted.kind != NoLock
    ensures Acquire(whole, m, c, wanted).1 == Acquired <==> ListOk(whole, At(m, c) + [wanted])
  {
    var locks := At(m, c);
    var all := locks + [wanted];
    if Conflict(whole, locks, wanted) {
      var i :| 0 <= i < |locks| && Blocks(whole, locks[i], wanted);
      assert !Compatible(whole, all[i], all[|locks|]);
    } else {
      forall i | 0 <= i < |locks| ensures Compatible(whole, locks[i], wanted) {
        assert !Blocks(whole, locks[i], wanted);
      }
    }
  }

  /** A grant appends the lock to the file's locks and keeps those and all other files'; a refusal
      changes nothing, and is invalid exactly for a request of no lock. */
  lemma AcquireFrame(whole: bool, m: Table, c: nat, wanted: Lock, d: nat)
    ensures var (m', s) := Acquire(whole, m, c, wanted);
            && (s == Invalid <==> wanted.kind == NoLock)
            && (s == Acquired ==> At(m', c) == At(m, c) + [wanted])
            && (s != Acquired ==> m' == m)
            && (d != c ==> At(m', d) == At(m, d))
  {
  }

  /** The first lock of the owner on the file, for ranges on exactly this range. */
  predicate IsFirst(whole: bool, locks: seq<Lock>, owner: nat, range: ByteRange, i: nat) {
    && i < |locks| && Holds(whole, locks[i], owner, range)
    && forall k :: 0 <= k < i ==> !Holds(whole, locks[k], owner, range)
  }

  predicate Holds(whole: bool, l: Lock, owner: nat, range: ByteRange) {
    l.owner == owner && (whole || (l.range.start == range.start && l.range.length == range.length))
  }

  /** A release succeeds exactly when the owner holds such a lock; it then removes the first of
      them, and an emptied file leaves the table. */
  lemma ReleaseExact(whole: bool, m: Table, c: nat, owner: nat, range: ByteRange)
    ensures var (m', ok) := Release(whole, m, c, owner, range);
            var locks := At(m, c);
            && (ok <==> exists i: nat :: IsFirst(whole, locks, owner, range, i))
            && (forall i: nat :: IsFirst(whole, locks, owner, range, i) ==>
                  At(m', c) == locks[..i] + locks[i + 1..] && (c in m' <==> |locks| > 1))
  {
    var locks := At(m, c);
    var f := FirstHeld(whole, locks, owner, range);
    assert forall k :: 0 <= k < |locks| ==> Releases(whole, locks[k], owner, range) == Holds(whole, locks[k], owner, range);
    hide Releases, Holds;
    if f < |locks| {
      assert IsFirst(whole, locks, owner, range, f);
      assert |locks| == 1 ==> locks[..f] + locks[f + 1..] == [];
      assert forall i: nat :: IsFirst(whole, locks, owner, range, i) ==> i == f;
    }
  }

  /** A release touches no other file, and an unsuccessful one touches nothing. */
  lemma ReleaseFrame(whole: bool, m: Table, c: nat, owner: nat, range: ByteRange, d: nat)
    ensures var (m', ok) := Release(whole, m, c, owner, range);
            && (!ok ==> m' == m)
            && (d != c ==> At(m', d) == At(m, d))
  {
  }

  /** Releasing everything of an owner removes that owner's locks and no others. */
  lemma {:induction false} WithoutExact(locks: seq<Lock>, owner: nat, l: Lock)
    ensures multiset(Without(locks, owner))[l] == if l.owner == owner then 0 else multiset(locks)[l]
    decreases |locks|
  {
    if |locks| > 0 {
      WithoutExact(locks[1..], owner, l);
      assert locks == [locks[0]] + locks[1..];
    }
  }

  lemma ReleaseKeeps(whole: bool, m: Table, c: nat, owner: nat, range: ByteRange)
    requires Exclusion(whole, m)
    ensures Exclusion(whole, Release(whole, m, c, owner, range).0)
  {
    hide Releases, Compatible;
    var locks := At(m, c);
    var i := FirstHeld(whole, locks, owner, range);
    if i < |locks| {
      var rest := locks[..i] + locks[i + 1..];
      assert forall k :: 0 <= k < |rest| ==> rest[k] == if k < i then locks[k] else locks[k + 1];
      assert ListOk(whole, rest);
    }
  }

  lemma {:induction false} WithoutSome(locks: seq<Lock>, owner: nat, j: nat) returns (i: nat)
    requires j < |Without(locks, owner)|
    ensures j <= i < |locks| && locks[i] == Without(locks, owner)[j]
  {
    if locks[0].owner == owner {
      var k := WithoutSome(locks[1..], owner, j);
      i := k + 1;
    } else if j == 0 {
      i := 0;
    } else {
      var k := WithoutSome(locks[1..], owner, j - 1);
      i := k + 1;
    }
  }

  lemma {:induction false} WithoutOk(whole: bool, locks: seq<Lock>, owner: nat)
    requires ListOk(whole, locks)
    ensures ListOk(whole, Without(locks, owner))
    decreases |locks|
  {
    if |locks| > 0 {
      var rest := locks[1..];
      assert ListOk(whole, rest);
      WithoutOk(whole, rest, owner);
      var r := Without(rest, owner);
      if locks[0].owner != owner {
        forall j | 0 <= j < |r| ensures Compatible(whole, locks[0], r[j]) {
          var i := WithoutSome(rest, owner, j);
          assert rest[i] == locks[i + 1];
        }
      }
    }
  }

  /** Release-all removes exactly the owner's locks from every file. */
  lemma ReleaseAllExact(m: Table, owner: nat, d: nat, l: Lock)
    ensures multiset(At(ReleaseAll(m, owner), d))[l] == if l.owner == owner then 0 else multiset(At(m, d))[l]
  {
    WithoutExact(At(m, d), owner, l);
  }

  lemma ReleaseAllKeeps(whole: bool, m: Table, owner: nat)
    requires Exclusion(whole, m)
    ensures Exclusion(whole, ReleaseAll(m, owner))
    ensures forall c, i :: c in ReleaseAll(m, owner) && 0 <= i < |ReleaseAll(m, owner)[c]| ==>
              ReleaseAll(m, owner)[c][i].owner != owner
  {
    forall c | c in m ensures ListOk(whole, Without(m[c], owner)) {
      WithoutOk(whole, m[c], owner);
    }
  }

  datatype LockOp =
    | AcquireOp(cluster: nat, lock: Lock)
    | ReleaseOp(cluster: nat, owner: nat, range: ByteRange)
    | ReleaseAllOp(owner: nat)

  function Exec(whole: bool, m: Table, op: LockOp): Table {
    match op
    case AcquireOp(c, l) => Acquire(whole, m, c, l).0
    case ReleaseOp(c, owner, range) => Release(whole, m, c, owner, range).0
    case ReleaseAllOp(owner) => ReleaseAll(m, owner)
  }

  function Run(whole: bool, m: Table, ops: seq<LockOp>): Table
    decreases |ops|
  {
    if |ops| == 0 then m else Run(whole, Exec(whole, m, ops[0]), ops[1..])
  }

  /** Over every run an exclusive lock never coexists with another owner's lock that meets it. */
  lemma {:induction false} RunKeepsExclusion(whole: bool, m: Table, ops: seq<LockOp>)
    requires Exclusion(whole, m)
    ensures Exclusion(whole, Run(whole, m, ops))
    decreases |ops|
  {
    hide Exclusion;
    if |ops| > 0 {
      match ops[0] {
        case AcquireOp(c, l) => AcquireKeeps(whole, m, c, l);
        case ReleaseOp(c, owner, range) => ReleaseKeeps(whole, m, c, owner, range);
        case ReleaseAllOp(owner) => ReleaseAllKeeps(whole, m, owner);
      }
      RunKeepsExclusion(whole, Exec(whole, m, ops[0]), ops[1..]);
    }
  }

  /** The two tables know nothing of each other: an owner who is granted a file exclusively does
      not keep any other owner from being granted any range of it exclusively, whatever both
      tables hold, unless a range lock stands in the way. Both then hold their locks at once. */
  lemma TablesIndependent(files: Table, ranges: Table, c: nat, r: ByteRange, a: nat, b: nat)
    requires !Conflict(true, At(files, c), Lock(a, Exclusive, ByteRange(0, 0)))
    requires !Conflict(false, At(ranges, c), Lock(b, Exclusive, r))
    ensures var (files', s1) := Acquire(true, files, c, Lock(a, Exclusive, ByteRange(0, 0)));
            var (ranges', s2) := Acquire(false, ranges, c, Lock(b, Exclusive, r));
            && s1 == Acquired && s2 == Acquired
            && Lock(a, Exclusive, ByteRange(0, 0)) in At(files', c)
            && Lock(b, Exclusive, r) in At(ranges', c)
            && (Exclusion(true, files) ==> Exclusion(true, files'))
            && (Exclusion(false, ranges) ==> Exclusion(false, ranges'))
  {
    hide Conflict, Exclusion;
    if Exclusion(true, files) { AcquireKeeps(true, files, c, Lock(a, Exclusive, ByteRange(0, 0))); }
    if Exclusion(false, ranges) { AcquireKeeps(false, ranges, c, Lock(b, Exclusive, r)); }
  }

  /* ---------- The early-return scans ---------- */

  /** canWrite: the first lock that settles the question decides. */
  function ScanWrite(locks: seq<Lock>, requester: nat): bool {
    if |locks| == 0 then true
    else if locks[0].owner == requester && locks[0].kind == Exclusive then true
    else if locks[0].owner != requester && locks[0].kind != NoLock then false
    else ScanWrite(locks[1..], requester)
  }

  /** canRead */
  function ScanRead(locks: seq<Lock>, requester: nat): bool {
    if |locks| == 0 then true
    else if locks[0].owner == requester then true
    else if locks[0].kind == Exclusive then false
    else ScanRead(locks[1..], requester)
  }

  lemma TailOk(whole: bool, locks: seq<Lock>)
    requires ListOk(whole, locks) && |locks| > 0
    ensures ListOk(whole, locks[1..])
    ensures forall i :: 1 <= i < |locks| ==> Compatible(whole, locks[0], locks[i]) && locks[1..][i - 1] == locks[i]
  {
  }

  /** Under mutual exclusion the scan says yes exactly when nobody else holds the file. */
  lemma {:induction false} CanWriteExact(locks: seq<Lock>, requester: nat)
    requires ListOk(true, locks)
    ensures ScanWrite(locks, requester) <==> forall i :: 0 <= i < |locks| ==> locks[i].owner == requester
    decreases |locks|
  {
    if |locks| > 0 {
      TailOk(true, locks);
      CanWriteExact(locks[1..], requester);
      if locks[0].owner == requester && locks[0].kind == Exclusive {
        forall i | 0 <= i < |locks| ensures locks[i].owner == requester {
          if i > 0 { assert Compatible(true, locks[0], locks[i]); }
        }
      } else if locks[0].owner == requester {
        assert forall i :: 0 <= i < |locks| ==> (i == 0 || locks[i] == locks[1..][i - 1]);
      }
    }
  }

  /** Under mutual exclusion the scan says yes exactly when nobody else holds it exclusively. */
  lemma {:induction false} CanReadExact(locks: seq<Lock>, requester: nat)
    requires ListOk(true, locks)
    ensures ScanRead(locks, requester) <==>
              forall i :: 0 <= i < |locks| ==> locks[i].owner == requester || locks[i].kind != Exclusive
    decreases |locks|
  {
    if |locks| > 0 {
      TailOk(true, locks);
      CanReadExact(locks[1..], requester);
      if locks[0].owner == requester {
        forall i | 0 <= i < |locks| ensures locks[i].owner == requester || locks[i].kind != Exclusive {
          if i > 0 { assert Compatible(true, locks[0], locks[i]); }
        }
      } else if locks[0].kind != Exclusive {
        assert forall i :: 0 <= i < |locks| ==> (i == 0 || locks[i] == locks[1..][i - 1]);
      }
    }
  }

  /* ---------- The manager ---------- */

  class FileLockManager {
    var fileLocks: Table
    var rangeLocks: Table

    ghost predicate Valid()
      reads this
    {
      Exclusion(true, fileLocks) && Exclusion(false, rangeLocks)
    }

    constructor ()
      ensures Valid() && fileLocks == map[] && rangeLocks == map[]
    {
      fileLocks, rangeLocks := map[], map[];
    }

    /** The conflict loop of both tables. */
    static method HasConflict(whole: bool, locks: seq<Lock>, wanted: Lock) returns (found: bool)
      ensures found == Conflict(whole, locks, wanted)
    {
      var i := 0;
      while i < |locks|
        invariant 0 <= i <= |locks|
        invariant forall k :: 0 <= k < i ==> !Blocks(whole, locks[k], wanted)
      {
        var lock := locks[i];
        i := i + 1;
        if lock.owner == wanted.owner { continue; }
        if !whole && !lock.range.Overlaps(wanted.range) { continue; }
        if lock.kind == Exclusive || (wanted.kind == Exclusive && lock.kind == Shared) {
          assert Blocks(whole, locks[i - 1], wanted);
          return true;
        }
      }
      found := false;
    }

    method AcquireFileLock(cluster: nat, kind: Kind, owner: nat) returns (status: Status)
      requires Valid()
      modifies this
      ensures Valid() && rangeLocks == old(rangeLocks)
      ensures (fileLocks, status) == Acquire(true, old(fileLocks), cluster, Lock(owner, kind, ByteRange(0, 0)))
    {
      var wanted := Lock(owner, kind, ByteRange(0, 0));
      AcquireKeeps(true, fileLocks, cluster, wanted);
      if kind == NoLock { return Invalid; }
      var blocked := HasConflict(true, At(fileLocks, cluster), wanted);
      if blocked { return TimedOut; }
      fileLocks := fileLocks[cluster := At(fileLocks, cluster) + [wanted]];
      status := Acquired;
    }

    method AcquireRangeLock(cluster: nat, range: ByteRange, kind: Kind, owner: nat) returns (status: Status)
      requires Valid()
      modifies this
      ensures Valid() && fileLocks == old(fileLocks)
      ensures (rangeLocks, status) == Acquire(false, old(rangeLocks), cluster, Lock(owner, kind, range))
    {
      var wanted := Lock(owner, kind, range);
      AcquireKeeps(false, rangeLocks, cluster, wanted);
      if kind == NoLock { return Invalid; }
      var blocked := HasConflict(false, At(rangeLocks, cluster), wanted);
      if blocked { return TimedOut; }
      rangeLocks := rangeLocks[cluster := At(rangeLocks, cluster) + [wanted]];
      status := Acquired;
    }

    /** The search and erase of both release operations. */
    static method Erase(whole: bool, m: Table, cluster: nat, owner: nat, range: ByteRange)
      returns (r: Table, released: bool)
      ensures (r, released) == Release(whole, m, cluster, owner, range)
    {
      if cluster !in m { return m, false; }
      var locks := m[cluster];
      var i := 0;
      assert locks[0..] == locks;
      while i < |locks|
        invariant 0 <= i <= |locks|
        invariant FirstHeld(whole, locks, owner, range) == i + FirstHeld(whole, locks[i..], owner, range)
      {
        assert locks[i..][0] == locks[i] && locks[i..][1..] == locks[i + 1..];
        if locks[i].owner == owner && (whole || locks[i].range == range) {
          var rest := locks[..i] + locks[i + 1..];
          if |rest| == 0 { return m - {cluster}, true; }
          return m[cluster := rest], true;
        }
        i := i + 1;
      }
      return m, false;
    }

    method ReleaseFileLock(cluster: nat, owner: nat) returns (released: bool)
      requires Valid()
      modifies this
      ensures Valid() && rangeLocks == old(rangeLocks)
      ensures (fileLocks, released) == Release(true, old(fileLocks), cluster, owner, ByteRange(0, 0))
    {
      ReleaseKeeps(true, fileLocks, cluster, owner, ByteRange(0, 0));
      fileLocks, released := Erase(true, fileLocks, cluster, owner, ByteRange(0, 0));
    }

    method ReleaseRangeLock(cluster: nat, range: ByteRange, owner: nat) returns (released: bool)
      requires Valid()
      modifies this
      ensures Valid() && fileLocks == old(fileLocks)
      ensures (rangeLocks, released) == Release(false, old(rangeLocks), cluster, owner, range)
    {
      ReleaseKeeps(false, rangeLocks, cluster, owner, range);
      rangeLocks, released := Erase(false, rangeLocks, cluster, owner, range);
    }

    method ReleaseAllLocks(owner: nat)
      requires Valid()
      modifies this
      ensures Valid()
      ensures fileLocks == ReleaseAll(old(fileLocks), owner) && rangeLocks == ReleaseAll(old(rangeLocks), owner)
    {
      ReleaseAllKeeps(true, fileLocks, owner);
      ReleaseAllKeeps(false, rangeLocks, owner);
      fileLocks := map c | c in fileLocks :: Without(fileLocks[c], owner);
      rangeLocks := map c | c in rangeLocks :: Without(rangeLocks[c], owner);
    }

    method CanWrite(cluster: nat, requester: nat) returns (ok: bool)
      requires Valid()
      ensures ok <==> forall i :: 0 <= i < |At(fileLocks, cluster)| ==> At(fileLocks, cluster)[i].owner == requester
    {
      if cluster !in fileLocks { return true; }
      var locks := fileLocks[cluster];
      CanWriteExact(locks, requester);
      var i := 0;
      assert locks[0..] == locks;
      while i < |locks|
        invariant 0 <= i <= |locks|
        invariant ScanWrite(locks[i..], requester) == ScanWrite(locks, requester)
      {
        assert locks[i..][0] == locks[i] && locks[i..][1..] == locks[i + 1..];
        if locks[i].owner == requester && locks[i].kind == Exclusive { return true; }
        if locks[i].owner != requester && locks[i].kind != NoLock {
          assert At(fileLocks, cluster)[i].owner != requester;
          return false;
        }
        i := i + 1;
      }
      ok := true;
    }

    method CanRead(cluster: nat, requester: nat) returns (ok: bool)
      requires Valid()
      ensures ok <==> forall i :: 0 <= i < |At(fileLocks, cluster)| ==>
                        At(fileLocks, cluster)[i].owner == requester || At(fileLocks, cluster)[i].kind != Exclusive
    {
      if cluster !in fileLocks { return true; }
      var locks := fileLocks[cluster];
      CanReadExact(locks, requester);
      var i := 0;
      assert locks[0..] == locks;
      while i < |locks|
        invariant 0 <= i <= |locks|
        invariant ScanRead(locks[i..], requester) == ScanRead(locks, requester)
      {
        assert locks[i..][0] == locks[i] && locks[i..][1..] == locks[i + 1..];
        if locks[i].owner == requester { return true; }
        if locks[i].kind == Exclusive {
          assert At(fileLocks, cluster)[i].owner != requester && At(fileLocks, cluster)[i].kind == Exclusive;
          return false;
        }
        i := i + 1;
      }
      ok := true;
    }
  }
}
