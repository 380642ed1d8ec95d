/**
 * The operation journal: a ring of checksummed records, seven to a sector, that are logged
 * before an operation, committed after it, and replayed at mount time.
 */
module Journal {
  import opened Crc64

  const OP_CREATE: nat := 1
  const OP_WRITE: nat := 2
  const OP_DELETE: nat := 3
  const OP_UPDATE_DIR: nat := 4
  const OP_MKDIR: nat := 5

  const PENDING: nat := 0
  const COMMITTED: nat := 1
  const ABORTED: nat := 2

  const TYPE_FREE: nat := 0
  const TYPE_FILE: nat := 1
  const TYPE_LEVELED_DIR: nat := 2

  type Bytes = seq<bv8>

  datatype Record = Record(
    txId: nat, opType: nat, status: nat, target: nat, level: nat, timestamp: nat,
    metadata: Bytes, checksum: bv64)

  /* ---------- The 64 checksummed bytes ---------- */

  function Le(n: nat, width: nat): (r: Bytes)
    ensures |r| == width
  {
    if width == 0 then [] else [(n % 256) as bv8] + Le(n / 256, width - 1)
  }

  function BeforeStatus(r: Record): Bytes {
    Le(r.txId, 8) + Le(r.opType, 4)
  }

  function AfterStatus(r: Record): Bytes {
    Le(r.target, 8) + Le(r.level, 8) + Le(r.timestamp, 8) + r.metadata
  }

  function Encode(r: Record): Bytes {
    BeforeStatus(r) + Le(r.status, 4) + AfterStatus(r)
  }

  /** The number a little-endian field holds. */
  function LeValue(b: Bytes): nat {
    if |b| == 0 then 0 else (b[0] as int) + 256 * LeValue(b[1..])
  }

  /** The number fits the field. */
  predicate FitsIn(n: nat, width: nat) {
    if width == 0 then n == 0 else FitsIn(n / 256, width - 1)
  }

  lemma {:induction false} LeReadsBack(n: nat, width: nat)
    requires FitsIn(n, width)
    ensures LeValue(Le(n, width)) == n
    decreases width
  {
    if width > 0 {
      LeReadsBack(n / 256, width - 1);
      assert Le(n, width)[1..] == Le(n / 256, width - 1);
      ByteReadsBack(n % 256);
    }
  }

  lemma ByteSuccessor(b: bv8)
    requires b < 255
    ensures (b + 1) as int == b as int + 1
  {
  }

  lemma {:induction false} ByteOf(n: nat) returns (b: bv8)
    requires n < 256
    ensures b as int == n
  {
    if n == 0 {
      b := 0;
    } else {
      var a := ByteOf(n - 1);
      ByteSuccessor(a);
      b := a + 1;
    }
  }

  lemma ByteReadsBack(n: nat)
    requires n < 256
    ensures (n as bv8) as int == n
  {
    var b := ByteOf(n);
    assert n as bv8 == b;
  }

  lemma FitsMore(n: nat, width: nat)
    requires FitsIn(n / 256, width)
    ensures FitsIn(n, width + 1)
  {
  }

  lemma Fits32(n: nat)
    requires n < 0x1_0000_0000
    ensures FitsIn(n, 4)
  {
    hide FitsIn;
    var n1 := n / 256;
    var n2 := n1 / 256;
    var n3 := n2 / 256;
    assert n1 < 0x100_0000 && n2 < 0x1_0000 && n3 < 0x100;
    assert FitsIn(n3 / 256, 0) by { FitsNone(); }
    FitsMore(n3, 0); FitsMore(n2, 1); FitsMore(n1, 2); FitsMore(n, 3);
  }

  lemma FitsNone()
    ensures FitsIn(0, 0)
  {
  }

  lemma Fits64(n: nat)
    requires n < 0x1_0000_0000_0000_0000
    ensures FitsIn(n, 8)
  {
    hide FitsIn;
    var n1 := n / 256;
    var n2 := n1 / 256;
    var n3 := n2 / 256;
    assert n1 < 0x100_0000_0000_0000 && n2 < 0x1_0000_0000_0000 && n3 < 0x100_0000_0000;
    Fits32(n3 / 256);
    FitsMore(n3, 4); FitsMore(n2, 5); FitsMore(n1, 6); FitsMore(n, 7);
  }

  /** The 64 bytes: each field little-endian at its own place. */
  lemma EncodeLayout(r: Record)
    requires r.txId < 0x1_0000_0000_0000_0000 && r.opType < 0x1_0000_0000 && r.status < 0x1_0000_0000
    requires r.target < 0x1_0000_0000_0000_0000 && r.level < 0x1_0000_0000_0000_0000
    requires r.timestamp < 0x1_0000_0000_0000_0000 && |r.metadata| == 24
    ensures var b := Encode(r);
            && |b| == 64
            && LeValue(b[0..8]) == r.txId && LeValue(b[8..12]) == r.opType && LeValue(b[12..16]) == r.status
            && LeValue(b[16..24]) == r.target && LeValue(b[24..32]) == r.level
            && LeValue(b[32..40]) == r.timestamp && b[40..64] == r.metadata
  {
    hide LeValue, FitsIn;
    Fits64(r.txId); Fits32(r.opType); Fits32(r.status); Fits64(r.target); Fits64(r.level); Fits64(r.timestamp);
    LeReadsBack(r.txId, 8); LeReadsBack(r.opType, 4); LeReadsBack(r.status, 4);
    LeReadsBack(r.target, 8); LeReadsBack(r.level, 8); LeReadsBack(r.timestamp, 8);
    hide Le;
    EncodeSlices(r);
  }

  lemma EncodeSlices(r: Record)
    requires |r.metadata| == 24
    ensures var b := Encode(r);
            && |b| == 64
            && b[0..8] == Le(r.txId, 8) && b[8..12] == Le(r.opType, 4) && b[12..16] == Le(r.status, 4)
            && b[16..24] == Le(r.target, 8) && b[24..32] == Le(r.level, 8)
            && b[32..40] == Le(r.timestamp, 8) && b[40..64] == r.metadata
  {
    hide Le;
  }

  predicate Intact(r: Record) {
    r.checksum == Checksum(Encode(r))
  }

  function Sealed(r: Record): Record {
    r.(checksum := Checksum(Encode(r)))
  }

  lemma SealedIntact(r: Record)
    ensures Intact(Sealed(r))
  {
    assert Encode(Sealed(r)) == Encode(r);
  }

  lemma StatusBytes(s: nat)
    requires s == COMMITTED || s == ABORTED
    ensures Le(PENDING, 4) != Le(s, 4)
  {
    assert Le(PENDING, 4)[0] == 0;
    assert Le(s, 4)[0] == if s == 1 then 1 else 2;
  }

  /** Changing a pending record's status under an unchanged checksum always breaks the record. */
  lemma StaleChecksum(r: Record, s: nat)
    requires Intact(r) && r.status == PENDING && (s == COMMITTED || s == ABORTED)
    ensures !Intact(r.(status := s))
  {
    hide Checksum;
    StatusBytes(s);
    BurstDetected(BeforeStatus(r), Le(PENDING, 4), Le(s, 4), AfterStatus(r));
  }

  /** Two records whose checksummed bytes differ within eight consecutive ones cannot both be
      intact under one checksum. */
  lemma WindowDetected(r: Record, r': Record, before: Bytes, u: Bytes, v: Bytes, after: Bytes)
    requires Intact(r) && r'.checksum == r.checksum && |u| == |v| <= 8 && u != v
    requires Encode(r) == before + u + after && Encode(r') == before + v + after
    ensures !Intact(r')
  {
    hide Checksum, Encode;
    BurstDetected(before, u, v, after);
  }

  lemma LeDiffers(a: nat, b: nat, width: nat)
    requires FitsIn(a, width) && FitsIn(b, width) && a != b
    ensures Le(a, width) != Le(b, width)
  {
    LeReadsBack(a, width);
    LeReadsBack(b, width);
  }

  /** One field changed under an unchanged checksum is always detected: the transaction, the
      operation, the target, the level or the time, ... */
  lemma FieldDetected(r: Record, n: nat)
    requires Intact(r) && n < 0x1_0000_0000_0000_0000
    requires r.txId < 0x1_0000_0000_0000_0000 && r.opType < 0x1_0000_0000
    requires r.target < 0x1_0000_0000_0000_0000 && r.level < 0x1_0000_0000_0000_0000
    requires r.timestamp < 0x1_0000_0000_0000_0000
    ensures n != r.txId ==> !Intact(r.(txId := n))
    ensures n != r.opType && n < 0x1_0000_0000 ==> !Intact(r.(opType := n))
    ensures n != r.target ==> !Intact(r.(target := n))
    ensures n != r.level ==> !Intact(r.(level := n))
    ensures n != r.timestamp ==> !Intact(r.(timestamp := n))
  {
    if n != r.txId { TxDetected(r, n); }
    if n != r.opType && n < 0x1_0000_0000 { OpDetected(r, n); }
    if n != r.target { TargetDetected(r, n); }
    if n != r.level { LevelDetected(r, n); }
    if n != r.timestamp { TimeDetected(r, n); }
    hide Intact;
  }

  lemma RegroupFirst(a: Bytes, b: Bytes, c: Bytes, d: Bytes)
    ensures a + b + c + d == [] + a + (b + c + d)
  {
  }

  lemma RegroupThird(x: Bytes, a: Bytes, b: Bytes, c: Bytes, d: Bytes)
    ensures x + (a + b + c + d) == (x + a + b) + c + d
  {
  }

  lemma TxDetected(r: Record, n: nat)
    requires Intact(r) && n < 0x1_0000_0000_0000_0000 && r.txId < 0x1_0000_0000_0000_0000 && n != r.txId
    ensures !Intact(r.(txId := n))
  {
    Fits64(n); Fits64(r.txId);
    LeDiffers(r.txId, n, 8);
    hide Le, FitsIn, Checksum, Intact;
    var after := Le(r.opType, 4) + Le(r.status, 4) + AfterStatus(r);
    RegroupFirst(Le(r.txId, 8), Le(r.opType, 4), Le(r.status, 4), AfterStatus(r));
    RegroupFirst(Le(n, 8), Le(r.opType, 4), Le(r.status, 4), AfterStatus(r));
    WindowDetected(r, r.(txId := n), [], Le(r.txId, 8), Le(n, 8), after);
  }

  lemma OpDetected(r: Record, n: nat)
    requires Intact(r) && n < 0x1_0000_0000 && r.opType < 0x1_0000_0000 && n != r.opType
    ensures !Intact(r.(opType := n))
  {
    Fits32(n); Fits32(r.opType);
    LeDiffers(r.opType, n, 4);
    hide Le, FitsIn, Checksum, Intact;
    var after := Le(r.status, 4) + AfterStatus(r);
    assert Encode(r) == Le(r.txId, 8) + Le(r.opType, 4) + after;
    assert Encode(r.(opType := n)) == Le(r.txId, 8) + Le(n, 4) + after;
    WindowDetected(r, r.(opType := n), Le(r.txId, 8), Le(r.opType, 4), Le(n, 4), after);
  }

  lemma TargetDetected(r: Record, n: nat)
    requires Intact(r) && n < 0x1_0000_0000_0000_0000 && r.target < 0x1_0000_0000_0000_0000 && n != r.target
    ensures !Intact(r.(target := n))
  {
    Fits64(n); Fits64(r.target);
    LeDiffers(r.target, n, 8);
    hide Le, FitsIn, Checksum, Intact;
    var before, after := BeforeStatus(r) + Le(r.status, 4), Le(r.level, 8) + Le(r.timestamp, 8) + r.metadata;
    assert Encode(r) == before + Le(r.target, 8) + after && Encode(r.(target := n)) == before + Le(n, 8) + after;
    WindowDetected(r, r.(target := n), before, Le(r.target, 8), Le(n, 8), after);
  }

  lemma LevelDetected(r: Record, n: nat)
    requires Intact(r) && n < 0x1_0000_0000_0000_0000 && r.level < 0x1_0000_0000_0000_0000 && n != r.level
    ensures !Intact(r.(level := n))
  {
    Fits64(n); Fits64(r.level);
    LeDiffers(r.level, n, 8);
    hide Le, FitsIn, Checksum, Intact;
    var before, after := BeforeStatus(r) + Le(r.status, 4) + Le(r.target, 8), Le(r.timestamp, 8) + r.metadata;
    assert Encode(r) == before + Le(r.level, 8) + after && Encode(r.(level := n)) == before + Le(n, 8) + after;
    WindowDetected(r, r.(level := n), before, Le(r.level, 8), Le(n, 8), after);
  }

  lemma TimeDetected(r: Record, n: nat)
    requires Intact(r) && n < 0x1_0000_0000_0000_0000 && r.timestamp < 0x1_0000_0000_0000_0000 && n != r.timestamp
    ensures !Intact(r.(timestamp := n))
  {
    Fits64(n); Fits64(r.timestamp);
    LeDiffers(r.timestamp, n, 8);
    hide Le, FitsIn, Checksum, Intact;
    var before := BeforeStatus(r) + Le(r.status, 4) + Le(r.target, 8) + Le(r.level, 8);
    var front := BeforeStatus(r) + Le(r.status, 4);
    RegroupThird(front, Le(r.target, 8), Le(r.level, 8), Le(r.timestamp, 8), r.metadata);
    RegroupThird(front, Le(r.target, 8), Le(r.level, 8), Le(n, 8), r.metadata);
    WindowDetected(r, r.(timestamp := n), before, Le(r.timestamp, 8), Le(n, 8), r.metadata);
  }

  /** ... and up to eight consecutive bytes of the name. */
  lemma NameDetected(r: Record, a: Bytes, u: Bytes, v: Bytes, b: Bytes)
    requires Intact(r) && r.metadata == a + u + b && |u| == |v| <= 8 && u != v
    ensures !Intact(r.(metadata := a + v + b))
  {
    hide Le, Checksum, Intact;
    var r' := r.(metadata := a + v + b);
    var front := BeforeStatus(r) + Le(r.status, 4) + (Le(r.target, 8) + Le(r.level, 8) + Le(r.timestamp, 8));
    assert Encode(r) == (front + a) + u + b;
    assert Encode(r') == (front + a) + v + b;
    WindowDetected(r, r', front + a, u, v, b);
  }

  /** Bytes up to the first NUL, as a C string constructor reads them. */
  function CString(b: Bytes): Bytes {
    if |b| == 0 || b[0] == 0 then [] else [b[0]] + CString(b[1..])
  }

  /** strncpy of at most 23 characters into a zeroed 24-byte field. */
  function Pad(name: Bytes): (r: Bytes)
    ensures |r| == 24
  {
    var s := CString(name);
    var kept := if |s| <= 23 then s else s[..23];
    kept + seq(24 - |kept|, i => 0)
  }

  const EMPTY := Record(0, 0, 0, 0, 0, 0, Pad([]), 0)

  /* ---------- Logging and committing ---------- */

  /** `lastTx` is the superblock's lastTxId. */
  datatype State = State(ring: seq<Record>, txId: nat, head: nat, lastTx: nat)

  function NewRecord(txId: nat, op: nat, target: nat, name: Bytes, now: nat): Record {
    Sealed(Record(txId, op, PENDING, target, 0, now, Pad(name), 0))
  }

  function Log(j: State, op: nat, target: nat, name: Bytes, now: nat): State
    requires j.head < |j.ring|
  {
    j.(ring := j.ring[j.head := NewRecord(j.txId + 1, op, target, name, now)],
       txId := j.txId + 1,
       head := (j.head + 1) % |j.ring|)
  }

  /** The first slot from `i` on holding the transaction, or the ring size. */
  function Find(ring: seq<Record>, txId: nat, i: nat): (r: nat)
    requires i <= |ring|
    ensures i <= r <= |ring|
    ensures r < |ring| ==> ring[r].txId == txId
    ensures forall k :: i <= k < r ==> ring[k].txId != txId
    decreases |ring| - i
  {
    if i == |ring| || ring[i].txId == txId then i else Find(ring, txId, i + 1)
  }

  function Commit(j: State, txId: nat): State {
    var i := Find(j.ring, txId, 0);
    if i == |j.ring| then j
    else j.(ring := j.ring[i := Sealed(j.ring[i].(status := COMMITTED))], lastTx := txId)
  }

  /** The newest of the first `n` transactions that went to slot `i` of a ring of `size`. */
  function Newest(n: nat, size: nat, i: nat): (k: nat)
    requires i < size && i < n
    ensures k < n && k % size == i
    ensures forall m :: k < m < n ==> m % size != i
  {
    if (n - 1) % size == i then n - 1
    else
      ModSmall(i, size);
      Newest(n - 1, size, i)
  }

  /** The ring still holds transaction `k` of the first `n`. */
  predicate Held(n: nat, size: nat, k: nat) {
    size > 0 && k % size < n && Newest(n, size, k % size) == k
  }

  /** `log` lists every transaction of the session with its current status. The ring holds, in
      each slot, the newest transaction that went there, or what was there when the journal was
      mounted (`prior`); ids count up from `base`; every record of the session passes its
      checksum. */
  ghost predicate RingInv(j: State, log: seq<Record>, base: nat, prior: seq<Record>) {
    && |j.ring| > 0
    && j.txId == base + |log| && j.head == |log| % |j.ring|
    && (forall k :: 0 <= k < |log| ==> log[k].txId == base + k + 1 && Intact(log[k]))
    && |j.ring| == |prior|
    && (forall i :: 0 <= i < |j.ring| ==>
          j.ring[i] == if i < |log| then log[Newest(|log|, |j.ring|, i)] else prior[i])
  }

  /** A session starts with whatever ring it finds, from slot 0. */
  lemma MountedRing(prior: seq<Record>, base: nat)
    requires |prior| > 0
    ensures RingInv(State(prior, base, 0, base), [], base, prior)
  {
  }

  lemma MulGrows(d: int, size: int)
    requires size > 0
    ensures d >= 1 ==> d * size >= size
    ensures d <= -1 ==> d * size <= -size
  {
    assert d * size == size + (d - 1) * size == (d + 1) * size - size;
  }

  lemma ModOf(q: nat, r: nat, size: nat)
    requires r < size
    ensures (q * size + r) % size == r
  {
    var x := q * size + r;
    var q', r' := x / size, x % size;
    assert x == q' * size + r';
    assert (q - q') * size == r' - r;
    MulGrows(q - q', size);
  }

  lemma ModSmall(r: nat, size: nat)
    requires r < size
    ensures r % size == r
  {
    ModOf(0, r, size);
  }

  lemma ModSuccessor(n: nat, size: nat)
    requires size > 0
    ensures (n + 1) % size == (n % size + 1) % size
  {
    var q, r := n / size, n % size;
    assert n == q * size + r;
    if r + 1 == size {
      assert n + 1 == (q + 1) * size + 0;
      ModOf(q + 1, 0, size);
      ModOf(1, 0, size);
    } else {
      ModOf(q, r + 1, size);
      ModSmall(r + 1, size);
    }
  }

  lemma NewestStep(n: nat, size: nat, i: nat)
    requires i < size && i < n + 1
    ensures i == n % size ==> Newest(n + 1, size, i) == n
    ensures i != n % size ==> i < n && Newest(n + 1, size, i) == Newest(n, size, i)
  {
    if i == n { ModSmall(n, size); }
  }

  lemma LogKeepsRing(j: State, log: seq<Record>, base: nat, prior: seq<Record>, op: nat, target: nat, name: Bytes, now: nat)
    requires RingInv(j, log, base, prior)
    ensures j.head < |j.ring|
    ensures RingInv(Log(j, op, target, name, now), log + [NewRecord(j.txId + 1, op, target, name, now)], base, prior)
  {
    hide Intact, Sealed, Pad, Newest;
    var r := NewRecord(j.txId + 1, op, target, name, now);
    NewRecordIntact(j.txId + 1, op, target, name, now);
    var n, size := |log|, |j.ring|;
    ModSuccessor(n, size);
    SlotBelow(n, size);
    var log', ring' := log + [r], j.ring[j.head := r];
    forall i | 0 <= i < size
      ensures ring'[i] == if i < n + 1 then log'[Newest(n + 1, size, i)] else prior[i]
    {
      if i < n + 1 { NewestStep(n, size, i); }
    }
  }

  lemma NewRecordIntact(txId: nat, op: nat, target: nat, name: Bytes, now: nat)
    ensures Intact(NewRecord(txId, op, target, name, now)) && NewRecord(txId, op, target, name, now).txId == txId
  {
    SealedIntact(Record(txId, op, PENDING, target, 0, now, Pad(name), 0));
  }

  /** Committing a transaction of the session touches its own record only, and only while the
      ring still holds it. */
  lemma CommitKeepsRing(j: State, log: seq<Record>, base: nat, prior: seq<Record>, k: nat)
    requires RingInv(j, log, base, prior) && k < |log|
    ensures var held := Held(|log|, |j.ring|, k);
            && (held ==>
                  && Commit(j, base + k + 1).ring == j.ring[k % |j.ring| := Sealed(log[k].(status := COMMITTED))]
                  && Commit(j, base + k + 1).lastTx == base + k + 1
                  && RingInv(Commit(j, base + k + 1), log[k := Sealed(log[k].(status := COMMITTED))], base, prior))
            && (!held ==> Commit(j, base + k + 1) == j)
  {
    hide Intact, Sealed, Newest;
    var size, n, tx := |j.ring|, |log|, base + k + 1;
    var slot := k % size;
    SlotBelow(k, size);
    var i := Find(j.ring, tx, 0);
    assert forall m :: 0 <= m < size && m < n && j.ring[m].txId == tx ==> Newest(n, size, m) == k;
    if Held(n, size, k) {
      assert j.ring[slot].txId == tx;
      assert i == slot;
      CommitHeld(j, log, base, prior, k);
    } else {
      OverwrittenFull(n, size, k);
    }
  }

  /** A transaction leaves the ring only once the session has filled it. */
  lemma OverwrittenFull(n: nat, size: nat, k: nat)
    requires size > 0 && k < n && !Held(n, size, k)
    ensures n > size
  {
    SlotBelow(k, size);
    if n <= size {
      var m := Newest(n, size, k % size);
      ModSmall(k, size);
      ModSmall(m, size);
      assert false;
    }
  }

  lemma CommitHeld(j: State, log: seq<Record>, base: nat, prior: seq<Record>, k: nat)
    requires RingInv(j, log, base, prior) && k < |log| && Held(|log|, |j.ring|, k)
    requires k % |j.ring| < |j.ring|
    ensures var r := Sealed(log[k].(status := COMMITTED));
            RingInv(j.(ring := j.ring[k % |j.ring| := r], lastTx := base + k + 1), log[k := r], base, prior)
  {
    hide Intact, Sealed, Newest;
    SealedKeepsId(log[k].(status := COMMITTED));
    var r := Sealed(log[k].(status := COMMITTED));
    var size, n, slot := |j.ring|, |log|, k % |j.ring|;
    forall i | 0 <= i < size
      ensures j.ring[slot := r][i] == if i < n then log[k := r][Newest(n, size, i)] else prior[i]
    {
      if i < n && i != slot { assert Newest(n, size, i) % size == i; }
    }
  }

  lemma SealedKeepsId(r: Record)
    ensures Intact(Sealed(r)) && Sealed(r).txId == r.txId
  {
    SealedIntact(r);
  }

  lemma SlotBelow(k: nat, size: nat)
    requires size > 0
    ensures k % size <= k && k % size < size
  {
    if k < size { ModSmall(k, size); }
  }

  function Committed(log: seq<Record>, size: nat, k: nat): seq<Record>
    requires k < |log|
  {
    if Held(|log|, size, k) then log[k := Sealed(log[k].(status := COMMITTED))] else log
  }

  lemma RingHead(j: State, log: seq<Record>, base: nat, prior: seq<Record>)
    requires RingInv(j, log, base, prior)
    ensures |j.ring| > 0 && j.head < |j.ring|
  {
    SlotBelow(|log|, |j.ring|);
  }

  datatype JournalOp =
    | LogOp(op: nat, target: nat, name: Bytes, now: nat)
    | CommitOp(k: nat)

  /** A session with its history: commits name the k-th transaction of the session. */
  function Session(j: State, log: seq<Record>, base: nat, ops: seq<JournalOp>): (r: (State, seq<Record>))
    requires |j.ring| > 0 && j.head < |j.ring|
    decreases |ops|
  {
    if |ops| == 0 then (j, log)
    else
      match ops[0]
      case LogOp(op, target, name, now) =>
        Session(Log(j, op, target, name, now), log + [NewRecord(j.txId + 1, op, target, name, now)], base, ops[1..])
      case CommitOp(k) =>
        if k >= |log| then Session(j, log, base, ops[1..])
        else
          Session(Commit(j, base + k + 1), Committed(log, |j.ring|, k), base, ops[1..])
  }

  /** Over every session, on any mounted ring: each slot holds the newest transaction of the
      session that went there, or its old record, and every record of the session passes its
      checksum. */
  lemma {:induction false} SessionKeepsRing(j: State, log: seq<Record>, base: nat, prior: seq<Record>, ops: seq<JournalOp>)
    requires RingInv(j, log, base, prior)
    ensures j.head < |j.ring|
    ensures var (j', log') := Session(j, log, base, ops); RingInv(j', log', base, prior)
    decreases |ops|
  {
    hide Newest, Intact, Sealed, NewRecord, Find, RingInv;
    RingHead(j, log, base, prior);
    if |ops| > 0 {
      match ops[0]
      case LogOp(op, target, name, now) =>
        LogKeepsRing(j, log, base, prior, op, target, name, now);
        SessionKeepsRing(Log(j, op, target, name, now), log + [NewRecord(j.txId + 1, op, target, name, now)], base, prior, ops[1..]);
      case CommitOp(k) =>
        if k >= |log| {
          SessionKeepsRing(j, log, base, prior, ops[1..]);
        } else {
          CommitKeepsRing(j, log, base, prior, k);
          SessionKeepsRing(Commit(j, base + k + 1), Committed(log, |j.ring|, k), base, prior, ops[1..]);
        }
    }
  }

  /** On a formatted journal every record that is not empty passes its checksum, at any time in
      the first session. */
  lemma FormattedSession(size: nat, ops: seq<JournalOp>)
    requires size > 0
    ensures var ring := Session(State(seq(size, i => EMPTY), 0, 0, 0), [], 0, ops).0.ring;
            forall i :: 0 <= i < |ring| ==> ring[i] == EMPTY || Intact(ring[i])
  {
    hide Intact, Session;
    var prior := seq(size, i => EMPTY);
    MountedRing(prior, 0);
    SessionKeepsRing(State(prior, 0, 0, 0), [], 0, prior, ops);
  }

  /* ---------- Replay ---------- */

  datatype DirSlot = DirSlot(kind: nat, name: Bytes)

  /** Readable directory clusters; none of them is a journal sector. */
  type Dirs = map<nat, seq<DirSlot>>

  function SlotsOf(dirs: Dirs, cluster: nat): seq<DirSlot> {
    if cluster in dirs then dirs[cluster] else []
  }

  predicate HasEntry(slots: seq<DirSlot>, kind: nat, name: Bytes) {
    exists i :: 0 <= i < |slots| && slots[i].kind == kind && slots[i].name == name
  }

  /** The first slot in use under a name, or the number of slots. */
  function FindNamed(slots: seq<DirSlot>, name: Bytes): (r: nat)
    ensures r <= |slots|
    ensures r < |slots| ==> slots[r].kind != TYPE_FREE && slots[r].name == name
    ensures forall k :: 0 <= k < r ==> !(slots[k].kind != TYPE_FREE && slots[k].name == name)
  {
    if |slots| == 0 || (slots[0].kind != TYPE_FREE && slots[0].name == name) then 0
    else 1 + FindNamed(slots[1..], name)
  }

  /** Redo one operation: its outcome and the directories after it. Only an interrupted delete
      changes anything. */
  function Redo(r: Record, dirs: Dirs): (bool, Dirs) {
    var name := CString(r.metadata);
    var slots := SlotsOf(dirs, r.target);
    if r.opType == OP_CREATE then (|name| > 0 && HasEntry(slots, TYPE_FILE, name), dirs)
    else if r.opType == OP_WRITE then (true, dirs)
    else if r.opType == OP_DELETE then
      if |name| == 0 then (false, dirs)
      else
        var i := FindNamed(slots, name);
        if i == |slots| then (true, dirs)
        else (true, dirs[r.target := slots[i := slots[i].(kind := TYPE_FREE)]])
    else if r.opType == OP_UPDATE_DIR then (r.target in dirs, dirs)
    else if r.opType == OP_MKDIR then (|name| > 0 && HasEntry(slots, TYPE_LEVELED_DIR, name), dirs)
    else (false, dirs)
  }

  /** Redoing a delete always succeeds on a proper name; it frees the first entry in use under
      that name in the target directory, if there is one, and touches nothing else. */
  lemma RedoDelete(r: Record, dirs: Dirs)
    requires r.opType == OP_DELETE && |CString(r.metadata)| > 0
    ensures var (ok, dirs') := Redo(r, dirs);
            var slots, slots', name := SlotsOf(dirs, r.target), SlotsOf(dirs', r.target), CString(r.metadata);
            && ok && |slots'| == |slots|
            && (forall c :: c != r.target ==> SlotsOf(dirs', c) == SlotsOf(dirs, c))
            && (forall i :: 0 <= i < |slots| && slots'[i] != slots[i] ==>
                  && slots[i].kind != TYPE_FREE && slots[i].name == name
                  && slots'[i] == DirSlot(TYPE_FREE, name)
                  && forall k :: 0 <= k < i ==> slots[k].kind == TYPE_FREE || slots[k].name != name)
            && (slots' == slots <==> forall i :: 0 <= i < |slots| ==> slots[i].kind == TYPE_FREE || slots[i].name != name)
  {
    var slots, name := SlotsOf(dirs, r.target), CString(r.metadata);
    var i := FindNamed(slots, name);
    if i < |slots| {
      assert slots[i := slots[i].(kind := TYPE_FREE)][i] != slots[i];
    }
  }

  predicate InUseAs(d: DirSlot, name: Bytes) {
    d.kind != TYPE_FREE && d.name == name
  }

  /** Redoing an operation again has the same outcome, and changes nothing more if and only if it
      is not a delete of a name that several entries in use share. */
  lemma RedoTwice(r: Record, dirs: Dirs)
    ensures var (ok, dirs1) := Redo(r, dirs);
            var (ok2, dirs2) := Redo(r, dirs1);
            var slots, name := SlotsOf(dirs, r.target), CString(r.metadata);
            && ok2 == ok
            && (dirs2 == dirs1 <==>
                  r.opType != OP_DELETE || |name| == 0
                  || forall i, j :: 0 <= i < j < |slots| ==> !(InUseAs(slots[i], name) && InUseAs(slots[j], name)))
  {
    var name := CString(r.metadata);
    if r.opType == OP_DELETE && |name| > 0 {
      var slots := SlotsOf(dirs, r.target);
      var i := FindNamed(slots, name);
      if i < |slots| {
        var slots1 := slots[i := slots[i].(kind := TYPE_FREE)];
        var dirs1 := Redo(r, dirs).1;
        assert SlotsOf(dirs1, r.target) == slots1;
        var j := FindNamed(slots1, name);
        if j < |slots1| {
          assert i < j && InUseAs(slots[i], name) && InUseAs(slots[j], name);
          assert slots1[j := slots1[j].(kind := TYPE_FREE)][j] != slots1[j];
          assert Redo(r, dirs1).1[r.target] != dirs1[r.target];
        } else {
          assert forall k :: 0 <= k < |slots| && k != i ==> slots1[k] == slots[k];
        }
      }
    }
  }

  /** A record replay acts on. */
  predicate Live(r: Record) {
    r.txId != 0 && Intact(r) && r.status == PENDING
  }

  /** Replay rewrites the status and leaves the checksum as it was. */
  function ReplayRecord(r: Record, dirs: Dirs): (Record, Dirs) {
    if !Live(r) then (r, dirs)
    else
      var (ok, dirs') := Redo(r, dirs);
      (r.(status := if ok then COMMITTED else ABORTED), dirs')
  }

  function Replay(ring: seq<Record>, dirs: Dirs): (r: (seq<Record>, Dirs))
    ensures |r.0| == |ring|
  {
    if |ring| == 0 then ([], dirs)
    else
      var (r, dirs1) := ReplayRecord(ring[0], dirs);
      var rest := Replay(ring[1..], dirs1);
      ([r] + rest.0, rest.1)
  }

  /** After replay no valid record is pending. Records that were not live are untouched; each
      live one changes its status and, because its checksum is not recomputed, can never pass
      validation again. */
  lemma {:induction false} ReplaySettles(ring: seq<Record>, dirs: Dirs)
    ensures var ring' := Replay(ring, dirs).0;
            forall i :: 0 <= i < |ring| ==>
              && !Live(ring'[i])
              && (!Live(ring[i]) ==> ring'[i] == ring[i])
              && (Live(ring[i]) ==>
                    (ring'[i] == ring[i].(status := COMMITTED) || ring'[i] == ring[i].(status := ABORTED))
                    && !Intact(ring'[i]))
    decreases |ring|
  {
    hide Intact, Redo;
    if |ring| > 0 {
      var (r, dirs1) := ReplayRecord(ring[0], dirs);
      if Live(ring[0]) {
        StaleChecksum(ring[0], COMMITTED);
        StaleChecksum(ring[0], ABORTED);
      }
      ReplaySettles(ring[1..], dirs1);
      assert forall i :: 1 <= i < |ring| ==> ring[i] == ring[1..][i - 1];
    }
  }

  lemma {:induction false} ReplayAppend(a: seq<Record>, b: seq<Record>, dirs: Dirs)
    ensures var (ra, da) := Replay(a, dirs);
            var (rb, db) := Replay(b, da);
            Replay(a + b, dirs) == (ra + rb, db)
    decreases |a|
  {
    hide ReplayRecord;
    if |a| == 0 {
      assert a + b == b;
      assert [] + Replay(b, dirs).0 == Replay(b, dirs).0;
    } else {
      var (r, dirs1) := ReplayRecord(a[0], dirs);
      assert (a + b)[1..] == a[1..] + b;
      ReplayAppend(a[1..], b, dirs1);
      var (ra, da) := Replay(a[1..], dirs1);
      assert [r] + (ra + Replay(b, da).0) == ([r] + ra) + Replay(b, da).0;
    }
  }

  /** Replay takes the operation for done: a write always, a delete of a proper name always, a file
      or a directory that was to be made exactly when its entry is there, a directory update exactly
      when the directory can be read. */
  predicate Done(r: Record, dirs: Dirs) {
    var name, slots := CString(r.metadata), SlotsOf(dirs, r.target);
    || r.opType == 2
    || (r.opType == 3 && |name| > 0)
    || (r.opType == 1 && |name| > 0 && exists i :: 0 <= i < |slots| && slots[i] == DirSlot(1, name))
    || (r.opType == 5 && |name| > 0 && exists i :: 0 <= i < |slots| && slots[i] == DirSlot(2, name))
    || (r.opType == 4 && r.target in dirs)
  }

  /** The directories after redoing an interrupted delete: the first entry in use under the name is
      free. */
  predicate Deleted(name: Bytes, slots: seq<DirSlot>, slots': seq<DirSlot>) {
    if exists i :: 0 <= i < |slots| && slots[i].kind != 0 && slots[i].name == name then
      exists i :: 0 <= i < |slots| && slots[i].kind != 0 && slots[i].name == name
        && slots' == slots[i := DirSlot(0, name)]
        && forall k :: 0 <= k < i ==> slots[k].kind == 0 || slots[k].name != name
    else slots' == slots
  }

  /** What replay does with the i-th record: it acts on it exactly when it is a valid pending one,
      in the directories as the records before have left them; the status becomes committed (1) if
      the operation was done and aborted (2) if not; and only a delete changes a directory, its
      target. */
  lemma ReplayAt(ring: seq<Record>, dirs: Dirs, i: nat)
    requires i < |ring|
    ensures |Replay(ring, dirs).0| == |ring|
    ensures var before, after := Replay(ring[..i], dirs).1, Replay(ring[..i + 1], dirs).1;
            var r, r' := ring[i], Replay(ring, dirs).0[i];
            if r.txId != 0 && r.status == 0 && r.checksum == Checksum(Encode(r)) then
              && r' == r.(status := if Done(r, before) then 1 else 2)
              && (forall c :: c != r.target || r.opType != 3 || |CString(r.metadata)| == 0 ==>
                    (c in after <==> c in before) && SlotsOf(after, c) == SlotsOf(before, c))
              && (r.opType == 3 && |CString(r.metadata)| > 0 ==>
                    Deleted(CString(r.metadata), SlotsOf(before, r.target), SlotsOf(after, r.target)))
            else r' == r && after == before
  {
    var before := Replay(ring[..i], dirs).1;
    ReplayAppend(ring[..i], [ring[i]], dirs);
    ReplayAppend(ring[..i + 1], ring[i + 1..], dirs);
    assert ring[..i] + [ring[i]] == ring[..i + 1] && ring[..i + 1] + ring[i + 1..] == ring;
    ReplayOne(ring[i], before);
    hide Replay, ReplayRecord, Done, Deleted, Checksum, Encode, CString;
  }

  lemma ReplayOne(r: Record, dirs: Dirs)
    ensures Replay([r], dirs) == ([ReplayRecord(r, dirs).0], ReplayRecord(r, dirs).1)
    ensures var (r', after) := ReplayRecord(r, dirs);
            if r.txId != 0 && r.status == 0 && r.checksum == Checksum(Encode(r)) then
              && r' == r.(status := if Done(r, dirs) then 1 else 2)
              && (forall c :: c != r.target || r.opType != 3 || |CString(r.metadata)| == 0 ==>
                    (c in after <==> c in dirs) && SlotsOf(after, c) == SlotsOf(dirs, c))
              && (r.opType == 3 && |CString(r.metadata)| > 0 ==>
                    Deleted(CString(r.metadata), SlotsOf(dirs, r.target), SlotsOf(after, r.target)))
            else r' == r && after == dirs
  {
    hide Checksum, Encode;
    ReplaySingle(r, dirs);
    if Live(r) { RedoneAs(r, dirs); }
    hide Redo, Done, Deleted, CString;
  }

  lemma ReplaySingle(r: Record, dirs: Dirs)
    ensures Replay([r], dirs) == ([ReplayRecord(r, dirs).0], ReplayRecord(r, dirs).1)
  {
    hide ReplayRecord;
    var x := ReplayRecord(r, dirs);
    assert [r][1..] == [] && Replay([], x.1) == ([], x.1);
    assert Replay([r], dirs) == ([x.0] + [], x.1);
    assert [x.0] + [] == [x.0];
  }

  lemma RedoneAs(r: Record, dirs: Dirs)
    ensures var (ok, after) := Redo(r, dirs);
            && ok == Done(r, dirs)
            && (forall c :: c != r.target || r.opType != 3 || |CString(r.metadata)| == 0 ==>
                  (c in after <==> c in dirs) && SlotsOf(after, c) == SlotsOf(dirs, c))
            && (r.opType == 3 && |CString(r.metadata)| > 0 ==>
                  Deleted(CString(r.metadata), SlotsOf(dirs, r.target), SlotsOf(after, r.target)))
  {
    hide CString;
    var name, slots := CString(r.metadata), SlotsOf(dirs, r.target);
    if r.opType == 3 && |name| > 0 {
      var i := FindNamed(slots, name);
      if i < |slots| {
        assert slots[i].kind != 0 && slots[i].name == name;
      }
    }
  }

  lemma {:induction false} ReplayNothing(ring: seq<Record>, dirs: Dirs)
    requires forall i :: 0 <= i < |ring| ==> !Live(ring[i])
    ensures Replay(ring, dirs) == (ring, dirs)
    decreases |ring|
  {
    hide Intact, Redo, Live;
    if |ring| > 0 {
      assert ReplayRecord(ring[0], dirs) == (ring[0], dirs);
      ReplayNothing(ring[1..], dirs);
      assert ring == [ring[0]] + ring[1..];
    }
  }

  /** Replaying twice equals replaying once, in the journal and in the directories. */
  lemma ReplayIdempotent(ring: seq<Record>, dirs: Dirs)
    ensures var (ring1, dirs1) := Replay(ring, dirs);
            Replay(ring1, dirs1) == (ring1, dirs1)
  {
    hide Live, Replay;
    ReplaySettles(ring, dirs);
    ReplayNothing(Replay(ring, dirs).0, Replay(ring, dirs).1);
  }

  /** The valid records after replay are exactly those that were valid and settled before. */
  lemma ReplayValid(ring: seq<Record>, dirs: Dirs, i: nat)
    requires i < |ring| && ring[i].txId != 0
    ensures Intact(Replay(ring, dirs).0[i]) <==> Intact(ring[i]) && ring[i].status != PENDING
  {
    hide Intact, Replay;
    ReplaySettles(ring, dirs);
    if ring[i].status == PENDING && !Intact(ring[i]) {
      assert !Live(ring[i]);
    }
  }

  /* ---------- From logging to recovery ---------- */

  /** What a name keeps in the record: up to its first NUL, and at most 23 bytes. */
  function Kept(name: Bytes): Bytes {
    var s := CString(name);
    if |s| <= 23 then s else s[..23]
  }

  lemma {:induction false} CStringClean(name: Bytes)
    ensures forall i :: 0 <= i < |CString(name)| ==> CString(name)[i] != 0
  {
    if |name| > 0 && name[0] != 0 {
      CStringClean(name[1..]);
    }
  }

  lemma {:induction false} CStringOf(s: Bytes, rest: Bytes)
    requires forall i :: 0 <= i < |s| ==> s[i] != 0
    requires |rest| > 0 && rest[0] == 0
    ensures CString(s + rest) == s
    decreases |s|
  {
    if |s| == 0 {
      assert s + rest == rest;
    } else {
      assert (s + rest)[1..] == s[1..] + rest;
      CStringOf(s[1..], rest);
    }
  }

  /** Replay reads back from a logged record the operation, the target and the name, unless the
      name was too long, and it acts on the record. */
  lemma LoggedReadsBack(txId: nat, op: nat, target: nat, name: Bytes, now: nat)
    requires txId > 0
    ensures var r := NewRecord(txId, op, target, name, now);
            && Live(r) && r.opType == op && r.target == target && r.timestamp == now && r.level == 0
            && CString(r.metadata) == Kept(name)
            && (CString(r.metadata) == name <==> |name| <= 23 && forall i :: 0 <= i < |name| ==> name[i] != 0)
  {
    NewRecordIntact(txId, op, target, name, now);
    hide Intact, Checksum;
    CStringClean(name);
    var kept := Kept(name);
    CStringOf(kept, seq(24 - |kept|, i => 0 as bv8));
    if forall i :: 0 <= i < |name| ==> name[i] != 0 {
      CStringCut(name);
    }
  }

  lemma {:induction false} CStringCut(name: Bytes)
    requires forall i :: 0 <= i < |name| ==> name[i] != 0
    ensures CString(name) == name
  {
    if |name| > 0 {
      CStringCut(name[1..]);
    }
  }

  /** Crash recovery: of the transactions a session's ring still holds, replay settles exactly
      the pending ones and leaves the others alone. */
  lemma CrashRecovery(j: State, log: seq<Record>, base: nat, prior: seq<Record>, dirs: Dirs, k: nat)
    requires RingInv(j, log, base, prior) && k < |log| && Held(|log|, |j.ring|, k)
    ensures k % |j.ring| < |j.ring|
    ensures var r := Replay(j.ring, dirs).0[k % |j.ring|];
            && j.ring[k % |j.ring|] == log[k]
            && (r == log[k] <==> log[k].status != PENDING)
            && r.(status := PENDING) == log[k].(status := PENDING) && r.status != PENDING
  {
    hide Intact, Newest, Redo;
    SlotBelow(k, |j.ring|);
    ReplaySettles(j.ring, dirs);
    assert log[k].txId == base + k + 1;
  }

  /* ---------- The journal on its sectors ---------- */

  /** A ring of records laid out seven to a sector. */
  predicate LaidOut(sectors: seq<seq<Record>>, ring: seq<Record>) {
    && |ring| == 7 * |sectors|
    && (forall k :: 0 <= k < |sectors| ==> |sectors[k]| == 7)
    && (forall i :: 0 <= i < |ring| ==> ring[i] == sectors[i / 7][i % 7])
  }

  lemma StoreRecord(sectors: seq<seq<Record>>, ring: seq<Record>, i: nat, r: Record)
    requires LaidOut(sectors, ring) && i < |ring|
    ensures LaidOut(sectors[i / 7 := sectors[i / 7][i % 7 := r]], ring[i := r])
  {
  }

  /** A whole sector replaced by the records a buffer holds. */
  lemma StoreSector(sectors: seq<seq<Record>>, ring: seq<Record>, k: nat, buffer: seq<Record>)
    requires LaidOut(sectors, ring) && k < |sectors| && |buffer| == 7
    ensures LaidOut(sectors[k := buffer], ring[..7 * k] + buffer + ring[7 * k + 7..])
  {
  }

  lemma SectorIs(sectors: seq<seq<Record>>, ring: seq<Record>, k: nat)
    requires LaidOut(sectors, ring) && k < |sectors|
    ensures |ring| == 7 * |sectors| && sectors[k] == ring[7 * k..7 * k + 7]
  {
    forall j | 0 <= j < 7 ensures sectors[k][j] == ring[7 * k..7 * k + 7][j] {
      assert ring[7 * k + j] == sectors[(7 * k + j) / 7][(7 * k + j) % 7];
    }
  }

  lemma ReplayEmpty(dirs: Dirs)
    ensures Replay([], dirs) == ([], dirs)
  {
  }

  /** One sector of the replay done. */
  lemma ReplayAdvance(ring: seq<Record>, buffer: seq<Record>, start: seq<Record>, i: nat, dirs: Dirs,
                      total: (seq<Record>, Dirs))
    requires |ring| == |start| && 7 * i + 7 <= |start| && |buffer| == 7 && ring[7 * i..] == start[7 * i..]
    requires var r := Replay(start[7 * i + 7..], dirs); total == (ring[..7 * i] + buffer + r.0, r.1)
    ensures var ring' := ring[..7 * i] + buffer + ring[7 * i + 7..];
            && |ring'| == |start| && ring'[7 * (i + 1)..] == start[7 * (i + 1)..]
            && var r := Replay(start[7 * (i + 1)..], dirs); total == (ring'[..7 * (i + 1)] + r.0, r.1)
  {
    hide Replay;
    var ring' := ring[..7 * i] + buffer + ring[7 * i + 7..];
    assert ring'[..7 * (i + 1)] == ring[..7 * i] + buffer;
    assert ring[7 * i + 7..] == ring[7 * i..][7..] == start[7 * i + 7..];
  }

  class JournalDevice {
    const sectors: array<seq<Record>>
    var currentTxId: nat
    var journalHead: nat
    var lastTxId: nat
    var dirs: Dirs
    ghost var ring: seq<Record>

    ghost predicate Valid()
      reads this, sectors
    {
      LaidOut(sectors[..], ring) && journalHead < |ring|
    }

    ghost function Session(): State
      reads this
    {
      State(ring, currentTxId, journalHead, lastTxId)
    }

    /** A mounted journal starts its ring over at slot 0. */
    constructor (sectors: array<seq<Record>>, lastTxId: nat, dirs: Dirs, ghost ring: seq<Record>)
      requires LaidOut(sectors[..], ring) && |ring| > 0
      ensures Valid() && Session() == State(ring, lastTxId, 0, lastTxId)
      ensures this.sectors == sectors && this.dirs == dirs
    {
      this.sectors, this.lastTxId, this.dirs, this.ring := sectors, lastTxId, dirs, ring;
      currentTxId, journalHead := lastTxId, 0;
    }

    /** Read-modify-write of one record in its sector. */
    method PutRecord(i: nat, r: Record)
      requires Valid() && i < |ring|
      modifies sectors, `ring
      ensures Valid() && ring == old(ring)[i := r]
    {
      ghost var before := sectors[..];
      StoreRecord(before, ring, i, r);
      var buffer := sectors[i / 7];
      sectors[i / 7] := buffer[i % 7 := r];
      assert sectors[..] == before[i / 7 := before[i / 7][i % 7 := r]];
      ring := ring[i := r];
    }

    method LogOperation(opType: nat, target: nat, metadata: Bytes, now: nat) returns (txId: nat)
      requires Valid()
      modifies this, sectors
      ensures Valid() && dirs == old(dirs)
      ensures Session() == Log(old(Session()), opType, target, metadata, now) && txId == currentTxId
    {
      hide Sealed, Pad;
      currentTxId := currentTxId + 1;
      var entry := NewRecord(currentTxId, opType, target, metadata, now);
      PutRecord(journalHead, entry);
      SlotBelow(journalHead + 1, |ring|);
      journalHead := (journalHead + 1) % (sectors.Length * 7);
      txId := currentTxId;
    }

    /** The position of a transaction's record, or the ring size. */
    method Locate(txId: nat) returns (at: nat)
      requires Valid()
      ensures at == Find(ring, txId, 0)
    {
      hide Find;
      var i := 0;
      while i < sectors.Length
        invariant 0 <= i <= sectors.Length
        invariant forall k :: 0 <= k < 7 * i ==> ring[k].txId != txId
      {
        var buffer := sectors[i];
        SectorIs(sectors[..], ring, i);
        var j := 0;
        while j < 7
          invariant 0 <= j <= 7
          invariant forall k :: 0 <= k < 7 * i + j ==> ring[k].txId != txId
        {
          assert buffer[j] == ring[7 * i + j];
          if buffer[j].txId == txId {
            FindIs(ring, txId, 7 * i + j);
            return 7 * i + j;
          }
          j := j + 1;
        }
        i := i + 1;
      }
      FindIs(ring, txId, |ring|);
      at := sectors.Length * 7;
    }

    method CommitOperation(txId: nat)
      requires Valid()
      modifies this, sectors
      ensures Valid() && dirs == old(dirs)
      ensures Session() == Commit(old(Session()), txId)
    {
      hide Sealed, Find;
      var at := Locate(txId);
      if at < sectors.Length * 7 {
        PutRecord(at, Sealed(sectors[at / 7][at % 7].(status := COMMITTED)));
        lastTxId := txId;
      }
    }

    method ReplayJournal()
      requires Valid()
      modifies this, sectors
      ensures Valid() && (ring, dirs) == Replay(old(ring), old(dirs))
      ensures Session() == old(Session()).(ring := ring)
    {
      hide Intact, Redo, ReplayRecord, Replay;
      ghost var total := Replay(ring, dirs);
      ghost var start := ring;
      assert start[0..] == start && ring[..0] + total.0 == total.0;
      var i := 0;
      while i < sectors.Length
        invariant 0 <= i <= sectors.Length && Valid() && |ring| == |start|
        invariant Session() == old(Session()).(ring := ring)
        invariant ring[7 * i..] == start[7 * i..]
        invariant var r := Replay(start[7 * i..], dirs); total == (ring[..7 * i] + r.0, r.1)
      {
        var buffer := sectors[i];
        SectorIs(sectors[..], ring, i);
        buffer := ReplaySector(buffer, i, ring[..7 * i], start, total);
        StoreSector(sectors[..], ring, i, buffer);
        ghost var before := sectors[..];
        sectors[i] := buffer;
        assert sectors[..] == before[i := buffer];
        ReplayAdvance(ring, buffer, start, i, dirs, total);
        ring := ring[..7 * i] + buffer + ring[7 * i + 7..];
        i := i + 1;
      }
      assert start[7 * i..] == [];
      ReplayEmpty(dirs);
      assert ring[..7 * i] + [] == ring;
    }

    /** The records of one sector, acted on in order in the buffer. */
    method ReplaySector(sector: seq<Record>, i: nat, ghost done: seq<Record>, ghost start: seq<Record>,
                        ghost total: (seq<Record>, Dirs))
      returns (buffer: seq<Record>)
      requires |sector| == 7 && 7 * i + 7 <= |start| && sector == start[7 * i..7 * i + 7]
      requires var r := Replay(start[7 * i..], dirs); total == (done + r.0, r.1)
      modifies `dirs
      ensures |buffer| == 7
      ensures var r := Replay(start[7 * i + 7..], dirs); total == (done + buffer + r.0, r.1)
    {
      hide Intact, Redo;
      buffer := sector;
      assert done + buffer[..0] == done;
      var j := 0;
      while j < 7
        invariant 0 <= j <= 7 && |buffer| == 7 && buffer[j..] == sector[j..]
        invariant var r := Replay(start[7 * i + j..], dirs); total == (done + buffer[..j] + r.0, r.1)
      {
        ghost var rest, dirs0 := start[7 * i + j..], dirs;
        var entry := buffer[j];
        assert entry == sector[j] == rest[0] && rest[1..] == start[7 * i + j + 1..];
        var r := ReplayRecord(entry, dirs);
        ghost var after := Replay(rest[1..], r.1);
        assert done + buffer[..j] + ([r.0] + after.0) == done + (buffer[..j] + [r.0]) + after.0;
        dirs := r.1;
        assert buffer[j := r.0][..j + 1] == buffer[..j] + [r.0];
        buffer := buffer[j := r.0];
        j := j + 1;
      }
      assert buffer[..7] == buffer;
    }
  }

  lemma {:induction false} FindFrom(ring: seq<Record>, txId: nat, i: nat, r: nat)
    requires i <= r <= |ring| && (r < |ring| ==> ring[r].txId == txId)
    requires forall k :: i <= k < r ==> ring[k].txId != txId
    ensures Find(ring, txId, i) == r
    decreases |ring| - i
  {
    if i < r {
      FindFrom(ring, txId, i + 1, r);
    }
  }

  lemma FindIs(ring: seq<Record>, txId: nat, r: nat)
    requires r <= |ring| && (r < |ring| ==> ring[r].txId == txId)
    requires forall k :: 0 <= k < r ==> ring[k].txId != txId
    ensures Find(ring, txId, 0) == r
  {
    FindFrom(ring, txId, 0, r);
  }
}
