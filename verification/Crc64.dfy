/**
 * The journal's checksum: the reflected bit-at-a-time CRC-64 with the ECMA-182 polynomial
 * (Annex B), all-ones initial value and final complement.
 */
module Crc64 {
  const POLY: bv64 := 0xC96C5795D7870F42
  const ONES: bv64 := 0xFFFF_FFFF_FFFF_FFFF

  predicate Odd(x: bv64) {
    x & 1 == 1
  }

  function Half(x: bv64): bv64 {
    x >> 1
  }

  function Flip(x: bv64): bv64 {
    x ^ POLY
  }

  function Xor(x: bv64, y: bv64): bv64 {
    x ^ y
  }

  /** One bit of the inner loop. */
  function Step(crc: bv64): bv64 {
    if Odd(crc) then Flip(Half(crc)) else Half(crc)
  }

  function Steps(crc: bv64, n: nat): bv64
    decreases n
  {
    if n == 0 then crc else Steps(Step(crc), n - 1)
  }

  /** The register a byte is folded into. */
  function Fold(x: bv64, b: bv8): bv64 {
    x ^ (b as bv64)
  }

  /** The register after a message, from a given register. */
  function Absorb(crc: bv64, data: seq<bv8>): bv64
    decreases |data|
  {
    if |data| == 0 then crc else Absorb(Steps(Fold(crc, data[0]), 8), data[1..])
  }

  function Checksum(data: seq<bv8>): bv64 {
    Absorb(ONES, data) ^ ONES
  }

  /** The inner loop of calculateCRC64. */
  method EightSteps(start: bv64) returns (crc: bv64)
    ensures crc == Steps(start, 8)
  {
    crc := start;
    var j := 0;
    while j < 8
      invariant 0 <= j <= 8 && Steps(crc, 8 - j) == Steps(start, 8)
    {
      if Odd(crc) { crc := Flip(Half(crc)); } else { crc := Half(crc); }
      j := j + 1;
    }
  }

  /** calculateCRC64 */
  method CalculateCRC64(data: seq<bv8>) returns (checksum: bv64)
    ensures checksum == Checksum(data)
  {
    hide Steps, Step;
    var crc := ONES;
    var i := 0;
    assert data[0..] == data;
    while i < |data|
      invariant 0 <= i <= |data|
      invariant Absorb(crc, data[i..]) == Absorb(ONES, data)
    {
      assert data[i..][0] == data[i] && data[i..][1..] == data[i + 1..];
      crc := EightSteps(Fold(crc, data[i]));
      i := i + 1;
    }
    assert data[i..] == [];
    checksum := crc ^ ONES;
  }

  /* ---------- The step map is linear and can be run backwards ---------- */

  lemma OddXor(x: bv64, y: bv64)
    ensures Odd(Xor(x, y)) <==> Odd(x) != Odd(y)
  {
    assert (x ^ y) & 1 == (x & 1) ^ (y & 1);
  }

  lemma HalfXor(x: bv64, y: bv64)
    ensures Xor(Half(x), Half(y)) == Half(Xor(x, y))
  {
    assert (x >> 1) ^ (y >> 1) == (x ^ y) >> 1;
  }

  lemma XorCommutes(x: bv64, y: bv64)
    ensures Xor(x, y) == Xor(y, x)
  {
  }

  lemma XorFlip(x: bv64, y: bv64)
    ensures Xor(x, Flip(y)) == Flip(Xor(x, y))
  {
    assert x ^ (y ^ POLY) == (x ^ y) ^ POLY;
  }

  lemma FlipXor(x: bv64, y: bv64)
    ensures Xor(Flip(x), y) == Flip(Xor(x, y))
  {
    hide Xor, Flip;
    XorCommutes(Flip(x), y);
    XorFlip(y, x);
    XorCommutes(x, y);
  }

  lemma FlipFlip(x: bv64)
    ensures Flip(Flip(x)) == x
  {
    assert (x ^ POLY) ^ POLY == x;
  }

  lemma StepLinear(x: bv64, y: bv64)
    ensures Xor(Step(x), Step(y)) == Step(Xor(x, y))
  {
    hide Xor, Half, Flip, Odd;
    OddXor(x, y);
    HalfXor(x, y);
    var a, b := Half(x), Half(y);
    FlipXor(a, b);
    XorFlip(a, b);
    FlipXor(a, Flip(b));
    FlipFlip(Xor(a, b));
  }

  lemma {:induction false} StepsLinear(x: bv64, y: bv64, n: nat)
    ensures Xor(Steps(x, n), Steps(y, n)) == Steps(Xor(x, y), n)
    decreases n
  {
    hide Step, Xor;
    if n > 0 {
      StepLinear(x, y);
      StepsLinear(Step(x), Step(y), n - 1);
    }
  }

  /** A register without its top bit has exactly one predecessor: itself shifted left. */
  lemma StepBack(z: bv64)
    requires Step(z) >> 63 == 0
    ensures z == Step(z) << 1
  {
  }

  predicate TopClear(x: bv64) {
    x >> 56 == 0
  }

  function ShiftByte(x: bv64): bv64 {
    x << 8
  }

  lemma StepsEight(z: bv64)
    ensures Steps(z, 8) == Step(Step(Step(Step(Step(Step(Step(Step(z))))))))
  {
    hide Step;
    var z4 := Step(Step(Step(Step(z))));
    assert Steps(z, 8) == Steps(z4, 4);
  }

  lemma TopClearShifts(z: bv64)
    requires TopClear(z)
    ensures z >> 63 == 0 && (z << 1) >> 63 == 0 && (z << 2) >> 63 == 0 && (z << 3) >> 63 == 0
    ensures (z << 4) >> 63 == 0 && (z << 5) >> 63 == 0 && (z << 6) >> 63 == 0 && (z << 7) >> 63 == 0
  {
  }

  lemma Shifted(z: bv64)
    ensures (z << 1) << 1 == z << 2 && (z << 2) << 1 == z << 3 && (z << 3) << 1 == z << 4 && (z << 4) << 1 == z << 5
    ensures (z << 5) << 1 == z << 6 && (z << 6) << 1 == z << 7 && (z << 7) << 1 == ShiftByte(z)
  {
  }

  /** Eight steps backwards from a register whose top byte is clear. */
  lemma EightBack(z: bv64)
    requires TopClear(Steps(z, 8))
    ensures z == ShiftByte(Steps(z, 8))
  {
    hide Step, Steps, TopClear, ShiftByte;
    StepsEight(z);
    var z1 := Step(z);
    var z2 := Step(z1);
    var z3 := Step(z2);
    var z4 := Step(z3);
    var z5 := Step(z4);
    var z6 := Step(z5);
    var z7 := Step(z6);
    var z8 := Step(z7);
    TopClearShifts(z8);
    Shifted(z8);
    StepBack(z7); StepBack(z6); StepBack(z5); StepBack(z4);
    StepBack(z3); StepBack(z2); StepBack(z1); StepBack(z);
  }

  /* ---------- Burst detection ---------- */

  function Push(d: bv64, b: bv8): bv64 {
    (b as bv64) | ShiftByte(d)
  }

  function ByteXor(a: bv8, b: bv8): bv8 {
    a ^ b
  }

  /** The difference of two windows as a number, first byte lowest. */
  function Difference(u: seq<bv8>, v: seq<bv8>): bv64
    requires |u| == |v|
    decreases |u|
  {
    if |u| == 0 then 0 else Push(Difference(u[1..], v[1..]), ByteXor(u[0], v[0]))
  }

  /** All bits from bit 8k upwards. */
  function High(k: nat): bv64 {
    if k == 0 then ONES else ShiftByte(High(k - 1))
  }

  predicate Within(x: bv64, k: nat) {
    x & High(k) == 0
  }

  lemma PushWithin(d: bv64, b: bv8, k: nat)
    requires Within(d, k)
    ensures Within(Push(d, b), k + 1)
  {
    var mask := High(k);
    assert d & mask == 0;
    ShiftIn(d, b, mask);
  }

  lemma ShiftIn(x: bv64, b: bv8, mask: bv64)
    requires x & mask == 0
    ensures ((b as bv64) | (x << 8)) & (mask << 8) == 0
  {
  }

  lemma WithinTop(x: bv64, k: nat)
    requires Within(x, k) && k <= 7
    ensures TopClear(x)
  {
    var h1 := ShiftByte(High(0));
    var h2 := ShiftByte(h1);
    var h3 := ShiftByte(h2);
    var h4 := ShiftByte(h3);
    var h5 := ShiftByte(h4);
    var h6 := ShiftByte(h5);
    var h7 := ShiftByte(h6);
    assert High(2) == h2;
    assert High(4) == h4;
    assert High(6) == h6;
    assert High(k) & 0xFF00_0000_0000_0000 == 0xFF00_0000_0000_0000;
  }

  lemma {:induction false} DifferenceWithin(u: seq<bv8>, v: seq<bv8>)
    requires |u| == |v|
    ensures Within(Difference(u, v), |u|)
    decreases |u|
  {
    if |u| > 0 {
      hide Push, ByteXor, Within;
      DifferenceWithin(u[1..], v[1..]);
      PushWithin(Difference(u[1..], v[1..]), ByteXor(u[0], v[0]), |u| - 1);
    }
  }

  lemma FoldDifference(x: bv64, y: bv64, a: bv8, b: bv8, d: bv64)
    requires Xor(Fold(x, a), Fold(y, b)) == ShiftByte(d)
    ensures Xor(x, y) == Push(d, ByteXor(a, b))
  {
  }

  /** If two registers end up equal after two windows of at most eight bytes, they started
      exactly the windows' difference apart. */
  lemma {:induction false} AbsorbBack(x: bv64, y: bv64, u: seq<bv8>, v: seq<bv8>)
    requires |u| == |v| <= 8
    requires Absorb(x, u) == Absorb(y, v)
    ensures Xor(x, y) == Difference(u, v)
    decreases |u|
  {
    hide Steps, Within, TopClear, Push, ByteXor, ShiftByte, Xor, Fold;
    if |u| > 0 {
      var x', y' := Fold(x, u[0]), Fold(y, v[0]);
      var d := Difference(u[1..], v[1..]);
      AbsorbBack(Steps(x', 8), Steps(y', 8), u[1..], v[1..]);
      StepsLinear(x', y', 8);
      DifferenceWithin(u[1..], v[1..]);
      WithinTop(d, |u| - 1);
      EightBack(Xor(x', y'));
      FoldDifference(x, y, u[0], v[0], d);
    } else {
      XorSelf(x, y);
    }
  }

  lemma XorZero(x: bv64, y: bv64)
    requires x ^ y == 0
    ensures x == y
  {
  }

  lemma XorSame(x: bv64)
    ensures x ^ x == 0
  {
  }

  lemma XorSelf(x: bv64, y: bv64)
    ensures Xor(x, y) == 0 <==> x == y
  {
    if x == y {
      XorSame(x);
    } else if Xor(x, y) == 0 {
      XorZero(x, y);
    }
  }

  lemma {:induction false} DifferenceZero(u: seq<bv8>, v: seq<bv8>)
    requires |u| == |v| <= 8 && Difference(u, v) == 0
    ensures u == v
    decreases |u|
  {
    hide Within, TopClear, Push, ByteXor;
    if |u| > 0 {
      DifferenceWithin(u[1..], v[1..]);
      WithinTop(Difference(u[1..], v[1..]), |u| - 1);
      PushZero(u[0], v[0], Difference(u[1..], v[1..]));
      DifferenceZero(u[1..], v[1..]);
      assert u == [u[0]] + u[1..] && v == [v[0]] + v[1..];
    }
  }

  lemma PushZero(a: bv8, b: bv8, d: bv64)
    requires Push(d, ByteXor(a, b)) == 0 && TopClear(d)
    ensures a == b && d == 0
  {
  }

  lemma {:induction false} AbsorbAppend(crc: bv64, u: seq<bv8>, v: seq<bv8>)
    ensures Absorb(crc, u + v) == Absorb(Absorb(crc, u), v)
    decreases |u|
  {
    if |u| == 0 {
      assert u + v == v;
    } else {
      assert (u + v)[1..] == u[1..] + v;
      AbsorbAppend(Steps(Fold(crc, u[0]), 8), u[1..], v);
    }
  }

  /** Equal registers can only come from equal registers, whatever the (common) message. */
  lemma {:induction false} AbsorbInjective(x: bv64, y: bv64, data: seq<bv8>)
    requires Absorb(x, data) == Absorb(y, data)
    ensures x == y
    decreases |data|
  {
    hide Steps, Xor, Fold, TopClear, ShiftByte;
    if |data| > 0 {
      var x', y' := Fold(x, data[0]), Fold(y, data[0]);
      AbsorbInjective(Steps(x', 8), Steps(y', 8), data[1..]);
      XorSelf(Steps(x', 8), Steps(y', 8));
      StepsLinear(x', y', 8);
      ZeroTop();
      EightBack(Xor(x', y'));
      XorSelf(x', y');
      FoldInjective(x, y, data[0]);
    }
  }

  lemma ZeroTop()
    ensures TopClear(0) && ShiftByte(0) == 0
  {
  }

  lemma FoldInjective(x: bv64, y: bv64, b: bv8)
    requires Fold(x, b) == Fold(y, b)
    ensures x == y
  {
  }

  /** Two messages of the same length that agree outside eight consecutive bytes have the same
      checksum only if they are the same message. */
  lemma BurstDetected(before: seq<bv8>, u: seq<bv8>, v: seq<bv8>, after: seq<bv8>)
    requires |u| == |v| <= 8 && u != v
    ensures Checksum(before + u + after) != Checksum(before + v + after)
  {
    if Checksum(before + u + after) == Checksum(before + v + after) {
      var c := Absorb(ONES, before);
      AbsorbAppend(ONES, before + u, after);
      AbsorbAppend(ONES, before, u);
      AbsorbAppend(ONES, before + v, after);
      AbsorbAppend(ONES, before, v);
      OnesCancel(Absorb(ONES, before + u + after), Absorb(ONES, before + v + after));
      AbsorbInjective(Absorb(c, u), Absorb(c, v), after);
      AbsorbBack(c, c, u, v);
      XorSelf(c, c);
      DifferenceZero(u, v);
      assert false;
    }
  }

  lemma OnesCancel(x: bv64, y: bv64)
    requires x ^ ONES == y ^ ONES
    ensures x == y
  {
  }
}
