/**
 * Which checksum it is: the remainder of a polynomial division over GF(2), written out bit by bit
 * and most significant bit first, by the generator of ECMA-182, Annex B.
 */
module CrcDivision {
  import opened Crc64

  /** x^64 is understood: x^62 + x^57 + x^55 + ... + x + 1. */
  const GENERATOR: bv64 := 0x42F0E1EBA9EA3693

  function Double(x: bv64): bv64 {
    x << 1
  }

  function Word(bit: bool): bv64 {
    if bit then 1 else 0
  }

  /** What is taken away when the divisor fits under the leading coefficient. */
  function Quotient(r: bv64): bv64 {
    if r & 0x8000_0000_0000_0000 == 0 then 0 else GENERATOR
  }

  /** One step of long division: bring down a dividend bit and, if the divisor fits, take it away. */
  function Divide(r: bv64, bit: bool): bv64 {
    Xor(Xor(Double(r), Word(bit)), Quotient(r))
  }

  /** The remainder of a polynomial, its coefficients given from the highest power down. */
  function Remainder(r: bv64, dividend: seq<bool>): bv64
    decreases |dividend|
  {
    if |dividend| == 0 then r else Remainder(Divide(r, dividend[0]), dividend[1..])
  }

  predicate Low(v: bv64) {
    v & 1 == 1
  }

  /** A byte's bits, lowest first. */
  function BitsOf(v: bv64, n: nat): (r: seq<bool>)
    ensures |r| == n
    decreases n
  {
    if n == 0 then [] else [Low(v)] + BitsOf(Half(v), n - 1)
  }

  /** A message's bits, each byte lowest bit first. */
  function Bits(data: seq<bv8>): seq<bool> {
    if |data| == 0 then [] else BitsOf(data[0] as bv64, 8) + Bits(data[1..])
  }

  function Zeros(n: nat): (r: seq<bool>)
    ensures |r| == n && forall i :: 0 <= i < n ==> !r[i]
  {
    seq(n, i => false)
  }

  /** The first 64 coefficients complemented. */
  function Invert(bits: seq<bool>): (r: seq<bool>)
    ensures |r| == |bits|
  {
    seq(|bits|, i requires 0 <= i < |bits| => bits[i] != (i < 64))
  }

  predicate Leads(r: bv64) {
    r & 0x8000_0000_0000_0000 != 0
  }

  /** A remainder's coefficients from the highest power down. */
  function Coefficients(r: bv64, n: nat): (c: seq<bool>)
    ensures |c| == n
    decreases n
  {
    if n == 0 then [] else [Leads(r)] + Coefficients(Double(r), n - 1)
  }

  /** One word read from the lowest bit is the other read from the highest. */
  predicate Mirrors(x: bv64, m: bv64) {
    BitsOf(x, 64) == Coefficients(m, 64)
  }

  /* ---------- The mirrored register ---------- */

  function Shift(x: bv64): bv64 {
    Divide(x, false)
  }

  function Shifts(x: bv64, n: nat): bv64
    decreases n
  {
    if n == 0 then x else Shifts(Shift(x), n - 1)
  }

  /** A message bit at the top, or at the bottom of the mirrored register. */
  function High(bit: bool): bv64 {
    if bit then 0x8000_0000_0000_0000 else 0
  }

  function Enter(x: bv64, bit: bool): bv64 {
    Shift(Xor(x, High(bit)))
  }

  function Register(x: bv64, bits: seq<bool>): bv64
    decreases |bits|
  {
    if |bits| == 0 then x else Register(Enter(x, bits[0]), bits[1..])
  }

  lemma LowXor(x: bv64, y: bv64)
    ensures Low(Xor(x, y)) == (Low(x) != Low(y))
  {
    OddXor(x, y);
  }

  lemma LeadsXor(x: bv64, y: bv64)
    ensures Leads(Xor(x, y)) == (Leads(x) != Leads(y))
  {
    assert (x ^ y) & 0x8000_0000_0000_0000 == (x & 0x8000_0000_0000_0000) ^ (y & 0x8000_0000_0000_0000);
    assert x & 0x8000_0000_0000_0000 == 0 || x & 0x8000_0000_0000_0000 == 0x8000_0000_0000_0000;
    assert y & 0x8000_0000_0000_0000 == 0 || y & 0x8000_0000_0000_0000 == 0x8000_0000_0000_0000;
  }

  lemma {:induction false} BitsXor(x: bv64, y: bv64, n: nat)
    ensures BitsOf(Xor(x, y), n) == Mix(BitsOf(x, n), BitsOf(y, n))
    decreases n
  {
    hide Xor, Half, Low;
    if n > 0 {
      LowXor(x, y);
      HalfXor(x, y);
      BitsXor(Half(x), Half(y), n - 1);
    }
  }

  lemma {:induction false} CoefficientsXor(x: bv64, y: bv64, n: nat)
    ensures Coefficients(Xor(x, y), n) == Mix(Coefficients(x, n), Coefficients(y, n))
    decreases n
  {
    hide Xor, Double, Leads;
    if n > 0 {
      LeadsXor(x, y);
      DoubleLinear(x, y);
      CoefficientsXor(Double(x), Double(y), n - 1);
    }
  }

  lemma MirrorsXor(x: bv64, m: bv64, y: bv64, k: bv64)
    requires Mirrors(x, m) && Mirrors(y, k)
    ensures Mirrors(Xor(x, y), Xor(m, k))
  {
    hide BitsOf, Coefficients, Xor;
    BitsXor(x, y, 64);
    CoefficientsXor(m, k, 64);
  }

  function Halves(v: bv64, n: nat): bv64
    decreases n
  {
    if n == 0 then v else Halves(Half(v), n - 1)
  }

  function Doubles(v: bv64, n: nat): bv64
    decreases n
  {
    if n == 0 then v else Doubles(Double(v), n - 1)
  }

  lemma {:induction false} BitsSnoc(v: bv64, n: nat)
    ensures BitsOf(v, n + 1) == BitsOf(v, n) + [Low(Halves(v, n))]
    decreases n
  {
    hide Half, Low;
    if n > 0 {
      BitsSnoc(Half(v), n - 1);
    } else {
      assert BitsOf(Half(v), 0) == [];
    }
  }

  lemma {:induction false} CoefficientsSnoc(v: bv64, n: nat)
    ensures Coefficients(v, n + 1) == Coefficients(v, n) + [Leads(Doubles(v, n))]
    decreases n
  {
    hide Double, Leads;
    if n > 0 {
      CoefficientsSnoc(Double(v), n - 1);
    } else {
      assert Coefficients(Double(v), 0) == [];
    }
  }

  lemma {:induction false} HalvesAdd(v: bv64, m: nat, n: nat)
    ensures Halves(v, m + n) == Halves(Halves(v, m), n)
    decreases m
  {
    hide Half;
    if m > 0 { HalvesAdd(Half(v), m - 1, n); }
  }

  lemma {:induction false} DoublesAdd(v: bv64, m: nat, n: nat)
    ensures Doubles(v, m + n) == Doubles(Doubles(v, m), n)
    decreases m
  {
    hide Double;
    if m > 0 { DoublesAdd(Double(v), m - 1, n); }
  }

  function ByteDown(v: bv64): bv64 {
    v >> 8
  }

  function ByteUp(v: bv64): bv64 {
    v << 8
  }

  lemma EightHalves(v: bv64)
    ensures Halves(v, 8) == ByteDown(v)
  {
    HalvesUnfold(v);
    assert Half(Half(Half(Half(Half(Half(Half(Half(v)))))))) == v >> 8;
    hide Half, Halves;
  }

  lemma HalvesUnfold(v: bv64)
    ensures Halves(v, 8) == Half(Half(Half(Half(Half(Half(Half(Half(v))))))))
  {
    hide Half;
    var v4 := Half(Half(Half(Half(v))));
    assert Halves(v, 8) == Halves(v4, 4);
  }

  lemma EightDoubles(v: bv64)
    ensures Doubles(v, 8) == ByteUp(v)
  {
    hide Double, Doubles;
    DoublesUnfold(v);
    DoubleSteps(v);
  }

  lemma DoublesUnfold(v: bv64)
    ensures Doubles(v, 8) == Double(Double(Double(Double(Double(Double(Double(Double(v))))))))
  {
    hide Double;
    var v4 := Double(Double(Double(Double(v))));
    assert Doubles(v, 8) == Doubles(v4, 4);
  }

  lemma AllGone(v: bv64)
    ensures ByteDown(ByteDown(ByteDown(ByteDown(ByteDown(ByteDown(ByteDown(ByteDown(v)))))))) == 0
    ensures ByteUp(ByteUp(ByteUp(ByteUp(ByteUp(ByteUp(ByteUp(ByteUp(v)))))))) == 0
  {
  }

  lemma AllHalves(v: bv64)
    ensures Halves(v, 64) == 0
  {
    hide Halves, ByteDown, ByteUp;
    AllGone(v);
    var v1 := ByteDown(v);
    var v2 := ByteDown(v1);
    var v3 := ByteDown(v2);
    var v4 := ByteDown(v3);
    var v5 := ByteDown(v4);
    var v6 := ByteDown(v5);
    var v7 := ByteDown(v6);
    EightHalves(v); EightHalves(v1); EightHalves(v2); EightHalves(v3);
    EightHalves(v4); EightHalves(v5); EightHalves(v6); EightHalves(v7);
    HalvesAdd(v, 8, 56); HalvesAdd(v1, 8, 48); HalvesAdd(v2, 8, 40); HalvesAdd(v3, 8, 32);
    HalvesAdd(v4, 8, 24); HalvesAdd(v5, 8, 16); HalvesAdd(v6, 8, 8);
  }

  lemma AllDoubles(v: bv64)
    ensures Doubles(v, 64) == 0
  {
    hide Doubles, ByteDown, ByteUp;
    AllGone(v);
    var v1 := ByteUp(v);
    var v2 := ByteUp(v1);
    var v3 := ByteUp(v2);
    var v4 := ByteUp(v3);
    var v5 := ByteUp(v4);
    var v6 := ByteUp(v5);
    var v7 := ByteUp(v6);
    EightDoubles(v); EightDoubles(v1); EightDoubles(v2); EightDoubles(v3);
    EightDoubles(v4); EightDoubles(v5); EightDoubles(v6); EightDoubles(v7);
    DoublesAdd(v, 8, 56); DoublesAdd(v1, 8, 48); DoublesAdd(v2, 8, 40); DoublesAdd(v3, 8, 32);
    DoublesAdd(v4, 8, 24); DoublesAdd(v5, 8, 16); DoublesAdd(v6, 8, 8);
  }

  lemma MirrorsHalf(x: bv64, m: bv64)
    requires Mirrors(x, m)
    ensures Mirrors(Half(x), Double(m)) && Low(x) == Leads(m)
  {
    assert !Low(0) && !Leads(0);
    hide Half, Double, Low, Leads, Halves, Doubles;
    BitsSnoc(x, 64);
    CoefficientsSnoc(m, 64);
    AllHalves(x);
    AllDoubles(m);
    assert BitsOf(x, 65)[1..] == BitsOf(Half(x), 64);
    assert Coefficients(m, 65)[1..] == Coefficients(Double(m), 64);
    assert BitsOf(x, 64)[0] == Low(x) && Coefficients(m, 64)[0] == Leads(m);
  }

  lemma HalfSteps(x: bv64)
    ensures Half(x) == x >> 1 && Half(x >> 1) == x >> 2 && Half(x >> 2) == x >> 3 && Half(x >> 3) == x >> 4
    ensures Half(x >> 4) == x >> 5 && Half(x >> 5) == x >> 6 && Half(x >> 6) == x >> 7 && Half(x >> 7) == x >> 8
  {
  }

  /** The lowest eight bits of one word are the highest eight of the other. */
  predicate ByteMirrors(x: bv64, m: bv64) {
    && Low(x) == Leads(m) && Low(x >> 1) == Leads(m << 1) && Low(x >> 2) == Leads(m << 2) && Low(x >> 3) == Leads(m << 3)
    && Low(x >> 4) == Leads(m << 4) && Low(x >> 5) == Leads(m << 5) && Low(x >> 6) == Leads(m << 6)
    && Low(x >> 7) == Leads(m << 7)
  }

  lemma MirrorsMore(x: bv64, m: bv64, n: nat)
    requires Low(x) == Leads(m) && BitsOf(Half(x), n) == Coefficients(Double(m), n)
    ensures BitsOf(x, n + 1) == Coefficients(m, n + 1)
  {
  }

  lemma MirrorsEight(x: bv64, m: bv64, n: nat)
    requires ByteMirrors(x, m) && BitsOf(x >> 8, n) == Coefficients(m << 8, n)
    ensures BitsOf(x, n + 8) == Coefficients(m, n + 8)
  {
    hide Half, Double, Low, Leads, BitsOf, Coefficients;
    HalfSteps(x);
    DoubleSteps(m);
    MirrorsMore(x >> 7, m << 7, n); MirrorsMore(x >> 6, m << 6, n + 1);
    MirrorsMore(x >> 5, m << 5, n + 2); MirrorsMore(x >> 4, m << 4, n + 3);
    MirrorsMore(x >> 3, m << 3, n + 4); MirrorsMore(x >> 2, m << 2, n + 5);
    MirrorsMore(x >> 1, m << 1, n + 6); MirrorsMore(x, m, n + 7);
  }

  lemma {:induction false} ZerosMirror(n: nat)
    ensures BitsOf(0, n) == Coefficients(0, n)
    decreases n
  {
    if n > 0 {
      ZerosMirror(n - 1);
      assert Half(0) == 0 && Double(0) == 0;
    }
  }

  lemma MirrorsPoly()
    ensures Mirrors(POLY, GENERATOR)
  {
    hide BitsOf, Coefficients;
    ZerosMirror(0);
    MirrorsEight(0xC9, 0x9300000000000000, 0);
    MirrorsEight(0xC96C, 0x3693000000000000, 8);
    MirrorsEight(0xC96C57, 0xEA36930000000000, 16);
    MirrorsEight(0xC96C5795, 0xA9EA369300000000, 24);
    MirrorsEight(0xC96C5795D7, 0xEBA9EA3693000000, 32);
    MirrorsEight(0xC96C5795D787, 0xE1EBA9EA36930000, 40);
    MirrorsEight(0xC96C5795D7870F, 0xF0E1EBA9EA369300, 48);
    MirrorsEight(0xC96C5795D7870F42, 0x42F0E1EBA9EA3693, 56);
  }

  lemma MirrorsZero()
    ensures Mirrors(0, 0)
  {
    ZerosMirror(64);
  }

  lemma MirrorsOne()
    ensures Mirrors(1, 0x8000_0000_0000_0000)
  {
    hide BitsOf, Coefficients;
    ZerosMirror(63);
    MirrorsMore(1, 0x8000_0000_0000_0000, 63);
  }

  lemma MirrorsOnes()
    ensures Mirrors(ONES, ONES)
  {
    hide BitsOf, Coefficients;
    ZerosMirror(0);
    MirrorsEight(0xFF, 0xFF00000000000000, 0);
    MirrorsEight(0xFFFF, 0xFFFF000000000000, 8);
    MirrorsEight(0xFFFFFF, 0xFFFFFF0000000000, 16);
    MirrorsEight(0xFFFFFFFF, 0xFFFFFFFF00000000, 24);
    MirrorsEight(0xFFFFFFFFFF, 0xFFFFFFFFFF000000, 32);
    MirrorsEight(0xFFFFFFFFFFFF, 0xFFFFFFFFFFFF0000, 40);
    MirrorsEight(0xFFFFFFFFFFFFFF, 0xFFFFFFFFFFFFFF00, 48);
    MirrorsEight(0xFFFFFFFFFFFFFFFF, 0xFFFFFFFFFFFFFFFF, 56);
  }

  lemma MirrorsConstants()
    ensures Mirrors(POLY, GENERATOR) && Mirrors(0, 0) && Mirrors(1, 0x8000_0000_0000_0000) && Mirrors(ONES, ONES)
  {
    hide Mirrors;
    MirrorsPoly();
    MirrorsZero();
    MirrorsOne();
    MirrorsOnes();
  }

  /** The reflected step, mirrored, is a shift of the division. */
  lemma MirrorsStep(x: bv64, m: bv64)
    requires Mirrors(x, m)
    ensures Mirrors(Step(x), Shift(m))
  {
    MirrorsConstants();
    assert Odd(x) == Low(x);
    assert Flip(Half(x)) == Xor(Half(x), POLY);
    hide Mirrors, Xor, Flip, Half, Odd, Double, Low;
    MirrorsHalf(x, m);
    XorZero(Double(m));
    MirrorsXor(Half(x), Double(m), POLY, GENERATOR);
  }

  lemma XorCancels(a: bv64, b: bv64)
    ensures Xor(a, Xor(b, a)) == b
  {
  }

  lemma LowIsOdd(v: bv64)
    ensures Odd(v) == Low(v) && !Odd(Xor(v, Word(Low(v)))) && Half(Xor(v, Word(Low(v)))) == Half(v)
  {
  }

  lemma LowSplits(v: bv64)
    ensures Xor(Word(Low(v)), Xor(v, Word(Low(v)))) == v
    ensures Step(Xor(v, Word(Low(v)))) == Half(v)
  {
    hide Xor, Half, Odd, Low, Word;
    XorCancels(Word(Low(v)), v);
    LowIsOdd(v);
  }

  /** Folding a whole word in and stepping folds its lowest bit in first. */
  lemma LowBit(x: bv64, v: bv64)
    ensures Step(Xor(x, v)) == Xor(Step(Xor(x, Word(Low(v)))), Half(v))
  {
    hide Step, Xor, Word, Half;
    LowSplits(v);
    XorAssociates(x, Word(Low(v)), Xor(v, Word(Low(v))));
    StepLinear(Xor(x, Word(Low(v))), Xor(v, Word(Low(v))));
  }

  lemma XorAssociates(a: bv64, b: bv64, c: bv64)
    ensures Xor(Xor(a, b), c) == Xor(a, Xor(b, c))
  {
    assert (a ^ b) ^ c == a ^ (b ^ c);
  }

  lemma XorZero(x: bv64)
    ensures Xor(x, 0) == x && Xor(0, x) == x
  {
  }

  lemma Interchange(a: bv64, b: bv64, c: bv64, d: bv64)
    ensures Xor(Xor(a, b), Xor(c, d)) == Xor(Xor(a, c), Xor(b, d))
  {
    hide Xor;
    XorAssociates(a, b, Xor(c, d));
    XorAssociates(b, c, d);
    XorCommutes(b, c);
    XorAssociates(c, b, d);
    XorAssociates(a, c, Xor(b, d));
  }

  predicate Narrow(v: bv64, n: nat) {
    if n == 0 then v == 0 else Narrow(Half(v), n - 1)
  }

  lemma NarrowMore(v: bv64, n: nat)
    requires Narrow(Half(v), n)
    ensures Narrow(v, n + 1)
  {
  }

  lemma HalfEight(v: bv64)
    requires v >> 8 == 0
    ensures Half(Half(Half(Half(Half(Half(Half(Half(v)))))))) == 0
  {
  }

  lemma ByteNarrow(b: bv8)
    ensures Narrow(b as bv64, 8)
  {
    var v := b as bv64;
    assert v >> 8 == 0;
    HalfEight(v);
    assert Narrow(0, 0);
    hide Half, Narrow;
    var v1 := Half(v);
    var v2 := Half(v1);
    var v3 := Half(v2);
    var v4 := Half(v3);
    var v5 := Half(v4);
    var v6 := Half(v5);
    var v7 := Half(v6);
    NarrowMore(v7, 0); NarrowMore(v6, 1); NarrowMore(v5, 2); NarrowMore(v4, 3);
    NarrowMore(v3, 4); NarrowMore(v2, 5); NarrowMore(v1, 6); NarrowMore(v, 7);
  }

  lemma {:induction false} BitByBit(x: bv64, m: bv64, v: bv64, n: nat)
    requires Narrow(v, n) && Mirrors(x, m)
    ensures Mirrors(Steps(Xor(x, v), n), Register(m, BitsOf(v, n)))
    decreases n
  {
    MirrorsConstants();
    hide Mirrors, Step, Shift, Xor, Half, Low;
    if n == 0 {
      XorZero(x);
    } else {
      var y, k := Xor(x, Word(Low(v))), Xor(m, High(Low(v)));
      LowBit(x, v);
      MirrorsXor(x, m, Word(Low(v)), High(Low(v)));
      MirrorsStep(y, k);
      BitByBit(Step(y), Shift(k), Half(v), n - 1);
      assert BitsOf(v, n)[1..] == BitsOf(Half(v), n - 1);
    }
  }

  lemma {:induction false} RegisterAppend(x: bv64, a: seq<bool>, b: seq<bool>)
    ensures Register(x, a + b) == Register(Register(x, a), b)
    decreases |a|
  {
    hide Enter;
    if |a| == 0 {
      assert a + b == b;
    } else {
      assert (a + b)[1..] == a[1..] + b;
      RegisterAppend(Enter(x, a[0]), a[1..], b);
    }
  }

  lemma {:induction false} AbsorbMirrored(x: bv64, m: bv64, data: seq<bv8>)
    requires Mirrors(x, m)
    ensures Mirrors(Absorb(x, data), Register(m, Bits(data)))
    decreases |data|
  {
    hide Mirrors, Steps, Register, BitsOf, Narrow, Xor, Fold;
    if |data| > 0 {
      var v := data[0] as bv64;
      FoldIsXor(x, data[0]);
      ByteNarrow(data[0]);
      BitByBit(x, m, v, 8);
      AbsorbMirrored(Steps(Xor(x, v), 8), Register(m, BitsOf(v, 8)), data[1..]);
      RegisterAppend(m, BitsOf(v, 8), Bits(data[1..]));
    } else {
      RegisterNone(m);
    }
  }

  lemma FoldIsXor(x: bv64, b: bv8)
    ensures Fold(x, b) == Xor(x, b as bv64)
  {
  }

  lemma RegisterNone(x: bv64)
    ensures Register(x, []) == x
  {
  }

  /* ---------- Linearity ---------- */

  lemma DoubleLinear(x: bv64, y: bv64)
    ensures Double(Xor(x, y)) == Xor(Double(x), Double(y))
  {
  }

  lemma QuotientLinear(x: bv64, y: bv64)
    ensures Quotient(Xor(x, y)) == Xor(Quotient(x), Quotient(y))
  {
    assert (x ^ y) & 0x8000_0000_0000_0000 == (x & 0x8000_0000_0000_0000) ^ (y & 0x8000_0000_0000_0000);
    assert x & 0x8000_0000_0000_0000 == 0 || x & 0x8000_0000_0000_0000 == 0x8000_0000_0000_0000;
    assert y & 0x8000_0000_0000_0000 == 0 || y & 0x8000_0000_0000_0000 == 0x8000_0000_0000_0000;
  }

  lemma WordLinear(a: bool, b: bool)
    ensures Word(a != b) == Xor(Word(a), Word(b)) && High(a != b) == Xor(High(a), High(b))
  {
  }

  lemma DivideLinear(r: bv64, q: bv64, a: bool, b: bool)
    ensures Divide(Xor(r, q), a != b) == Xor(Divide(r, a), Divide(q, b))
  {
    hide Xor, Double, Word, Quotient;
    DoubleLinear(r, q);
    QuotientLinear(r, q);
    WordLinear(a, b);
    Interchange(Double(r), Double(q), Word(a), Word(b));
    Interchange(Xor(Double(r), Word(a)), Xor(Double(q), Word(b)), Quotient(r), Quotient(q));
  }

  lemma DivideBit(r: bv64, bit: bool)
    ensures Divide(r, bit) == Xor(Shift(r), Word(bit))
  {
    hide Xor, Double, Quotient;
    var d, w, q := Double(r), Word(bit), Quotient(r);
    XorZero(d);
    XorAssociates(d, w, q);
    XorCommutes(w, q);
    XorAssociates(d, q, w);
  }

  function Mix(a: seq<bool>, b: seq<bool>): (r: seq<bool>)
    requires |a| == |b|
    ensures |r| == |a|
  {
    seq(|a|, i requires 0 <= i < |a| => a[i] != b[i])
  }

  lemma {:induction false} RemainderLinear(r: bv64, q: bv64, a: seq<bool>, b: seq<bool>)
    requires |a| == |b|
    ensures Remainder(Xor(r, q), Mix(a, b)) == Xor(Remainder(r, a), Remainder(q, b))
    decreases |a|
  {
    hide Divide, Xor;
    if |a| > 0 {
      DivideLinear(r, q, a[0], b[0]);
      assert Mix(a, b)[1..] == Mix(a[1..], b[1..]);
      RemainderLinear(Divide(r, a[0]), Divide(q, b[0]), a[1..], b[1..]);
    }
  }

  lemma {:induction false} RemainderAppend(r: bv64, a: seq<bool>, b: seq<bool>)
    ensures Remainder(r, a + b) == Remainder(Remainder(r, a), b)
    decreases |a|
  {
    hide Divide;
    if |a| == 0 {
      assert a + b == b;
    } else {
      assert (a + b)[1..] == a[1..] + b;
      RemainderAppend(Divide(r, a[0]), a[1..], b);
    }
  }

  lemma {:induction false} RemainderZeros(r: bv64, n: nat)
    ensures Remainder(r, Zeros(n)) == Shifts(r, n)
    decreases n
  {
    if n > 0 {
      assert Zeros(n)[1..] == Zeros(n - 1);
      RemainderZeros(Shift(r), n - 1);
    }
  }

  lemma ShiftLinear(x: bv64, y: bv64)
    ensures Shift(Xor(x, y)) == Xor(Shift(x), Shift(y))
  {
    hide Divide, Xor;
    DivideLinear(x, y, false, false);
  }

  lemma {:induction false} ShiftsLinear(x: bv64, y: bv64, n: nat)
    ensures Shifts(Xor(x, y), n) == Xor(Shifts(x, n), Shifts(y, n))
    decreases n
  {
    hide Shift, Xor;
    if n > 0 {
      ShiftLinear(x, y);
      ShiftsLinear(Shift(x), Shift(y), n - 1);
    }
  }

  lemma {:induction false} ShiftsCommute(x: bv64, n: nat)
    ensures Shifts(Shift(x), n) == Shift(Shifts(x, n))
    decreases n
  {
    hide Shift;
    if n > 0 { ShiftsCommute(Shift(x), n - 1); }
  }

  lemma {:induction false} ShiftsAdd(x: bv64, m: nat, n: nat)
    ensures Shifts(x, m + n) == Shifts(Shifts(x, m), n)
    decreases m
  {
    hide Shift;
    if m > 0 { ShiftsAdd(Shift(x), m - 1, n); }
  }

  lemma PlainShift(x: bv64)
    requires x & 0x8000_0000_0000_0000 == 0
    ensures Shift(x) == Double(x)
  {
  }

  lemma EightShifts(x: bv64)
    requires x >> 56 == 0
    ensures Shifts(x, 8) == x << 8
  {
    hide Shift, Shifts;
    PlainShift(x); PlainShift(x << 1); PlainShift(x << 2); PlainShift(x << 3);
    PlainShift(x << 4); PlainShift(x << 5); PlainShift(x << 6); PlainShift(x << 7);
    DoubleSteps(x);
    ShiftsEight(x);
    hide Double;
  }

  lemma DoubleSteps(x: bv64)
    ensures Double(x) == x << 1 && Double(x << 1) == x << 2 && Double(x << 2) == x << 3 && Double(x << 3) == x << 4
    ensures Double(x << 4) == x << 5 && Double(x << 5) == x << 6 && Double(x << 6) == x << 7 && Double(x << 7) == x << 8
  {
  }

  lemma ShiftsEight(x: bv64)
    ensures Shifts(x, 8) == Shift(Shift(Shift(Shift(Shift(Shift(Shift(Shift(x))))))))
  {
    hide Shift;
    var x4 := Shift(Shift(Shift(Shift(x))));
    assert Shifts(x, 8) == Shifts(x4, 4);
  }

  /** x^64 and a bit that enters at the top are the same thing modulo the generator. */
  lemma SixtyFour()
    ensures Shifts(1, 64) == Shift(0x8000_0000_0000_0000) && Shifts(0, 64) == 0
  {
    hide Shifts, Shift;
    EightShifts(1);
    EightShifts(0x100);
    EightShifts(0x1_0000);
    EightShifts(0x100_0000);
    EightShifts(0x1_0000_0000);
    EightShifts(0x100_0000_0000);
    EightShifts(0x1_0000_0000_0000);
    ShiftsAdd(1, 8, 48);
    ShiftsAdd(0x100, 8, 40);
    ShiftsAdd(0x1_0000, 8, 32);
    ShiftsAdd(0x100_0000, 8, 24);
    ShiftsAdd(0x1_0000_0000, 8, 16);
    ShiftsAdd(0x100_0000_0000, 8, 8);
    assert Shifts(1, 56) == 0x100_0000_0000_0000;
    ShiftsAdd(1, 56, 8);
    LastShifts();
    EightShifts(0);
    ShiftsAdd(0, 8, 56); ShiftsAdd(0, 8, 48); ShiftsAdd(0, 8, 40); ShiftsAdd(0, 8, 32);
    ShiftsAdd(0, 8, 24); ShiftsAdd(0, 8, 16); ShiftsAdd(0, 8, 8);
  }

  lemma LastShifts()
    ensures Shifts(0x100_0000_0000_0000, 8) == Shift(0x8000_0000_0000_0000)
  {
    hide Shift, Shifts;
    PlainShift(0x100_0000_0000_0000); PlainShift(0x200_0000_0000_0000); PlainShift(0x400_0000_0000_0000);
    PlainShift(0x800_0000_0000_0000); PlainShift(0x1000_0000_0000_0000); PlainShift(0x2000_0000_0000_0000);
    PlainShift(0x4000_0000_0000_0000);
    ShiftsEight(0x100_0000_0000_0000);
  }

  /* ---------- The register is the division ---------- */

  lemma EnterBit(x: bv64, bit: bool)
    ensures Enter(x, bit) == Xor(Shift(x), Shifts(Word(bit), 64))
  {
    SixtyFour();
    hide Shifts, Xor;
    ShiftLinear(x, High(bit));
    ShiftZero();
    hide Shift;
  }

  lemma ShiftZero()
    ensures Shift(0) == 0
  {
  }

  lemma {:induction false} RegisterDivides(r: bv64, bits: seq<bool>)
    ensures Register(Shifts(r, 64), bits) == Shifts(Remainder(r, bits), 64)
    decreases |bits|
  {
    hide Shift, Enter, Divide, Word, Shifts, Xor;
    if |bits| > 0 {
      EnterBit(Shifts(r, 64), bits[0]);
      ShiftsCommute(r, 64);
      ShiftsLinear(Shift(r), Word(bits[0]), 64);
      DivideBit(r, bits[0]);
      RegisterDivides(Divide(r, bits[0]), bits[1..]);
    }
  }

  lemma {:induction false} RegisterLinear(x: bv64, y: bv64, bits: seq<bool>)
    ensures Register(Xor(x, y), bits) == Xor(Register(x, bits), Shifts(y, |bits|))
    decreases |bits|
  {
    hide Shift, Enter, Xor;
    if |bits| > 0 {
      EnterLinear(x, y, bits[0]);
      RegisterLinear(Enter(x, bits[0]), Shift(y), bits[1..]);
    }
  }

  lemma EnterLinear(x: bv64, y: bv64, bit: bool)
    ensures Enter(Xor(x, y), bit) == Xor(Enter(x, bit), Shift(y))
  {
    hide Xor, Shift, High;
    var h := High(bit);
    XorAssociates(x, y, h);
    XorCommutes(y, h);
    XorAssociates(x, h, y);
    ShiftLinear(Xor(x, h), y);
  }

  function Trues(n: nat): (r: seq<bool>)
    ensures |r| == n && forall i :: 0 <= i < n ==> r[i]
  {
    seq(n, i => true)
  }

  /** A one brought down while the leading coefficient is 0. */
  function Append(r: bv64): bv64 {
    (r << 1) | 1
  }

  lemma PlainDivide(r: bv64)
    requires !Leads(r)
    ensures Divide(r, true) == Append(r)
  {
  }

  function AppendByte(r: bv64): bv64 {
    (r << 8) | 0xFF
  }

  lemma AppendRoom(r: bv64)
    requires r & 0xC000_0000_0000_0000 == 0
    ensures !Leads(r) && !Leads(Append(r))
  {
  }

  lemma TwoAppends(r: bv64)
    ensures Append(Append(r)) == (r << 2) | 3
  {
  }

  lemma FourAppends(r: bv64)
    requires r >> 60 == 0
    ensures !Leads(r) && !Leads(Append(r)) && !Leads(Append(Append(r))) && !Leads(Append(Append(Append(r))))
    ensures Append(Append(Append(Append(r)))) == (r << 4) | 0xF
  {
    assert r & 0xC000_0000_0000_0000 == 0 && ((r << 2) | 3) & 0xC000_0000_0000_0000 == 0;
    assert (((r << 2) | 3) << 2) | 3 == (r << 4) | 0xF;
    hide Leads, Append;
    TwoAppends(r);
    TwoAppends((r << 2) | 3);
    AppendRoom(r);
    AppendRoom((r << 2) | 3);
  }

  lemma EightAppends(r: bv64)
    requires r >> 56 == 0
    ensures !Leads(r) && !Leads(Append(r)) && !Leads(Append(Append(r))) && !Leads(Append(Append(Append(r))))
    ensures var r4 := Append(Append(Append(Append(r))));
            && !Leads(r4) && !Leads(Append(r4)) && !Leads(Append(Append(r4))) && !Leads(Append(Append(Append(r4))))
            && Append(Append(Append(Append(r4)))) == AppendByte(r)
  {
    hide Leads, Append;
    assert r >> 60 == 0 && ((r << 4) | 0xF) >> 60 == 0;
    assert (((r << 4) | 0xF) << 4) | 0xF == (r << 8) | 0xFF;
    FourAppends(r);
    FourAppends((r << 4) | 0xF);
  }

  /** Eight ones brought down one after the other. */
  lemma DivideEight(r: bv64)
    requires r >> 56 == 0
    ensures Divide(Divide(Divide(Divide(Divide(Divide(Divide(Divide(r, true), true), true), true), true), true), true), true)
            == AppendByte(r)
  {
    hide Divide, Append, Leads, AppendByte;
    EightAppends(r);
    var r1 := Append(r);
    var r2 := Append(r1);
    var r3 := Append(r2);
    var r4 := Append(r3);
    var r5 := Append(r4);
    var r6 := Append(r5);
    var r7 := Append(r6);
    PlainDivide(r); PlainDivide(r1); PlainDivide(r2); PlainDivide(r3);
    PlainDivide(r4); PlainDivide(r5); PlainDivide(r6); PlainDivide(r7);
  }

  lemma RemainderEight(r: bv64)
    ensures Remainder(r, Trues(8))
            == Divide(Divide(Divide(Divide(Divide(Divide(Divide(Divide(r, true), true), true), true), true), true), true), true)
  {
    hide Divide, Remainder, Trues;
    var r1 := Divide(r, true);
    var r2 := Divide(r1, true);
    var r3 := Divide(r2, true);
    var r4 := Divide(r3, true);
    var r5 := Divide(r4, true);
    var r6 := Divide(r5, true);
    var r7 := Divide(r6, true);
    TrueStep(r, 8); TrueStep(r1, 7); TrueStep(r2, 6); TrueStep(r3, 5);
    TrueStep(r4, 4); TrueStep(r5, 3); TrueStep(r6, 2); TrueStep(r7, 1);
    TrueStep(Divide(r7, true), 0);
  }

  lemma TrueStep(r: bv64, n: nat)
    ensures Remainder(r, Trues(n)) == if n == 0 then r else Remainder(Divide(r, true), Trues(n - 1))
  {
    hide Divide;
    if n > 0 { assert Trues(n)[1..] == Trues(n - 1); }
  }

  lemma MoreTrues(n: nat, r: bv64)
    requires Remainder(0, Trues(n)) == r && r >> 56 == 0
    ensures Remainder(0, Trues(n + 8)) == (r << 8) | 0xFF
  {
    hide Divide;
    assert Trues(n + 8) == Trues(n) + Trues(8);
    RemainderAppend(0, Trues(n), Trues(8));
    RemainderEight(r);
    DivideEight(r);
  }

  lemma SixtyFourTrues()
    ensures Remainder(0, Trues(64)) == ONES
  {
    assert Remainder(0, Trues(0)) == 0;
    hide Remainder;
    MoreTrues(0, 0);
    MoreTrues(8, 0xFF);
    MoreTrues(16, 0xFFFF);
    MoreTrues(24, 0xFF_FFFF);
    MoreTrues(32, 0xFFFF_FFFF);
    MoreTrues(40, 0xFF_FFFF_FFFF);
    MoreTrues(48, 0xFFFF_FFFF_FFFF);
    MoreTrues(56, 0xFF_FFFF_FFFF_FFFF);
  }

  /** The checksum, read from its lowest bit, is the complemented remainder of the message times
      x^64, each byte read from its lowest bit and the first 64 coefficients complemented, modulo
      the generator. */
  lemma ChecksumIsRemainder(data: seq<bv8>)
    ensures BitsOf(Checksum(data), 64)
            == Coefficients(Xor(Remainder(0, Invert(Bits(data) + Zeros(64))), ONES), 64)
  {
    hide BitsOf, Coefficients, Absorb, Register, Remainder, Shifts, Bits, Xor, Checksum;
    var bits := Bits(data);
    var n, m := |bits|, Register(ONES, bits);
    ChecksumXor(data);
    MirrorsConstants();
    AbsorbMirrored(ONES, ONES, data);
    MirrorsXor(Absorb(ONES, data), m, ONES, ONES);
    RegisterIsRemainder(bits);
  }

  lemma RegisterIsRemainder(bits: seq<bool>)
    ensures Register(ONES, bits) == Remainder(0, Invert(bits + Zeros(64)))
  {
    hide Register, Remainder, Shifts, Xor;
    var n := |bits|;
    XorZero(ONES); XorZero(0);
    RegisterLinear(0, ONES, bits);
    SixtyFour();
    RegisterDivides(0, bits);
    RemainderAppend(0, bits, Zeros(64));
    RemainderZeros(Remainder(0, bits), 64);
    SixtyFourTrues();
    RemainderAppend(0, Trues(64), Zeros(n));
    RemainderZeros(ONES, n);
    RemainderLinear(0, 0, bits + Zeros(64), Trues(64) + Zeros(n));
    InvertMix(bits);
  }

  lemma ChecksumXor(data: seq<bv8>)
    ensures Checksum(data) == Xor(Absorb(ONES, data), ONES)
  {
  }

  lemma InvertMix(bits: seq<bool>)
    ensures Mix(bits + Zeros(64), Trues(64) + Zeros(|bits|)) == Invert(bits + Zeros(64))
  {
  }

  /* ---------- The check value ---------- */

  lemma ByteStep(x: bv64, b: bv8, y: bv64, rest: seq<bv8>)
    requires Steps(Fold(x, b), 8) == y
    ensures Absorb(x, [b] + rest) == Absorb(y, rest)
  {
    hide Steps, Fold;
    assert ([b] + rest)[1..] == rest;
  }

  /** The published check value of this CRC: the checksum of the digits 1 to 9. */
  lemma CheckValue()
    ensures Checksum([0x31, 0x32, 0x33, 0x34, 0x35, 0x36, 0x37, 0x38, 0x39]) == 0x995D_C9BB_DF19_39FA
  {
    hide Absorb, Checksum;
    var a: seq<bv8> := [0x31, 0x32, 0x33, 0x34, 0x35];
    var b: seq<bv8> := [0x36, 0x37, 0x38, 0x39];
    DigitsToFive();
    DigitsFromSix();
    AbsorbAppend(ONES, a, b);
    assert a + b == [0x31, 0x32, 0x33, 0x34, 0x35, 0x36, 0x37, 0x38, 0x39];
    ChecksumXor(a + b);
  }

  lemma DigitsToFive()
    ensures Absorb(ONES, [0x31, 0x32, 0x33, 0x34, 0x35]) == 0xA258B9005AFBA316
  {
    hide Absorb, Steps, Fold;
    CheckSteps();
    var t: seq<bv8> := [0x31, 0x32, 0x33, 0x34, 0x35];
    ByteStep(0xFFFFFFFFFFFFFFFF, 0x31, 0xD5D0F17A6B6A3512, t[1..]);
    assert t[0..] == [t[0]] + t[1..];
    ByteStep(0xD5D0F17A6B6A3512, 0x32, 0xFBE29281D80DA6A7, t[2..]);
    assert t[1..] == [t[1]] + t[2..];
    ByteStep(0xFBE29281D80DA6A7, 0x33, 0xCFDCD7BBF8E33A9E, t[3..]);
    assert t[2..] == [t[2]] + t[3..];
    ByteStep(0xCFDCD7BBF8E33A9E, 0x34, 0x31B1786C99473CD7, t[4..]);
    assert t[3..] == [t[3]] + t[4..];
    ByteStep(0x31B1786C99473CD7, 0x35, 0xA258B9005AFBA316, t[5..]);
    assert t[4..] == [t[4]] + t[5..];
    assert t[0..] == t && t[5..] == [];
    AbsorbNone(0xA258B9005AFBA316);
  }

  lemma DigitsFromSix()
    ensures Absorb(0xA258B9005AFBA316, [0x36, 0x37, 0x38, 0x39]) == 0x66A2364420E6C605
  {
    hide Absorb, Steps, Fold;
    CheckSteps();
    var t: seq<bv8> := [0x36, 0x37, 0x38, 0x39];
    ByteStep(0xA258B9005AFBA316, 0x36, 0xFB951AC9A23C3731, t[1..]);
    assert t[0..] == [t[0]] + t[1..];
    ByteStep(0xFB951AC9A23C3731, 0x37, 0x8FAF60C99E6DC25F, t[2..]);
    assert t[1..] == [t[1]] + t[2..];
    ByteStep(0x8FAF60C99E6DC25F, 0x38, 0xA3747FB7D45387F6, t[3..]);
    assert t[2..] == [t[2]] + t[3..];
    ByteStep(0xA3747FB7D45387F6, 0x39, 0x66A2364420E6C605, t[4..]);
    assert t[3..] == [t[3]] + t[4..];
    assert t[0..] == t && t[4..] == [];
    AbsorbNone(0x66A2364420E6C605);
  }

  lemma AbsorbNone(x: bv64)
    ensures Absorb(x, []) == x
  {
  }

  lemma CheckSteps()
    ensures Steps(Fold(0xFFFFFFFFFFFFFFFF, 0x31), 8) == 0xD5D0F17A6B6A3512
    ensures Steps(Fold(0xD5D0F17A6B6A3512, 0x32), 8) == 0xFBE29281D80DA6A7
    ensures Steps(Fold(0xFBE29281D80DA6A7, 0x33), 8) == 0xCFDCD7BBF8E33A9E
    ensures Steps(Fold(0xCFDCD7BBF8E33A9E, 0x34), 8) == 0x31B1786C99473CD7
    ensures Steps(Fold(0x31B1786C99473CD7, 0x35), 8) == 0xA258B9005AFBA316
    ensures Steps(Fold(0xA258B9005AFBA316, 0x36), 8) == 0xFB951AC9A23C3731
    ensures Steps(Fold(0xFB951AC9A23C3731, 0x37), 8) == 0x8FAF60C99E6DC25F
    ensures Steps(Fold(0x8FAF60C99E6DC25F, 0x38), 8) == 0xA3747FB7D45387F6
    ensures Steps(Fold(0xA3747FB7D45387F6, 0x39), 8) == 0x66A2364420E6C605
  {
  }
}
