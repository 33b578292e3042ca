/** The check value of CRC-32: "123456789" has the CRC 0xCBF43926. */
module CrcCheck {
  import opened Basics
  import opened Bits
  import opened Gf2
  import opened Crc32

  // ---- Words as bits ----

  datatype Nibble = Nibble(b3: bool, b2: bool, b1: bool, b0: bool)
  datatype Word = Word(n7: Nibble, n6: Nibble, n5: Nibble, n4: Nibble, n3: Nibble, n2: Nibble, n1: Nibble, n0: Nibble)

  const X0: Nibble := Nibble(false, false, false, false)
  const X1: Nibble := Nibble(false, false, false, true)
  const X2: Nibble := Nibble(false, false, true, false)
  const X3: Nibble := Nibble(false, false, true, true)
  const X4: Nibble := Nibble(false, true, false, false)
  const X5: Nibble := Nibble(false, true, false, true)
  const X6: Nibble := Nibble(false, true, true, false)
  const X7: Nibble := Nibble(false, true, true, true)
  const X8: Nibble := Nibble(true, false, false, false)
  const X9: Nibble := Nibble(true, false, false, true)
  const XA: Nibble := Nibble(true, false, true, false)
  const XB: Nibble := Nibble(true, false, true, true)
  const XC: Nibble := Nibble(true, true, false, false)
  const XD: Nibble := Nibble(true, true, false, true)
  const XE: Nibble := Nibble(true, true, true, false)
  const XF: Nibble := Nibble(true, true, true, true)

  const CONSTANT: Word := Word(XE, XD, XB, X8, X8, X3, X2, X0)

  function N(b: bool): nat { if b then 1 else 0 }

  function NibbleValue(n: Nibble): nat { 8 * N(n.b3) + 4 * N(n.b2) + 2 * N(n.b1) + N(n.b0) }

  /** Two more nibbles behind `x`. */
  function Behind(x: nat, a: Nibble, b: Nibble): nat { 16 * (16 * x + NibbleValue(a)) + NibbleValue(b) }

  function Value(w: Word): nat {
    Behind(Behind(Behind(Behind(0, w.n7, w.n6), w.n5, w.n4), w.n3, w.n2), w.n1, w.n0)
  }

  // ---- The register on them ----

  function AddNibbles(a: Nibble, b: Nibble): Nibble {
    Nibble(a.b3 != b.b3, a.b2 != b.b2, a.b1 != b.b1, a.b0 != b.b0)
  }

  function AddWords(a: Word, b: Word): Word {
    Word(AddNibbles(a.n7, b.n7), AddNibbles(a.n6, b.n6), AddNibbles(a.n5, b.n5), AddNibbles(a.n4, b.n4),
         AddNibbles(a.n3, b.n3), AddNibbles(a.n2, b.n2), AddNibbles(a.n1, b.n1), AddNibbles(a.n0, b.n0))
  }

  function HalfNibble(n: Nibble, top: bool): Nibble { Nibble(top, n.b3, n.b2, n.b1) }

  function HalfWord(w: Word): Word {
    Word(HalfNibble(w.n7, false), HalfNibble(w.n6, w.n7.b0), HalfNibble(w.n5, w.n6.b0), HalfNibble(w.n4, w.n5.b0),
         HalfNibble(w.n3, w.n4.b0), HalfNibble(w.n2, w.n3.b0), HalfNibble(w.n1, w.n2.b0), HalfNibble(w.n0, w.n1.b0))
  }

  function ShiftWord(w: Word): Word { if w.n0.b0 then AddWords(HalfWord(w), CONSTANT) else HalfWord(w) }

  function WithByte(w: Word, high: Nibble, low: Nibble): Word {
    AddWords(w, Word(X0, X0, X0, X0, X0, X0, high, low))
  }

  function Iterate(step: Word -> Word, w: Word, n: nat): Word
    decreases n
  {
    if n == 0 then w else Iterate(step, step(w), n - 1)
  }

  const VALUE: Word -> nat := (w: Word) => Value(w)
  const STEP: Word -> Word := (w: Word) => ShiftWord(w)

  // ---- The register while the nine digits go through it ----

  const W0: Word := Word(XF, XF, XF, XF, XF, XF, XF, XF)
  const W1: Word := Word(X7, XC, X2, X3, X1, X0, X4, X8)
  const W2: Word := Word(XB, X0, XA, XC, XB, XB, X3, X2)
  const W3: Word := Word(X7, X7, XB, X7, X9, XC, X2, XD)
  const W4: Word := Word(X6, X4, X1, XC, X1, XF, X5, XC)
  const W5: Word := Word(X3, X4, X0, XA, XC, X5, XE, X3)
  const W6: Word := Word(XF, X6, X8, XD, X2, XC, X9, XE)
  const W7: Word := Word(XA, XF, XF, XC, X9, X6, X6, X0)
  const W8: Word := Word(X6, X5, X1, XF, X2, X5, X5, X0)
  const W9: Word := Word(X3, X4, X0, XB, XC, X6, XD, X9)

  function FourSteps(w: Word): Word { ShiftWord(ShiftWord(ShiftWord(ShiftWord(w)))) }

  lemma Digits1To3()
    ensures FourSteps(FourSteps(WithByte(W0, X3, X1))) == W1
    ensures FourSteps(FourSteps(WithByte(W1, X3, X2))) == W2
    ensures FourSteps(FourSteps(WithByte(W2, X3, X3))) == W3
  {
  }

  lemma Digits4To6()
    ensures FourSteps(FourSteps(WithByte(W3, X3, X4))) == W4
    ensures FourSteps(FourSteps(WithByte(W4, X3, X5))) == W5
    ensures FourSteps(FourSteps(WithByte(W5, X3, X6))) == W6
  {
  }

  lemma Digits7To9()
    ensures FourSteps(FourSteps(WithByte(W6, X3, X7))) == W7
    ensures FourSteps(FourSteps(WithByte(W7, X3, X8))) == W8
    ensures FourSteps(FourSteps(WithByte(W8, X3, X9))) == W9
  {
  }

  // ---- Words stand for numbers ----

  lemma XorBit(x: nat, y: nat, z: nat, i: nat, j: nat)
    requires i < 2 && j < 2 && Xor(x, y) == z
    ensures Xor(2 * x + i, 2 * y + j) == 2 * z + Sum(i, j)
  {
    XorHalves(2 * x + i, 2 * y + j);
    Halved(i, x);
    Halved(j, y);
  }

  lemma XorPair(x: nat, y: nat, z: nat, i: nat, j: nat, k: nat, l: nat)
    requires i < 2 && j < 2 && k < 2 && l < 2 && Xor(x, y) == z
    ensures Xor(4 * x + 2 * i + k, 4 * y + 2 * j + l) == 4 * z + 2 * Sum(i, j) + Sum(k, l)
  {
    XorBit(x, y, z, i, j);
    XorBit(2 * x + i, 2 * y + j, 2 * z + Sum(i, j), k, l);
  }

  lemma XorQuad(x: nat, y: nat, z: nat, i: nat, j: nat, k: nat, l: nat, m: nat, n: nat, o: nat, p: nat)
    requires i < 2 && j < 2 && k < 2 && l < 2 && m < 2 && n < 2 && o < 2 && p < 2 && Xor(x, y) == z
    ensures Xor(16 * x + 8 * i + 4 * k + 2 * m + o, 16 * y + 8 * j + 4 * l + 2 * n + p)
         == 16 * z + 8 * Sum(i, j) + 4 * Sum(k, l) + 2 * Sum(m, n) + Sum(o, p)
  {
    XorPair(x, y, z, i, j, k, l);
    XorPair(4 * x + 2 * i + k, 4 * y + 2 * j + l, 4 * z + 2 * Sum(i, j) + Sum(k, l), m, n, o, p);
  }

  lemma NibbleSum(a: Nibble, b: Nibble)
    ensures NibbleValue(AddNibbles(a, b)) ==
            8 * Sum(N(a.b3), N(b.b3)) + 4 * Sum(N(a.b2), N(b.b2)) + 2 * Sum(N(a.b1), N(b.b1)) + Sum(N(a.b0), N(b.b0))
  {
  }

  /** Nibbles with the values `v` and `w` that add up to one with the value `t`. */
  lemma XorFour(x: nat, y: nat, z: nat, v: nat, w: nat, t: nat, a: Nibble, b: Nibble)
    requires Xor(x, y) == z && v == NibbleValue(a) && w == NibbleValue(b) && t == NibbleValue(AddNibbles(a, b))
    ensures Xor(16 * x + v, 16 * y + w) == 16 * z + t
  {
    NibbleSum(a, b);
    XorQuad(x, y, z, N(a.b3), N(b.b3), N(a.b2), N(b.b2), N(a.b1), N(b.b1), N(a.b0), N(b.b0));
  }

  lemma XorEight(x: nat, y: nat, z: nat, v: nat, w: nat, t: nat, a: Nibble, b: Nibble, c: Nibble, d: Nibble)
    requires Xor(x, y) == z && v == NibbleValue(a) && w == NibbleValue(c) && t == NibbleValue(AddNibbles(a, c))
    ensures Xor(16 * (16 * x + v) + NibbleValue(b), 16 * (16 * y + w) + NibbleValue(d))
         == 16 * (16 * z + t) + NibbleValue(AddNibbles(b, d))
  {
    XorFour(x, y, z, v, w, t, a, c);
    XorFour(16 * x + v, 16 * y + w, 16 * z + t, NibbleValue(b), NibbleValue(d), NibbleValue(AddNibbles(b, d)), b, d);
  }

  lemma XorBehind(x: nat, y: nat, z: nat, a: Nibble, b: Nibble, c: Nibble, d: Nibble)
    requires Xor(x, y) == z
    ensures Xor(Behind(x, a, b), Behind(y, c, d)) == Behind(z, AddNibbles(a, c), AddNibbles(b, d))
  {
    XorEight(x, y, z, NibbleValue(a), NibbleValue(c), NibbleValue(AddNibbles(a, c)), a, b, c, d);
  }

  lemma XorWords(a: Word, b: Word)
    ensures Xor(Value(a), Value(b)) == Value(AddWords(a, b))
  {
    var s := AddWords(a, b);
    var x1, y1, z1 := Behind(0, a.n7, a.n6), Behind(0, b.n7, b.n6), Behind(0, s.n7, s.n6);
    XorBehind(0, 0, 0, a.n7, a.n6, b.n7, b.n6);
    var x2, y2, z2 := Behind(x1, a.n5, a.n4), Behind(y1, b.n5, b.n4), Behind(z1, s.n5, s.n4);
    XorBehind(x1, y1, z1, a.n5, a.n4, b.n5, b.n4);
    var x3, y3, z3 := Behind(x2, a.n3, a.n2), Behind(y2, b.n3, b.n2), Behind(z2, s.n3, s.n2);
    XorBehind(x2, y2, z2, a.n3, a.n2, b.n3, b.n2);
    XorBehind(x3, y3, z3, a.n1, a.n0, b.n1, b.n0);
  }

  lemma HalfNibbleValue(x: nat, h: nat, top: bool, n: Nibble)
    requires x == 2 * h + N(top)
    ensures 16 * x + NibbleValue(n) == 2 * (16 * h + NibbleValue(HalfNibble(n, top))) + N(n.b0)
  {
  }

  lemma HalfBehind(x: nat, h: nat, top: bool, a: Nibble, b: Nibble)
    requires x == 2 * h + N(top)
    ensures Behind(x, a, b) == 2 * Behind(h, HalfNibble(a, top), HalfNibble(b, a.b0)) + N(b.b0)
  {
    HalfNibbleValue(x, h, top, a);
    HalfNibbleValue(16 * x + NibbleValue(a), 16 * h + NibbleValue(HalfNibble(a, top)), a.b0, b);
  }

  lemma HalfValue(w: Word)
    ensures Value(w) == 2 * Value(HalfWord(w)) + N(w.n0.b0)
  {
    var v := HalfWord(w);
    var x1, h1 := Behind(0, w.n7, w.n6), Behind(0, v.n7, v.n6);
    HalfBehind(0, 0, false, w.n7, w.n6);
    var x2, h2 := Behind(x1, w.n5, w.n4), Behind(h1, v.n5, v.n4);
    HalfBehind(x1, h1, w.n6.b0, w.n5, w.n4);
    var x3, h3 := Behind(x2, w.n3, w.n2), Behind(h2, v.n3, v.n2);
    HalfBehind(x2, h2, w.n4.b0, w.n3, w.n2);
    HalfBehind(x3, h3, w.n2.b0, w.n1, w.n0);
  }

  lemma ConstantValue()
    ensures Value(CONSTANT) == POLYNOMIAL
  {
    NibbleValues();
    var x := Behind(0, XE, XD);
    assert x == 0xED;
    x := Behind(x, XB, X8);
    assert x == 0xEDB8;
    x := Behind(x, X8, X3);
    assert x == 0xED_B883;
  }

  lemma NibbleValues()
    ensures NibbleValue(X0) == 0 && NibbleValue(X1) == 1 && NibbleValue(X2) == 2 && NibbleValue(X3) == 3
    ensures NibbleValue(X4) == 4 && NibbleValue(X5) == 5 && NibbleValue(X6) == 6 && NibbleValue(X7) == 7
    ensures NibbleValue(X8) == 8 && NibbleValue(X9) == 9 && NibbleValue(XA) == 10 && NibbleValue(XB) == 11
    ensures NibbleValue(XC) == 12 && NibbleValue(XD) == 13 && NibbleValue(XE) == 14 && NibbleValue(XF) == 15
  {
  }

  lemma ShiftIs(v: nat, half: nat, odd: bool, sum: nat)
    requires v == 2 * half + N(odd) && Xor(half, POLYNOMIAL) == sum
    ensures Shift(v) == if odd then sum else half
  {
    Halved(N(odd), half);
  }

  lemma ShiftValue(w: Word)
    ensures Shift(Value(w)) == Value(ShiftWord(w))
  {
    HalfValue(w);
    XorWords(HalfWord(w), CONSTANT);
    ConstantValue();
    ShiftIs(Value(w), Value(HalfWord(w)), w.n0.b0, Value(AddWords(HalfWord(w), CONSTANT)));
  }

  function ByteValue(high: Nibble, low: Nibble): Byte { 16 * NibbleValue(high) + NibbleValue(low) }

  lemma ByteWordValue(high: Nibble, low: Nibble)
    ensures Value(Word(X0, X0, X0, X0, X0, X0, high, low)) == ByteValue(high, low)
  {
  }

  lemma WithByteValue(w: Word, high: Nibble, low: Nibble)
    ensures Value(WithByte(w, high, low)) == Xor(Value(w), ByteValue(high, low))
  {
    ByteWordValue(high, low);
    XorWords(w, Word(X0, X0, X0, X0, X0, X0, high, low));
  }

  // ---- Whichever way words stand for numbers ----

  predicate Moves(value: Word -> nat, step: Word -> Word, w: Word) { Shift(value(w)) == value(step(w)) }

  ghost predicate AllMove(value: Word -> nat, step: Word -> Word) { forall w :: Moves(value, step, w) }

  lemma {:induction false} IterateValue(value: Word -> nat, step: Word -> Word, w: Word, n: nat)
    requires AllMove(value, step)
    ensures Shifts(value(w), n) == value(Iterate(step, w, n))
    decreases n
  {
    if n > 0 {
      assert Moves(value, step, w);
      IterateValue(value, step, step(w), n - 1);
    }
  }

  /** The values that a register takes. */
  predicate Takes(value: Word -> nat, step: Word -> Word, w: Word, mid: Word, next: Word, b: Byte) {
    value(mid) == Xor(value(w), b) && Iterate(step, mid, OCTET) == next
  }

  lemma FeedTakes(value: Word -> nat, step: Word -> Word, w: Word, mid: Word, next: Word, b: Byte)
    requires AllMove(value, step) && Takes(value, step, w, mid, next, b)
    ensures FEED(value(w), b) == value(next)
  {
    IterateValue(value, step, mid, OCTET);
  }

  lemma AllMoveHere()
    ensures AllMove(VALUE, STEP)
  {
    forall w ensures Moves(VALUE, STEP, w) { ShiftValue(w); }
  }

  /** Eight steps, four at a time. */
  lemma IterateEight(w: Word)
    ensures Iterate(STEP, w, OCTET) == FourSteps(FourSteps(w))
  {
    IterateFour(w, OCTET - 4);
    IterateFour(FourSteps(w), OCTET - 8);
  }

  lemma IterateFour(w: Word, n: nat)
    ensures Iterate(STEP, w, n + 4) == Iterate(STEP, FourSteps(w), n)
  {
    IterateOne(w, n + 3);
    IterateOne(ShiftWord(w), n + 2);
    IterateOne(ShiftWord(ShiftWord(w)), n + 1);
    IterateOne(ShiftWord(ShiftWord(ShiftWord(w))), n);
  }

  lemma IterateOne(w: Word, n: nat)
    ensures Iterate(STEP, w, n + 1) == Iterate(STEP, ShiftWord(w), n)
  {
  }

  lemma DigitTaken(w: Word, d: Nibble, next: Word, b: Byte)
    requires FourSteps(FourSteps(WithByte(w, X3, d))) == next && b == ByteValue(X3, d)
    ensures Fed(FEED, VALUE, w, b, next)
  {
    AllMoveHere();
    IterateEight(WithByte(w, X3, d));
    WithByteValue(w, X3, d);
    FeedTakes(VALUE, STEP, w, WithByte(w, X3, d), next, b);
  }

  predicate Fed(feed: (nat, Byte) -> nat, value: Word -> nat, w: Word, b: Byte, next: Word) {
    feed(value(w), b) == value(next)
  }

  lemma Fed1To3()
    ensures Fed(FEED, VALUE, W0, 0x31, W1)
    ensures Fed(FEED, VALUE, W1, 0x32, W2)
    ensures Fed(FEED, VALUE, W2, 0x33, W3)
  {
    NibbleValues();
    Digits1To3();
    DigitTaken(W0, X1, W1, 0x31);
    DigitTaken(W1, X2, W2, 0x32);
    DigitTaken(W2, X3, W3, 0x33);
  }

  lemma Fed4To6()
    ensures Fed(FEED, VALUE, W3, 0x34, W4)
    ensures Fed(FEED, VALUE, W4, 0x35, W5)
    ensures Fed(FEED, VALUE, W5, 0x36, W6)
  {
    NibbleValues();
    Digits4To6();
    DigitTaken(W3, X4, W4, 0x34);
    DigitTaken(W4, X5, W5, 0x35);
    DigitTaken(W5, X6, W6, 0x36);
  }

  lemma Fed7To9()
    ensures Fed(FEED, VALUE, W6, 0x37, W7)
    ensures Fed(FEED, VALUE, W7, 0x38, W8)
    ensures Fed(FEED, VALUE, W8, 0x39, W9)
  {
    NibbleValues();
    Digits7To9();
    DigitTaken(W6, X7, W7, 0x37);
    DigitTaken(W7, X8, W8, 0x38);
    DigitTaken(W8, X9, W9, 0x39);
  }

  lemma {:induction false} FoldTakes(feed: (nat, Byte) -> nat, vs: seq<nat>, data: seq<Byte>)
    requires |vs| == |data| + 1 && forall k :: 0 <= k < |data| ==> feed(vs[k], data[k]) == vs[k + 1]
    ensures Fold(feed, vs[0], data) == vs[|data|]
    decreases |data|
  {
    if data != [] {
      assert vs[1..][0] == vs[1] && vs[1..][|data| - 1] == vs[|data|];
      FoldTakes(feed, vs[1..], data[1..]);
    }
  }

  const DIGITS: seq<Byte> := [0x31, 0x32, 0x33, 0x34, 0x35, 0x36, 0x37, 0x38, 0x39]

  lemma NineFed(feed: (nat, Byte) -> nat, value: Word -> nat, r: Word, s: Word, t: Word, u: Word, v: Word,
                w: Word, x: Word, y: Word, z: Word, last: Word)
    requires Fed(feed, value, r, 0x31, s) && Fed(feed, value, s, 0x32, t) && Fed(feed, value, t, 0x33, u)
    requires Fed(feed, value, u, 0x34, v) && Fed(feed, value, v, 0x35, w) && Fed(feed, value, w, 0x36, x)
    requires Fed(feed, value, x, 0x37, y) && Fed(feed, value, y, 0x38, z) && Fed(feed, value, z, 0x39, last)
    ensures Fold(feed, value(r), DIGITS) == value(last)
  {
    FoldTakes(feed, [value(r), value(s), value(t), value(u), value(v),
                     value(w), value(x), value(y), value(z), value(last)], DIGITS);
  }

  lemma DigitsFed()
    ensures Fold(FEED, VALUE(W0), DIGITS) == VALUE(W9)
  {
    Fed1To3();
    Fed4To6();
    Fed7To9();
    NineFed(FEED, VALUE, W0, W1, W2, W3, W4, W5, W6, W7, W8, W9);
  }

  lemma EndValues()
    ensures VALUE(W0) == ALL_ONES && VALUE(W9) == 0x340B_C6D9
  {
    NibbleValues();
    var x := Behind(0, XF, XF);
    x := Behind(x, XF, XF);
    assert x == 0xFFFF;
    x := Behind(x, XF, XF);
    assert x == 0xFF_FFFF;
    var y := Behind(0, X3, X4);
    y := Behind(y, X0, XB);
    assert y == 0x340B;
    y := Behind(y, XC, X6);
    assert y == 0x34_0BC6;
  }

  /** The check value that catalogues of CRCs give for CRC-32. */
  lemma CheckValueIs()
    ensures Crc(DIGITS) == 0xCBF4_3926
  {
    DigitsFed();
    EndValues();
    RegisterFits(DIGITS);
    InvertedTwice(Register(DIGITS));
  }
}
