/** Bitwise operations on natural numbers, bit by bit. */
module Bits {

  /** A one shifted left by `n`. */
  function Power(n: nat): (p: nat)
    ensures p > 0
  {
    if n == 0 then 1 else 2 * Power(n - 1)
  }

  function Xor(a: nat, b: nat): nat {
    if a == 0 then b
    else if b == 0 then a
    else (if a % 2 != b % 2 then 1 else 0) + 2 * Xor(a / 2, b / 2)
  }

  function Or(a: nat, b: nat): nat {
    if a == 0 then b
    else if b == 0 then a
    else (if a % 2 == 1 || b % 2 == 1 then 1 else 0) + 2 * Or(a / 2, b / 2)
  }

  function And(a: nat, b: nat): nat {
    if a == 0 || b == 0 then 0
    else (if a % 2 == 1 && b % 2 == 1 then 1 else 0) + 2 * And(a / 2, b / 2)
  }

  /** The number of trailing zeros. */
  function Ctz(b: nat): nat
    requires b != 0
  {
    if b % 2 == 1 then 0 else 1 + Ctz(b / 2)
  }

  /** The lowest `n` bits are clear. */
  predicate Clear(b: nat, n: nat) {
    n == 0 || (b % 2 == 0 && Clear(b / 2, n - 1))
  }

  /** `i` is the lowest bit, and `below` is what is left when it is cleared. */
  predicate Pops(bits: nat, i: nat, below: nat) {
    bits != 0 && Ctz(bits) == i && And(bits, bits - 1) == below
  }

  lemma {:induction false} OrHalves(a: nat, b: nat)
    ensures Or(a, b) / 2 == Or(a / 2, b / 2)
    ensures Or(a, b) % 2 == if a % 2 == 1 || b % 2 == 1 then 1 else 0
  {
  }

  lemma {:induction false} AndSelf(a: nat)
    ensures And(a, a) == a
  {
    if a != 0 { AndSelf(a / 2); }
  }

  lemma {:induction false} AndHalves(a: nat, b: nat)
    ensures And(a, b) == (if a % 2 == 1 && b % 2 == 1 then 1 else 0) + 2 * And(a / 2, b / 2)
  {
  }

  lemma {:induction false} PushedFirst(half: nat)
    ensures Or(2 * half, 1) == 2 * half + 1 && Pops(2 * half + 1, 0, 2 * half)
  {
    OrHalves(2 * half, 1);
    assert Or(half, 0) == half;
    AndHalves(2 * half + 1, 2 * half);
    AndSelf(half);
  }

  lemma {:induction false} PushedDouble(half: nat, i: nat, below: nat)
    requires Pops(half, i, below)
    ensures Pops(2 * half, i + 1, 2 * below)
  {
    assert (2 * half - 1) / 2 == half - 1;
    AndHalves(2 * half, 2 * half - 1);
  }

  /** Setting a bit below all others makes it the lowest one, and clearing the lowest one undoes that. */
  lemma {:induction false} PushedBit(b: nat, i: nat)
    requires Clear(b, i + 1)
    ensures Pops(Or(b, Power(i)), i, b)
  {
    if i == 0 {
      PushedFirst(b / 2);
    } else {
      PushedBit(b / 2, i - 1);
      PushedDouble(Or(b / 2, Power(i - 1)), i - 1, b / 2);
      OrHalves(b, 2 * Power(i - 1));
    }
  }

  lemma {:induction false} HigherBit(b: nat, i: nat, n: nat)
    requires Clear(b, n) && n <= i
    ensures Clear(Or(b, Power(i)), n)
  {
    if n > 0 {
      HigherBit(b / 2, i - 1, n - 1);
      OrHalves(b, 2 * Power(i - 1));
    }
  }

  lemma {:induction false} OrFits(a: nat, b: nat, n: nat)
    requires a < Power(n) && b < Power(n)
    ensures Or(a, b) < Power(n)
  {
    if a != 0 && b != 0 { OrFits(a / 2, b / 2, n - 1); }
  }

  lemma {:induction false} BitOrder(i: nat, j: nat)
    requires i < j
    ensures Power(i) < Power(j)
    decreases j
  {
    if i + 1 < j { BitOrder(i, j - 1); }
  }

  lemma {:induction false} XorFits(a: nat, b: nat, n: nat)
    requires a < Power(n) && b < Power(n)
    ensures Xor(a, b) < Power(n)
  {
    if a != 0 && b != 0 { XorFits(a / 2, b / 2, n - 1); }
  }

  lemma EightTimes(n: nat)
    ensures Power(n + 8) == 256 * Power(n)
  {
    assert Power(n + 2) == 4 * Power(n);
    assert Power(n + 4) == 16 * Power(n);
    assert Power(n + 6) == 64 * Power(n);
  }

  lemma Power32()
    ensures Power(8) == 0x100 && Power(32) == 0x1_0000_0000
  {
    EightTimes(0);
    EightTimes(8);
    EightTimes(16);
    EightTimes(24);
  }

  lemma HalfMod(r: nat, p: nat)
    requires p > 0
    ensures r % (2 * p) == r % 2 + 2 * (r / 2 % p)
  {
    var q, m := r / 2 / p, r / 2 % p;
    assert r / 2 == p * q + m;
    ModUnique(r, 2 * p, q, r % 2 + 2 * m);
  }

  lemma MultipleOrZero(b: nat, d: int)
    requires b > 0
    ensures d == 0 || b * d >= b || b * d + b <= 0
  {
    if d > 0 { assert b * d >= b * 1; } else if d < 0 { assert b * d <= b * -1; }
  }

  lemma ModUnique(a: nat, b: nat, q: nat, m: nat)
    requires b > 0 && m < b && a == b * q + m
    ensures a % b == m
  {
    var d := a / b - q;
    assert a % b == a - b * (a / b);
    assert m - a % b == b * d by { assert b * (a / b) - b * q == b * d; }
    MultipleOrZero(b, d);
  }

  /** Adding the low bits of a number to it, bit by bit, clears them. */
  lemma {:induction false} XorClears(r: nat, n: nat)
    ensures Xor(r, r % Power(n)) == r - r % Power(n)
  {
    if n > 0 {
      HalfMod(r, Power(n - 1));
      var low := r % Power(n);
      assert low / 2 == r / 2 % Power(n - 1) && low % 2 == r % 2;
      XorClears(r / 2, n - 1);
      XorHalves(r, low);
    }
  }

  lemma XorHalves(a: nat, b: nat)
    ensures Xor(a, b) == (if a % 2 != b % 2 then 1 else 0) + 2 * Xor(a / 2, b / 2)
  {
  }

  /** Exclusive or with ones inverts the bits. */
  lemma {:induction false} XorOnes(c: nat, n: nat)
    requires c < Power(n)
    ensures Xor(c, Power(n) - 1) == Power(n) - 1 - c
  {
    if n > 0 {
      XorOnes(c / 2, n - 1);
      assert (Power(n) - 1) / 2 == Power(n - 1) - 1;
      XorHalves(c, Power(n) - 1);
    }
  }
}
