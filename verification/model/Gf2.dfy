/** Polynomials over GF(2). Bit `k` of a number is the coefficient of x^k, so that x times `p` is `2 * p` and addition is
    `Xor`. */
module Gf2 {
  import opened Bits

  /** A coefficient times `p`. */
  function Term(bit: nat, p: nat): nat { if bit == 1 then p else 0 }

  function Product(a: nat, b: nat): nat {
    if a == 0 then 0 else Xor(Term(a % 2, b), 2 * Product(a / 2, b))
  }

  /** A polynomial by its exponents. */
  datatype Terms = End | Plus(e: nat, rest: Terms)

  function OfTerms(p: Terms): nat { if p.End? then 0 else Xor(Power(p.e), OfTerms(p.rest)) }

  /** `r` is what is left of `p` modulo the polynomial `g` of degree `n`. */
  ghost predicate Remainder(p: nat, g: nat, n: nat, r: nat) {
    r < Power(n) && exists q: nat :: Divided(p, g, q, r)
  }

  predicate Divided(p: nat, g: nat, q: nat, r: nat) { Xor(Product(q, g), r) == p }

  /** A coefficient for x^n in front of lower ones. */
  function Above(bit: nat, n: nat, x: nat): nat { Term(bit, Power(n)) + x }

  /** The `n` lowest bits in reverse. */
  function Reflect(x: nat, n: nat): nat
    decreases n
  {
    if n == 0 then 0 else Above(x % 2, n - 1, Reflect(x / 2, n - 1))
  }

  // ---- Addition ----

  lemma {:induction false} XorCommutes(a: nat, b: nat)
    ensures Xor(a, b) == Xor(b, a)
  {
    if a != 0 && b != 0 { XorCommutes(a / 2, b / 2); }
  }

  /** The sum of two coefficients. */
  function Sum(i: nat, j: nat): nat { if i != j then 1 else 0 }

  lemma XorHalf(a: nat, b: nat)
    ensures Xor(a, b) / 2 == Xor(a / 2, b / 2) && Xor(a, b) % 2 == Sum(a % 2, b % 2)
  {
    XorHalves(a, b);
    Halved(Sum(a % 2, b % 2), Xor(a / 2, b / 2));
  }

  lemma Halved(bit: nat, half: nat)
    requires bit < 2
    ensures (bit + 2 * half) / 2 == half && (bit + 2 * half) % 2 == bit
  {
  }

  lemma SameHalves(x: nat, y: nat)
    requires x / 2 == y / 2 && x % 2 == y % 2
    ensures x == y
  {
  }

  lemma {:induction false} XorAssociates(a: nat, b: nat, c: nat)
    ensures Xor(Xor(a, b), c) == Xor(a, Xor(b, c))
  {
    if a != 0 && b != 0 && c != 0 {
      XorAssociates(a / 2, b / 2, c / 2);
      var ab, bc := Xor(a, b), Xor(b, c);
      XorHalf(a, b);
      XorHalf(b, c);
      XorHalf(ab, c);
      XorHalf(a, bc);
      SameHalves(Xor(ab, c), Xor(a, bc));
    }
  }

  lemma {:induction false} XorSelf(a: nat)
    ensures Xor(a, a) == 0
  {
    if a != 0 { XorSelf(a / 2); }
  }

  /** Twice the same cancels. */
  lemma XorTwice(a: nat, b: nat)
    ensures Xor(Xor(a, b), b) == a
  {
    XorAssociates(a, b, b);
    XorSelf(b);
  }

  lemma XorDouble(a: nat, b: nat)
    ensures Xor(2 * a, 2 * b) == 2 * Xor(a, b)
  {
    XorHalves(2 * a, 2 * b);
  }

  /** Four terms in another order. */
  lemma XorSwaps(a: nat, b: nat, c: nat, d: nat)
    ensures Xor(Xor(a, b), Xor(c, d)) == Xor(Xor(a, c), Xor(b, d))
  {
    XorAssociates(a, b, Xor(c, d));
    XorAssociates(b, c, d);
    XorCommutes(b, c);
    XorAssociates(c, b, d);
    XorAssociates(a, c, Xor(b, d));
  }

  /** A bit above a number is added to it. */
  lemma {:induction false} XorAbove(b: nat, n: nat, x: nat)
    requires b < 2 && x < Power(n)
    ensures Xor(Term(b, Power(n)), x) == Above(b, n, x)
  {
    if n > 0 && b == 1 {
      XorAbove(b, n - 1, x / 2);
      XorHalves(Power(n), x);
    }
  }

  // ---- Products and remainders ----

  lemma TermAdds(i: nat, j: nat, p: nat)
    requires i < 2 && j < 2
    ensures Term(Sum(i, j), p) == Xor(Term(i, p), Term(j, p))
  {
    XorSelf(p);
  }

  lemma TwoSums(x: nat, u: nat, y: nat, v: nat)
    ensures Xor(Xor(x, 2 * u), Xor(y, 2 * v)) == Xor(Xor(x, y), 2 * Xor(u, v))
  {
    XorSwaps(x, 2 * u, y, 2 * v);
    XorDouble(u, v);
  }

  lemma {:induction false} ProductAdds(a: nat, b: nat, g: nat)
    ensures Product(Xor(a, b), g) == Xor(Product(a, g), Product(b, g))
  {
    if a != 0 && b != 0 {
      var c := Xor(a, b);
      XorHalf(a, b);
      ProductAdds(a / 2, b / 2, g);
      ProductHead(a, g);
      ProductHead(b, g);
      ProductHead(c, g);
      TermAdds(a % 2, b % 2, g);
      TwoSums(Term(a % 2, g), Product(a / 2, g), Term(b % 2, g), Product(b / 2, g));
    }
  }

  lemma ProductHead(a: nat, g: nat)
    ensures Product(a, g) == Xor(Term(a % 2, g), 2 * Product(a / 2, g))
  {
  }

  /** The degree of a product is the sum of the degrees. */
  lemma {:induction false} ProductLarge(q: nat, g: nat, n: nat)
    requires q > 0 && Power(n) <= g < Power(n + 1)
    ensures Product(q, g) >= Power(n)
  {
    if q == 1 {
      assert Product(0, g) == 0;
    } else {
      ProductLarge(q / 2, g, n);
      XorLarge(Term(q % 2, g), 2 * Product(q / 2, g), n + 1);
    }
  }

  lemma {:induction false} XorLarge(a: nat, b: nat, n: nat)
    requires a < Power(n) <= b
    ensures Xor(a, b) >= Power(n)
  {
    if n > 0 && a != 0 { XorLarge(a / 2, b / 2, n - 1); }
  }

  /** There is only one remainder. */
  lemma RemainderUnique(p: nat, g: nat, n: nat, r: nat, s: nat)
    requires Power(n) <= g < Power(n + 1) && Remainder(p, g, n, r) && Remainder(p, g, n, s)
    ensures r == s
  {
    var a: nat :| Divided(p, g, a, r);
    var b: nat :| Divided(p, g, b, s);
    ProductAdds(a, b, g);
    XorSwaps(Product(a, g), r, Product(b, g), s);
    XorSelf(p);
    var q, d := Xor(a, b), Xor(r, s);
    assert Xor(Product(q, g), d) == 0;
    XorTwice(Product(q, g), d);
    assert Product(q, g) == d;
    XorFits(r, s, n);
    if q > 0 { ProductLarge(q, g, n); }
    XorTwice(r, s);
  }

  /** The quotient is doubled along with the dividend. */
  lemma DoubledQuotient(q: nat, g: nat, r: nat, d: nat)
    ensures Xor(Product(2 * q, g), Xor(2 * r, d)) == Xor(2 * Xor(Product(q, g), r), d)
  {
    ProductDouble(q, g);
    XorDouble(Product(q, g), r);
    XorAssociates(2 * Product(q, g), 2 * r, d);
  }

  lemma ProductDouble(q: nat, g: nat)
    ensures Product(2 * q, g) == 2 * Product(q, g)
  {
    ProductHead(2 * q, g);
  }

  lemma ProductOdd(q: nat, g: nat)
    ensures Product(2 * q + 1, g) == Xor(2 * Product(q, g), g)
  {
    ProductHead(2 * q + 1, g);
    XorCommutes(g, 2 * Product(q, g));
  }

  /** Subtracting the divisor adds one to the quotient. */
  lemma OddQuotient(q: nat, g: nat, t: nat)
    ensures Xor(Product(2 * q + 1, g), Xor(t, g)) == Xor(Product(2 * q, g), t)
  {
    ProductDouble(q, g);
    ProductOdd(q, g);
    XorSwaps(2 * Product(q, g), g, t, g);
    XorSelf(g);
  }

  /** One more coefficient `b` of a dividend, at degree `n`. */
  lemma NextRemainder(p: nat, g: nat, n: nat, r: nat, b: nat)
    requires Power(n) <= g < Power(n + 1) && Remainder(p, g, n, r) && b < 2
    ensures var t := Xor(2 * r, Term(b, Power(n)));
            Remainder(Xor(2 * p, Term(b, Power(n))), g, n, if t >= Power(n) then Xor(t, g) else t)
  {
    var q: nat :| Divided(p, g, q, r);
    var d := Term(b, Power(n));
    var t := Xor(2 * r, d);
    XorFits(2 * r, d, n + 1);
    DoubledQuotient(q, g, r, d);
    if t >= Power(n) {
      XorTops(t, g, n);
      OddQuotient(q, g, t);
      Divides(2 * q + 1, Xor(2 * p, d), g, n, Xor(t, g));
    } else {
      Divides(2 * q, Xor(2 * p, d), g, n, t);
    }
  }

  lemma Divides(q: nat, p: nat, g: nat, n: nat, r: nat)
    requires r < Power(n) && Xor(Product(q, g), r) == p
    ensures Remainder(p, g, n, r)
  {
    assert Divided(p, g, q, r);
  }

  /** Equal leading coefficients cancel. */
  lemma {:induction false} XorTops(a: nat, b: nat, n: nat)
    requires Power(n) <= a < Power(n + 1) && Power(n) <= b < Power(n + 1)
    ensures Xor(a, b) < Power(n)
  {
    if n > 0 { XorTops(a / 2, b / 2, n - 1); }
  }

  // ---- Reflection ----

  lemma {:induction false} ReflectFits(x: nat, n: nat)
    ensures Reflect(x, n) < Power(n)
  {
    if n > 0 { ReflectFits(x / 2, n - 1); }
  }

  /** One bit above the others. */
  lemma BitAdds(i: nat, j: nat, n: nat, x: nat, y: nat)
    requires i < 2 && j < 2 && x < Power(n) && y < Power(n)
    ensures Xor(Above(i, n, x), Above(j, n, y)) == Above(Sum(i, j), n, Xor(x, y))
  {
    XorFits(x, y, n);
    XorAbove(i, n, x);
    XorAbove(j, n, y);
    XorAbove(Sum(i, j), n, Xor(x, y));
    SumOfTerms(i, j, Power(n), x, y);
  }

  lemma SumOfTerms(i: nat, j: nat, p: nat, x: nat, y: nat)
    requires i < 2 && j < 2
    ensures Xor(Xor(Term(i, p), x), Xor(Term(j, p), y)) == Xor(Term(Sum(i, j), p), Xor(x, y))
  {
    XorSwaps(Term(i, p), x, Term(j, p), y);
    TermAdds(i, j, p);
  }

  lemma ReflectHead(x: nat, n: nat)
    requires n > 0
    ensures Reflect(x, n) == Above(x % 2, n - 1, Reflect(x / 2, n - 1))
  {
  }

  lemma ReflectedSum(a: nat, b: nat, c: nat, n: nat)
    requires n > 0 && c % 2 == Sum(a % 2, b % 2)
    requires Reflect(c / 2, n - 1) == Xor(Reflect(a / 2, n - 1), Reflect(b / 2, n - 1))
    ensures Reflect(c, n) == Xor(Reflect(a, n), Reflect(b, n))
  {
    var x, y := Reflect(a / 2, n - 1), Reflect(b / 2, n - 1);
    ReflectFits(a / 2, n - 1);
    ReflectFits(b / 2, n - 1);
    BitAdds(a % 2, b % 2, n - 1, x, y);
    ReflectHead(a, n);
    ReflectHead(b, n);
    ReflectHead(c, n);
  }

  lemma {:induction false} ReflectAdds(a: nat, b: nat, n: nat)
    ensures Reflect(Xor(a, b), n) == Xor(Reflect(a, n), Reflect(b, n))
    decreases n
  {
    if n > 0 {
      XorHalf(a, b);
      ReflectAdds(a / 2, b / 2, n - 1);
      ReflectedSum(a, b, Xor(a, b), n);
    }
  }

  /** A bit that is not used shifts the reflection up. */
  lemma {:induction false} ReflectWider(x: nat, n: nat)
    requires x < Power(n)
    ensures Reflect(x, n + 1) == 2 * Reflect(x, n)
  {
    if n > 0 { ReflectWider(x / 2, n - 1); }
  }

  /** Reflecting twice gives the number back. */
  lemma {:induction false} ReflectTwice(x: nat, n: nat)
    requires x < Power(n)
    ensures Reflect(Reflect(x, n), n) == x
  {
    if n > 0 {
      ReflectTwice(x / 2, n - 1);
      ReflectFits(x / 2, n - 1);
      ReflectTop(x % 2, Reflect(x / 2, n - 1), n - 1);
    }
  }

  /** The top bit becomes the lowest one. */
  lemma {:induction false} ReflectTop(b: nat, x: nat, n: nat)
    requires b < 2 && x < Power(n)
    ensures Reflect(Above(b, n, x), n + 1) == 2 * Reflect(x, n) + b
    decreases n
  {
    ReflectHead(Above(b, n, x), n + 1);
    if n > 0 {
      ReflectTop(b, x / 2, n - 1);
      ReflectHead(x, n);
      TopHalved(b, x, n);
    }
  }

  lemma TopHalved(b: nat, x: nat, n: nat)
    requires n > 0
    ensures Above(b, n, x) / 2 == Above(b, n - 1, x / 2) && Above(b, n, x) % 2 == x % 2
  {
  }
}
