/** The CRC-32 as section 8 of RFC 1952 and ISO 3309 define it, by division of polynomials over GF(2). */
module CrcRemainder {
  import opened Basics
  import opened Bits
  import opened Gf2
  import opened Crc32

  const WIDTH: nat := 32

  /** 1 + x + x^2 + x^4 + x^5 + x^7 + x^8 + x^10 + x^11 + x^12 + x^16 + x^22 + x^23 + x^26 + x^32. */
  const GENERATOR: Terms :=
    Plus(0, Plus(1, Plus(2, Plus(4, Plus(5, Plus(7, Plus(8, Plus(10, Plus(11, Plus(12, Plus(16, Plus(22,
      Plus(23, Plus(26, Plus(32, End)))))))))))))))

  /** The lowest `n` bits, least significant first. */
  function BitList(b: nat, n: nat): (bits: seq<nat>)
    ensures |bits| == n && forall k :: 0 <= k < n ==> bits[k] < 2
    decreases n
  {
    if n == 0 then [] else [b % 2] + BitList(b / 2, n - 1)
  }

  /** The bits of the bytes in the order in which they are taken up. */
  function Message(data: seq<Byte>): (bits: seq<nat>)
    ensures forall k :: 0 <= k < |bits| ==> bits[k] < 2
  {
    if data == [] then [] else Message(data[..|data| - 1]) + BitList(data[|data| - 1], OCTET)
  }

  /** The first bit is the leading coefficient. */
  function OfBits(bits: seq<nat>): nat {
    if bits == [] then 0 else Xor(2 * OfBits(bits[..|bits| - 1]), bits[|bits| - 1])
  }

  /** x^n times `p`. */
  function TimesX(p: nat, n: nat): nat
    decreases n
  {
    if n == 0 then p else 2 * TimesX(p, n - 1)
  }

  /** 1 + x + ... + x^(n-1). */
  function Ones(n: nat): nat { if n == 0 then 0 else 2 * Ones(n - 1) + 1 }

  /** The message times x^n, with its first `n` coefficients inverted. */
  function Dividend(bits: seq<nat>, n: nat): nat {
    Xor(TimesX(OfBits(bits), n), TimesX(Ones(n), |bits|))
  }

  /** `c` is the check value of the bits: the remainder of their dividend modulo `g`, reflected and inverted. */
  ghost predicate CheckValue(g: nat, n: nat, bits: seq<nat>, c: nat) {
    c <= Ones(n) && Remainder(Dividend(bits, n), g, n, Reflect(Ones(n) - c, n))
  }

  // ---- A register of `n` bits that holds remainders in reverse ----

  /** The generator `g` of degree `n` is what `poly` stands for in a reflected register. */
  predicate Generates(g: nat, n: nat, poly: nat) { poly < Power(n) && g == Above(1, n, Reflect(poly, n)) }

  /** A bit goes through the register. */
  function FeedBit(poly: nat, r: nat, b: nat): nat { if r % 2 != b then Xor(r / 2, poly) else r / 2 }

  function FeedBits(poly: nat, r: nat, bits: seq<nat>): nat
    decreases |bits|
  {
    if bits == [] then r else FeedBit(poly, FeedBits(poly, r, bits[..|bits| - 1]), bits[|bits| - 1])
  }

  lemma GeneratorDegree(g: nat, n: nat, poly: nat)
    requires Generates(g, n, poly)
    ensures Power(n) <= g < Power(n + 1)
  {
    ReflectFits(poly, n);
  }

  lemma ReflectDoubled(r: nat, n: nat)
    requires r < Power(n)
    ensures 2 * Reflect(r, n) == Above(r % 2, n, Reflect(r / 2, n))
  {
    if n > 0 {
      ReflectHead(r, n);
      ReflectWider(r / 2, n - 1);
    }
  }

  /** What the register holds, reflected, before the divisor is subtracted. */
  lemma ReflectedShift(r: nat, b: nat, n: nat)
    requires r < Power(n) && b < 2
    ensures Xor(2 * Reflect(r, n), Term(b, Power(n))) == Above(Sum(r % 2, b), n, Reflect(r / 2, n))
  {
    var h := Reflect(r / 2, n);
    ReflectDoubled(r, n);
    ReflectFits(r / 2, n);
    BitAdds(r % 2, b, n, h, 0);
    XorCommutes(h, 0);
  }

  lemma ReflectedSubtract(g: nat, n: nat, poly: nat, h: nat)
    requires Generates(g, n, poly)
    ensures Xor(Above(1, n, Reflect(h, n)), g) == Reflect(Xor(h, poly), n)
  {
    ReflectFits(h, n);
    ReflectFits(poly, n);
    BitAdds(1, 1, n, Reflect(h, n), Reflect(poly, n));
    ReflectAdds(h, poly, n);
  }

  lemma FeedBitFits(poly: nat, r: nat, b: nat, n: nat)
    requires r < Power(n) && poly < Power(n)
    ensures FeedBit(poly, r, b) < Power(n)
  {
    XorFits(r / 2, poly, n);
  }

  /** The register does to the reflection what division does to the remainder. */
  lemma ReflectedFeed(g: nat, n: nat, poly: nat, r: nat, b: nat)
    requires Generates(g, n, poly) && r < Power(n) && b < 2
    ensures var t := Xor(2 * Reflect(r, n), Term(b, Power(n)));
            Reflect(FeedBit(poly, r, b), n) == if t >= Power(n) then Xor(t, g) else t
  {
    ReflectedShift(r, b, n);
    ReflectFits(r / 2, n);
    if r % 2 != b { ReflectedSubtract(g, n, poly, r / 2); }
  }

  /** The register makes one step of the division. */
  lemma BitDivides(g: nat, n: nat, poly: nat, p: nat, r: nat, b: nat)
    requires Generates(g, n, poly) && r < Power(n) && b < 2 && Remainder(p, g, n, Reflect(r, n))
    ensures Remainder(Xor(2 * p, Term(b, Power(n))), g, n, Reflect(FeedBit(poly, r, b), n))
  {
    GeneratorDegree(g, n, poly);
    NextRemainder(p, g, n, Reflect(r, n), b);
    ReflectedFeed(g, n, poly, r, b);
  }

  // ---- The dividend grows with the message ----

  lemma {:induction false} TimesXAdds(a: nat, b: nat, n: nat)
    ensures TimesX(Xor(a, b), n) == Xor(TimesX(a, n), TimesX(b, n))
    decreases n
  {
    if n > 0 {
      TimesXAdds(a, b, n - 1);
      XorDouble(TimesX(a, n - 1), TimesX(b, n - 1));
    }
  }

  lemma {:induction false} TimesXDoubles(a: nat, n: nat)
    ensures TimesX(2 * a, n) == 2 * TimesX(a, n)
    decreases n
  {
    if n > 0 { TimesXDoubles(a, n - 1); }
  }

  lemma {:induction false} TimesXOne(b: nat, n: nat)
    requires b < 2
    ensures TimesX(b, n) == Term(b, Power(n))
    decreases n
  {
    if n > 0 { TimesXOne(b, n - 1); }
  }

  lemma DividendNext(bits: seq<nat>, b: nat, n: nat)
    requires b < 2
    ensures Dividend(bits + [b], n) == Xor(2 * Dividend(bits, n), Term(b, Power(n)))
  {
    var m := OfBits(bits);
    assert (bits + [b])[..|bits|] == bits;
    TimesXAdds(2 * m, b, n);
    TimesXDoubles(m, n);
    TimesXOne(b, n);
    XorDouble(TimesX(m, n), TimesX(Ones(n), |bits|));
    Rotate(2 * TimesX(m, n), Term(b, Power(n)), 2 * TimesX(Ones(n), |bits|));
  }

  lemma Rotate(x: nat, y: nat, z: nat)
    ensures Xor(Xor(x, y), z) == Xor(Xor(x, z), y)
  {
    XorAssociates(x, y, z);
    XorCommutes(y, z);
    XorAssociates(x, z, y);
  }

  lemma {:induction false} OnesFit(n: nat)
    ensures Ones(n) + 1 == Power(n)
  {
    if n > 0 { OnesFit(n - 1); }
  }

  lemma {:induction false} ReflectOnes(n: nat)
    ensures Reflect(Ones(n), n) == Ones(n)
  {
    if n > 0 {
      ReflectHead(Ones(n), n);
      ReflectOnes(n - 1);
      OnesFit(n - 1);
    }
  }

  lemma DividendOfNothing(n: nat)
    ensures Dividend([], n) == Ones(n)
  {
    TimesXOne(0, n);
  }

  lemma StartDivides(g: nat, n: nat)
    ensures Remainder(Dividend([], n), g, n, Reflect(Ones(n), n))
  {
    DividendOfNothing(n);
    ReflectOnes(n);
    OnesFit(n);
    Divides(0, Ones(n), g, n, Ones(n));
  }

  /** After any bits the register holds, reflected, the remainder of the dividend. */
  lemma {:induction false} BitsDivide(g: nat, n: nat, poly: nat, bits: seq<nat>)
    requires Generates(g, n, poly) && forall k :: 0 <= k < |bits| ==> bits[k] < 2
    ensures var r := FeedBits(poly, Ones(n), bits);
            r < Power(n) && Remainder(Dividend(bits, n), g, n, Reflect(r, n))
    decreases |bits|
  {
    if bits == [] {
      StartDivides(g, n);
      OnesFit(n);
    } else {
      var init, b := bits[..|bits| - 1], bits[|bits| - 1];
      BitsDivide(g, n, poly, init);
      var r := FeedBits(poly, Ones(n), init);
      FeedBitFits(poly, r, b, n);
      BitDivides(g, n, poly, Dividend(init, n), r, b);
      DividendNext(init, b, n);
      assert init + [b] == bits;
    }
  }

  // ---- The constant of the register is the generator, reflected ----

  function PowerSum(p: Terms): nat { if p.End? then 0 else Power(p.e) + PowerSum(p.rest) }

  predicate Descending(p: Terms) { p.Plus? && p.rest.Plus? ==> p.e > p.rest.e && Descending(p.rest) }

  lemma {:induction false} PowerGrows(m: nat, n: nat)
    requires m <= n
    ensures Power(m) <= Power(n)
  {
    if m < n { PowerGrows(m, n - 1); }
  }

  lemma {:induction false} DescendingSum(p: Terms)
    requires Descending(p)
    ensures OfTerms(p) == PowerSum(p) && (p.Plus? ==> PowerSum(p) < Power(p.e + 1))
  {
    if p.Plus? {
      DescendingSum(p.rest);
      if p.rest.Plus? { PowerGrows(p.rest.e + 1, p.e); }
      XorAbove(1, p.e, PowerSum(p.rest));
    }
  }

  /** `t` has the exponents of `p` counted from the other end, and `n`. */
  predicate Mirrors(p: Terms, t: Terms, n: nat) {
    if p.End? then t == Plus(n, End) else t.Plus? && p.e + t.e + 1 == n && Mirrors(p.rest, t.rest, n)
  }

  lemma {:induction false} ReflectZero(n: nat)
    ensures Reflect(0, n) == 0
  {
    if n > 0 { ReflectZero(n - 1); }
  }

  lemma {:induction false} ReflectPower(e: nat, n: nat)
    requires e < n
    ensures Reflect(Power(e), n) == Power(n - 1 - e)
    decreases n
  {
    ReflectHead(Power(e), n);
    if e == 0 { ReflectZero(n - 1); } else { ReflectPower(e - 1, n - 1); }
  }

  lemma {:induction false} MirrorReflects(p: Terms, t: Terms, n: nat)
    requires Mirrors(p, t, n)
    ensures OfTerms(t) == Xor(Reflect(OfTerms(p), n), Power(n))
  {
    if p.End? {
      ReflectZero(n);
    } else {
      var x, y := OfTerms(p.rest), OfTerms(t.rest);
      MirrorReflects(p.rest, t.rest, n);
      ReflectAdds(Power(p.e), x, n);
      ReflectPower(p.e, n);
      XorAssociates(Power(t.e), Reflect(x, n), Power(n));
    }
  }

  lemma MirrorGenerates(p: Terms, t: Terms, n: nat, poly: nat)
    requires Mirrors(p, t, n) && Descending(p) && PowerSum(p) == poly
    ensures Generates(OfTerms(t), n, poly)
  {
    DescendingSum(p);
    if p.Plus? { PowerGrows(p.e + 1, n); }
    MirrorReflects(p, t, n);
    ReflectFits(poly, n);
    XorCommutes(Reflect(poly, n), Power(n));
    XorAbove(1, n, Reflect(poly, n));
  }

  /** The powers that occur. */
  lemma Powers()
    ensures Power(5) == 0x20 && Power(8) == 0x100 && Power(9) == 0x200 && Power(15) == 0x8000
    ensures Power(19) == 0x8_0000 && Power(20) == 0x10_0000 && Power(21) == 0x20_0000 && Power(23) == 0x80_0000
    ensures Power(24) == 0x100_0000 && Power(26) == 0x400_0000 && Power(27) == 0x800_0000
    ensures Power(29) == 0x2000_0000 && Power(30) == 0x4000_0000 && Power(31) == 0x8000_0000
  {
    EightTimes(0);
    EightTimes(1);
    EightTimes(7);
    EightTimes(8);
    EightTimes(11);
    EightTimes(12);
    EightTimes(13);
    EightTimes(15);
    EightTimes(16);
    EightTimes(18);
    EightTimes(19);
    EightTimes(21);
    EightTimes(22);
    EightTimes(23);
  }

  /** The exponents of the constant, highest first, with those of the generator beside them. */
  lemma PolynomialTerms() returns (p: Terms, t: Terms)
    ensures Descending(p) && PowerSum(p) == POLYNOMIAL && Mirrors(p, t, WIDTH) && t == GENERATOR
  {
    Powers();
    p, t := End, Plus(32, End);
    p, t := Plus(5, p), Plus(26, t);
    assert PowerSum(p) == 0x20 && Descending(p) && Mirrors(p, t, WIDTH);
    p, t := Plus(8, p), Plus(23, t);
    assert PowerSum(p) == 0x120 && Descending(p) && Mirrors(p, t, WIDTH);
    p, t := Plus(9, p), Plus(22, t);
    assert PowerSum(p) == 0x320 && Descending(p) && Mirrors(p, t, WIDTH);
    p, t := Plus(15, p), Plus(16, t);
    assert PowerSum(p) == 0x8320 && Descending(p) && Mirrors(p, t, WIDTH);
    p, t := Plus(19, p), Plus(12, t);
    assert PowerSum(p) == 0x88320 && Descending(p) && Mirrors(p, t, WIDTH);
    p, t := Plus(20, p), Plus(11, t);
    assert PowerSum(p) == 0x188320 && Descending(p) && Mirrors(p, t, WIDTH);
    p, t := Plus(21, p), Plus(10, t);
    assert PowerSum(p) == 0x388320 && Descending(p) && Mirrors(p, t, WIDTH);
    p, t := Plus(23, p), Plus(8, t);
    assert PowerSum(p) == 0xB88320 && Descending(p) && Mirrors(p, t, WIDTH);
    p, t := Plus(24, p), Plus(7, t);
    assert PowerSum(p) == 0x1B88320 && Descending(p) && Mirrors(p, t, WIDTH);
    p, t := Plus(26, p), Plus(5, t);
    assert PowerSum(p) == 0x5B88320 && Descending(p) && Mirrors(p, t, WIDTH);
    p, t := Plus(27, p), Plus(4, t);
    assert PowerSum(p) == 0xDB88320 && Descending(p) && Mirrors(p, t, WIDTH);
    p, t := Plus(29, p), Plus(2, t);
    assert PowerSum(p) == 0x2DB88320 && Descending(p) && Mirrors(p, t, WIDTH);
    p, t := Plus(30, p), Plus(1, t);
    assert PowerSum(p) == 0x6DB88320 && Descending(p) && Mirrors(p, t, WIDTH);
    p, t := Plus(31, p), Plus(0, t);
    assert PowerSum(p) == 0xEDB88320 && Descending(p) && Mirrors(p, t, WIDTH);
  }

  lemma PolynomialGenerates()
    ensures Generates(OfTerms(GENERATOR), WIDTH, POLYNOMIAL)
  {
    var p, t := PolynomialTerms();
    MirrorGenerates(p, t, WIDTH, POLYNOMIAL);
  }

  // ---- Bytes are fed bit by bit ----

  lemma {:induction false} FeedBitsAppend(poly: nat, r: nat, a: seq<nat>, b: seq<nat>)
    ensures FeedBits(poly, r, a + b) == FeedBits(poly, FeedBits(poly, r, a), b)
    decreases |b|
  {
    if b == [] {
      assert a + b == a;
    } else {
      var init := b[..|b| - 1];
      assert (a + b)[..|a + b| - 1] == a + init;
      FeedBitsAppend(poly, r, a, init);
    }
  }

  /** The higher bits of the byte can be added later. */
  lemma ShiftLater(r: nat, b: nat)
    ensures Shift(Xor(r, b)) == Xor(FeedBit(POLYNOMIAL, r, b % 2), b / 2)
  {
    XorHalf(r, b);
    Rotate(r / 2, b / 2, POLYNOMIAL);
  }

  lemma FeedOne(poly: nat, r: nat, b: nat)
    ensures FeedBits(poly, r, [b]) == FeedBit(poly, r, b)
  {
    assert [b][..0] == [];
  }

  lemma {:induction false} ShiftsFeed(r: nat, b: nat, n: nat)
    requires b < Power(n)
    ensures Shifts(Xor(r, b), n) == FeedBits(POLYNOMIAL, r, BitList(b, n))
    decreases n
  {
    if n == 0 {
      XorCommutes(r, 0);
    } else {
      ShiftLater(r, b);
      ShiftsFeed(FeedBit(POLYNOMIAL, r, b % 2), b / 2, n - 1);
      FeedBitsAppend(POLYNOMIAL, r, [b % 2], BitList(b / 2, n - 1));
      FeedOne(POLYNOMIAL, r, b % 2);
    }
  }

  /** A byte is taken up bit by bit. */
  predicate FeedsByte(feed: (nat, Byte) -> nat, poly: nat, r: nat, b: Byte) {
    feed(r, b) == FeedBits(poly, r, BitList(b, OCTET))
  }

  ghost predicate Bitwise(feed: (nat, Byte) -> nat, poly: nat) { forall r, b: Byte :: FeedsByte(feed, poly, r, b) }

  lemma FeedIsBitwise()
    ensures Bitwise(FEED, POLYNOMIAL)
  {
    forall r, b: Byte ensures FeedsByte(FEED, POLYNOMIAL, r, b) { FeedByte(r, b); }
  }

  lemma FeedByte(r: nat, b: Byte)
    ensures Feed(r, b) == FeedBits(POLYNOMIAL, r, BitList(b, OCTET))
  {
    Power32();
    ShiftsFeed(r, b, OCTET);
  }

  lemma {:induction false} FoldFeeds(feed: (nat, Byte) -> nat, poly: nat, r: nat, data: seq<Byte>)
    requires Bitwise(feed, poly)
    ensures Fold(feed, r, data) == FeedBits(poly, r, Message(data))
    decreases |data|
  {
    if data != [] {
      var init, b := data[..|data| - 1], data[|data| - 1];
      FoldFeeds(feed, poly, r, init);
      assert init + [b] == data && [b][1..] == [];
      FoldAppend(feed, r, init, [b]);
      assert FeedsByte(feed, poly, Fold(feed, r, init), b);
      FeedBitsAppend(poly, r, Message(init), BitList(b, OCTET));
    }
  }

  lemma WidthIs()
    ensures Ones(WIDTH) == ALL_ONES
  {
    Power32();
    OnesFit(WIDTH);
  }

  /** What a register that starts with ones holds after some bytes. */
  lemma FoldDivides(feed: (nat, Byte) -> nat, g: nat, n: nat, poly: nat, data: seq<Byte>)
    requires Bitwise(feed, poly) && Generates(g, n, poly)
    ensures var r := Fold(feed, Ones(n), data);
            r < Power(n) && Remainder(Dividend(Message(data), n), g, n, Reflect(r, n))
  {
    FoldFeeds(feed, poly, Ones(n), data);
    BitsDivide(g, n, poly, Message(data));
  }

  // ---- The CRC ----

  /** Only one register holds the remainder. */
  lemma RegisterUnique(p: nat, g: nat, n: nat, poly: nat, s: nat, r: nat)
    requires Generates(g, n, poly) && s < Power(n) && r < Power(n)
    requires Remainder(p, g, n, Reflect(s, n)) && Remainder(p, g, n, Reflect(r, n))
    ensures r == s
  {
    GeneratorDegree(g, n, poly);
    RemainderUnique(p, g, n, Reflect(r, n), Reflect(s, n));
    ReflectTwice(s, n);
    ReflectTwice(r, n);
  }

  lemma OneCheckValue(bits: seq<nat>, g: nat, n: nat, poly: nat, s: nat, c: nat)
    requires Generates(g, n, poly) && s < Power(n) && Remainder(Dividend(bits, n), g, n, Reflect(s, n))
    ensures CheckValue(g, n, bits, c) <==> c + s == Ones(n)
  {
    OnesFit(n);
    if CheckValue(g, n, bits, c) {
      RegisterUnique(Dividend(bits, n), g, n, poly, s, Ones(n) - c);
    }
    if c + s == Ones(n) { assert Ones(n) - c == s; }
  }

  lemma FoldIsCheckValue(feed: (nat, Byte) -> nat, g: nat, n: nat, poly: nat, data: seq<Byte>, c: nat)
    requires Bitwise(feed, poly) && Generates(g, n, poly)
    ensures CheckValue(g, n, Message(data), c) <==> c + Fold(feed, Ones(n), data) == Ones(n)
  {
    FoldDivides(feed, g, n, poly, data);
    OneCheckValue(Message(data), g, n, poly, Fold(feed, Ones(n), data), c);
  }

  lemma CrcInverts(data: seq<Byte>)
    ensures Crc(data) + Register(data) == ALL_ONES
  {
    RegisterFits(data);
    InvertedTwice(Register(data));
  }

  lemma CrcIsCheckValue(g: nat, n: nat, poly: nat, data: seq<Byte>, c: nat)
    requires Generates(g, n, poly) && Bitwise(FEED, poly) && Ones(n) == ALL_ONES
    ensures CheckValue(g, n, Message(data), c) <==> c == Crc(data)
  {
    CrcInverts(data);
    FoldIsCheckValue(FEED, g, n, poly, data, c);
  }

  lemma TheGenerator() returns (g: nat, n: nat, poly: nat)
    ensures g == OfTerms(GENERATOR) && n == WIDTH
    ensures Generates(g, n, poly) && Bitwise(FEED, poly) && Ones(n) == ALL_ONES
  {
    g, n, poly := OfTerms(GENERATOR), WIDTH, POLYNOMIAL;
    WidthIs();
    FeedIsBitwise();
    PolynomialGenerates();
  }

  /** For every byte string, `Crc` is the check value for the generator and no other number is. */
  lemma CrcIsRemainder(data: seq<Byte>, c: nat)
    ensures CheckValue(OfTerms(GENERATOR), WIDTH, Message(data), c) <==> c == Crc(data)
  {
    var g, n, poly := TheGenerator();
    CrcIsCheckValue(g, n, poly, data, c);
  }
}
