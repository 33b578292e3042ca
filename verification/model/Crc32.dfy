/** The CRC-32 of RFC 1952, section 8, bit by bit, and the suffix that cancels it. */
module Crc32 {
  import opened Basics
  import opened Bits

  const POLYNOMIAL: nat := 0xEDB88320
  const ALL_ONES: nat := 0xFFFF_FFFF
  const OCTET: nat := 8

  /** One bit goes through the register. */
  function Shift(r: nat): nat { if r % 2 == 1 then Xor(r / 2, POLYNOMIAL) else r / 2 }

  function Shifts(r: nat, n: nat): nat
    decreases n
  {
    if n == 0 then r else Shifts(Shift(r), n - 1)
  }

  function Feed(r: nat, b: Byte): nat { Shifts(Xor(r, b), OCTET) }

  /** Bytes go through a register one after the other. */
  function Fold(feed: (nat, Byte) -> nat, r: nat, data: seq<Byte>): nat
    decreases |data|
  {
    if data == [] then r else Fold(feed, feed(r, data[0]), data[1..])
  }

  const FEED: (nat, Byte) -> nat := (r: nat, b: Byte) => Feed(r, b)

  /** The register after some bytes. */
  function Register(data: seq<Byte>): nat { Fold(FEED, ALL_ONES, data) }

  /** The register with all bits inverted. */
  function Crc(data: seq<Byte>): nat { Inverted(Register(data)) }

  function Inverted(r: nat): nat { Xor(r, ALL_ONES) }

  /** The `n` lowest bytes, least significant first. */
  function LittleEndian(r: nat, n: nat): (bytes: seq<Byte>)
    ensures |bytes| == n
    decreases n
  {
    if n == 0 then [] else [r % 256] + LittleEndian(r / 256, n - 1)
  }

  // ---- The register has 32 bits ----

  lemma {:induction false} ShiftsFit(r: nat, n: nat)
    requires r < Power(32)
    ensures Shifts(r, n) < Power(32)
    decreases n
  {
    if n > 0 {
      Power32();
      XorFits(r / 2, POLYNOMIAL, 32);
      ShiftsFit(Shift(r), n - 1);
    }
  }

  lemma FeedFits(r: nat, b: Byte)
    requires r < Power(32)
    ensures FEED(r, b) < Power(32)
  {
    Power32();
    XorFits(r, b, 32);
    ShiftsFit(Xor(r, b), OCTET);
  }

  lemma {:induction false} FoldFits(r: nat, data: seq<Byte>)
    requires r < Power(32)
    ensures Fold(FEED, r, data) < Power(32)
    decreases |data|
  {
    if data != [] {
      FeedFits(r, data[0]);
      FoldFits(FEED(r, data[0]), data[1..]);
    }
  }

  // ---- The cancelling suffix ----

  /** Zeros at the low end are shifted out and leave no trace. */
  lemma {:induction false} ZerosShiftOut(q: nat, n: nat)
    ensures Shifts(Power(n) * q, n) == q
  {
    if n > 0 {
      assert Power(n) * q == 2 * (Power(n - 1) * q);
      ZerosShiftOut(q, n - 1);
    }
  }

  /** A byte equal to the low end of the register just moves the register on. */
  lemma FeedLow(r: nat)
    ensures Feed(r, r % 256) == r / 256
  {
    Power32();
    XorClears(r, OCTET);
    ZerosShiftOut(r / 256, OCTET);
  }

  lemma {:induction false} FoldAppend(feed: (nat, Byte) -> nat, r: nat, a: seq<Byte>, b: seq<Byte>)
    ensures Fold(feed, r, a + b) == Fold(feed, Fold(feed, r, a), b)
    decreases |a|
  {
    if a == [] {
      assert a + b == b;
    } else {
      FoldAppend(feed, feed(r, a[0]), a[1..], b);
      assert (a + b)[1..] == a[1..] + b;
    }
  }

  /** A register that is moved on by a byte equal to its low end. */
  ghost predicate MovesOn(feed: (nat, Byte) -> nat) {
    forall r: nat :: feed(r, r % 256) == r / 256
  }

  /** Feeding it its own bytes empties it. */
  lemma {:induction false} FeedsOut(feed: (nat, Byte) -> nat, r: nat, n: nat)
    requires MovesOn(feed) && r < Power(8 * n)
    ensures Fold(feed, r, LittleEndian(r, n)) == 0
    decreases n
  {
    if n > 0 {
      EightTimes(8 * n - 8);
      FeedsOut(feed, r / 256, n - 1);
      assert LittleEndian(r, n)[1..] == LittleEndian(r / 256, n - 1);
    }
  }

  /** Inverting twice gives the register back. */
  lemma InvertedTwice(r: nat)
    requires r < Power(32)
    ensures Inverted(r) == ALL_ONES - r && Inverted(Inverted(r)) == r
  {
    Power32();
    XorOnes(r, 32);
    XorOnes(ALL_ONES - r, 32);
  }

  lemma {:induction false} RegisterFits(data: seq<Byte>)
    ensures Register(data) < Power(32)
  {
    Power32();
    FoldFits(ALL_ONES, data);
  }

  lemma {:induction false} RegisterCancels(data: seq<Byte>)
    ensures Register(data + LittleEndian(Register(data), 4)) == 0
  {
    forall r: nat ensures FEED(r, r % 256) == r / 256 { FeedLow(r); }
    FoldAppend(FEED, ALL_ONES, data, LittleEndian(Register(data), 4));
    RegisterFits(data);
    FeedsOut(FEED, Register(data), 4);
  }

  /** Data followed by its own inverted CRC, least significant byte first, has a CRC of all ones. */
  lemma {:induction false} SuffixCancels(data: seq<Byte>)
    ensures Crc(data + LittleEndian(Inverted(Crc(data)), 4)) == ALL_ONES
  {
    RegisterFits(data);
    InvertedTwice(Register(data));
    RegisterCancels(data);
  }
}
