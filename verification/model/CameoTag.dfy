/** The uImage header that satisfies its own CRC and the CAMEO checksum at once. */
module CameoTag {
  import opened Basics
  import opened Bits
  import opened Crc32

  const CRC_OFF: nat := 4
  const NAME_OFF: nat := 32
  const SUM_OFF: nat := 56
  const INV_OFF: nat := 60
  const HEADER_SIZE: nat := 64

  const CAMEO_TAG: seq<Byte> := [0x43, 0x41, 0x4d, 0x45, 0x4f, 0x54, 0x41, 0x47, 0x00, 0x00, 0x00, 0x01]
  const IMAGE_NAME: seq<Byte> := [0x4f, 0x70, 0x65, 0x6e, 0x57, 0x72, 0x74, 0x00, 0x00, 0x00, 0x00, 0x00]
  const CRC_00: seq<Byte> := [0, 0, 0, 0]
  const CRC_FF: seq<Byte> := [0xff, 0xff, 0xff, 0xff]

  function Sum(data: seq<Byte>): nat {
    if data == [] then 0 else Sum(data[..|data| - 1]) + data[|data| - 1]
  }

  lemma {:induction false} SumAdds(a: seq<Byte>, b: seq<Byte>)
    ensures Sum(a + b) == Sum(a) + Sum(b)
    ensures |b| == 1 ==> Sum(b) == b[0]
    decreases |b|
  {
    if b == [] {
      assert a + b == a;
    } else {
      var init := b[..|b| - 1];
      assert (a + b)[..|a + b| - 1] == a + init;
      SumAdds(a, init);
    }
  }

  /** The `n` lowest bytes, most significant first. */
  function BigEndian(x: nat, n: nat): (bytes: seq<Byte>)
    ensures |bytes| == n
    decreases n
  {
    if n == 0 then [] else BigEndian(x / 256, n - 1) + [x % 256]
  }

  /** The number that the bytes stand for, most significant first. */
  function FromBigEndian(bytes: seq<Byte>): nat {
    if bytes == [] then 0 else 256 * FromBigEndian(bytes[..|bytes| - 1]) + bytes[|bytes| - 1]
  }

  function CameoSum(data: seq<Byte>): (bytes: seq<Byte>)
    ensures |bytes| == 4
  {
    BigEndian(Sum(data) % 0x1_0000_0000, 4)
  }

  function InvertCrc(data: seq<Byte>): (bytes: seq<Byte>)
    ensures |bytes| == 4
  {
    LittleEndian(Inverted(Crc(data)), 4)
  }

  function Patch(buf: seq<Byte>, at: nat, data: seq<Byte>): (r: seq<Byte>)
    requires at + |data| <= |buf|
    ensures |r| == |buf|
    ensures forall k :: 0 <= k < |r| ==> r[k] == if at <= k < at + |data| then data[k - at] else buf[k]
  {
    buf[..at] + data + buf[at + |data|..]
  }

  // ---- The header as the loaders check it ----

  /** The header CRC covers the header with the CRC field zeroed. */
  predicate HeaderCrcMatches(h: seq<Byte>)
    requires |h| == HEADER_SIZE
  {
    FromBigEndian(h[CRC_OFF..CRC_OFF + 4]) == Crc(Patch(h, CRC_OFF, CRC_00))
  }

  /** The CAMEO checksum, right behind its tag, is the sum of all bytes before it. */
  predicate CameoSumMatches(h: seq<Byte>)
    requires |h| == HEADER_SIZE
  {
    && h[SUM_OFF - |CAMEO_TAG|..SUM_OFF] == CAMEO_TAG
    && FromBigEndian(h[SUM_OFF..SUM_OFF + 4]) == Sum(h[..SUM_OFF])
  }

  // ---- Big-endian numbers ----

  lemma {:induction false} BigEndianBack(x: nat, n: nat)
    requires x < Power(8 * n)
    ensures FromBigEndian(BigEndian(x, n)) == x
    decreases n
  {
    if n > 0 {
      EightTimes(8 * n - 8);
      BigEndianBack(x / 256, n - 1);
      assert BigEndian(x, n)[..n - 1] == BigEndian(x / 256, n - 1);
    }
  }

  lemma {:induction false} SumBound(data: seq<Byte>)
    ensures Sum(data) <= 255 * |data|
  {
    if data != [] { SumBound(data[..|data| - 1]); }
  }

  lemma {:induction false} WordBack(x: nat, y: nat)
    requires y == x < Power(32)
    ensures FromBigEndian(BigEndian(y, 4)) == x
  {
    BigEndianBack(x, 4);
  }

  lemma {:induction false} SumFits(data: seq<Byte>)
    requires |data| < 0x100_0000
    ensures Sum(data) % 0x1_0000_0000 == Sum(data) < Power(32)
  {
    SumBound(data);
    Power32();
  }

  lemma {:induction false} CameoSumBack(data: seq<Byte>)
    requires |data| < 0x100_0000
    ensures FromBigEndian(CameoSum(data)) == Sum(data)
  {
    SumFits(data);
    WordBack(Sum(data), Sum(data) % 0x1_0000_0000);
  }

  // ---- The header that is written ----

  /** The header up to the checksum, with the CRC field as it will be stored. */
  function Named(buf: seq<Byte>): (r: seq<Byte>)
    requires |buf| == HEADER_SIZE
    ensures |r| == HEADER_SIZE
  {
    Patch(Patch(buf, NAME_OFF, IMAGE_NAME + CAMEO_TAG), CRC_OFF, CRC_FF)
  }

  function Summed(buf: seq<Byte>): (r: seq<Byte>)
    requires |buf| == HEADER_SIZE
    ensures |r| == HEADER_SIZE
  {
    Patch(Named(buf), SUM_OFF, CameoSum(Named(buf)[..SUM_OFF]))
  }

  function Tagged(buf: seq<Byte>): (r: seq<Byte>)
    requires |buf| == HEADER_SIZE
    ensures |r| == HEADER_SIZE
  {
    var zeroed := Patch(Summed(buf), CRC_OFF, CRC_00);
    Patch(Patch(zeroed, INV_OFF, InvertCrc(zeroed[..INV_OFF])), CRC_OFF, CRC_FF)
  }

  /** Where the parts of the header end up, whatever the two checksums are. */
  lemma Layout(named: seq<Byte>, sum: seq<Byte>, inv: seq<Byte>)
    requires |named| == HEADER_SIZE && |sum| == |inv| == 4 && named[CRC_OFF..CRC_OFF + 4] == CRC_FF
    ensures var zeroed := Patch(Patch(named, SUM_OFF, sum), CRC_OFF, CRC_00);
            var h := Patch(Patch(zeroed, INV_OFF, inv), CRC_OFF, CRC_FF);
            && h[..SUM_OFF] == named[..SUM_OFF] && h[SUM_OFF..SUM_OFF + 4] == sum
            && Patch(h, CRC_OFF, CRC_00) == zeroed[..INV_OFF] + inv
  {
    assert forall k :: CRC_OFF <= k < CRC_OFF + 4 ==> named[k] == named[CRC_OFF..CRC_OFF + 4][k - CRC_OFF];
  }

  lemma {:induction false} CrcMatches(h: seq<Byte>, data: seq<Byte>)
    requires |h| == HEADER_SIZE && h[CRC_OFF..CRC_OFF + 4] == CRC_FF
    requires Patch(h, CRC_OFF, CRC_00) == data + InvertCrc(data)
    ensures HeaderCrcMatches(h)
  {
    SuffixCancels(data);
    AllOnes();
  }

  /** Both checks hold of the header; of the rest, only the name has changed. */
  lemma {:induction false} TaggedChecks(buf: seq<Byte>)
    requires |buf| == HEADER_SIZE
    ensures var h := Tagged(buf);
            && HeaderCrcMatches(h) && CameoSumMatches(h)
            && h[..CRC_OFF] == buf[..CRC_OFF] && h[CRC_OFF + 4..NAME_OFF] == buf[CRC_OFF + 4..NAME_OFF]
            && h[NAME_OFF..SUM_OFF] == IMAGE_NAME + CAMEO_TAG
  {
    var named, h := Named(buf), Tagged(buf);
    NamedLayout(buf);
    var sum := CameoSum(named[..SUM_OFF]);
    var zeroed := Patch(Patch(named, SUM_OFF, sum), CRC_OFF, CRC_00);
    Layout(named, sum, InvertCrc(zeroed[..INV_OFF]));
    CrcMatches(h, zeroed[..INV_OFF]);
    CameoSumBack(named[..SUM_OFF]);
    FromPrefix(h, named);
  }

  lemma FromPrefix(h: seq<Byte>, named: seq<Byte>)
    requires |h| == |named| == HEADER_SIZE && h[..SUM_OFF] == named[..SUM_OFF]
    ensures forall i, j :: 0 <= i <= j <= SUM_OFF ==> h[i..j] == named[i..j]
  {
    forall k | 0 <= k < SUM_OFF ensures h[k] == named[k] {
      assert h[k] == h[..SUM_OFF][k] && named[k] == named[..SUM_OFF][k];
    }
  }

  lemma AllOnes()
    ensures FromBigEndian(CRC_FF) == ALL_ONES
  {
    var three, two, one := [0xff, 0xff, 0xff], [0xff, 0xff], [0xff];
    assert one[..0] == [] && FromBigEndian(one) == 0xff;
    assert two[..1] == one && FromBigEndian(two) == 0xffff;
    assert three[..2] == two && FromBigEndian(three) == 0xff_ffff;
    assert CRC_FF[..3] == three;
  }

  lemma {:induction false} NamedLayout(buf: seq<Byte>)
    requires |buf| == HEADER_SIZE
    ensures var h := Named(buf);
            && h[..CRC_OFF] == buf[..CRC_OFF] && h[CRC_OFF + 4..NAME_OFF] == buf[CRC_OFF + 4..NAME_OFF]
            && h[CRC_OFF..CRC_OFF + 4] == CRC_FF
            && h[NAME_OFF..SUM_OFF] == IMAGE_NAME + CAMEO_TAG && h[SUM_OFF - |CAMEO_TAG|..SUM_OFF] == CAMEO_TAG
  {
  }

  // ---- The buffer as the script changes it ----

  /** Assignment to a slice of the buffer. */
  method Put(buf: array<Byte>, at: nat, data: seq<Byte>)
    requires at + |data| <= buf.Length
    modifies buf
    ensures buf[..] == Patch(old(buf[..]), at, data)
  {
    var i := 0;
    while i < |data|
      invariant 0 <= i <= |data|
      invariant forall k :: 0 <= k < i ==> buf[at + k] == data[k]
      invariant forall k :: 0 <= k < buf.Length && !(at <= k < at + i) ==> buf[k] == old(buf[k])
    {
      buf[at + i] := data[i];
      i := i + 1;
    }
    assert forall k :: at <= k < at + |data| ==> buf[k] == data[k - at] by {
      forall k | at <= k < at + |data| ensures buf[k] == data[k - at] { assert buf[at + (k - at)] == data[k - at]; }
    }
  }

  /** `checksum_header`. */
  method ChecksumHeader(buf: array<Byte>)
    requires buf.Length == HEADER_SIZE
    modifies buf
    ensures buf[..] == Tagged(old(buf[..]))
    ensures HeaderCrcMatches(buf[..]) && CameoSumMatches(buf[..])
  {
    TaggedChecks(buf[..]);
    Put(buf, NAME_OFF, IMAGE_NAME + CAMEO_TAG);
    Put(buf, CRC_OFF, CRC_FF);
    Put(buf, SUM_OFF, CameoSum(buf[..SUM_OFF]));
    Put(buf, CRC_OFF, CRC_00);
    Put(buf, INV_OFF, InvertCrc(buf[..INV_OFF]));
    Put(buf, CRC_OFF, CRC_FF);
  }
}
