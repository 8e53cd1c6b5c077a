/** What the two checksums are as polynomials, and which changes they miss. */
module CrcPolynomial {
  import opened BitStream
  import opened Gf2
  import opened ShiftRegister
  import opened ByteRegister
  import opened RegisterPolynomial
  import Crc16
  import Crc16Laws
  import Crc32
  import Crc32Laws

  /** CRC-32 is polynomial division. Take the message with its first bit at the
      highest power, times x^32, and add ones at its leading 32 coefficients: the
      one and only remainder modulo the generator is the complemented checksum,
      bit-reflected. */
  lemma Crc32IsRemainder(m: Bytes, r: Poly)
    ensures IsRemainder(ChecksumDividend(Ethernet, m), Generator(Ethernet), 32, r)
       <==> r == RegisterPoly(Ethernet, Xor(Crc32.Checksum(m), Crc32.ONES))
  {
    XorTwice(Feed(Ethernet, Crc32.ONES, m), Crc32.ONES);
    FeedIsRemainder(Ethernet, m, r);
  }

  /** So is CRC-16, of the message without its first byte: the remainder is the
      result with its bytes swapped back, bit-reflected. */
  lemma Crc16IsRemainder(m: Bytes, r: Poly)
    ensures IsRemainder(ChecksumDividend(Modbus, Crc16.Mid1(m)), Generator(Modbus), 16, r)
       <==> r == RegisterPoly(Modbus, Crc16.SwapBytes(Crc16.Checksum(m)))
  {
    Crc16Laws.SwappedFeed(m);
    FeedIsRemainder(Modbus, Crc16.Mid1(m), r);
  }

  /** CRC-32 misses exactly the changes that are multiples of its generator. */
  lemma Crc32Misses(a: Bytes, b: Bytes)
    requires |a| == |b|
    ensures Crc32.Checksum(a) == Crc32.Checksum(b)
       <==> Divides(Generator(Ethernet), MessagePoly(MessageBits(XorBytes(a, b))))
  {
    Crc32Laws.SameChecksum(a, b);
    VanishesIfDivides(Ethernet, XorBytes(a, b));
  }

  /** CRC-16 misses exactly the changes that are multiples of its generator, and any
      change of the first byte. */
  lemma Crc16Misses(a: Bytes, b: Bytes)
    requires |a| == |b|
    ensures Crc16.Checksum(a) == Crc16.Checksum(b)
       <==> Divides(Generator(Modbus), MessagePoly(MessageBits(XorBytes(Crc16.Mid1(a), Crc16.Mid1(b)))))
  {
    Crc16Laws.SameChecksum(a, b);
    VanishesIfDivides(Modbus, XorBytes(Crc16.Mid1(a), Crc16.Mid1(b)));
  }
}
