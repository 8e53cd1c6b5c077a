/** What CRC-32 guarantees about messages: how checksums combine, which changes
    they always detect, and how the register can be steered and rolled back. */
module Crc32Laws {
  import opened CrcTables
  import opened BitStream
  import opened ShiftRegister
  import opened ByteRegister
  import opened Crc32

  // ----------------------------------------------------- concatenation and xor

  /** The checksum of a concatenation, from the checksums of the two parts and
      the length of the second. */
  lemma Concatenation(a: Bytes, b: Bytes)
    ensures Checksum(a + b) == Xor(Shift(Ethernet, 8 * |b|, Checksum(a)), Checksum(b))
  {
    FeedConcatenation(Ethernet, ONES, a, b);
    XorAssociative(Shift(Ethernet, 8 * |b|, Checksum(a)), Feed(Ethernet, ONES, b), ONES);
  }

  /** Checksums of equally long messages are affine: an odd number of them adds
      up like the messages do. */
  lemma ThreeWayXor(a: Bytes, b: Bytes, c: Bytes)
    requires |a| == |b| == |c|
    ensures Checksum(XorBytes(XorBytes(a, b), c)) == Xor(Xor(Checksum(a), Checksum(b)), Checksum(c))
  {
    var s, t, u := MessageBits(a), MessageBits(b), MessageBits(c);
    MessageBitsXor(a, b);
    MessageBitsXor(XorBytes(a, b), c);
    RunLinear(Ethernet, ONES, ONES, s, t);
    XorZero(ONES);
    RunLinear(Ethernet, 0, ONES, XorBits(s, t), u);
    XorCommutes(0, ONES);
    XorExchange(Run(Ethernet, ONES, s), ONES, Run(Ethernet, ONES, t), ONES);
    XorZero(Xor(Run(Ethernet, ONES, s), Run(Ethernet, ONES, t)));
    XorAssociative(Xor(Run(Ethernet, ONES, s), Run(Ethernet, ONES, t)), Run(Ethernet, ONES, u), ONES);
  }

  // --------------------------------------------------------------- burst errors

  lemma SameRegister(a: Bytes, b: Bytes)
    ensures Checksum(a) == Checksum(b) <==> Feed(Ethernet, ONES, a) == Feed(Ethernet, ONES, b)
  {
    XorTwice(Feed(Ethernet, ONES, a), ONES);
    XorTwice(Feed(Ethernet, ONES, b), ONES);
  }

  /** Every burst of at most 32 bits, at any bit position, changes the checksum. */
  lemma BurstDetected(a: Bytes, b: Bytes, p: nat)
    requires |a| == |b| && a != b
    requires AgreeOutside(MessageBits(a), MessageBits(b), p, 32)
    ensures Checksum(a) != Checksum(b)
  {
    SameRegister(a, b);
    EthernetFits(ONES);
    BurstSeparated(Ethernet, ONES, a, b, p);
  }

  /** Messages of equal length have the same checksum exactly when their difference
      leaves a zero register at zero. */
  lemma SameChecksum(a: Bytes, b: Bytes)
    requires |a| == |b|
    ensures Checksum(a) == Checksum(b) <==> Feed(Ethernet, 0, XorBytes(a, b)) == 0
  {
    SameRegister(a, b);
    SameFeed(Ethernet, ONES, a, b);
  }

  // ------------------------------------------- steering and rolling back the register

  /** A register value as four bytes, least significant first. */
  function WordBytes(w: Register): (s: Bytes)
    ensures |s| == 4
  {
    [LowByte(w), LowByte(w >> 8), LowByte(w >> 16), LowByte(w >> 24)]
  }

  function FourBytes(b0: bv8, b1: bv8, b2: bv8, b3: bv8): Register {
    Xor(RaiseByte(Xor(RaiseByte(Xor(RaiseByte(Word(b3)), Word(b2))), Word(b1))), Word(b0))
  }

  lemma FourBytesOfWord(w: Register)
    ensures FourBytes(LowByte(w), LowByte(w >> 8), LowByte(w >> 16), LowByte(w >> 24)) == w
  {
  }

  lemma PackFourBytes(s: Bytes)
    requires |s| == 4
    ensures Pack(MessageBits(s)) == FourBytes(s[0], s[1], s[2], s[3])
  {
    assert s[1..][1..] == s[2..] && s[2..][1..] == s[3..] && s[3..][1..] == [];
    PackByte(s[3], []);
    PackByte(s[2], MessageBits(s[3..]));
    PackByte(s[1], MessageBits(s[2..]));
    PackByte(s[0], MessageBits(s[1..]));
    XorCommutes(0, Word(s[3]));
    XorZero(Word(s[3]));
  }

  lemma PackWordBytes(w: Register)
    ensures Pack(MessageBits(WordBytes(w))) == w
  {
    PackFourBytes(WordBytes(w));
    FourBytesOfWord(w);
  }

  lemma WordBytesUnique(s: Bytes, w: Register)
    requires |s| == 4 && Pack(MessageBits(s)) == w
    ensures s == WordBytes(w)
  {
    PackWordBytes(w);
    PackInjective(MessageBits(s), MessageBits(WordBytes(w)));
    MessageBitsInjective(s, WordBytes(w));
  }

  /** Feeding four bytes is adding them as one word and taking 32 steps. */
  lemma FeedFour(c: Register, s: Bytes)
    requires |s| == 4
    ensures Feed(Ethernet, c, s) == Shift(Ethernet, 32, Xor(c, Pack(MessageBits(s))))
  {
    RunPacked(Ethernet, c, MessageBits(s));
  }

  /** The four bytes that make a message starting with `p` check to `target`. */
  function Completion(p: Bytes, target: Register): Bytes {
    WordBytes(Xor(Feed(Ethernet, ONES, p), Unshift(Ethernet, 32, Xor(target, ONES))))
  }

  /** The word that takes the register from `c` to `goal` in `n` steps. */
  lemma SteeringWord(n: nat, c: Register, goal: Register, w: Register)
    ensures Shift(Ethernet, n, Xor(c, w)) == goal <==> w == Xor(c, Unshift(Ethernet, n, goal))
  {
    EthernetFits(Xor(c, w));
    ShiftInvertible(Ethernet, n, Xor(c, w));
    EthernetFits(goal);
    ShiftInvertible(Ethernet, n, goal);
    XorCancels(c, w, Unshift(Ethernet, n, goal));
  }

  lemma XorCancels(c: Register, w: Register, u: Register)
    ensures Xor(c, w) == u <==> w == Xor(c, u)
  {
    XorCommutes(c, w);
    XorCommutes(c, u);
    XorTwice(w, c);
    XorTwice(u, c);
  }

  lemma CompletedChecksum(p: Bytes, s: Bytes)
    requires |s| == 4
    ensures Checksum(p + s) == Xor(Shift(Ethernet, 32, Xor(Feed(Ethernet, ONES, p), Pack(MessageBits(s)))), ONES)
  {
    FeedAppend(Ethernet, ONES, p, s);
    FeedFour(Feed(Ethernet, ONES, p), s);
  }

  /** After any prefix, every checksum is reached by exactly one four-byte suffix. */
  lemma UniqueCompletion(p: Bytes, target: Register, s: Bytes)
    requires |s| == 4
    ensures Checksum(p + s) == target <==> s == Completion(p, target)
  {
    var c, w := Feed(Ethernet, ONES, p), Pack(MessageBits(s));
    var goal := Xor(target, ONES);
    CompletedChecksum(p, s);
    XorCommutes(Shift(Ethernet, 32, Xor(c, w)), ONES);
    XorCommutes(target, ONES);
    XorCancels(ONES, Shift(Ethernet, 32, Xor(c, w)), target);
    SteeringWord(32, c, goal, w);
    PackWordBytes(Xor(c, Unshift(Ethernet, 32, goal)));
    WordBytesUnique(s, w);
  }

  /** Appending a message's own checksum, low byte first, always leaves the same
      checksum. */
  lemma ConstantResidue(m: Bytes)
    ensures Checksum(m + WordBytes(Checksum(m))) == 0x2144_DF1C
  {
    var c := Feed(Ethernet, ONES, m);
    FeedAppend(Ethernet, ONES, m, WordBytes(Checksum(m)));
    FeedFour(c, WordBytes(Checksum(m)));
    PackWordBytes(Checksum(m));
    XorAssociative(c, c, ONES);
    XorZero(c);
    XorCommutes(0, ONES);
    XorZero(ONES);
    ResidueConstant();
  }

  lemma FourTimes(n: nat, a: Register, b: Register, c: Register, d: Register, e: Register)
    requires Shift(Ethernet, n, a) == b && Shift(Ethernet, n, b) == c
    requires Shift(Ethernet, n, c) == d && Shift(Ethernet, n, d) == e
    ensures Shift(Ethernet, 4 * n, a) == e
  {
    ShiftSum(Ethernet, n, 3 * n, a);
    ShiftSum(Ethernet, n, 2 * n, b);
    ShiftSum(Ethernet, n, n, c);
  }

  lemma FourBytesOn(a: Register, b: Register, c: Register, d: Register, e: Register)
    requires Shift8(Ethernet, a) == b && Shift8(Ethernet, b) == c
    requires Shift8(Ethernet, c) == d && Shift8(Ethernet, d) == e
    ensures Shift(Ethernet, 32, a) == e
  {
    Shift8IsShift(Ethernet, a);
    Shift8IsShift(Ethernet, b);
    Shift8IsShift(Ethernet, c);
    Shift8IsShift(Ethernet, d);
    FourTimes(8, a, b, c, d, e);
  }

  lemma ResidueConstant()
    ensures Xor(Shift(Ethernet, 32, ONES), ONES) == 0x2144_DF1C
  {
    FourBytesOn(0xffff_ffff, 0x2dfd_1072, 0xbe26_ed00, 0x00be_26ed, 0xdebb_20e3);
  }

  /** One byte backwards: the register before `b` was fed. */
  function RollBack(after: Register, b: bv8): Register {
    Xor(Unshift(Ethernet, 8, after), Word(b))
  }

  /** The register can be rolled back byte by byte, and in only one way. */
  lemma RollBackUnique(before: Register, after: Register, b: bv8)
    ensures Feed(Ethernet, before, [b]) == after <==> before == RollBack(after, b)
  {
    assert MessageBits([b]) == ByteBits(b);
    RunByte(Ethernet, before, b);
    EthernetFits(Xor(before, Word(b)));
    ShiftInvertible(Ethernet, 8, Xor(before, Word(b)));
    EthernetFits(after);
    ShiftInvertible(Ethernet, 8, after);
    XorTwice(before, Word(b));
    XorTwice(Unshift(Ethernet, 8, after), Word(b));
  }

  predicate SmallByte(y: Register) {
    y >> 24 == 0
  }

  /** The top bytes of the table are a permutation: no two entries share one. */
  lemma TopBytesDistinct(x: bv8, y: bv8)
    requires Crc32Entry(x) >> 24 == Crc32Entry(y) >> 24
    ensures x == y
  {
    TableEntry(x);
    TableEntry(y);
    TopByteOfXor(Crc32Entry(x), Crc32Entry(y));
    SameTop(x, y);
  }

  lemma SameTop(x: bv8, y: bv8)
    requires SmallByte(Xor(Shift(Ethernet, 8, Word(x)), Shift(Ethernet, 8, Word(y))))
    ensures x == y
  {
    var d := Xor(Word(x), Word(y));
    ShiftLinear(Ethernet, 8, Word(x), Word(y));
    EthernetFits(d);
    ShiftInvertible(Ethernet, 8, d);
    UnshiftSmall(Shift(Ethernet, 8, d));
    WordsEqual(x, y);
  }

  lemma TopByteOfXor(u: Register, v: Register)
    requires u >> 24 == v >> 24
    ensures SmallByte(Xor(u, v))
  {
  }

  /** A small byte rises to the top without feedback. */
  lemma UnshiftSmall(y: Register)
    requires SmallByte(y)
    ensures Unshift(Ethernet, 8, y) == RaiseByte(y)
  {
    ShiftRaised(y);
    EthernetFits(RaiseByte(y));
    ShiftInvertible(Ethernet, 8, RaiseByte(y));
  }

  lemma ShiftRaised(y: Register)
    requires SmallByte(y)
    ensures Shift(Ethernet, 8, RaiseByte(y)) == y
  {
    assert RaiseByte(y) & 0xff == 0 && DropByte(RaiseByte(y)) == y;
    ShiftClearByte(Ethernet, RaiseByte(y));
  }

  lemma WordsEqual(x: bv8, y: bv8)
    requires exists z :: Xor(Word(x), Word(y)) == RaiseByte(z)
    ensures x == y
  {
  }

  // ------------------------------------------------- the burst bound is tight

  const ZEROS: Bytes := [0, 0, 0, 0, 0]

  /** The 33 coefficients of the generator polynomial, highest first, as bytes. */
  const GENERATOR_BYTES: Bytes := [0x41, 0x06, 0x71, 0xDB, 0x01]

  lemma GeneratorWord()
    ensures Pack(MessageBits([0x41, 0x06, 0x71, 0xDB])) == 0xdb710641
  {
    PackFourBytes([0x41, 0x06, 0x71, 0xDB]);
  }

  lemma GeneratorShifts()
    ensures Shift(Ethernet, 32, 0xdb710641) == 1
  {
    FourBytesOn(0xdb71_0641, 0x0100_0000, 0x0001_0000, 0x0000_0100, 0x0000_0001);
  }

  lemma GeneratorVanishes()
    ensures Feed(Ethernet, 0, GENERATOR_BYTES) == 0
  {
    var s: Bytes := [0x41, 0x06, 0x71, 0xDB];
    assert GENERATOR_BYTES == s + [0x01];
    FeedNext(Ethernet, 0, s, 0x01);
    FeedFour(0, s);
    GeneratorWord();
    XorCommutes(0, 0xdb710641);
    XorZero(0xdb710641);
    GeneratorShifts();
    assert Xor(1, Word(0x01)) == 0;
    ShiftOfZero(Ethernet, 8);
  }

  lemma GeneratorSpan()
    ensures AgreeOutside(MessageBits(ZEROS), MessageBits(GENERATOR_BYTES), 0, 33)
  {
  }

  /** A burst one bit longer can go unnoticed: the generator polynomial itself,
      written over five zero bytes, spans 33 bits and leaves the checksum alone. */
  lemma BurstBoundIsTight()
    ensures ZEROS != GENERATOR_BYTES
    ensures AgreeOutside(MessageBits(ZEROS), MessageBits(GENERATOR_BYTES), 0, 33)
    ensures Checksum(ZEROS) == Checksum(GENERATOR_BYTES)
  {
    assert ZEROS[0] != GENERATOR_BYTES[0];
    GeneratorSpan();
    GeneratorVanishes();
    XorWithZeros();
    SameChecksum(ZEROS, GENERATOR_BYTES);
  }

  lemma XorWithZeros()
    ensures XorBytes(ZEROS, GENERATOR_BYTES) == GENERATOR_BYTES
  {
  }
}
