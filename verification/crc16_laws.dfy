/** What the two-lane CRC-16 guarantees, and what it ignores. */
module Crc16Laws {
  import opened BitStream
  import opened Crc16
  import opened ShiftRegister
  import opened ByteRegister

  // ------------------------------------------------------------ the residue

  /** The result as it is appended to a message: high byte, then low byte. */
  function ResultBytes(crc: Register): (s: Bytes)
    ensures |s| == 2
  {
    [HighByte(crc), LowByte(crc)]
  }

  lemma FeedFits(m: Bytes)
    ensures Fits(Modbus, Feed(Modbus, 0xffff, m))
  {
    RunFits(Modbus, 0xffff, MessageBits(m));
  }

  lemma BytesOfLanes(h: bv8, l: bv8)
    ensures LowByte(Lanes(h, l)) == h && HighByte(Lanes(h, l)) == l
  {
  }

  lemma LanesOfBytes(r: Register)
    requires Fits(Modbus, r)
    ensures Lanes(LowByte(r), HighByte(r)) == r
  {
  }

  lemma SwapTwice(r: Register)
    requires Fits(Modbus, r)
    ensures HighByte(SwapBytes(r)) == LowByte(r) && LowByte(SwapBytes(r)) == HighByte(r)
    ensures SwapBytes(SwapBytes(r)) == r
  {
    BytesOfLanes(HighByte(r), LowByte(r));
    LanesOfBytes(r);
  }

  lemma RemoveLowByte(r: Register)
    requires Fits(Modbus, r)
    ensures Xor(r, Word(LowByte(r))) == Lanes(0, HighByte(r))
  {
  }

  /** Feeding a register its own two bytes, low byte first, clears it. */
  lemma FeedOwnBytes(m: Bytes)
    ensures var r := Feed(Modbus, 0xffff, m); Feed(Modbus, 0xffff, m + [LowByte(r), HighByte(r)]) == 0
  {
    var r := Feed(Modbus, 0xffff, m);
    var s := m + [LowByte(r)];
    assert m + [LowByte(r), HighByte(r)] == s + [HighByte(r)];
    FeedNext(Modbus, 0xffff, m, LowByte(r));
    FeedNext(Modbus, 0xffff, s, HighByte(r));
    RunFits(Modbus, 0xffff, MessageBits(m));
    RemoveLowByte(r);
    DropHighLane(HighByte(r));
    ShiftClearByte(Modbus, Lanes(0, HighByte(r)));
    XorZero(Word(HighByte(r)));
    ShiftOfZero(Modbus, 8);
  }

  lemma EmptyResidue()
    ensures Checksum([0xff, 0xff]) != 0
  {
    assert Mid1([0xff, 0xff]) == [] + [0xff];
    FeedNext(Modbus, 0xffff, [], 0xff);
    assert Xor(0xffff, Word(0xff)) == 0xff00;
    Shift8IsShift(Modbus, 0xff00);
    assert Shift8(Modbus, 0xff00) == 0x00ff;
    assert SwapBytes(0x00ff) == 0xff00;
  }

  /** Appending the result, high byte first, clears the checksum; the empty
      message, whose appended first byte is skipped, is the only exception. */
  lemma ResidueIsZero(m: Bytes)
    ensures Checksum(m + ResultBytes(Checksum(m))) == 0 <==> m != []
  {
    var r := Feed(Modbus, 0xffff, Mid1(m));
    FeedFits(Mid1(m));
    SwapTwice(r);
    if m != [] {
      assert (m + ResultBytes(Checksum(m)))[1..] == m[1..] + [LowByte(r), HighByte(r)];
      FeedOwnBytes(m[1..]);
      assert SwapBytes(0) == 0;
    } else {
      assert ResultBytes(Checksum([])) == [0xff, 0xff];
      assert m + ResultBytes(Checksum(m)) == [0xff, 0xff];
      EmptyResidue();
    }
  }

  // ---------------------------------------------------------------- parity

  /** Is the number of ones odd? */
  predicate OddOnes(s: Bits) {
    s != [] && s[0] != OddOnes(s[1..])
  }

  predicate OddByte(b: bv8) {
    OddOnes(ByteBits(b))
  }

  function RegisterBytes(r: Register): (s: Bytes)
    ensures |s| == 2
  {
    [LowByte(r), HighByte(r)]
  }

  predicate OddRegister(r: Register) {
    OddOnes(MessageBits(RegisterBytes(r)))
  }

  lemma {:induction false} OddOnesAppend(s: Bits, t: Bits)
    ensures OddOnes(s + t) == (OddOnes(s) != OddOnes(t))
  {
    if s == [] {
      assert s + t == t;
    } else {
      assert (s + t)[1..] == s[1..] + t;
      OddOnesAppend(s[1..], t);
    }
  }

  lemma {:induction false} OddOnesXor(s: Bits, t: Bits)
    requires |s| == |t|
    ensures OddOnes(XorBits(s, t)) == (OddOnes(s) != OddOnes(t))
  {
    if s == [] {
    } else {
      assert XorBits(s, t)[1..] == XorBits(s[1..], t[1..]);
      OddOnesXor(s[1..], t[1..]);
    }
  }

  lemma OddOnesSnoc(m: Bytes, b: bv8)
    ensures OddOnes(MessageBits(m + [b])) == (OddOnes(MessageBits(m)) != OddByte(b))
  {
    MessageBitsAppend(m, [b]);
    assert MessageBits([b]) == ByteBits(b);
    OddOnesAppend(MessageBits(m), ByteBits(b));
  }

  lemma OddRegisterBytes(r: Register)
    ensures OddRegister(r) == (OddByte(LowByte(r)) != OddByte(HighByte(r)))
  {
    OddOnesSnoc([LowByte(r)], HighByte(r));
    OddOnesSnoc([], LowByte(r));
    assert [] + [LowByte(r)] == [LowByte(r)];
    assert RegisterBytes(r) == [LowByte(r)] + [HighByte(r)];
  }

  lemma OddByteXor(a: bv8, b: bv8)
    ensures OddByte(XorByte(a, b)) == (OddByte(a) != OddByte(b))
  {
    ByteBitsXor(a, b, XorByte(a, b));
    OddOnesXor(ByteBits(a), ByteBits(b));
  }

  lemma BytesOfXor(x: Register, y: Register)
    ensures LowByte(Xor(x, y)) == XorByte(LowByte(x), LowByte(y))
    ensures HighByte(Xor(x, y)) == XorByte(HighByte(x), HighByte(y))
  {
  }

  lemma OddRegisterSum(x: Register, y: Register, z: Register)
    requires LowByte(z) == XorByte(LowByte(x), LowByte(y)) && HighByte(z) == XorByte(HighByte(x), HighByte(y))
    ensures OddRegister(z) == (OddRegister(x) != OddRegister(y))
  {
    OddByteXor(LowByte(x), LowByte(y));
    OddByteXor(HighByte(x), HighByte(y));
    OddRegisterBytes(x);
    OddRegisterBytes(y);
    OddRegisterBytes(z);
  }

  lemma OddRegisterXor(x: Register, y: Register)
    ensures OddRegister(Xor(x, y)) == (OddRegister(x) != OddRegister(y))
  {
    BytesOfXor(x, y);
    OddRegisterSum(x, y, Xor(x, y));
  }

  /** The parity of a byte, spelled out. */
  predicate OddTests(b: bv8) {
    Test(b, 0x01) != (Test(b, 0x02) != (Test(b, 0x04) != (Test(b, 0x08)
      != (Test(b, 0x10) != (Test(b, 0x20) != (Test(b, 0x40) != Test(b, 0x80)))))))
  }

  lemma OddOnesNext(s: Bits, k: nat)
    requires k < |s|
    ensures OddOnes(s[k..]) == (s[k] != OddOnes(s[k + 1..]))
  {
  }

  lemma OddOfEight(s: Bits)
    requires |s| == 8
    ensures OddOnes(s) == (s[0] != (s[1] != (s[2] != (s[3] != (s[4] != (s[5] != (s[6] != s[7])))))))
  {
    assert s == s[0..] && s[8..] == [];
    OddOnesNext(s, 0);
    OddOnesNext(s, 1);
    OddOnesNext(s, 2);
    OddOnesNext(s, 3);
    OddOnesNext(s, 4);
    OddOnesNext(s, 5);
    OddOnesNext(s, 6);
    OddOnesNext(s, 7);
  }

  lemma OddByteTests(b: bv8)
    ensures OddByte(b) == OddTests(b)
  {
    OddOfEight(ByteBits(b));
    ByteBitsAre(b);
  }

  predicate RegisterTests(r: Register) {
    OddTests(LowByte(r)) != OddTests(HighByte(r))
  }

  lemma OddRegisterTests(r: Register)
    ensures OddRegister(r) == RegisterTests(r)
  {
    OddRegisterBytes(r);
    OddByteTests(LowByte(r));
    OddByteTests(HighByte(r));
  }

  lemma HalfTests(x: Register)
    requires Fits(Modbus, x)
    ensures RegisterTests(x) == (Low(x) != RegisterTests(Half(x)))
  {
  }

  lemma OddRegisterHalf(x: Register)
    requires Fits(Modbus, x)
    ensures OddRegister(x) == (Low(x) != OddRegister(Half(x)))
  {
    OddRegisterTests(x);
    OddRegisterTests(Half(x));
    HalfTests(x);
  }

  lemma PolyOdd()
    ensures OddRegister(Feedback(Modbus)) && !OddRegister(0xffff)
  {
    OddRegisterTests(Feedback(Modbus));
    OddRegisterTests(0xffff);
    assert RegisterTests(Feedback(Modbus)) && !RegisterTests(0xffff);
  }

  lemma OddRegisterWord(b: bv8)
    ensures OddRegister(Word(b)) == OddByte(b)
  {
    assert LowByte(Word(b)) == b && HighByte(Word(b)) == 0;
    OddRegisterBytes(Word(b));
    OddByteTests(0);
    assert !OddTests(0);
  }

  /** The polynomial has an odd number of terms, so a step keeps the parity. */
  lemma StepKeepsParity(x: Register)
    requires Fits(Modbus, x)
    ensures OddRegister(Step(Modbus, x)) == OddRegister(x)
  {
    OddRegisterHalf(x);
    OddRegisterXor(Half(x), Feedback(Modbus));
    PolyOdd();
  }

  lemma {:induction false} ShiftKeepsParity(n: nat, x: Register)
    requires Fits(Modbus, x)
    ensures OddRegister(Shift(Modbus, n, x)) == OddRegister(x)
  {
    if n == 0 {
    } else {
      StepFits(Modbus, x);
      StepKeepsParity(x);
      ShiftKeepsParity(n - 1, Step(Modbus, x));
    }
  }

  lemma WordFits(b: bv8)
    ensures Fits(Modbus, Word(b))
  {
  }

  lemma AbsorbParity(r: Register, b: bv8)
    requires Fits(Modbus, r)
    ensures OddRegister(Shift(Modbus, 8, Xor(r, Word(b)))) == (OddRegister(r) != OddByte(b))
  {
    WordFits(b);
    XorFits(Modbus, r, Word(b));
    ShiftKeepsParity(8, Xor(r, Word(b)));
    OddRegisterXor(r, Word(b));
    OddRegisterWord(b);
  }

  lemma {:induction false} FeedParity(m: Bytes)
    ensures OddRegister(Feed(Modbus, 0xffff, m)) == OddOnes(MessageBits(m))
  {
    if m == [] {
      PolyOdd();
    } else {
      var t, b := m[..|m| - 1], m[|m| - 1];
      assert m == t + [b];
      FeedParity(t);
      FeedNext(Modbus, 0xffff, t, b);
      FeedFits(t);
      AbsorbParity(Feed(Modbus, 0xffff, t), b);
      OddOnesSnoc(t, b);
    }
  }

  /** The bits of the result have the same parity as the bits of the message
      without its first byte. */
  lemma ParityPreserved(m: Bytes)
    ensures OddOnes(MessageBits(ResultBytes(Checksum(m)))) == OddOnes(MessageBits(Mid1(m)))
  {
    var r := Feed(Modbus, 0xffff, Mid1(m));
    FeedParity(Mid1(m));
    FeedFits(Mid1(m));
    SwapTwice(r);
    assert ResultBytes(Checksum(m)) == RegisterBytes(r);
  }

  lemma {:induction false} DistanceParity(s: Bits, t: Bits)
    requires |s| == |t|
    ensures Distance(s, t) % 2 == 1 <==> OddOnes(s) != OddOnes(t)
  {
    if s == [] {
    } else {
      DistanceParity(s[1..], t[1..]);
    }
  }

  /** Any odd number of flipped bits after the first byte changes the result. */
  lemma OddFlipsDetected(a: Bytes, b: Bytes)
    requires |a| == |b|
    requires Distance(MessageBits(Mid1(a)), MessageBits(Mid1(b))) % 2 == 1
    ensures Checksum(a) != Checksum(b)
  {
    DistanceParity(MessageBits(Mid1(a)), MessageBits(Mid1(b)));
    ParityPreserved(a);
    ParityPreserved(b);
  }

  /** The first byte is never looked at. */
  lemma FirstByteIgnored(x: bv8, y: bv8, m: Bytes)
    ensures Checksum([x] + m) == Checksum([y] + m)
  {
    assert Mid1([x] + m) == m && Mid1([y] + m) == m;
  }

  // --------------------------------------------------------------- burst errors

  lemma SwappedFeed(a: Bytes)
    ensures SwapBytes(Checksum(a)) == Feed(Modbus, 0xffff, Mid1(a))
  {
    FeedFits(Mid1(a));
    SwapTwice(Feed(Modbus, 0xffff, Mid1(a)));
  }

  lemma SameRegister(a: Bytes, b: Bytes)
    ensures Checksum(a) == Checksum(b)
       <==> Feed(Modbus, 0xffff, Mid1(a)) == Feed(Modbus, 0xffff, Mid1(b))
  {
    SwappedFeed(a);
    SwappedFeed(b);
  }

  /** Every burst of at most 16 bits after the first byte changes the result. */
  lemma BurstDetected(a: Bytes, b: Bytes, p: nat)
    requires |a| == |b| && Mid1(a) != Mid1(b)
    requires AgreeOutside(MessageBits(Mid1(a)), MessageBits(Mid1(b)), p, 16)
    ensures Checksum(a) != Checksum(b)
  {
    SameRegister(a, b);
    BurstSeparated(Modbus, 0xffff, Mid1(a), Mid1(b), p);
  }

  /** Messages of equal length have the same result exactly when the difference of
      what follows their first bytes leaves a zero register at zero. */
  lemma SameChecksum(a: Bytes, b: Bytes)
    requires |a| == |b|
    ensures Checksum(a) == Checksum(b) <==> Feed(Modbus, 0, XorBytes(Mid1(a), Mid1(b))) == 0
  {
    SameRegister(a, b);
    SameFeed(Modbus, 0xffff, Mid1(a), Mid1(b));
  }

  const ZEROS: Bytes := [0, 0, 0]

  /** The 17 coefficients of the generator polynomial, highest first, as bytes. */
  const GENERATOR_BYTES: Bytes := [0x03, 0x40, 0x01]

  lemma GeneratorVanishes()
    ensures Feed(Modbus, 0, GENERATOR_BYTES) == 0
  {
    assert GENERATOR_BYTES == ([] + [0x03] + [0x40]) + [0x01];
    FeedNext(Modbus, 0, [], 0x03);
    FeedNext(Modbus, 0, [] + [0x03], 0x40);
    FeedNext(Modbus, 0, [] + [0x03] + [0x40], 0x01);
    GeneratorSteps();
  }

  lemma GeneratorSteps()
    ensures var first := Shift(Modbus, 8, Xor(0, Word(0x03)));
            Shift(Modbus, 8, Xor(Shift(Modbus, 8, Xor(first, Word(0x40))), Word(0x01))) == 0
  {
    Shift8IsShift(Modbus, Xor(0, Word(0x03)));
    Shift8IsShift(Modbus, Xor(0x0140, Word(0x40)));
    ShiftOfZero(Modbus, 8);
  }

  lemma GeneratorSpan()
    ensures AgreeOutside(MessageBits(ZEROS), MessageBits(GENERATOR_BYTES), 0, 17)
  {
  }

  lemma XorWithZeros()
    ensures XorBytes(ZEROS, GENERATOR_BYTES) == GENERATOR_BYTES
  {
  }

  /** A burst one bit longer can go unnoticed: the generator polynomial, written
      over three zero bytes after the first, spans 17 bits. */
  lemma BurstBoundIsTight(x: bv8)
    ensures ZEROS != GENERATOR_BYTES
    ensures AgreeOutside(MessageBits(ZEROS), MessageBits(GENERATOR_BYTES), 0, 17)
    ensures Checksum([x] + ZEROS) == Checksum([x] + GENERATOR_BYTES)
  {
    assert ZEROS[0] != GENERATOR_BYTES[0];
    GeneratorSpan();
    GeneratorVanishes();
    XorWithZeros();
    Mid1Append([x], ZEROS);
    Mid1Append([x], GENERATOR_BYTES);
    assert Mid1([x]) == [];
    SameChecksum([x] + ZEROS, [x] + GENERATOR_BYTES);
  }

  // ------------------------------------------------------------- concatenation

  lemma Mid1Append(a: Bytes, b: Bytes)
    requires a != []
    ensures Mid1(a + b) == Mid1(a) + b
  {
  }

  /** The result for a concatenation, from those of the two parts, all with their
      bytes swapped back; the second part is given a first byte to be skipped,
      which may be any. */
  lemma Concatenation(a: Bytes, x: bv8, b: Bytes)
    requires a != []
    ensures SwapBytes(Checksum(a + b))
         == Xor(Shift(Modbus, 8 * |b|, Xor(SwapBytes(Checksum(a)), 0xffff)), SwapBytes(Checksum([x] + b)))
  {
    Mid1Append(a, b);
    Mid1Append([x], b);
    assert Mid1([x]) + b == b;
    SwappedFeed(a);
    SwappedFeed(a + b);
    SwappedFeed([x] + b);
    FeedConcatenation(Modbus, 0xffff, Mid1(a), b);
  }
}
