/** Two flipped bits: at which distances each checksum sees them. */
module TwoBitErrors {
  import opened BitStream
  import opened ShiftRegister
  import opened ByteRegister
  import opened Powers
  import opened Order
  import Crc16
  import Crc16Laws
  import Crc32
  import Crc32Laws

  /** `s` and `t` differ at `i` and at `j`, and nowhere else. */
  predicate DifferAt(s: Bits, t: Bits, i: nat, j: nat)
    requires |s| == |t|
  {
    i < j < |s| && forall k :: 0 <= k < |s| ==> (s[k] != t[k] <==> k == i || k == j)
  }

  predicate AllClear(s: Bits) {
    forall k :: 0 <= k < |s| ==> !s[k]
  }

  lemma {:induction false} RunClear(g: Code, c: Register, s: Bits)
    requires AllClear(s)
    ensures Run(g, c, s) == Shift(g, |s|, c)
    decreases s
  {
    if s == [] {
    } else {
      XorZero(c);
      RunClear(g, Step(g, c), s[1..]);
    }
  }

  lemma RunOne(g: Code, c: Register, s: Bits)
    requires s != [] && s[0]
    ensures Run(g, c, s) == Run(g, Step(g, Xor(c, 1)), s[1..])
  {
  }

  /** Between the two ones the register holds a power of x. */
  lemma RunToSecond(g: Code, s: Bits, d: nat)
    requires 0 < d < |s| && s[0] && AllClear(s[1..d]) && s[d]
    ensures Run(g, 0, s) == Run(g, Step(g, Xor(Shift(g, d, 1), 1)), s[d + 1..])
  {
    var rest := s[1..];
    assert rest == s[1..d] + s[d..];
    RunOne(g, 0, s);
    XorCommutes(0, 1);
    XorZero(1);
    RunAppend(g, Step(g, 1), s[1..d], s[d..]);
    RunClear(g, Step(g, 1), s[1..d]);
    RunOne(g, Shift(g, d, 1), s[d..]);
  }

  lemma ShiftVanishes(g: Code, n: nat, x: Register)
    requires Fits(g, x)
    ensures Shift(g, n, x) == 0 <==> x == 0
  {
    ShiftOfZero(g, n);
    FullFits(g);
    ShiftInvertible(g, n, x);
    ShiftInvertible(g, n, 0);
  }

  lemma StepVanishes(g: Code, x: Register)
    requires Fits(g, x)
    ensures Step(g, x) == 0 <==> x == 0
  {
    ShiftVanishes(g, 1, x);
    assert Shift(g, 1, x) == Shift(g, 0, Step(g, x));
  }

  /** Ones at the first place and at `d` vanish exactly when `d` steps bring 1 back. */
  lemma TwoOnesVanish(g: Code, s: Bits, d: nat)
    requires 0 < d < |s| && s[0] && AllClear(s[1..d]) && s[d] && AllClear(s[d + 1..])
    ensures Run(g, 0, s) == 0 <==> Returns(g, d)
  {
    var r := Shift(g, d, 1);
    RunToSecond(g, s, d);
    FullFits(g);
    ShiftFits(g, d, 1);
    XorFits(g, r, 1);
    StepFits(g, Xor(r, 1));
    RunClear(g, Step(g, Xor(r, 1)), s[d + 1..]);
    ShiftVanishes(g, |s| - d - 1, Step(g, Xor(r, 1)));
    StepVanishes(g, Xor(r, 1));
    XorIsZero(r, 1);
  }

  /** A register at zero stays there until the first one. */
  lemma RunFromFirst(g: Code, s: Bits, i: nat)
    requires i <= |s| && AllClear(s[..i])
    ensures Run(g, 0, s) == Run(g, 0, s[i..])
  {
    assert s == s[..i] + s[i..];
    RunAppend(g, 0, s[..i], s[i..]);
    RunClear(g, 0, s[..i]);
    ShiftOfZero(g, i);
  }

  lemma DifferenceShape(s: Bits, t: Bits, i: nat, j: nat)
    requires |s| == |t| && DifferAt(s, t, i, j)
    ensures var u := XorBits(s, t);
            && AllClear(u[..i])
            && u[i..][0] && AllClear(u[i..][1..j - i]) && u[i..][j - i] && AllClear(u[i..][j - i + 1..])
  {
  }

  lemma TwoOnesAt(g: Code, u: Bits, i: nat, d: nat)
    requires 0 < d && i + d < |u| && AllClear(u[..i])
    requires u[i..][0] && AllClear(u[i..][1..d]) && u[i..][d] && AllClear(u[i..][d + 1..])
    ensures Run(g, 0, u) == 0 <==> d % Period(g) == 0
  {
    RunFromFirst(g, u, i);
    TwoOnesVanish(g, u[i..], d);
    OrderOfX(g, d);
  }

  lemma DifferenceVanishes(g: Code, s: Bits, t: Bits, i: nat, j: nat)
    requires |s| == |t| && DifferAt(s, t, i, j)
    ensures Run(g, 0, XorBits(s, t)) == 0 <==> (j - i) % Period(g) == 0
  {
    DifferenceShape(s, t, i, j);
    TwoOnesAt(g, XorBits(s, t), i, j - i);
  }

  lemma SameRun(g: Code, c: Register, a: Bytes, b: Bytes)
    requires |a| == |b|
    ensures Feed(g, c, a) == Feed(g, c, b) <==> Run(g, 0, XorBits(MessageBits(a), MessageBits(b))) == 0
  {
    SameFeed(g, c, a, b);
    MessageBitsXor(a, b);
  }

  /** Two flipped bits are missed exactly when their distance is a multiple of the
      period. */
  lemma TwoFlips(g: Code, c: Register, a: Bytes, b: Bytes, i: nat, j: nat)
    requires |a| == |b| && DifferAt(MessageBits(a), MessageBits(b), i, j)
    ensures Feed(g, c, a) == Feed(g, c, b) <==> (j - i) % Period(g) == 0
  {
    SameRun(g, c, a, b);
    DifferenceVanishes(g, MessageBits(a), MessageBits(b), i, j);
  }

  /** CRC-16 misses two flipped bits after the first byte exactly at distances that are
      multiples of 32767. */
  lemma Crc16TwoFlips(a: Bytes, b: Bytes, i: nat, j: nat)
    requires |a| == |b| && DifferAt(MessageBits(Crc16.Mid1(a)), MessageBits(Crc16.Mid1(b)), i, j)
    ensures Crc16.Checksum(a) == Crc16.Checksum(b) <==> (j - i) % 32767 == 0
  {
    Crc16Laws.SameRegister(a, b);
    TwoFlips(Modbus, 0xffff, Crc16.Mid1(a), Crc16.Mid1(b), i, j);
  }

  /** CRC-32 misses them exactly at multiples of 2^32 - 1. */
  lemma Crc32TwoFlips(a: Bytes, b: Bytes, i: nat, j: nat)
    requires |a| == |b| && DifferAt(MessageBits(a), MessageBits(b), i, j)
    ensures Crc32.Checksum(a) == Crc32.Checksum(b) <==> (j - i) % 0xffff_ffff == 0
  {
    Crc32Laws.SameRegister(a, b);
    TwoFlips(Ethernet, Crc32.ONES, a, b, i, j);
  }

  /** So CRC-32 sees every two flipped bits in a message of less than 2^29 bytes. */
  lemma Crc32SeesTwoFlips(a: Bytes, b: Bytes, i: nat, j: nat)
    requires |a| == |b| < 0x2000_0000 && DifferAt(MessageBits(a), MessageBits(b), i, j)
    ensures Crc32.Checksum(a) != Crc32.Checksum(b)
  {
    Crc32TwoFlips(a, b, i, j);
  }

  function Zeros(n: nat): (s: Bytes)
    ensures |s| == n
  {
    if n == 0 then [] else [0] + Zeros(n - 1)
  }

  lemma {:induction false} BitsOfZeros(n: nat)
    ensures AllClear(MessageBits(Zeros(n)))
  {
    if n == 0 {
    } else {
      BitsOfZeros(n - 1);
      assert Zeros(n)[1..] == Zeros(n - 1);
      ByteBitsAre(0);
    }
  }

  lemma FirstAndLast(n: nat)
    ensures var s := MessageBits([0x01] + Zeros(n) + [0x80]);
            && |s| == 8 * n + 16 && s[0] && AllClear(s[1..8 * n + 15]) && s[8 * n + 15]
  {
    var m := [0x01] + Zeros(n);
    MessageBitsAppend(m, [0x80]);
    MessageBitsAppend([0x01], Zeros(n));
    BitsOfZeros(n);
    assert MessageBits([0x01]) == ByteBits(0x01) && MessageBits([0x80]) == ByteBits(0x80);
    ByteBitsAre(0x01);
    ByteBitsAre(0x80);
  }

  lemma EndsDiffer(s: Bits, t: Bits, d: nat)
    requires |s| == |t| == d + 1 && d > 0 && AllClear(s) && t[0] && AllClear(t[1..d]) && t[d]
    ensures DifferAt(s, t, 0, d)
  {
    forall k | 0 < k < d
      ensures !t[k]
    {
      assert t[1..d][k - 1] == t[k];
    }
  }

  /** Zero bytes behind any first byte, and the same with the first and the last bit
      set, have the same CRC-16 exactly at these lengths. */
  lemma Crc16EndsMissed(x: bv8, n: nat)
    ensures Crc16.Checksum([x] + Zeros(n + 2)) == Crc16.Checksum([x] + ([0x01] + Zeros(n) + [0x80]))
       <==> (8 * n + 15) % 32767 == 0
  {
    var a, b := Zeros(n + 2), [0x01] + Zeros(n) + [0x80];
    Crc16Laws.Mid1Append([x], a);
    Crc16Laws.Mid1Append([x], b);
    assert Crc16.Mid1([x]) + a == a && Crc16.Mid1([x]) + b == b;
    BitsOfZeros(n + 2);
    FirstAndLast(n);
    EndsDiffer(MessageBits(a), MessageBits(b), 8 * n + 15);
    Crc16TwoFlips([x] + a, [x] + b, 0, 8 * n + 15);
  }

  /** It takes 4097 bytes to fool CRC-16 with two flips. */
  lemma Crc16TwoFlipsMissed(x: bv8)
    ensures Crc16.Checksum([x] + Zeros(4096)) == Crc16.Checksum([x] + ([0x01] + Zeros(4094) + [0x80]))
  {
    Crc16EndsMissed(x, 4094);
  }

  /** In fewer bytes it cannot be done. */
  lemma Crc16SeesTwoFlips(a: Bytes, b: Bytes, i: nat, j: nat)
    requires |a| == |b| <= 4096 && DifferAt(MessageBits(Crc16.Mid1(a)), MessageBits(Crc16.Mid1(b)), i, j)
    ensures Crc16.Checksum(a) != Crc16.Checksum(b)
  {
    Crc16TwoFlips(a, b, i, j);
  }
}
