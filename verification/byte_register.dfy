/** The shift registers fed with whole bytes, and what follows for messages. */
module ByteRegister {
  import opened BitStream
  import opened ShiftRegister

  /** The register after feeding a message byte by byte. */
  function Feed(g: Code, c: Register, m: Bytes): Register {
    Run(g, c, MessageBits(m))
  }

  function LowByte(x: Register): bv8 {
    (x & 0xff) as bv8
  }

  function Word(b: bv8): Register {
    b as Register
  }

  function DropByte(x: Register): Register {
    x >> 8
  }

  function RaiseByte(p: Register): Register {
    p << 8
  }

  // ------------------------------------------------------------------ eight steps

  function Shift8(g: Code, x: Register): Register {
    Step(g, Step(g, Step(g, Step(g, Step(g, Step(g, Step(g, Step(g, x))))))))
  }

  lemma Shift8IsShift(g: Code, x: Register)
    ensures Shift8(g, x) == Shift(g, 8, x)
  {
    var x2 := Step(g, Step(g, x));
    var x4 := Step(g, Step(g, x2));
    var x6 := Step(g, Step(g, x4));
    assert Shift(g, 8, x) == Shift(g, 7, Step(g, x)) == Shift(g, 6, x2);
    assert Shift(g, 6, x2) == Shift(g, 5, Step(g, x2)) == Shift(g, 4, x4);
    assert Shift(g, 4, x4) == Shift(g, 3, Step(g, x4)) == Shift(g, 2, x6);
    assert Shift(g, 2, x6) == Shift(g, 1, Step(g, x6)) == Shift(g, 0, Step(g, Step(g, x6)));
  }

  lemma StepClear(g: Code, x: Register)
    requires !Low(x)
    ensures Step(g, x) == Half(x)
  {
  }

  lemma ClearByteHalves(x: Register)
    requires x & 0xff == 0
    ensures var x2 := Half(Half(x));
            var x4 := Half(Half(x2));
            var x6 := Half(Half(x4));
            && !Low(x) && !Low(Half(x)) && !Low(x2) && !Low(Half(x2))
            && !Low(x4) && !Low(Half(x4)) && !Low(x6) && !Low(Half(x6))
            && Half(Half(x6)) == DropByte(x)
  {
  }

  /** With a clear low byte, eight steps only shift. */
  lemma ShiftClearByte(g: Code, x: Register)
    requires x & 0xff == 0
    ensures Shift(g, 8, x) == DropByte(x)
  {
    var x2 := Half(Half(x));
    var x4 := Half(Half(x2));
    var x6 := Half(Half(x4));
    ClearByteHalves(x);
    Shift8IsShift(g, x);
    StepClear(g, x);
    StepClear(g, Half(x));
    StepClear(g, x2);
    StepClear(g, Half(x2));
    StepClear(g, x4);
    StepClear(g, Half(x4));
    StepClear(g, x6);
    StepClear(g, Half(x6));
  }

  lemma {:induction false} ShiftOfZero(g: Code, n: nat)
    ensures Shift(g, n, 0) == 0
  {
    if n == 0 {
    } else {
      assert Half(0) == 0 && !Low(0);
      ShiftOfZero(g, n - 1);
    }
  }

  // ------------------------------------------------------------------ bytes as words

  function Push(p: Register, b: bool): Register {
    Xor(Double(p), Bit(b))
  }

  lemma PackFrom(s: Bits, k: nat)
    requires k < |s|
    ensures Pack(s[k..]) == Push(Pack(s[k + 1..]), s[k])
  {
  }

  function PushByte(p: Register, b: bv8): Register {
    Push(Push(Push(Push(Push(Push(Push(Push(p,
      Test(b, 0x80)), Test(b, 0x40)), Test(b, 0x20)), Test(b, 0x10)),
      Test(b, 0x08)), Test(b, 0x04)), Test(b, 0x02)), Test(b, 0x01))
  }

  lemma PushByteIs(p: Register, b: bv8)
    ensures PushByte(p, b) == Xor(RaiseByte(p), Word(b))
  {
  }

  lemma PackByte(b: bv8, t: Bits)
    ensures Pack(ByteBits(b) + t) == Xor(RaiseByte(Pack(t)), Word(b))
  {
    var s := ByteBits(b) + t;
    assert s == s[0..] && s[8..] == t;
    PackFrom(s, 7);
    PackFrom(s, 6);
    PackFrom(s, 5);
    PackFrom(s, 4);
    PackFrom(s, 3);
    PackFrom(s, 2);
    PackFrom(s, 1);
    PackFrom(s, 0);
    ByteBitsAre(b);
    PushByteIs(Pack(t), b);
  }

  /** Feeding a byte is adding it to the register and taking eight steps. */
  lemma RunByte(g: Code, c: Register, b: bv8)
    ensures Run(g, c, ByteBits(b)) == Shift(g, 8, Xor(c, Word(b)))
  {
    RunPacked(g, c, ByteBits(b));
    PackByte(b, []);
    assert ByteBits(b) + [] == ByteBits(b);
    XorCommutes(0, Word(b));
    XorZero(Word(b));
  }

  // ------------------------------------------------------------------ messages

  lemma FeedNext(g: Code, c: Register, m: Bytes, b: bv8)
    ensures Feed(g, c, m + [b]) == Shift(g, 8, Xor(Feed(g, c, m), Word(b)))
  {
    MessageBitsAppend(m, [b]);
    assert MessageBits([b]) == ByteBits(b);
    RunAppend(g, c, MessageBits(m), ByteBits(b));
    RunByte(g, Feed(g, c, m), b);
  }

  lemma FeedAppend(g: Code, c: Register, a: Bytes, b: Bytes)
    ensures Feed(g, c, a + b) == Feed(g, Feed(g, c, a), b)
  {
    MessageBitsAppend(a, b);
    RunAppend(g, c, MessageBits(a), MessageBits(b));
  }

  lemma FeedConcatenation(g: Code, c: Register, a: Bytes, b: Bytes)
    ensures Feed(g, c, a + b) == Xor(Shift(g, 8 * |b|, Xor(Feed(g, c, a), c)), Feed(g, c, b))
  {
    FeedAppend(g, c, a, b);
    XorTwice(Feed(g, c, a), c);
    RunSplit(g, Xor(Feed(g, c, a), c), c, MessageBits(b));
  }

  lemma FeedSum(g: Code, x: Register, y: Register, a: Bytes, b: Bytes)
    requires |a| == |b|
    ensures Feed(g, Xor(x, y), XorBytes(a, b)) == Xor(Feed(g, x, a), Feed(g, y, b))
  {
    MessageBitsXor(a, b);
    RunLinear(g, x, y, MessageBits(a), MessageBits(b));
  }

  lemma XorIsZero(a: Register, b: Register)
    ensures Xor(a, b) == 0 <==> a == b
  {
    XorZero(a);
    XorTwice(a, b);
    XorCommutes(0, b);
    XorZero(b);
  }

  /** Two messages of equal length lead to the same register if and only if their
      difference leaves a zero register at zero. */
  lemma SameFeed(g: Code, c: Register, a: Bytes, b: Bytes)
    requires |a| == |b|
    ensures Feed(g, c, a) == Feed(g, c, b) <==> Feed(g, 0, XorBytes(a, b)) == 0
  {
    FeedSum(g, c, c, a, b);
    XorZero(c);
    XorIsZero(Feed(g, c, a), Feed(g, c, b));
  }

  // ------------------------------------------------------------------ burst errors

  lemma RunThree(g: Code, c: Register, u: Bits, w: Bits, v: Bits)
    ensures Run(g, c, u + (w + v)) == Run(g, Run(g, Run(g, c, u), w), v)
  {
    RunAppend(g, c, u, w + v);
    RunAppend(g, Run(g, c, u), w, v);
  }

  lemma WindowsAgree(g: Code, c: Register, u: Bits, s: Bits, t: Bits, v: Bits)
    requires Fits(g, c) && |s| == |t| <= Width(g)
    requires Run(g, c, u + (s + v)) == Run(g, c, u + (t + v))
    ensures s == t
  {
    var r := Run(g, c, u);
    RunThree(g, c, u, s, v);
    RunThree(g, c, u, t, v);
    RunFits(g, c, u);
    RunFits(g, r, s);
    RunFits(g, r, t);
    RunInjective(g, Run(g, r, s), Run(g, r, t), v);
    RunSeparates(g, r, s, t);
  }

  lemma RunsSeparate(g: Code, c: Register, s: Bits, t: Bits, p: nat)
    requires Fits(g, c) && |s| == |t| && p <= |s| && AgreeOutside(s, t, p, Width(g))
    requires Run(g, c, s) == Run(g, c, t)
    ensures s == t
  {
    var q := if p + Width(g) <= |s| then p + Width(g) else |s|;
    SplitAt(s, p, q);
    SplitAt(t, p, q);
    assert s[..p] == t[..p];
    assert s[q..] == t[q..];
    WindowsAgree(g, c, s[..p], s[p..q], t[p..q], s[q..]);
  }

  /** Messages of equal length that differ within a window as wide as the register, at
      any bit position, lead to different registers. */
  lemma BurstSeparated(g: Code, c: Register, a: Bytes, b: Bytes, p: nat)
    requires Fits(g, c) && |a| == |b| && a != b
    requires AgreeOutside(MessageBits(a), MessageBits(b), p, Width(g))
    ensures Feed(g, c, a) != Feed(g, c, b)
  {
    if Feed(g, c, a) == Feed(g, c, b) {
      var s, t := MessageBits(a), MessageBits(b);
      RunsSeparate(g, c, s, t, if p <= |s| then p else |s|);
      MessageBitsInjective(a, b);
    }
  }
}
