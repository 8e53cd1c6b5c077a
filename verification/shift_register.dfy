/** The reflected shift registers behind the checksums, one message bit at a time.
    The 16-bit register lives in the low half of a word, so that both have the same
    type and the same laws. */
module ShiftRegister {
  import opened BitStream

  type Register = bv32

  /** `calc16` uses the Modbus register, `calc32` the one of Ethernet. */
  datatype Code = Modbus | Ethernet

  function Width(g: Code): nat {
    match g
    case Modbus => 16
    case Ethernet => 32
  }

  /** What is added to the register when a one falls out of it. */
  function Feedback(g: Code): Register {
    match g
    case Modbus => 0xA001
    case Ethernet => 0xEDB8_8320
  }

  /** All bits of the register. */
  function Full(g: Code): Register {
    match g
    case Modbus => 0xffff
    case Ethernet => 0xffff_ffff
  }

  /** All bits but the highest. */
  function Lower(g: Code): Register {
    match g
    case Modbus => 0x7fff
    case Ethernet => 0x7fff_ffff
  }

  /** A value that the register can have. */
  predicate Fits(g: Code, x: Register) {
    Within(x, Full(g))
  }

  /** Addition over GF(2). The word operations are functions of their own, so
      that proofs about runs can treat each of them as one symbol. */
  function Xor(a: Register, b: Register): Register {
    a ^ b
  }

  function Half(x: Register): Register {
    x >> 1
  }

  function Double(p: Register): Register {
    p << 1
  }

  predicate Low(x: Register) {
    x & 1 == 1
  }

  /** The highest bit is set. */
  predicate Top(g: Code, x: Register) {
    !Within(x, Lower(g))
  }

  function Bit(b: bool): Register {
    if b then 1 else 0
  }

  /** All ones of `p` are ones of `m`. */
  predicate Within(p: Register, m: Register) {
    p | m == m
  }

  function AddIf(b: bool, x: Register, p: Register): Register {
    if b then Xor(x, p) else x
  }

  function Step(g: Code, x: Register): Register {
    AddIf(Low(x), Half(x), Feedback(g))
  }

  function Unstep(g: Code, y: Register): Register {
    if Top(g, y) then Xor(Double(Xor(y, Feedback(g))), 1) else Double(y)
  }

  /** `n` steps without input. */
  function Shift(g: Code, n: nat, x: Register): Register {
    if n == 0 then x else Shift(g, n - 1, Step(g, x))
  }

  function Unshift(g: Code, n: nat, y: Register): Register {
    if n == 0 then y else Unstep(g, Unshift(g, n - 1, y))
  }

  /** The bit-at-a-time register: every input bit is added to the low bit, then
      the register steps. */
  function Run(g: Code, c: Register, s: Bits): Register
    decreases s
  {
    if s == [] then c else Run(g, Step(g, Xor(c, Bit(s[0]))), s[1..])
  }

  // ------------------------------------------------------------ GF(2) arithmetic

  lemma XorAssociative(a: Register, b: Register, c: Register)
    ensures Xor(a, Xor(b, c)) == Xor(Xor(a, b), c)
  {
  }

  lemma XorTwice(a: Register, b: Register)
    ensures Xor(Xor(a, b), b) == a
  {
  }

  lemma XorCommutes(a: Register, b: Register)
    ensures Xor(a, b) == Xor(b, a)
  {
  }

  lemma XorRight(a: Register, b: Register, c: Register)
    ensures Xor(Xor(a, c), b) == Xor(Xor(a, b), c)
  {
    XorAssociative(a, c, b);
    XorCommutes(c, b);
    XorAssociative(a, b, c);
  }

  lemma XorZero(a: Register)
    ensures Xor(a, 0) == a && Xor(a, a) == 0
  {
  }

  lemma XorExchange(a: Register, b: Register, c: Register, d: Register)
    ensures Xor(Xor(a, b), Xor(c, d)) == Xor(Xor(a, c), Xor(b, d))
  {
    XorAssociative(Xor(a, b), c, d);
    XorRight(a, c, b);
    XorAssociative(Xor(a, c), b, d);
  }

  lemma HalfXor(x: Register, y: Register)
    ensures Half(Xor(x, y)) == Xor(Half(x), Half(y))
  {
  }

  lemma LowXor(x: Register, y: Register)
    ensures Low(Xor(x, y)) == (Low(x) != Low(y))
  {
  }

  // ------------------------------------------- the step is linear and invertible

  lemma AddIfLinear(b: bool, d: bool, x: Register, y: Register, p: Register)
    ensures AddIf(b != d, Xor(x, y), p) == Xor(AddIf(b, x, p), AddIf(d, y, p))
  {
    XorRight(x, y, p);
    XorAssociative(x, y, p);
    XorAssociative(Xor(x, p), y, p);
    XorTwice(Xor(x, y), p);
  }

  lemma StepLinear(g: Code, x: Register, y: Register)
    ensures Step(g, Xor(x, y)) == Xor(Step(g, x), Step(g, y))
  {
    HalfXor(x, y);
    LowXor(x, y);
    AddIfLinear(Low(x), Low(y), Half(x), Half(y), Feedback(g));
  }

  lemma HalfFits(g: Code, x: Register)
    requires Fits(g, x)
    ensures Within(Half(x), Lower(g)) && Fits(g, Half(x))
  {
    match g
    case Modbus =>
    case Ethernet =>
  }

  /** The feedback has the highest bit, which `Half` leaves clear. */
  lemma FeedbackTop(g: Code, h: Register)
    requires Within(h, Lower(g))
    ensures !Top(g, h) && Top(g, Xor(h, Feedback(g))) && Fits(g, Xor(h, Feedback(g)))
  {
    match g
    case Modbus =>
    case Ethernet =>
  }

  lemma FeedbackClears(g: Code, y: Register)
    requires Fits(g, y) && Top(g, y)
    ensures Within(Xor(y, Feedback(g)), Lower(g))
  {
    match g
    case Modbus =>
    case Ethernet =>
  }

  lemma DoubleFits(g: Code, h: Register)
    requires Within(h, Lower(g))
    ensures Fits(g, Double(h)) && Fits(g, Xor(Double(h), 1)) && Within(h, 0x7fff_ffff)
  {
    match g
    case Modbus =>
    case Ethernet =>
  }

  lemma JoinHalves(x: Register)
    ensures if Low(x) then Xor(Double(Half(x)), 1) == x else Double(Half(x)) == x
  {
  }

  lemma StepFits(g: Code, x: Register)
    requires Fits(g, x)
    ensures Fits(g, Step(g, x))
  {
    HalfFits(g, x);
    FeedbackTop(g, Half(x));
  }

  lemma UnstepFits(g: Code, y: Register)
    requires Fits(g, y)
    ensures Fits(g, Unstep(g, y))
  {
    if Top(g, y) {
      FeedbackClears(g, y);
      DoubleFits(g, Xor(y, Feedback(g)));
    } else {
      DoubleFits(g, y);
    }
  }

  lemma UnstepStep(g: Code, x: Register)
    requires Fits(g, x)
    ensures Unstep(g, Step(g, x)) == x
  {
    HalfFits(g, x);
    FeedbackTop(g, Half(x));
    XorTwice(Half(x), Feedback(g));
    JoinHalves(x);
  }

  lemma StepUnstep(g: Code, y: Register)
    requires Fits(g, y)
    ensures Step(g, Unstep(g, y)) == y
  {
    if Top(g, y) {
      var z := Xor(y, Feedback(g));
      FeedbackClears(g, y);
      DoubleFits(g, z);
      HalfDoubleSet(z);
      XorTwice(y, Feedback(g));
    } else {
      DoubleFits(g, y);
      HalfDoubleClear(y);
    }
  }

  lemma XorFits(g: Code, x: Register, y: Register)
    requires Fits(g, x) && Fits(g, y)
    ensures Fits(g, Xor(x, y))
  {
    match g
    case Modbus =>
    case Ethernet =>
  }

  lemma BitFits(g: Code, b: bool)
    ensures Fits(g, Bit(b))
  {
    match g
    case Modbus =>
    case Ethernet =>
  }

  /** 32 bits are always enough for the wide register. */
  lemma EthernetFits(x: Register)
    ensures Fits(Ethernet, x)
  {
  }

  lemma {:induction false} ShiftLinear(g: Code, n: nat, x: Register, y: Register)
    ensures Shift(g, n, Xor(x, y)) == Xor(Shift(g, n, x), Shift(g, n, y))
  {
    if n == 0 {
    } else {
      StepLinear(g, x, y);
      ShiftLinear(g, n - 1, Step(g, x), Step(g, y));
    }
  }

  lemma {:induction false} ShiftSum(g: Code, m: nat, n: nat, x: Register)
    ensures Shift(g, m + n, x) == Shift(g, n, Shift(g, m, x))
  {
    if m == 0 {
    } else {
      ShiftSum(g, m - 1, n, Step(g, x));
    }
  }

  lemma {:induction false} ShiftFits(g: Code, n: nat, x: Register)
    requires Fits(g, x)
    ensures Fits(g, Shift(g, n, x)) && Fits(g, Unshift(g, n, x))
  {
    if n == 0 {
    } else {
      StepFits(g, x);
      ShiftFits(g, n - 1, Step(g, x));
      ShiftFits(g, n - 1, x);
      UnstepFits(g, Unshift(g, n - 1, x));
    }
  }

  /** `Unshift` is the two-sided inverse of `Shift`. */
  lemma {:induction false} ShiftInvertible(g: Code, n: nat, x: Register)
    requires Fits(g, x)
    ensures Unshift(g, n, Shift(g, n, x)) == x
    ensures Shift(g, n, Unshift(g, n, x)) == x
  {
    if n == 0 {
    } else {
      StepFits(g, x);
      ShiftInvertible(g, n - 1, Step(g, x));
      UnstepStep(g, x);
      ShiftInvertible(g, n - 1, x);
      ShiftFits(g, n - 1, x);
      StepUnstep(g, Unshift(g, n - 1, x));
    }
  }

  // ------------------------------------------------------------ runs over bits

  lemma {:induction false} RunAppend(g: Code, c: Register, s: Bits, t: Bits)
    ensures Run(g, c, s + t) == Run(g, Run(g, c, s), t)
    decreases s
  {
    if s == [] {
      assert s + t == t;
    } else {
      assert (s + t)[1..] == s[1..] + t;
      RunAppend(g, Step(g, Xor(c, Bit(s[0]))), s[1..], t);
    }
  }

  lemma BitXor(a: bool, b: bool)
    ensures Bit(a != b) == Xor(Bit(a), Bit(b))
  {
  }

  /** The run is linear in the starting value and the input together. */
  lemma {:induction false} RunLinear(g: Code, x: Register, y: Register, s: Bits, t: Bits)
    requires |s| == |t|
    ensures Run(g, Xor(x, y), XorBits(s, t)) == Xor(Run(g, x, s), Run(g, y, t))
    decreases s
  {
    if s == [] {
    } else {
      var b, d := Bit(s[0]), Bit(t[0]);
      var u := XorBits(s, t);
      assert u[1..] == XorBits(s[1..], t[1..]);
      BitXor(s[0], t[0]);
      XorExchange(x, y, b, d);
      StepLinear(g, Xor(x, b), Xor(y, d));
      RunLinear(g, Step(g, Xor(x, b)), Step(g, Xor(y, d)), s[1..], t[1..]);
    }
  }

  /** The part of a starting value that is split off just shifts along. */
  lemma {:induction false} RunSplit(g: Code, x: Register, y: Register, s: Bits)
    ensures Run(g, Xor(x, y), s) == Xor(Shift(g, |s|, x), Run(g, y, s))
    decreases s
  {
    if s == [] {
    } else {
      var b := Bit(s[0]);
      XorAssociative(x, y, b);
      StepLinear(g, x, Xor(y, b));
      RunSplit(g, Step(g, x), Step(g, Xor(y, b)), s[1..]);
    }
  }

  lemma {:induction false} RunFits(g: Code, c: Register, s: Bits)
    requires Fits(g, c)
    ensures Fits(g, Run(g, c, s))
    decreases s
  {
    if s == [] {
    } else {
      FeedFits(g, c, s[0]);
      RunFits(g, Step(g, Xor(c, Bit(s[0]))), s[1..]);
    }
  }

  lemma FeedFits(g: Code, c: Register, b: bool)
    requires Fits(g, c)
    ensures Fits(g, Xor(c, Bit(b))) && Fits(g, Step(g, Xor(c, Bit(b))))
  {
    BitFits(g, b);
    XorFits(g, c, Bit(b));
    StepFits(g, Xor(c, Bit(b)));
  }

  lemma FeedInjective(g: Code, x: Register, y: Register, b: Register)
    requires Fits(g, Xor(x, b)) && Fits(g, Xor(y, b)) && Step(g, Xor(x, b)) == Step(g, Xor(y, b))
    ensures x == y
  {
    UnstepStep(g, Xor(x, b));
    UnstepStep(g, Xor(y, b));
    XorTwice(x, b);
    XorTwice(y, b);
  }

  lemma {:induction false} RunInjective(g: Code, x: Register, y: Register, s: Bits)
    requires Fits(g, x) && Fits(g, y) && Run(g, x, s) == Run(g, y, s)
    ensures x == y
    decreases s
  {
    if s == [] {
    } else {
      var b := Bit(s[0]);
      FeedFits(g, x, s[0]);
      FeedFits(g, y, s[0]);
      RunInjective(g, Step(g, Xor(x, b)), Step(g, Xor(y, b)), s[1..]);
      FeedInjective(g, x, y, b);
    }
  }

  // ----------------------------------------------- feeding up to 32 bits at once

  /** Bits as a register value, the first bit lowest. */
  function Pack(s: Bits): Register {
    if s == [] then 0 else Xor(Double(Pack(s[1..])), Bit(s[0]))
  }

  /** The low `n` bits. */
  function Mask(n: nat): Register {
    if n == 0 then 0 else Xor(Double(Mask(n - 1)), 1)
  }

  lemma WithinDouble(p: Register, m: Register, b: bool)
    requires Within(p, m)
    ensures Within(Xor(Double(p), Bit(b)), Xor(Double(m), 1))
  {
    if b {
      assert Within(Xor(Double(p), 1), Xor(Double(m), 1));
    } else {
      assert Within(Xor(Double(p), 0), Xor(Double(m), 1));
    }
  }

  lemma WithinTransitive(p: Register, m: Register, q: Register)
    requires Within(p, m) && Within(m, q)
    ensures Within(p, q)
  {
  }

  lemma {:induction false} MaskGrows(n: nat)
    ensures Within(Mask(n), Mask(n + 1))
  {
    if n == 0 {
    } else {
      MaskGrows(n - 1);
      WithinDouble(Mask(n - 1), Mask(n), true);
    }
  }

  lemma {:induction false} MaskMonotone(m: nat, n: nat)
    requires m <= n
    ensures Within(Mask(m), Mask(n))
  {
    if m == n {
      WithinSelf(Mask(m));
    } else {
      MaskMonotone(m, n - 1);
      MaskGrows(n - 1);
      WithinTransitive(Mask(m), Mask(n - 1), Mask(n));
    }
  }

  lemma WithinSelf(m: Register)
    ensures Within(m, m)
  {
  }

  lemma MaskBelowTop(n: nat)
    requires n <= 31
    ensures Within(Mask(n), 0x7fff_ffff)
  {
    MaskMonotone(n, 31);
    assert Mask(8) == 0xff;
    assert Mask(16) == 0xffff;
    assert Mask(24) == 0xff_ffff;
  }

  lemma {:induction false} PackWithinMask(s: Bits)
    ensures Within(Pack(s), Mask(|s|))
  {
    if s == [] {
    } else {
      PackWithinMask(s[1..]);
      WithinDouble(Pack(s[1..]), Mask(|s| - 1), s[0]);
    }
  }

  /** Fewer than 32 bits leave the top bit of the packed value clear. */
  lemma PackFits(s: Bits)
    requires |s| <= 31
    ensures Within(Pack(s), 0x7fff_ffff)
  {
    PackWithinMask(s);
    MaskBelowTop(|s|);
    WithinTransitive(Pack(s), Mask(|s|), 0x7fff_ffff);
  }

  lemma HalfDoubleClear(p: Register)
    requires Within(p, 0x7fff_ffff)
    ensures Half(Double(p)) == p && !Low(Double(p))
  {
  }

  lemma HalfDoubleSet(p: Register)
    requires Within(p, 0x7fff_ffff)
    ensures Half(Xor(Double(p), 1)) == p && Low(Xor(Double(p), 1))
  {
  }

  lemma HalfDouble(p: Register, b: bool)
    requires Within(p, 0x7fff_ffff)
    ensures Half(Xor(Double(p), Bit(b))) == p
    ensures Low(Xor(Double(p), Bit(b))) == b
  {
    if b {
      HalfDoubleSet(p);
    } else {
      HalfDoubleClear(p);
      XorZero(Double(p));
    }
  }

  lemma StepDouble(g: Code, p: Register)
    requires Within(p, 0x7fff_ffff)
    ensures Step(g, Double(p)) == p
  {
  }

  /** Up to 32 bits can be added to the register in one go. */
  lemma {:induction false} RunPacked(g: Code, c: Register, s: Bits)
    requires |s| <= 32
    ensures Run(g, c, s) == Shift(g, |s|, Xor(c, Pack(s)))
    decreases s
  {
    if s == [] {
      XorZero(c);
    } else {
      var p, b := Pack(s[1..]), Bit(s[0]);
      PackFits(s[1..]);
      StepDouble(g, p);
      XorAssociative(c, Double(p), b);
      XorRight(c, Double(p), b);
      StepLinear(g, Xor(c, b), Double(p));
      RunPacked(g, Step(g, Xor(c, b)), s[1..]);
    }
  }

  lemma {:induction false} PackInjective(s: Bits, t: Bits)
    requires |s| == |t| <= 32 && Pack(s) == Pack(t)
    ensures s == t
  {
    if s == [] {
    } else {
      PackFits(s[1..]);
      PackFits(t[1..]);
      HalfDouble(Pack(s[1..]), s[0]);
      HalfDouble(Pack(t[1..]), t[0]);
      PackInjective(s[1..], t[1..]);
    }
  }

  lemma MaskFull(g: Code)
    ensures Mask(Width(g)) == Full(g)
  {
    assert Mask(8) == 0xff;
    assert Mask(16) == 0xffff;
    assert Mask(24) == 0xff_ffff;
    assert Mask(32) == 0xffff_ffff;
  }

  lemma LowerMask(g: Code)
    ensures Mask(Width(g) - 1) == Lower(g)
  {
    assert Mask(8) == 0xff;
    assert Mask(15) == 0x7fff;
    assert Mask(23) == 0x7f_ffff;
    assert Mask(31) == 0x7fff_ffff;
  }

  lemma WithinHalf(y: Register, m: Register)
    requires Within(y, Xor(Double(m), 1)) && Within(m, 0x7fff_ffff)
    ensures Within(Half(y), m)
  {
  }

  lemma FullFits(g: Code)
    ensures Fits(g, Full(g)) && Fits(g, 0) && Fits(g, 1)
  {
  }

  lemma PackFitsCode(g: Code, s: Bits)
    requires |s| <= Width(g)
    ensures Fits(g, Pack(s))
  {
    PackWithinMask(s);
    MaskMonotone(|s|, Width(g));
    WithinTransitive(Pack(s), Mask(|s|), Mask(Width(g)));
    MaskFull(g);
  }

  /** Two different inputs that are no longer than the register never lead to the same
      register. */
  lemma RunSeparates(g: Code, c: Register, s: Bits, t: Bits)
    requires Fits(g, c) && |s| == |t| <= Width(g) && Run(g, c, s) == Run(g, c, t)
    ensures s == t
  {
    var n := |s|;
    RunPacked(g, c, s);
    RunPacked(g, c, t);
    PackFitsCode(g, s);
    PackFitsCode(g, t);
    XorFits(g, c, Pack(s));
    XorFits(g, c, Pack(t));
    ShiftInvertible(g, n, Xor(c, Pack(s)));
    ShiftInvertible(g, n, Xor(c, Pack(t)));
    XorCommutes(Pack(s), c);
    XorCommutes(Pack(t), c);
    XorTwice(Pack(s), c);
    XorTwice(Pack(t), c);
    PackInjective(s, t);
  }
}
