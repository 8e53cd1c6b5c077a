/** The textbook meaning of the shift registers: remainders of polynomials over
    GF(2). */
module RegisterPolynomial {
  import opened BitStream
  import opened Gf2
  import opened ShiftRegister
  import opened ByteRegister

  /** x^16 + x^15 + x^2 + 1, and
      x^32 + x^26 + x^23 + x^22 + x^16 + x^12 + x^11 + x^10 + x^8 + x^7 + x^5 + x^4 + x^2 + x + 1 */
  function Generator(g: Code): Poly {
    match g
    case Modbus => {16, 15, 2, 0}
    case Ethernet => {32, 26, 23, 22, 16, 12, 11, 10, 8, 7, 5, 4, 2, 1, 0}
  }

  /** x^(n-1) + ... + x + 1 */
  function Ones(n: nat): Poly {
    if n == 0 then {} else {n - 1} + Ones(n - 1)
  }

  function Monomial(b: bool, k: nat): Poly {
    if b then {k} else {}
  }

  /** A message as a polynomial: every further bit multiplies by x, so the first
      bit has the highest exponent. */
  function MessagePoly(s: Bits): Poly {
    if s == [] then {}
    else Add(Raise(1, MessagePoly(s[..|s| - 1])), Monomial(s[|s| - 1], 0))
  }

  /** Bit `j` of a register, counted from the low end. */
  predicate BitAt(r: Register, j: nat) {
    if j == 0 then Low(r) else BitAt(Half(r), j - 1)
  }

  /** A register as a polynomial, bit-reflected: the lowest bit has the highest
      exponent. */
  function RegisterPoly(g: Code, r: Register): Poly {
    set k | k in Below(Width(g)) && BitAt(r, Width(g) - 1 - k)
  }

  /** The exponents below `n`. */
  function Below(n: nat): (s: Poly)
    ensures forall k: nat :: k in s <==> k < n
  {
    if n == 0 then {} else Below(n - 1) + {n - 1}
  }

  /** What is divided: the message behind a starting register value, followed by as
      many zero bits as the register is wide. */
  function Dividend(g: Code, start: Poly, s: Bits): Poly {
    Add(Raise(Width(g), MessagePoly(s)), Raise(|s|, start))
  }

  // ------------------------------------------------------ registers as polynomials

  lemma InRegisterPoly(g: Code, r: Register, k: nat)
    ensures k in RegisterPoly(g, r) <==> k < Width(g) && BitAt(r, Width(g) - 1 - k)
  {
  }

  function Drop(j: nat, r: Register): Register {
    if j == 0 then r else Drop(j - 1, Half(r))
  }

  lemma {:induction false} BitAtDrop(r: Register, j: nat)
    ensures BitAt(r, j) == Low(Drop(j, r))
    decreases j
  {
    if j == 0 {
    } else {
      BitAtDrop(Half(r), j - 1);
    }
  }

  lemma {:induction false} DropXor(j: nat, a: Register, b: Register)
    ensures Drop(j, Xor(a, b)) == Xor(Drop(j, a), Drop(j, b))
  {
    if j == 0 {
    } else {
      HalfXor(a, b);
      DropXor(j - 1, Half(a), Half(b));
    }
  }

  lemma BitAtXor(a: Register, b: Register, j: nat)
    ensures BitAt(Xor(a, b), j) == (BitAt(a, j) != BitAt(b, j))
  {
    BitAtDrop(a, j);
    BitAtDrop(b, j);
    BitAtDrop(Xor(a, b), j);
    DropXor(j, a, b);
    LowXor(Drop(j, a), Drop(j, b));
  }

  lemma RegisterPolyXorMember(g: Code, a: Register, b: Register, k: nat)
    ensures k in RegisterPoly(g, Xor(a, b)) <==> k in Add(RegisterPoly(g, a), RegisterPoly(g, b))
  {
    InRegisterPoly(g, a, k);
    InRegisterPoly(g, b, k);
    InRegisterPoly(g, Xor(a, b), k);
    InAdd(RegisterPoly(g, a), RegisterPoly(g, b), k);
    if k < Width(g) {
      BitAtXor(a, b, Width(g) - 1 - k);
    }
  }

  /** Adding registers is adding their polynomials. */
  lemma RegisterPolyXor(g: Code, a: Register, b: Register)
    ensures RegisterPoly(g, Xor(a, b)) == Add(RegisterPoly(g, a), RegisterPoly(g, b))
  {
    var p, q := RegisterPoly(g, Xor(a, b)), Add(RegisterPoly(g, a), RegisterPoly(g, b));
    forall k: nat
      ensures k in p <==> k in q
    {
      RegisterPolyXorMember(g, a, b, k);
    }
    SameMembers(p, q);
  }

  lemma WithinZero(y: Register)
    requires Within(y, 0)
    ensures y == 0 && !Low(y) && Half(y) == 0
  {
  }

  lemma {:induction false} BitBeyond(n: nat, y: Register)
    requires n <= 32 && Within(y, Mask(n))
    ensures !BitAt(y, n)
    decreases n
  {
    if n == 0 {
      WithinZero(y);
    } else {
      MaskBelowTop(n - 1);
      WithinHalf(y, Mask(n - 1));
      BitBeyond(n - 1, Half(y));
    }
  }

  lemma {:induction false} BitsZero(n: nat, y: Register)
    requires n <= 32 && Within(y, Mask(n)) && forall j: nat :: j < n ==> !BitAt(y, j)
    ensures y == 0
    decreases n
  {
    if n == 0 {
      WithinZero(y);
    } else {
      MaskBelowTop(n - 1);
      WithinHalf(y, Mask(n - 1));
      forall j: nat | j < n - 1
        ensures !BitAt(Half(y), j)
      {
        assert !BitAt(y, j + 1);
      }
      BitsZero(n - 1, Half(y));
      assert !BitAt(y, 0);
      HalfLowZero(y);
    }
  }

  lemma HalfLowZero(y: Register)
    requires Half(y) == 0 && !Low(y)
    ensures y == 0
  {
  }

  lemma SameBit(g: Code, a: Register, b: Register, j: nat)
    requires RegisterPoly(g, a) == RegisterPoly(g, b) && j < Width(g)
    ensures !BitAt(Xor(a, b), j)
  {
    InRegisterPoly(g, a, Width(g) - 1 - j);
    InRegisterPoly(g, b, Width(g) - 1 - j);
    BitAtXor(a, b, j);
  }

  lemma FitsMask(g: Code, y: Register)
    requires Fits(g, y)
    ensures Within(y, Mask(Width(g)))
  {
    MaskFull(g);
  }

  /** Different register values are different polynomials. */
  lemma RegisterPolyInjective(g: Code, a: Register, b: Register)
    requires Fits(g, a) && Fits(g, b) && RegisterPoly(g, a) == RegisterPoly(g, b)
    ensures a == b
  {
    XorFits(g, a, b);
    FitsMask(g, Xor(a, b));
    forall j: nat | j < Width(g)
      ensures !BitAt(Xor(a, b), j)
    {
      SameBit(g, a, b, j);
    }
    BitsZero(Width(g), Xor(a, b));
    XorIsZero(a, b);
  }

  lemma {:induction false} BitAtMask(n: nat, j: nat)
    requires j < n <= 32
    ensures BitAt(Mask(n), j)
    decreases n
  {
    MaskBelowTop(n - 1);
    HalfDoubleSet(Mask(n - 1));
    if j == 0 {
    } else {
      BitAtMask(n - 1, j - 1);
    }
  }

  lemma {:induction false} InOnes(n: nat, k: nat)
    ensures k in Ones(n) <==> k < n
  {
    if n == 0 {
    } else {
      InOnes(n - 1, k);
    }
  }

  lemma InRegisterPolyOnes(g: Code, k: nat)
    ensures k in RegisterPoly(g, Full(g)) <==> k < Width(g)
  {
    InRegisterPoly(g, Full(g), k);
    MaskFull(g);
    if k < Width(g) {
      BitAtMask(Width(g), Width(g) - 1 - k);
    }
  }

  lemma RegisterPolyOnes(g: Code)
    ensures RegisterPoly(g, Full(g)) == Ones(Width(g))
  {
    var p, q := RegisterPoly(g, Full(g)), Ones(Width(g));
    forall k: nat
      ensures k in p <==> k in q
    {
      InRegisterPolyOnes(g, k);
      InOnes(Width(g), k);
    }
    SameMembers(p, q);
  }

  lemma {:induction false} BitAtSkip(r: Register, n: nat, j: nat)
    ensures BitAt(r, j + n) == BitAt(Drop(n, r), j)
  {
    if n == 0 {
    } else {
      BitAtSkip(Half(r), n - 1, j);
    }
  }

  lemma EightHalves(r: Register)
    ensures Half(Half(Half(Half(Half(Half(Half(Half(r)))))))) == DropByte(r)
  {
  }

  lemma DropEight(r: Register)
    ensures Drop(8, r) == DropByte(r)
  {
    var r2 := Half(Half(r));
    var r4 := Half(Half(r2));
    var r6 := Half(Half(r4));
    EightHalves(r);
    assert Drop(8, r) == Drop(7, Half(r)) == Drop(6, r2);
    assert Drop(6, r2) == Drop(5, Half(r2)) == Drop(4, r4);
    assert Drop(4, r4) == Drop(3, Half(r4)) == Drop(2, r6);
    assert Drop(2, r6) == Drop(1, Half(r6)) == Drop(0, Half(Half(r6)));
  }

  lemma BitAtByte(r: Register, j: nat)
    ensures BitAt(r, j + 8) == BitAt(DropByte(r), j)
  {
    BitAtSkip(r, 8, j);
    DropEight(r);
  }

  lemma EthernetByte0(j: nat)
    requires j < 8
    ensures BitAt(0xEDB88320, j) <==> j in {5}
  {
    assert j == 0 || j == 1 || j == 2 || j == 3 || j == 4 || j == 5 || j == 6 || j == 7;
  }

  lemma EthernetByte1(j: nat)
    requires j < 8
    ensures BitAt(0xEDB883, j) <==> j in {0, 1, 7}
  {
    assert j == 0 || j == 1 || j == 2 || j == 3 || j == 4 || j == 5 || j == 6 || j == 7;
  }

  lemma EthernetByte2(j: nat)
    requires j < 8
    ensures BitAt(0xEDB8, j) <==> j in {3, 4, 5, 7}
  {
    assert j == 0 || j == 1 || j == 2 || j == 3 || j == 4 || j == 5 || j == 6 || j == 7;
  }

  lemma EthernetByte3(j: nat)
    requires j < 8
    ensures BitAt(0xED, j) <==> j in {0, 2, 3, 5, 6, 7}
  {
    assert j == 0 || j == 1 || j == 2 || j == 3 || j == 4 || j == 5 || j == 6 || j == 7;
  }

  lemma ModbusByte0(j: nat)
    requires j < 8
    ensures BitAt(0xA001, j) <==> j in {0}
  {
    assert j == 0 || j == 1 || j == 2 || j == 3 || j == 4 || j == 5 || j == 6 || j == 7;
  }

  lemma ModbusByte1(j: nat)
    requires j < 8
    ensures BitAt(0xA0, j) <==> j in {5, 7}
  {
    assert j == 0 || j == 1 || j == 2 || j == 3 || j == 4 || j == 5 || j == 6 || j == 7;
  }

  lemma ModbusBit(k: nat)
    requires k < 16
    ensures BitAt(0xA001, 15 - k) <==> k in {15, 2, 0}
  {
    var j := 15 - k;
    if j < 8 {
      ModbusByte0(j);
    } else {
      BitAtByte(0xA001, j - 8);
      ModbusByte1(j - 8);
    }
  }

  lemma EthernetBit(k: nat)
    requires k < 32
    ensures BitAt(0xEDB8_8320, 31 - k) <==> k in {26, 23, 22, 16, 12, 11, 10, 8, 7, 5, 4, 2, 1, 0}
  {
    var j := 31 - k;
    if j < 8 {
      EthernetByte0(j);
    } else if j < 16 {
      BitAtByte(0xEDB88320, j - 8);
      EthernetByte1(j - 8);
    } else if j < 24 {
      BitAtByte(0xEDB88320, j - 8);
      BitAtByte(0xEDB883, j - 16);
      EthernetByte2(j - 16);
    } else {
      BitAtByte(0xEDB88320, j - 8);
      BitAtByte(0xEDB883, j - 16);
      BitAtByte(0xEDB8, j - 24);
      EthernetByte3(j - 24);
    }
  }

  /** The feedback word is the generator without its leading term. */
  lemma FeedbackBit(g: Code, k: nat)
    requires k < Width(g)
    ensures BitAt(Feedback(g), Width(g) - 1 - k) <==> k in Generator(g)
  {
    match g
    case Modbus => ModbusBit(k);
    case Ethernet => EthernetBit(k);
  }

  lemma FeedbackPoly(g: Code)
    ensures Add({Width(g)}, RegisterPoly(g, Feedback(g))) == Generator(g)
  {
    forall k: nat
      ensures k in Add({Width(g)}, RegisterPoly(g, Feedback(g))) <==> k in Generator(g)
    {
      InAdd({Width(g)}, RegisterPoly(g, Feedback(g)), k);
      InRegisterPoly(g, Feedback(g), k);
      if k < Width(g) {
        FeedbackBit(g, k);
      }
    }
    SameMembers(Add({Width(g)}, RegisterPoly(g, Feedback(g))), Generator(g));
  }

  lemma RaiseRegisterMember(g: Code, x: Register, k: nat)
    requires Fits(g, x)
    ensures k in Raise(1, RegisterPoly(g, x)) <==> k in Add(Monomial(Low(x), Width(g)), RegisterPoly(g, Half(x)))
  {
    InAdd(Monomial(Low(x), Width(g)), RegisterPoly(g, Half(x)), k);
    InRegisterPoly(g, Half(x), k);
    if k == 0 {
      LowerMask(g);
      HalfFits(g, x);
      BitBeyond(Width(g) - 1, Half(x));
    } else {
      InRaise(1, RegisterPoly(g, x), k - 1);
      InRegisterPoly(g, x, k - 1);
    }
  }

  lemma RaiseRegister(g: Code, x: Register)
    requires Fits(g, x)
    ensures Raise(1, RegisterPoly(g, x)) == Add(Monomial(Low(x), Width(g)), RegisterPoly(g, Half(x)))
  {
    var p, q := Raise(1, RegisterPoly(g, x)), Add(Monomial(Low(x), Width(g)), RegisterPoly(g, Half(x)));
    forall k: nat
      ensures k in p <==> k in q
    {
      RaiseRegisterMember(g, x, k);
    }
    SameMembers(p, q);
  }

  lemma AddFeedback(p: Poly, h: Poly, f: Poly)
    ensures Add(p, h) == Add(Add(p, f), Add(h, f))
  {
  }

  /** One register step is one step of long division. */
  lemma StepPoly(g: Code, x: Register)
    requires Fits(g, x)
    ensures Raise(1, RegisterPoly(g, x))
         == Add(if Low(x) then Generator(g) else {}, RegisterPoly(g, Step(g, x)))
  {
    RaiseRegister(g, x);
    if Low(x) {
      RegisterPolyXor(g, Half(x), Feedback(g));
      FeedbackPoly(g);
      AddFeedback({Width(g)}, RegisterPoly(g, Half(x)), RegisterPoly(g, Feedback(g)));
    }
  }

  // ------------------------------------------------------ messages as polynomials

  /** The coefficient of x^k is the bit that is `k` places before the last one. */
  lemma {:induction false} MessagePolyCoefficient(s: Bits, k: nat)
    ensures k in MessagePoly(s) <==> k < |s| && s[|s| - 1 - k]
  {
    if s == [] {
    } else {
      var t := s[..|s| - 1];
      InAdd(Raise(1, MessagePoly(t)), Monomial(s[|s| - 1], 0), k);
      if k != 0 {
        InRaise(1, MessagePoly(t), k - 1);
        MessagePolyCoefficient(t, k - 1);
      }
    }
  }

  lemma RaiseMonomial(n: nat, b: bool, k: nat)
    ensures Raise(n, Monomial(b, k)) == Monomial(b, k + n)
  {
  }

  lemma DividendNext(g: Code, start: Poly, t: Bits, b: bool)
    ensures Dividend(g, start, t + [b]) == Add(Raise(1, Dividend(g, start, t)), Monomial(b, Width(g)))
  {
    var s := t + [b];
    assert s[..|s| - 1] == t;
    var m := Raise(1, MessagePoly(t));
    RaiseAdd(Width(g), m, Monomial(b, 0));
    RaiseMonomial(Width(g), b, 0);
    RaiseTwice(Width(g), 1, MessagePoly(t));
    RaiseTwice(1, Width(g), MessagePoly(t));
    RaiseTwice(1, |t|, start);
    RaiseAdd(1, Raise(Width(g), MessagePoly(t)), Raise(|t|, start));
    AddRight(Raise(Width(g) + 1, MessagePoly(t)), Monomial(b, Width(g)), Raise(|s|, start));
  }

  lemma AddRight(p: Poly, q: Poly, r: Poly)
    ensures Add(Add(p, q), r) == Add(Add(p, r), q)
  {
  }

  lemma RaisedBit(g: Code, r: Register, b: bool)
    ensures Raise(1, RegisterPoly(g, Xor(r, Bit(b)))) == Add(Raise(1, RegisterPoly(g, r)), Monomial(b, Width(g)))
  {
    RegisterPolyXor(g, r, Bit(b));
    BitPoly(g, b);
    RaiseAdd(1, RegisterPoly(g, r), Monomial(b, Width(g) - 1));
    RaiseMonomial(1, b, Width(g) - 1);
  }

  /** Feeding one bit is one step of long division. */
  lemma StepBitPoly(g: Code, r: Register, b: bool)
    requires Fits(g, r)
    ensures Add(Raise(1, RegisterPoly(g, r)), Monomial(b, Width(g)))
         == Add(if Low(Xor(r, Bit(b))) then Generator(g) else {}, RegisterPoly(g, Step(g, Xor(r, Bit(b)))))
  {
    RaisedBit(g, r, b);
    FeedFits(g, r, b);
    StepPoly(g, Xor(r, Bit(b)));
  }

  lemma {:induction false} BitAtBit(b: bool, j: nat)
    ensures BitAt(Bit(b), j) <==> b && j == 0
  {
    HalfOfBit(b);
    if j == 0 {
    } else {
      BitAtBit(false, j - 1);
    }
  }

  lemma HalfOfBit(b: bool)
    ensures Half(Bit(b)) == Bit(false) && Low(Bit(b)) == b
  {
  }

  lemma BitPoly(g: Code, b: bool)
    ensures RegisterPoly(g, Bit(b)) == Monomial(b, Width(g) - 1)
  {
    forall k: nat
      ensures k in RegisterPoly(g, Bit(b)) <==> k in Monomial(b, Width(g) - 1)
    {
      InRegisterPoly(g, Bit(b), k);
      if k < Width(g) {
        BitAtBit(b, Width(g) - 1 - k);
      }
    }
    SameMembers(RegisterPoly(g, Bit(b)), Monomial(b, Width(g) - 1));
  }

  lemma TimesMonomial(g: Code, b: bool)
    ensures Times(Monomial(b, 0), Generator(g)) == if b then Generator(g) else {}
  {
    TimesOne(Generator(g));
    TimesZero(Generator(g));
  }

  /** The register always holds the dividend so far, less a multiple of the
      generator. */
  lemma {:induction false} Quotient(g: Code, c: Register, s: Bits) returns (q: Poly)
    requires Fits(g, c)
    ensures Dividend(g, RegisterPoly(g, c), s) == Add(Times(q, Generator(g)), RegisterPoly(g, Run(g, c, s)))
    decreases |s|
  {
    if s == [] {
      q := {};
      TimesZero(Generator(g));
      assert Raise(0, RegisterPoly(g, c)) == RegisterPoly(g, c);
    } else {
      var t, b := s[..|s| - 1], s[|s| - 1];
      assert s == t + [b];
      var q' := Quotient(g, c, t);
      var r := Run(g, c, t);
      var x := Xor(r, Bit(b));
      RunFits(g, c, t);
      RunAppend(g, c, t, [b]);
      q := Add(Raise(1, q'), Monomial(Low(x), 0));
      DividendNext(g, RegisterPoly(g, c), t, b);
      RaiseAdd(1, Times(q', Generator(g)), RegisterPoly(g, r));
      TimesRaise(q', Generator(g));
      TimesDistributes(Raise(1, q'), Monomial(Low(x), 0), Generator(g));
      TimesMonomial(g, Low(x));
      StepBitPoly(g, r, b);
      AddLaws(Raise(1, Times(q', Generator(g))), Raise(1, RegisterPoly(g, r)), Monomial(b, Width(g)));
      AddLaws(Raise(1, Times(q', Generator(g))), if Low(x) then Generator(g) else {}, RegisterPoly(g, Step(g, x)));
    }
  }

  /** The register after a run is the one and only remainder of the dividend. */
  lemma RunIsRemainder(g: Code, c: Register, s: Bits, r: Poly)
    requires Fits(g, c)
    ensures IsRemainder(Dividend(g, RegisterPoly(g, c), s), Generator(g), Width(g), r)
       <==> r == RegisterPoly(g, Run(g, c, s))
  {
    var q := Quotient(g, c, s);
    var d := Dividend(g, RegisterPoly(g, c), s);
    var rest := RegisterPoly(g, Run(g, c, s));
    assert IsRemainder(d, Generator(g), Width(g), rest);
    GeneratorDegree(g);
    if IsRemainder(d, Generator(g), Width(g), r) {
      RemainderUnique(d, Generator(g), Width(g), r, rest);
    }
  }

  lemma GeneratorDegree(g: Code)
    ensures HasDegree(Generator(g), Width(g))
  {
  }

  /** What is divided in a checksum: the message with its first bit at the highest
      power, times x to the width of the register, and ones added at its leading
      coefficients. */
  function ChecksumDividend(g: Code, m: Bytes): Poly {
    Add(Raise(Width(g), MessagePoly(MessageBits(m))), Raise(8 * |m|, Ones(Width(g))))
  }

  /** Started with all ones, the register ends with the remainder. */
  lemma FeedIsRemainder(g: Code, m: Bytes, r: Poly)
    ensures IsRemainder(ChecksumDividend(g, m), Generator(g), Width(g), r)
       <==> r == RegisterPoly(g, Feed(g, Full(g), m))
  {
    FullFits(g);
    RegisterPolyOnes(g);
    RunIsRemainder(g, Full(g), MessageBits(m), r);
  }

  lemma RegisterPolyZero(g: Code)
    ensures RegisterPoly(g, 0) == {}
  {
    XorZero(0);
    RegisterPolyXor(g, 0, 0);
    AddLaws(RegisterPoly(g, 0), {}, {});
  }

  lemma {:induction false} DividesRaised(n: nat, p: Poly, f: Poly)
    requires 0 in f
    ensures Divides(f, Raise(n, p)) <==> Divides(f, p)
  {
    if n == 0 {
      assert Raise(0, p) == p;
    } else {
      DividesRaised(n - 1, p, f);
      DividesRaisedOnce(Raise(n - 1, p), f);
      RaiseTwice(1, n - 1, p);
    }
  }

  /** A change is invisible to the register exactly when the generator divides it. */
  lemma VanishesIfDivides(g: Code, d: Bytes)
    ensures Feed(g, 0, d) == 0 <==> Divides(Generator(g), MessagePoly(MessageBits(d)))
  {
    var s := MessageBits(d);
    FullFits(g);
    RegisterPolyZero(g);
    assert Raise(|s|, {}) == {};
    AddLaws(Raise(Width(g), MessagePoly(s)), {}, {});
    RunIsRemainder(g, 0, s, {});
    NoRemainder(Raise(Width(g), MessagePoly(s)), Generator(g), Width(g));
    DividesRaised(Width(g), MessagePoly(s), Generator(g));
    RunFits(g, 0, s);
    if RegisterPoly(g, Feed(g, 0, d)) == {} {
      RegisterPolyInjective(g, Feed(g, 0, d), 0);
    }
  }
}
