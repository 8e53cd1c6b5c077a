/** Powers of x: after how many steps a register comes back. */
module Powers {
  import opened ShiftRegister
  import opened ByteRegister

  /** `n` steps bring the register 1 back to 1. */
  predicate Returns(g: Code, n: nat) {
    Shift(g, n, 1) == 1
  }

  // ------------------------------------------------------------------ products

  /** The product of two powers of x that are given by their registers: bit by bit,
      the highest first. */
  function Multiply(g: Code, k: nat, r: Register, y: Register): Register {
    if k == 0 then 0 else Horner(g, Multiply(g, k - 1, r, Half(y)), r, Low(y))
  }

  function Horner(g: Code, acc: Register, r: Register, b: bool): Register {
    AddIf(b, Unstep(g, acc), r)
  }

  lemma {:induction false} ShiftStep(g: Code, n: nat, z: Register)
    ensures Shift(g, n, Step(g, z)) == Step(g, Shift(g, n, z))
  {
    if n == 0 {
    } else {
      ShiftStep(g, n - 1, Step(g, z));
    }
  }

  lemma UnstepShift(g: Code, n: nat, h: Register)
    requires Fits(g, h)
    ensures Shift(g, n, Unstep(g, h)) == Unstep(g, Shift(g, n, h))
  {
    UnstepFits(g, h);
    StepUnstep(g, h);
    UndoStep(g, n, Unstep(g, h), h);
  }

  lemma UndoStep(g: Code, n: nat, z: Register, h: Register)
    requires Fits(g, z) && Step(g, z) == h
    ensures Shift(g, n, z) == Unstep(g, Shift(g, n, h))
  {
    ShiftStep(g, n, z);
    ShiftFits(g, n, z);
    UnstepStep(g, Shift(g, n, z));
  }

  lemma SplitLow(y: Register)
    ensures y == Xor(Double(Half(y)), Bit(Low(y)))
  {
  }

  lemma AddIfBit(b: bool, x: Register, r: Register)
    ensures AddIf(b, x, r) == Xor(x, if b then r else 0)
  {
    XorZero(x);
  }

  lemma ShiftBit(g: Code, n: nat, b: bool)
    ensures Shift(g, n, Bit(b)) == if b then Shift(g, n, 1) else 0
  {
    ShiftOfZero(g, n);
  }

  lemma {:induction false} MultiplyIs(g: Code, k: nat, n: nat, y: Register)
    requires k <= Width(g) && Within(y, Mask(k))
    ensures Multiply(g, k, Shift(g, n, 1), y) == Shift(g, n, y)
  {
    if k == 0 {
      WithinNone(y);
      ShiftOfZero(g, n);
    } else {
      var h, r := Half(y), Shift(g, n, 1);
      HalfWithin(g, k, y);
      MultiplyIs(g, k - 1, n, h);
      LowerFits(g, h);
      UnstepShift(g, n, h);
      SplitLow(y);
      ShiftLinear(g, n, Double(h), Bit(Low(y)));
      ShiftBit(g, n, Low(y));
      AddIfBit(Low(y), Unstep(g, Shift(g, n, h)), r);
    }
  }

  lemma WithinNone(y: Register)
    requires Within(y, 0)
    ensures y == 0
  {
  }

  lemma HalfWithin(g: Code, k: nat, y: Register)
    requires 0 < k <= Width(g) && Within(y, Mask(k))
    ensures Within(Half(y), Mask(k - 1)) && Within(Half(y), Lower(g))
  {
    MaskBelowTop(k - 1);
    WithinHalf(y, Mask(k - 1));
    MaskMonotone(k - 1, Width(g) - 1);
    LowerMask(g);
    WithinTransitive(Half(y), Mask(k - 1), Lower(g));
  }

  lemma LowerFits(g: Code, h: Register)
    requires Within(h, Lower(g))
    ensures Fits(g, h) && Unstep(g, h) == Double(h)
  {
    match g
    case Modbus =>
    case Ethernet =>
  }

  /** Four bits at once, then what is above them. */
  function Nibble(g: Code, acc: Register, r: Register, y: Register): Register {
    Horner(g, Horner(g, Horner(g, Horner(g, acc, r, Low(Half(Half(Half(y))))), r, Low(Half(Half(y)))),
      r, Low(Half(y))), r, Low(y))
  }

  function DropNibble(y: Register): Register {
    y >> 4
  }

  lemma FourHalves(y: Register)
    ensures Half(Half(Half(Half(y)))) == DropNibble(y)
  {
  }

  lemma MultiplyNext(g: Code, k: nat, r: Register, y: Register)
    requires k >= 1
    ensures Multiply(g, k, r, y) == Horner(g, Multiply(g, k - 1, r, Half(y)), r, Low(y))
  {
  }

  lemma MultiplyNibble(g: Code, k: nat, r: Register, y: Register)
    requires k >= 4
    ensures Multiply(g, k, r, y) == Nibble(g, Multiply(g, k - 4, r, DropNibble(y)), r, y)
  {
    FourHalves(y);
    MultiplyNext(g, k, r, y);
    MultiplyNext(g, k - 1, r, Half(y));
    MultiplyNext(g, k - 2, r, Half(Half(y)));
    MultiplyNext(g, k - 3, r, Half(Half(Half(y))));
  }

  function LowProduct(g: Code, acc: Register, r: Register, y: Register): Register {
    Nibble(g, Nibble(g, Nibble(g, Nibble(g, acc, r, y >> 12), r, y >> 8), r, y >> 4), r, y)
  }

  /** The product, spelled out. */
  function Times(g: Code, r: Register, y: Register): Register {
    match g
    case Modbus => LowProduct(Modbus, 0, r, y)
    case Ethernet => LowProduct(Ethernet, LowProduct(Ethernet, 0, r, y >> 16), r, y)
  }

  lemma MultiplyLow(g: Code, k: nat, r: Register, y: Register)
    requires k >= 16
    ensures Multiply(g, k, r, y) == LowProduct(g, Multiply(g, k - 16, r, y >> 16), r, y)
  {
    MultiplyNibble(g, k, r, y);
    MultiplyNibble(g, k - 4, r, y >> 4);
    MultiplyNibble(g, k - 8, r, y >> 8);
    MultiplyNibble(g, k - 12, r, y >> 12);
    Nibbles(y);
  }

  lemma Nibbles(y: Register)
    ensures DropNibble(y) == y >> 4 && DropNibble(y >> 4) == y >> 8
    ensures DropNibble(y >> 8) == y >> 12 && DropNibble(y >> 12) == y >> 16
  {
  }

  lemma MultiplyIsTimes(g: Code, r: Register, y: Register)
    ensures Multiply(g, Width(g), r, y) == Times(g, r, y)
  {
    MultiplyLow(g, Width(g), r, y);
    match g
    case Modbus =>
    case Ethernet => MultiplyLow(Ethernet, 16, r, y >> 16);
  }

  /** The register after `n` steps is `r`. */
  predicate Power(g: Code, n: nat, r: Register) {
    Shift(g, n, 1) == r
  }

  /** Exponents add up. */
  lemma Product(g: Code, m: nat, r: Register, n: nat, s: Register)
    requires Power(g, m, r) && Power(g, n, s)
    ensures Power(g, m + n, Times(g, r, s))
  {
    FullFits(g);
    ShiftFits(g, n, 1);
    MaskFull(g);
    MultiplyIs(g, Width(g), m, s);
    ShiftSum(g, n, m, 1);
    MultiplyIsTimes(g, r, s);
  }
}
