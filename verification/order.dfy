/** How often a register has to step until it comes back: the order of x modulo each
    generator. */
module Order {
  import opened ShiftRegister
  import opened ByteRegister
  import opened Powers
  import opened Divisibility

  /** The number of steps after which the register 1 is back. */
  function Period(g: Code): nat {
    match g
    case Modbus => 32767
    case Ethernet => 0xffff_ffff
  }

  lemma FirstPower(g: Code)
    ensures Power(g, 1, Feedback(g))
  {
    assert Half(1) == 0 && Low(1);
    XorCommutes(0, Feedback(g));
    XorZero(Feedback(g));
    assert Shift(g, 1, 1) == Shift(g, 0, Step(g, 1));
  }

  lemma Multiplied(g: Code, m: nat, r: Register, n: nat, s: Register, t: Register)
    requires Power(g, m, r) && Power(g, n, s) && Times(g, r, s) == t
    ensures Power(g, m + n, t)
  {
    Product(g, m, r, n, s);
  }

  lemma Squared(g: Code, n: nat, r: Register, s: Register)
    requires Power(g, n, r) && Times(g, r, r) == s
    ensures Power(g, 2 * n, s)
  {
    Product(g, n, r, n, r);
  }

  lemma Differ(g: Code, n: nat, m: nat, a: Register, b: Register)
    requires Power(g, n + m, a) && Power(g, m, b) && a != b
    ensures !Returns(g, n)
  {
    ShiftSum(g, n, m, 1);
  }

  /** One step more gives x, so the period itself gives 1. */
  lemma PeriodReturns(g: Code)
    requires Power(g, Period(g) + 1, Feedback(g))
    ensures Returns(g, Period(g))
  {
    FirstPower(g);
    FullFits(g);
    ShiftFits(g, Period(g), 1);
    BackOneStep(g, Period(g));
  }

  lemma BackOneStep(g: Code, n: nat)
    requires Shift(g, n + 1, 1) == Shift(g, 1, 1) && Fits(g, 1) && Fits(g, Shift(g, n, 1))
    ensures Shift(g, n, 1) == 1
  {
    ShiftSum(g, n, 1, 1);
    ShiftInvertible(g, 1, Shift(g, n, 1));
    ShiftInvertible(g, 1, 1);
  }

  // ------------------------------------------------------------------ the powers

  lemma ModbusSquares0(u: nat)
    requires Power(Modbus, u, 0xa001)
    ensures Power(Modbus, 8 * u, 0xc0c1)
  {
    Squared(Modbus, u, 0xa001, 0xf001);
    Squared(Modbus, 2 * u, 0xf001, 0xcc01);
    Squared(Modbus, 4 * u, 0xcc01, 0xc0c1);
  }

  lemma ModbusSquares3(u: nat)
    requires Power(Modbus, u, 0xc0c1)
    ensures Power(Modbus, 4 * u, 0xfc01)
    ensures Power(Modbus, 8 * u, 0xccc1)
  {
    Squared(Modbus, u, 0xc0c1, 0x9001);
    Squared(Modbus, 2 * u, 0x9001, 0xfc01);
    Squared(Modbus, 4 * u, 0xfc01, 0xccc1);
  }

  lemma ModbusSquares6(u: nat)
    requires Power(Modbus, u, 0xccc1)
    ensures Power(Modbus, 4 * u, 0xac01)
    ensures Power(Modbus, 8 * u, 0xf0c1)
  {
    Squared(Modbus, u, 0xccc1, 0x90c1);
    Squared(Modbus, 2 * u, 0x90c1, 0xac01);
    Squared(Modbus, 4 * u, 0xac01, 0xf0c1);
  }

  lemma ModbusSquares9(u: nat)
    requires Power(Modbus, u, 0xf0c1)
    ensures Power(Modbus, 2 * u, 0x9c01)
    ensures Power(Modbus, 8 * u, 0x9cc1)
  {
    Squared(Modbus, u, 0xf0c1, 0x9c01);
    Squared(Modbus, 2 * u, 0x9c01, 0xfcc1);
    Squared(Modbus, 4 * u, 0xfcc1, 0x9cc1);
  }

  lemma ModbusSquares12(u: nat)
    requires Power(Modbus, u, 0x9cc1)
    ensures Power(Modbus, 8 * u, 0xa001)
  {
    Squared(Modbus, u, 0x9cc1, 0xacc1);
    Squared(Modbus, 2 * u, 0xacc1, 0xa0c1);
    Squared(Modbus, 4 * u, 0xa0c1, 0xa001);
  }

  lemma ModbusNot217(u: nat)
    requires Power(Modbus, u, 0xa001)
    requires Power(Modbus, 8 * u, 0xc0c1)
    requires Power(Modbus, 32 * u, 0xfc01)
    requires Power(Modbus, 0x100 * u, 0xac01)
    ensures !Returns(Modbus, 217 * u)
  {
    Multiplied(Modbus, 0x100 * u, 0xac01, u, 0xa001, 0xf601);
    Multiplied(Modbus, 32 * u, 0xfc01, 8 * u, 0xc0c1, 0xc03d);
    Differ(Modbus, 217 * u, 40 * u, 0xf601, 0xc03d);
  }

  lemma ModbusNot1057(u: nat)
    requires Power(Modbus, u, 0xa001)
    requires Power(Modbus, 32 * u, 0xfc01)
    requires Power(Modbus, 0x400 * u, 0x9c01)
    ensures !Returns(Modbus, 1057 * u)
  {
    Multiplied(Modbus, 0x400 * u, 0x9c01, 32 * u, 0xfc01, 0xd2c1);
    Multiplied(Modbus, 0x420 * u, 0xd2c1, u, 0xa001, 0xc961);
  }

  lemma ModbusNot4681(u: nat)
    requires Power(Modbus, u, 0xa001)
    requires Power(Modbus, 8 * u, 0xc0c1)
    requires Power(Modbus, 64 * u, 0xccc1)
    requires Power(Modbus, 0x200 * u, 0xf0c1)
    requires Power(Modbus, 0x1000 * u, 0x9cc1)
    ensures !Returns(Modbus, 4681 * u)
  {
    Multiplied(Modbus, 0x1000 * u, 0x9cc1, 0x200 * u, 0xf0c1, 0x876d);
    Multiplied(Modbus, 64 * u, 0xccc1, 8 * u, 0xc0c1, 0x900d);
    Multiplied(Modbus, 0x1200 * u, 0x876d, 72 * u, 0x900d, 0x14b9);
    Multiplied(Modbus, 0x1248 * u, 0x14b9, u, 0xa001, 0xaa5d);
  }

  lemma ModbusDivisors()
    ensures Returns(Modbus, 32767)
    ensures !Returns(Modbus, 4681) && !Returns(Modbus, 1057) && !Returns(Modbus, 217)
  {
    FirstPower(Modbus);
    ModbusSquares0(1);
    ModbusSquares3(8);
    ModbusSquares6(64);
    ModbusSquares9(512);
    ModbusSquares12(4096);
    ModbusNot217(1);
    ModbusNot1057(1);
    ModbusNot4681(1);
    PeriodReturns(Modbus);
  }

  lemma EthernetSquares0(u: nat)
    requires Power(Ethernet, u, 0xedb8_8320)
    ensures Power(Ethernet, 4 * u, 0x1db7_1064)
  {
    Squared(Ethernet, u, 0xedb8_8320, 0x76dc_4190);
    Squared(Ethernet, 2 * u, 0x76dc_4190, 0x1db7_1064);
  }

  lemma EthernetSquares2(u: nat)
    requires Power(Ethernet, u, 0x1db7_1064)
    ensures Power(Ethernet, 4 * u, 0x191b_3141)
  {
    Squared(Ethernet, u, 0x1db7_1064, 0x7707_3096);
    Squared(Ethernet, 2 * u, 0x7707_3096, 0x191b_3141);
  }

  lemma EthernetSquares4(u: nat)
    requires Power(Ethernet, u, 0x191b_3141)
    ensures Power(Ethernet, 8 * u, 0xae68_9191)
  {
    Squared(Ethernet, u, 0x191b_3141, 0xb8bc_6765);
    Squared(Ethernet, 2 * u, 0xb8bc_6765, 0xccaa_009e);
    Squared(Ethernet, 4 * u, 0xccaa_009e, 0xae68_9191);
  }

  lemma EthernetSquares7(u: nat)
    requires Power(Ethernet, u, 0xae68_9191)
    ensures Power(Ethernet, 2 * u, 0xf1da_05aa)
    ensures Power(Ethernet, 4 * u, 0x8f35_2d95)
  {
    Squared(Ethernet, u, 0xae68_9191, 0xf1da_05aa);
    Squared(Ethernet, 2 * u, 0xf1da_05aa, 0x8f35_2d95);
  }

  lemma EthernetSquares9(u: nat)
    requires Power(Ethernet, u, 0x8f35_2d95)
    ensures Power(Ethernet, 4 * u, 0xce33_71cb)
  {
    Squared(Ethernet, u, 0x8f35_2d95, 0x33ff_f533);
    Squared(Ethernet, 2 * u, 0x33ff_f533, 0xce33_71cb);
  }

  lemma EthernetSquares11(u: nat)
    requires Power(Ethernet, u, 0xce33_71cb)
    ensures Power(Ethernet, 4 * u, 0xf891_f16f)
  {
    Squared(Ethernet, u, 0xce33_71cb, 0x1072_db28);
    Squared(Ethernet, 2 * u, 0x1072_db28, 0xf891_f16f);
  }

  lemma EthernetSquares13(u: nat)
    requires Power(Ethernet, u, 0xf891_f16f)
    ensures Power(Ethernet, 8 * u, 0xb566_f6e2)
  {
    Squared(Ethernet, u, 0xf891_f16f, 0x88b6_ba63);
    Squared(Ethernet, 2 * u, 0x88b6_ba63, 0x5ad8_a92c);
    Squared(Ethernet, 4 * u, 0x5ad8_a92c, 0xb566_f6e2);
  }

  lemma EthernetSquares16(u: nat)
    requires Power(Ethernet, u, 0xb566_f6e2)
    ensures Power(Ethernet, 4 * u, 0x2ee4_3a2c)
  {
    Squared(Ethernet, u, 0xb566_f6e2, 0x9d91_29bf);
    Squared(Ethernet, 2 * u, 0x9d91_29bf, 0x2ee4_3a2c);
  }

  lemma EthernetSquares18(u: nat)
    requires Power(Ethernet, u, 0x2ee4_3a2c)
    ensures Power(Ethernet, 4 * u, 0xbce1_5202)
  {
    Squared(Ethernet, u, 0x2ee4_3a2c, 0x1b45_11ee);
    Squared(Ethernet, 2 * u, 0x1b45_11ee, 0xbce1_5202);
  }

  lemma EthernetSquares20(u: nat)
    requires Power(Ethernet, u, 0xbce1_5202)
    ensures Power(Ethernet, 4 * u, 0x6f76_172e)
  {
    Squared(Ethernet, u, 0xbce1_5202, 0xff08_e5ef);
    Squared(Ethernet, 2 * u, 0xff08_e5ef, 0x6f76_172e);
  }

  lemma EthernetSquares22(u: nat)
    requires Power(Ethernet, u, 0x6f76_172e)
    ensures Power(Ethernet, 4 * u, 0x3859_93ac)
  {
    Squared(Ethernet, u, 0x6f76_172e, 0x56f5_cab9);
    Squared(Ethernet, 2 * u, 0x56f5_cab9, 0x3859_93ac);
  }

  lemma EthernetSquares24(u: nat)
    requires Power(Ethernet, u, 0x3859_93ac)
    ensures Power(Ethernet, 4 * u, 0x6951_86a7)
  {
    Squared(Ethernet, u, 0x3859_93ac, 0xb424_7b20);
    Squared(Ethernet, 2 * u, 0xb424_7b20, 0x6951_86a7);
  }

  lemma EthernetSquares26(u: nat)
    requires Power(Ethernet, u, 0x6951_86a7)
    ensures Power(Ethernet, 8 * u, 0xfe27_3162)
  {
    Squared(Ethernet, u, 0x6951_86a7, 0x66bc_001e);
    Squared(Ethernet, 2 * u, 0x66bc_001e, 0xb58b_27b3);
    Squared(Ethernet, 4 * u, 0xb58b_27b3, 0xfe27_3162);
  }

  lemma EthernetSquares29(u: nat)
    requires Power(Ethernet, u, 0xfe27_3162)
    ensures Power(Ethernet, 8 * u, 0xedb8_8320)
  {
    Squared(Ethernet, u, 0xfe27_3162, 0xd3c9_8813);
    Squared(Ethernet, 2 * u, 0xd3c9_8813, 0xf7d6_deb4);
    Squared(Ethernet, 4 * u, 0xf7d6_deb4, 0xedb8_8320);
  }

  /** Sums of two and of four powers of two. */
  lemma EthernetSums(u: nat)
    requires Power(Ethernet, u, 0xedb8_8320)
    requires Power(Ethernet, 0x100 * u, 0xf1da_05aa)
    requires Power(Ethernet, 0x1_0000 * u, 0xb566_f6e2)
    requires Power(Ethernet, 0x100_0000 * u, 0x3859_93ac)
    ensures Power(Ethernet, 0x100_0100 * u, 0x334e_22ad) && Power(Ethernet, 0x1_0001 * u, 0x5ab3_7b71)
    ensures Power(Ethernet, 0x101_0101 * u, 0x85d2_1ace)
  {
    Multiplied(Ethernet, 0x100_0000 * u, 0x3859_93ac, 0x100 * u, 0xf1da_05aa, 0x334e_22ad);
    Multiplied(Ethernet, 0x1_0000 * u, 0xb566_f6e2, u, 0xedb8_8320, 0x5ab3_7b71);
    Multiplied(Ethernet, 0x100_0100 * u, 0x334e_22ad, 0x1_0001 * u, 0x5ab3_7b71, 0x85d2_1ace);
  }

  lemma EthernetFourfold(u: nat)
    requires Power(Ethernet, 0x101_0101 * u, 0x85d2_1ace)
    ensures Power(Ethernet, 0x404_0404 * u, 0x28e2_13bf)
  {
    Squared(Ethernet, 0x101_0101 * u, 0x85d2_1ace, 0xec2f_4313);
    Squared(Ethernet, 0x202_0202 * u, 0xec2f_4313, 0x28e2_13bf);
  }

  lemma EthernetSixteenfold(u: nat)
    requires Power(Ethernet, 0x404_0404 * u, 0x28e2_13bf)
    ensures Power(Ethernet, 0x1010_1010 * u, 0x69e3_cee0)
  {
    Squared(Ethernet, 0x404_0404 * u, 0x28e2_13bf, 0x28e1_8c66);
    Squared(Ethernet, 0x808_0808 * u, 0x28e1_8c66, 0x69e3_cee0);
  }

  lemma EthernetEights(u: nat)
    requires Power(Ethernet, 0x101_0101 * u, 0x85d2_1ace) && Power(Ethernet, 0x1010_1010 * u, 0x69e3_cee0)
    ensures Power(Ethernet, 0x1111_1111 * u, 0xec31_d42e) && Power(Ethernet, 0x2222_2222 * u, 0x7d6f_a832)
  {
    Multiplied(Ethernet, 0x1010_1010 * u, 0x69e3_cee0, 0x101_0101 * u, 0x85d2_1ace, 0xec31_d42e);
    Squared(Ethernet, 0x1111_1111 * u, 0xec31_d42e, 0x7d6f_a832);
  }

  lemma EthernetSixteens(u: nat)
    requires Power(Ethernet, 0x1111_1111 * u, 0xec31_d42e) && Power(Ethernet, 0x2222_2222 * u, 0x7d6f_a832)
    ensures Power(Ethernet, 0x4444_4444 * u, 0xec31_d42f) && Power(Ethernet, 0x5555_5555 * u, 0x915e_7c1c)
  {
    Squared(Ethernet, 0x2222_2222 * u, 0x7d6f_a832, 0xec31_d42f);
    Multiplied(Ethernet, 0x4444_4444 * u, 0xec31_d42f, 0x1111_1111 * u, 0xec31_d42e, 0x915e_7c1c);
  }

  /** None of the largest proper divisors of the period brings the register back. */
  lemma EthernetDivisors()
    ensures Returns(Ethernet, 0xffff_ffff)
    ensures !Returns(Ethernet, 0x5555_5555) && !Returns(Ethernet, 0x3333_3333) && !Returns(Ethernet, 0xf0f_0f0f)
    ensures !Returns(Ethernet, 0xff_00ff) && !Returns(Ethernet, 0xffff)
  {
    FirstPower(Ethernet);
    EthernetSquares0(1);
    EthernetSquares2(4);
    EthernetSquares4(16);
    EthernetSquares7(128);
    EthernetSquares9(0x200);
    EthernetSquares11(0x800);
    EthernetSquares13(0x2000);
    EthernetSquares16(0x1_0000);
    EthernetSquares18(0x4_0000);
    EthernetSquares20(0x10_0000);
    EthernetSquares22(0x40_0000);
    EthernetSquares24(0x100_0000);
    EthernetSquares26(0x400_0000);
    EthernetSquares29(0x2000_0000);
    EthernetSums(1);
    EthernetFourfold(1);
    EthernetSixteenfold(1);
    EthernetEights(1);
    EthernetSixteens(1);
    PeriodReturns(Ethernet);
    Differ(Ethernet, 0xffff, 1, 0xb566_f6e2, 0xedb8_8320);
    Differ(Ethernet, 0xff_00ff, 0x1_0001, 0x334e_22ad, 0x5ab3_7b71);
    Differ(Ethernet, 0xf0f_0f0f, 0x101_0101, 0x69e3_cee0, 0x85d2_1ace);
    Differ(Ethernet, 0x3333_3333, 0x1111_1111, 0xec31_d42f, 0xec31_d42e);
  }

  // ------------------------------------------------------------------ the order

  lemma ReturnsClosed(g: Code, q: nat)
    ensures Closed((e: nat) => Returns(g, e * q))
  {
    var S := (e: nat) => Returns(g, e * q);
    assert 0 * q == 0;
    forall a: nat, b: nat | S(a)
      ensures S(b) <==> S(a + b)
    {
      assert (a + b) * q == a * q + b * q;
      ReturnsSum(g, a * q, b * q);
    }
  }

  lemma ReturnsSum(g: Code, m: nat, n: nat)
    requires Returns(g, m)
    ensures Returns(g, n) <==> Returns(g, m + n)
  {
    ShiftSum(g, m, n, 1);
  }

  /** A prime factor of the period divides every number of steps that brings the
      register back. */
  lemma FactorDivides(g: Code, p: nat, q: nat, n: nat)
    requires Prime(p) && Returns(g, p * q) && !Returns(g, q) && Returns(g, n)
    ensures n % p == 0
  {
    var S := (e: nat) => Returns(g, e * q);
    ReturnsClosed(g, q);
    ReturnsClosed(g, 1);
    Multiples((e: nat) => Returns(g, e * 1), n, q);
    assert q * n * 1 == n * q && n * 1 == n;
    assert S(p) && S(n);
    if n % p != 0 {
      HoldsOne(S, p, n);
    }
  }

  lemma PeriodMultiple(g: Code, n: nat)
    requires Returns(g, Period(g)) && n % Period(g) == 0
    ensures Returns(g, n)
  {
    ReturnsClosed(g, Period(g));
    var k := Cofactor(n, Period(g));
    assert 1 * Period(g) == Period(g) && k * 1 == k;
    Multiples((e: nat) => Returns(g, e * Period(g)), 1, k);
    assert k * Period(g) == n;
  }

  lemma SmallPrimes()
    ensures Prime(3) && Prime(5) && Prime(7) && Prime(17) && Prime(31) && Prime(151) && Prime(257)
  {
    TrialDivision(3, 1);
    TrialDivision(5, 2);
    TrialDivision(7, 2);
    TrialDivision(17, 4);
    TrialDivision(31, 5);
    TrialDivision(151, 12);
    TrialDivision(257, 16);
  }

  lemma NoDivisorTo64()
    ensures NoDivisor(65537, 64)
  {
    assert NoDivisor(65537, 16);
    assert NoDivisor(65537, 32);
    assert NoDivisor(65537, 48);
    assert NoDivisor(65537, 64);
  }

  lemma NoDivisorTo128()
    requires NoDivisor(65537, 64)
    ensures NoDivisor(65537, 128)
  {
    assert NoDivisor(65537, 80);
    assert NoDivisor(65537, 96);
    assert NoDivisor(65537, 112);
    assert NoDivisor(65537, 128);
  }

  lemma NoDivisorTo192()
    requires NoDivisor(65537, 128)
    ensures NoDivisor(65537, 192)
  {
    assert NoDivisor(65537, 144);
    assert NoDivisor(65537, 160);
    assert NoDivisor(65537, 176);
    assert NoDivisor(65537, 192);
  }

  lemma NoDivisorTo256()
    requires NoDivisor(65537, 192)
    ensures NoDivisor(65537, 256)
  {
    assert NoDivisor(65537, 208);
    assert NoDivisor(65537, 224);
    assert NoDivisor(65537, 240);
    assert NoDivisor(65537, 256);
  }

  lemma FermatPrime()
    ensures Prime(65537)
  {
    NoDivisorTo64();
    NoDivisorTo128();
    NoDivisorTo192();
    NoDivisorTo256();
    TrialDivision(65537, 256);
  }

  lemma ModbusOrder(n: nat)
    requires Returns(Modbus, n)
    ensures n % 32767 == 0
  {
    ModbusDivisors();
    SmallPrimes();
    FactorDivides(Modbus, 7, 4681, n);
    FactorDivides(Modbus, 31, 1057, n);
    FactorDivides(Modbus, 151, 217, n);
    ProductDivides(n, 7, 31);
    ProductDivides(n, 217, 151);
  }

  lemma EthernetOrder(n: nat)
    requires Returns(Ethernet, n)
    ensures n % 0xffff_ffff == 0
  {
    EthernetDivisors();
    SmallPrimes();
    FermatPrime();
    FactorDivides(Ethernet, 3, 0x5555_5555, n);
    FactorDivides(Ethernet, 5, 0x3333_3333, n);
    FactorDivides(Ethernet, 17, 0xf0f_0f0f, n);
    FactorDivides(Ethernet, 257, 0xff_00ff, n);
    FactorDivides(Ethernet, 65537, 0xffff, n);
    ProductDivides(n, 3, 5);
    ProductDivides(n, 15, 17);
    ProductDivides(n, 255, 257);
    ProductDivides(n, 65535, 65537);
  }

  /** The register 1 is back after `n` steps if and only if the period divides `n`. */
  lemma OrderOfX(g: Code, n: nat)
    ensures Returns(g, n) <==> n % Period(g) == 0
  {
    match g
    case Modbus =>
      ModbusDivisors();
      if Returns(Modbus, n) {
        ModbusOrder(n);
      } else if n % 32767 == 0 {
        PeriodMultiple(Modbus, n);
      }
    case Ethernet =>
      EthernetDivisors();
      if Returns(Ethernet, n) {
        EthernetOrder(n);
      } else if n % 0xffff_ffff == 0 {
        PeriodMultiple(Ethernet, n);
      }
  }
}
