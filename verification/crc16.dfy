/** `Crc::calc16`: the two-lane Modbus loop and what it computes. */
module Crc16 {
  import opened CrcTables
  import opened BitStream
  import opened ShiftRegister
  import opened ByteRegister

  function HighByte(x: Register): bv8 {
    LowByte(DropByte(x))
  }

  /** All bytes but the first; nothing of an empty message. */
  function Mid1(m: Bytes): Bytes {
    if m == [] then [] else m[1..]
  }

  function SwapBytes(r: Register): Register {
    Lanes(HighByte(r), LowByte(r))
  }

  /** The Modbus register over all bytes but the first, with its bytes swapped. */
  function Checksum(m: Bytes): Register {
    SwapBytes(Feed(Modbus, 0xffff, Mid1(m)))
  }

  // ------------------------------------------------------------------ two lanes

  /** The two lanes as one register: `crcL` is the high byte, `crcH` the low one. */
  function Lanes(crcH: bv8, crcL: bv8): Register {
    (crcL as Register << 8) | crcH as Register
  }

  lemma TablesRow0(x: bv8)
    requires x >> 4 == 0
    ensures Lanes(CrcHigh(x), CrcLow(x)) == Shift8(Modbus, Word(x))
  {
    assert InRow(0x00, x);
  }

  lemma TablesRow1(x: bv8)
    requires x >> 4 == 1
    ensures Lanes(CrcHigh(x), CrcLow(x)) == Shift8(Modbus, Word(x))
  {
    assert InRow(0x10, x);
  }

  lemma TablesRow2(x: bv8)
    requires x >> 4 == 2
    ensures Lanes(CrcHigh(x), CrcLow(x)) == Shift8(Modbus, Word(x))
  {
    assert InRow(0x20, x);
  }

  lemma TablesRow3(x: bv8)
    requires x >> 4 == 3
    ensures Lanes(CrcHigh(x), CrcLow(x)) == Shift8(Modbus, Word(x))
  {
    assert InRow(0x30, x);
  }

  lemma TablesRow4(x: bv8)
    requires x >> 4 == 4
    ensures Lanes(CrcHigh(x), CrcLow(x)) == Shift8(Modbus, Word(x))
  {
    assert InRow(0x40, x);
  }

  lemma TablesRow5(x: bv8)
    requires x >> 4 == 5
    ensures Lanes(CrcHigh(x), CrcLow(x)) == Shift8(Modbus, Word(x))
  {
    assert InRow(0x50, x);
  }

  lemma TablesRow6(x: bv8)
    requires x >> 4 == 6
    ensures Lanes(CrcHigh(x), CrcLow(x)) == Shift8(Modbus, Word(x))
  {
    assert InRow(0x60, x);
  }

  lemma TablesRow7(x: bv8)
    requires x >> 4 == 7
    ensures Lanes(CrcHigh(x), CrcLow(x)) == Shift8(Modbus, Word(x))
  {
    assert InRow(0x70, x);
  }

  lemma TablesRow8(x: bv8)
    requires x >> 4 == 8
    ensures Lanes(CrcHigh(x), CrcLow(x)) == Shift8(Modbus, Word(x))
  {
    assert InRow(0x80, x);
  }

  lemma TablesRow9(x: bv8)
    requires x >> 4 == 9
    ensures Lanes(CrcHigh(x), CrcLow(x)) == Shift8(Modbus, Word(x))
  {
    assert InRow(0x90, x);
  }

  lemma TablesRowA(x: bv8)
    requires x >> 4 == 10
    ensures Lanes(CrcHigh(x), CrcLow(x)) == Shift8(Modbus, Word(x))
  {
    assert InRow(0xA0, x);
  }

  lemma TablesRowB(x: bv8)
    requires x >> 4 == 11
    ensures Lanes(CrcHigh(x), CrcLow(x)) == Shift8(Modbus, Word(x))
  {
    assert InRow(0xB0, x);
  }

  lemma TablesRowC(x: bv8)
    requires x >> 4 == 12
    ensures Lanes(CrcHigh(x), CrcLow(x)) == Shift8(Modbus, Word(x))
  {
    assert InRow(0xC0, x);
  }

  lemma TablesRowD(x: bv8)
    requires x >> 4 == 13
    ensures Lanes(CrcHigh(x), CrcLow(x)) == Shift8(Modbus, Word(x))
  {
    assert InRow(0xD0, x);
  }

  lemma TablesRowE(x: bv8)
    requires x >> 4 == 14
    ensures Lanes(CrcHigh(x), CrcLow(x)) == Shift8(Modbus, Word(x))
  {
    assert InRow(0xE0, x);
  }

  lemma TablesRowF(x: bv8)
    requires x >> 4 == 15
    ensures Lanes(CrcHigh(x), CrcLow(x)) == Shift8(Modbus, Word(x))
  {
    assert InRow(0xF0, x);
  }

  /** The two tables together: entry `x` of both is the register that eight steps
      make of `x`. */
  lemma TablesJoint(x: bv8)
    ensures Lanes(CrcHigh(x), CrcLow(x)) == Shift(Modbus, 8, Word(x))
  {
    Shift8IsShift(Modbus, Word(x));
    var hi := x >> 4;
    assert InRow(0, hi);
    if hi == 0 { TablesRow0(x); }
    if hi == 1 { TablesRow1(x); }
    if hi == 2 { TablesRow2(x); }
    if hi == 3 { TablesRow3(x); }
    if hi == 4 { TablesRow4(x); }
    if hi == 5 { TablesRow5(x); }
    if hi == 6 { TablesRow6(x); }
    if hi == 7 { TablesRow7(x); }
    if hi == 8 { TablesRow8(x); }
    if hi == 9 { TablesRow9(x); }
    if hi == 10 { TablesRowA(x); }
    if hi == 11 { TablesRowB(x); }
    if hi == 12 { TablesRowC(x); }
    if hi == 13 { TablesRowD(x); }
    if hi == 14 { TablesRowE(x); }
    if hi == 15 { TablesRowF(x); }
  }

  lemma LanesSplit(h: bv8, l: bv8, data: bv8)
    ensures Xor(Lanes(h, l), Word(data)) == Xor(Word(h ^ data), Lanes(0, l))
  {
  }

  lemma LanesJoin(th: bv8, tl: bv8, l: bv8)
    ensures Xor(Lanes(th, tl), Word(l)) == Lanes(l ^ th, tl)
  {
  }

  lemma DropHighLane(l: bv8)
    ensures Lanes(0, l) & 0xff == 0 && DropByte(Lanes(0, l)) == Word(l)
  {
  }

  /** One round of the loop is eight steps of the joined register. */
  lemma LaneStep(h: bv8, l: bv8, data: bv8)
    ensures Lanes(l ^ CrcHigh(h ^ data), CrcLow(h ^ data))
         == Shift(Modbus, 8, Xor(Lanes(h, l), Word(data)))
  {
    var index := h ^ data;
    TablesJoint(index);
    LanesSplit(h, l, data);
    ShiftLinear(Modbus, 8, Word(index), Lanes(0, l));
    DropHighLane(l);
    ShiftClearByte(Modbus, Lanes(0, l));
    LanesJoin(CrcHigh(index), CrcLow(index), l);
  }

  lemma LanesSwapped(h: bv8, l: bv8)
    ensures SwapBytes(Lanes(h, l)) == h as Register * 0x100 + l as Register
    ensures Fits(Modbus, SwapBytes(Lanes(h, l)))
  {
  }

  lemma LanesOfOnes()
    ensures Lanes(0xff, 0xff) == 0xffff
  {
  }

  /** The lanes hold the register after `m`. */
  predicate LanesHold(h: bv8, l: bv8, m: Bytes) {
    Lanes(h, l) == Feed(Modbus, 0xffff, m)
  }

  lemma AbsorbByte(h: bv8, l: bv8, m: Bytes, b: bv8, next: Register)
    requires LanesHold(h, l, m) && next == Shift(Modbus, 8, Xor(Lanes(h, l), Word(b)))
    ensures next == Feed(Modbus, 0xffff, m + [b])
  {
    FeedNext(Modbus, 0xffff, m, b);
  }

  /** One round of the loop takes in one byte. */
  lemma NextRound(h: bv8, l: bv8, m: Bytes, b: bv8)
    requires LanesHold(h, l, m)
    ensures LanesHold(l ^ CrcHigh(h ^ b), CrcLow(h ^ b), m + [b])
  {
    LaneStep(h, l, b);
    AbsorbByte(h, l, m, b, Lanes(l ^ CrcHigh(h ^ b), CrcLow(h ^ b)));
  }

  lemma LoopResult(h: bv8, l: bv8, bytes: Bytes)
    requires LanesHold(h, l, Mid1(bytes))
    ensures h as Register * 0x100 + l as Register == Checksum(bytes) && Fits(Modbus, Checksum(bytes))
  {
    LanesSwapped(h, l);
  }

  /** The two-lane loop computes the swapped Modbus register of the tail, and the
      result fits into 16 bits. */
  method Calc16(bytes: Bytes) returns (crc: Register)
    ensures crc == Checksum(bytes) && Fits(Modbus, crc)
  {
    var index: bv8 := 0;
    var crcH: bv8 := 0xff;
    var crcL: bv8 := 0xff;
    var rest := Mid1(bytes);
    LanesOfOnes();
    for i := 0 to |rest|
      invariant LanesHold(crcH, crcL, rest[..i])
    {
      var data := rest[i];
      NextRound(crcH, crcL, rest[..i], data);
      NextByte(rest, i);
      index := crcH ^ data;
      crcH := crcL ^ CrcHigh(index);
      crcL := CrcLow(index);
    }
    assert rest[..|rest|] == rest;
    LoopResult(crcH, crcL, bytes);
    crc := crcH as Register * 0x100 + crcL as Register;
  }
}
