/** `Crc::calc32`: the table-driven loop and what it computes. */
module Crc32 {
  import opened CrcTables
  import opened BitStream
  import opened ShiftRegister
  import opened ByteRegister

  const ONES: Register := 0xffff_ffff

  /** The CRC-32 of a message, one bit at a time: the register starts with all
      ones and is complemented at the end. */
  function Checksum(m: Bytes): Register {
    Xor(Run(Ethernet, ONES, MessageBits(m)), ONES)
  }

  // ------------------------------------------------------------------- table

  lemma TableRow0(x: bv8)
    requires x >> 4 == 0
    ensures Crc32Entry(x) == Shift8(Ethernet, Word(x))
  {
    assert InRow(0x00, x);
  }

  lemma TableRow1(x: bv8)
    requires x >> 4 == 1
    ensures Crc32Entry(x) == Shift8(Ethernet, Word(x))
  {
    assert InRow(0x10, x);
  }

  lemma TableRow2(x: bv8)
    requires x >> 4 == 2
    ensures Crc32Entry(x) == Shift8(Ethernet, Word(x))
  {
    assert InRow(0x20, x);
  }

  lemma TableRow3(x: bv8)
    requires x >> 4 == 3
    ensures Crc32Entry(x) == Shift8(Ethernet, Word(x))
  {
    assert InRow(0x30, x);
  }

  lemma TableRow4(x: bv8)
    requires x >> 4 == 4
    ensures Crc32Entry(x) == Shift8(Ethernet, Word(x))
  {
    assert InRow(0x40, x);
  }

  lemma TableRow5(x: bv8)
    requires x >> 4 == 5
    ensures Crc32Entry(x) == Shift8(Ethernet, Word(x))
  {
    assert InRow(0x50, x);
  }

  lemma TableRow6(x: bv8)
    requires x >> 4 == 6
    ensures Crc32Entry(x) == Shift8(Ethernet, Word(x))
  {
    assert InRow(0x60, x);
  }

  lemma TableRow7(x: bv8)
    requires x >> 4 == 7
    ensures Crc32Entry(x) == Shift8(Ethernet, Word(x))
  {
    assert InRow(0x70, x);
  }

  lemma TableRow8(x: bv8)
    requires x >> 4 == 8
    ensures Crc32Entry(x) == Shift8(Ethernet, Word(x))
  {
    assert InRow(0x80, x);
  }

  lemma TableRow9(x: bv8)
    requires x >> 4 == 9
    ensures Crc32Entry(x) == Shift8(Ethernet, Word(x))
  {
    assert InRow(0x90, x);
  }

  lemma TableRowA(x: bv8)
    requires x >> 4 == 10
    ensures Crc32Entry(x) == Shift8(Ethernet, Word(x))
  {
    assert InRow(0xA0, x);
  }

  lemma TableRowB(x: bv8)
    requires x >> 4 == 11
    ensures Crc32Entry(x) == Shift8(Ethernet, Word(x))
  {
    assert InRow(0xB0, x);
  }

  lemma TableRowC(x: bv8)
    requires x >> 4 == 12
    ensures Crc32Entry(x) == Shift8(Ethernet, Word(x))
  {
    assert InRow(0xC0, x);
  }

  lemma TableRowD(x: bv8)
    requires x >> 4 == 13
    ensures Crc32Entry(x) == Shift8(Ethernet, Word(x))
  {
    assert InRow(0xD0, x);
  }

  lemma TableRowE(x: bv8)
    requires x >> 4 == 14
    ensures Crc32Entry(x) == Shift8(Ethernet, Word(x))
  {
    assert InRow(0xE0, x);
  }

  lemma TableRowF(x: bv8)
    requires x >> 4 == 15
    ensures Crc32Entry(x) == Shift8(Ethernet, Word(x))
  {
    assert InRow(0xF0, x);
  }

  /** All 256 table entries are eight register steps of their index. */
  lemma TableEntry(x: bv8)
    ensures Crc32Entry(x) == Shift(Ethernet, 8, Word(x))
  {
    Shift8IsShift(Ethernet, Word(x));
    var hi := x >> 4;
    assert InRow(0, hi);
    if hi == 0 { TableRow0(x); }
    if hi == 1 { TableRow1(x); }
    if hi == 2 { TableRow2(x); }
    if hi == 3 { TableRow3(x); }
    if hi == 4 { TableRow4(x); }
    if hi == 5 { TableRow5(x); }
    if hi == 6 { TableRow6(x); }
    if hi == 7 { TableRow7(x); }
    if hi == 8 { TableRow8(x); }
    if hi == 9 { TableRow9(x); }
    if hi == 10 { TableRowA(x); }
    if hi == 11 { TableRowB(x); }
    if hi == 12 { TableRowC(x); }
    if hi == 13 { TableRowD(x); }
    if hi == 14 { TableRowE(x); }
    if hi == 15 { TableRowF(x); }
  }

  lemma SplitLowByte(x: Register)
    ensures Xor(Word(LowByte(x)), x & 0xffff_ff00) == x
    ensures x & 0xffff_ff00 & 0xff == 0 && (x & 0xffff_ff00) >> 8 == x >> 8
  {
  }

  /** One table lookup does the work of eight register steps. */
  lemma TableShift(x: Register)
    ensures Xor(Crc32Entry(LowByte(x)), DropByte(x)) == Shift(Ethernet, 8, x)
  {
    var high := x & 0xffff_ff00;
    SplitLowByte(x);
    TableEntry(LowByte(x));
    ShiftClearByte(Ethernet, high);
    ShiftLinear(Ethernet, 8, Word(LowByte(x)), high);
  }

  // ------------------------------------------------- the loop of Crc::calc32

  lemma DropAddedByte(c: Register, b: bv8)
    ensures DropByte(Xor(c, Word(b))) == DropByte(c)
  {
  }

  /** The table-driven loop computes the bit-at-a-time checksum. */
  method Calc32(bytes: Bytes) returns (crc: Register)
    ensures crc == Checksum(bytes)
  {
    crc := 0xffff_ffff;
    for i := 0 to |bytes|
      invariant crc == Feed(Ethernet, ONES, bytes[..i])
    {
      var data := bytes[i];
      TableShift(Xor(crc, Word(data)));
      DropAddedByte(crc, data);
      crc := Xor(Crc32Entry(LowByte(Xor(crc, Word(data)))), DropByte(crc));
      FeedNext(Ethernet, ONES, bytes[..i], data);
      NextByte(bytes, i);
    }
    assert bytes[..|bytes|] == bytes;
    crc := Xor(crc, 0xffff_ffff);
  }
}
