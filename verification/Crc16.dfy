/**
The table CRC tool: the byte-table loop in C's signed 16-bit arithmetic, the chunked
read loop over a table file, and their agreement with the bit-serial definition.
*/
module Crc16 {
  import opened CrcReference

  // ----- C integer conversions -----

  /** An int16, held as its bits, promoted to int or converted to uint32: sign extension. */
  function SignExtend(c: bv16): bv32 {
    if c & 0x8000 != 0 then (c as bv32) | 0xFFFF_0000 else c as bv32
  }

  /** The right shift of a signed int by 8. */
  function ShiftRight8(x: bv32): bv32 {
    if x & 0x8000_0000 != 0 then (x >> 8) | 0xFF00_0000 else x >> 8
  }

  function Low16(x: bv32): bv16 {
    (x & 0xFFFF) as bv16
  }

  // ----- the table -----

  /** The 256 table entries, in rows of sixteen. */
  const CRC_TABLE: seq<seq<bv16>> := [
    [0x0000, 0xC0C1, 0xC181, 0x0140, 0xC301, 0x03C0, 0x0280, 0xC241,
     0xC601, 0x06C0, 0x0780, 0xC741, 0x0500, 0xC5C1, 0xC481, 0x0440],
    [0xCC01, 0x0CC0, 0x0D80, 0xCD41, 0x0F00, 0xCFC1, 0xCE81, 0x0E40,
     0x0A00, 0xCAC1, 0xCB81, 0x0B40, 0xC901, 0x09C0, 0x0880, 0xC841],
    [0xD801, 0x18C0, 0x1980, 0xD941, 0x1B00, 0xDBC1, 0xDA81, 0x1A40,
     0x1E00, 0xDEC1, 0xDF81, 0x1F40, 0xDD01, 0x1DC0, 0x1C80, 0xDC41],
    [0x1400, 0xD4C1, 0xD581, 0x1540, 0xD701, 0x17C0, 0x1680, 0xD641,
     0xD201, 0x12C0, 0x1380, 0xD341, 0x1100, 0xD1C1, 0xD081, 0x1040],
    [0xF001, 0x30C0, 0x3180, 0xF141, 0x3300, 0xF3C1, 0xF281, 0x3240,
     0x3600, 0xF6C1, 0xF781, 0x3740, 0xF501, 0x35C0, 0x3480, 0xF441],
    [0x3C00, 0xFCC1, 0xFD81, 0x3D40, 0xFF01, 0x3FC0, 0x3E80, 0xFE41,
     0xFA01, 0x3AC0, 0x3B80, 0xFB41, 0x3900, 0xF9C1, 0xF881, 0x3840],
    [0x2800, 0xE8C1, 0xE981, 0x2940, 0xEB01, 0x2BC0, 0x2A80, 0xEA41,
     0xEE01, 0x2EC0, 0x2F80, 0xEF41, 0x2D00, 0xEDC1, 0xEC81, 0x2C40],
    [0xE401, 0x24C0, 0x2580, 0xE541, 0x2700, 0xE7C1, 0xE681, 0x2640,
     0x2200, 0xE2C1, 0xE381, 0x2340, 0xE101, 0x21C0, 0x2080, 0xE041],
    [0xA001, 0x60C0, 0x6180, 0xA141, 0x6300, 0xA3C1, 0xA281, 0x6240,
     0x6600, 0xA6C1, 0xA781, 0x6740, 0xA501, 0x65C0, 0x6480, 0xA441],
    [0x6C00, 0xACC1, 0xAD81, 0x6D40, 0xAF01, 0x6FC0, 0x6E80, 0xAE41,
     0xAA01, 0x6AC0, 0x6B80, 0xAB41, 0x6900, 0xA9C1, 0xA881, 0x6840],
    [0x7800, 0xB8C1, 0xB981, 0x7940, 0xBB01, 0x7BC0, 0x7A80, 0xBA41,
     0xBE01, 0x7EC0, 0x7F80, 0xBF41, 0x7D00, 0xBDC1, 0xBC81, 0x7C40],
    [0xB401, 0x74C0, 0x7580, 0xB541, 0x7700, 0xB7C1, 0xB681, 0x7640,
     0x7200, 0xB2C1, 0xB381, 0x7340, 0xB101, 0x71C0, 0x7080, 0xB041],
    [0x5000, 0x90C1, 0x9181, 0x5140, 0x9301, 0x53C0, 0x5280, 0x9241,
     0x9601, 0x56C0, 0x5780, 0x9741, 0x5500, 0x95C1, 0x9481, 0x5440],
    [0x9C01, 0x5CC0, 0x5D80, 0x9D41, 0x5F00, 0x9FC1, 0x9E81, 0x5E40,
     0x5A00, 0x9AC1, 0x9B81, 0x5B40, 0x9901, 0x59C0, 0x5880, 0x9841],
    [0x8801, 0x48C0, 0x4980, 0x8941, 0x4B00, 0x8BC1, 0x8A81, 0x4A40,
     0x4E00, 0x8EC1, 0x8F81, 0x4F40, 0x8D01, 0x4DC0, 0x4C80, 0x8C41],
    [0x4400, 0x84C1, 0x8581, 0x4540, 0x8701, 0x47C0, 0x4680, 0x8641,
     0x8201, 0x42C0, 0x4380, 0x8341, 0x4100, 0x81C1, 0x8081, 0x4040]
  ]

  lemma TableShape(h: bv8)
    requires h < 16
    ensures |CRC_TABLE| == 16 && |CRC_TABLE[h as int]| == 16
  {
  }

  /** The table index of the loop body, which always fits a byte. */
  function Index(crc: bv16, b: bv8): bv8 {
    ((SignExtend(crc) ^ (b as bv32)) & 0x00FF) as bv8
  }

  /** The register update of the loop body, given the table entry. */
  function Combine(crc: bv16, entry: bv16): bv16 {
    Low16((ShiftRight8(SignExtend(crc)) & 0x00FF) ^ (entry as bv32))
  }

  function CrcTable(index: bv8): bv16 {
    TableShape(index >> 4);
    CRC_TABLE[(index >> 4) as int][(index & 15) as int]
  }

  function TableStep(crc: bv16, b: bv8): bv16 {
    Combine(crc, CrcTable(Index(crc, b)))
  }

  // ----- the table holds the bit-serial images of the bytes -----

  function Shift1(c: bv16): bv16 {
    (c >> 1) ^ (if c & 1 == 1 then 0xA001 else 0)
  }

  function Shift8(c: bv16): bv16 {
    Shift1(Shift1(Shift1(Shift1(Shift1(Shift1(Shift1(Shift1(c))))))))
  }

  lemma LowerTable(h: bv8, l: bv8)
    requires h < 8 && l < 16
    ensures |CRC_TABLE| == 16 && |CRC_TABLE[h as int]| == 16
    ensures CRC_TABLE[h as int][l as int] == Shift8(((h << 4) | l) as bv16)
  {
    if h == 0 {} else if h == 1 {} else if h == 2 {} else if h == 3 {}
    else if h == 4 {} else if h == 5 {} else if h == 6 {} else {}
  }

  lemma UpperTable(h: bv8, l: bv8)
    requires 8 <= h < 16 && l < 16
    ensures |CRC_TABLE| == 16 && |CRC_TABLE[h as int]| == 16
    ensures CRC_TABLE[h as int][l as int] == Shift8(((h << 4) | l) as bv16)
  {
    if h == 8 {} else if h == 9 {} else if h == 10 {} else if h == 11 {}
    else if h == 12 {} else if h == 13 {} else if h == 14 {} else {}
  }

  /** Every table entry is the bit-serial image of its index. */
  lemma TableEntry(i: bv8)
    ensures CrcTable(i) == ShiftTimes(i as bv16, 8)
  {
    assert ((i >> 4) << 4) | (i & 15) == i;
    if i >> 4 < 8 { LowerTable(i >> 4, i & 15); } else { UpperTable(i >> 4, i & 15); }
    ShiftEightTimes(i as bv16);
  }

  function ShiftTimes(c: bv16, n: nat): bv16
    decreases n
  {
    if n == 0 then c else ShiftTimes(Shift1(c), n - 1)
  }

  lemma ShiftEightTimes(c: bv16)
    ensures ShiftTimes(c, 8) == Shift8(c)
  {
    var c2 := Shift1(Shift1(c));
    var c4 := Shift1(Shift1(c2));
    var c6 := Shift1(Shift1(c4));
    assert ShiftTimes(c, 8) == ShiftTimes(c2, 6);
    assert ShiftTimes(c2, 6) == ShiftTimes(c4, 4);
    assert ShiftTimes(c4, 4) == ShiftTimes(c6, 2);
  }

  // ----- machine words as registers -----

  function Mask(i: nat): bv16 {
    if i == 0 then 1 else Mask(i - 1) << 1
  }

  function ToRegister(c: bv16): Register {
    seq(16, i requires 0 <= i < 16 => c & Mask(i) != 0)
  }

  lemma Masks()
    ensures Mask(0) == 0x0001 && Mask(1) == 0x0002 && Mask(2) == 0x0004 && Mask(3) == 0x0008
    ensures Mask(4) == 0x0010 && Mask(5) == 0x0020 && Mask(6) == 0x0040 && Mask(7) == 0x0080
    ensures Mask(8) == 0x0100 && Mask(9) == 0x0200 && Mask(10) == 0x0400 && Mask(11) == 0x0800
    ensures Mask(12) == 0x1000 && Mask(13) == 0x2000 && Mask(14) == 0x4000 && Mask(15) == 0x8000
  {
    assert Mask(0) == 0x0001 && Mask(1) == 0x0002 && Mask(2) == 0x0004 && Mask(3) == 0x0008;
    assert Mask(4) == 0x0010 && Mask(5) == 0x0020 && Mask(6) == 0x0040 && Mask(7) == 0x0080;
    assert Mask(8) == 0x0100 && Mask(9) == 0x0200 && Mask(10) == 0x0400 && Mask(11) == 0x0800;
  }

  predicate OneBit(m: bv16) {
    m != 0 && m & (m - 1) == 0
  }

  lemma MaskIsOneBit(i: nat)
    requires i < 16
    ensures OneBit(Mask(i))
    ensures i < 15 ==> Mask(i) & 0x8000 == 0
  {
    Masks();
  }

  lemma BitOfXor(c: bv16, d: bv16, m: bv16)
    requires OneBit(m)
    ensures (c ^ d) & m != 0 <==> (c & m != 0) != (d & m != 0)
  {
  }

  lemma BitOfShift(c: bv16, m: bv16)
    requires m & 0x8000 == 0
    ensures (c >> 1) & m != 0 <==> c & (m << 1) != 0
  {
  }

  lemma ToRegisterXor(c: bv16, d: bv16)
    ensures ToRegister(c ^ d) == Xor(ToRegister(c), ToRegister(d))
  {
    forall i | 0 <= i < 16 ensures ToRegister(c ^ d)[i] == Xor(ToRegister(c), ToRegister(d))[i] {
      MaskIsOneBit(i);
      BitOfXor(c, d, Mask(i));
    }
  }

  lemma ToRegisterHalf(c: bv16)
    ensures ToRegister(c >> 1) == ToRegister(c)[1..] + [false]
  {
    forall i | 0 <= i < 16 ensures ToRegister(c >> 1)[i] == (ToRegister(c)[1..] + [false])[i] {
      MaskIsOneBit(i);
      if i < 15 { BitOfShift(c, Mask(i)); } else { Masks(); }
    }
  }

  lemma ToRegisterGenerator()
    ensures ToRegister(0xA001) == Generator()
    ensures ToRegister(0) == Zeros(16)
  {
    Masks();
  }

  lemma LowestBit(c: bv16)
    ensures ToRegister(c)[0] <==> c & 1 == 1
  {
    assert Mask(0) == 1;
    assert c & 1 == 0 || c & 1 == 1;
  }

  lemma ToRegisterOddShift(c: bv16)
    requires c & 1 == 1
    ensures ToRegister(Shift1(c)) == Xor(ToRegister(c >> 1), ToRegister(0xA001))
  {
    ToRegisterXor(c >> 1, 0xA001);
  }

  lemma ToRegisterEvenShift(c: bv16)
    requires c & 1 != 1
    ensures ToRegister(Shift1(c)) == ToRegister(c >> 1)
  {
    assert Shift1(c) == c >> 1;
  }

  lemma ToRegisterShift(c: bv16)
    ensures ToRegister(Shift1(c)) == Shift(ToRegister(c))
  {
    LowestBit(c);
    ToRegisterHalf(c);
    ToRegisterGenerator();
    if c & 1 == 1 {
      ToRegisterOddShift(c);
    } else {
      ToRegisterEvenShift(c);
      XorZero(ToRegister(c >> 1));
    }
  }

  lemma WidenedBits(b: bv8, c: bv16)
    requires c == b as bv16
    ensures (c & 0x01 != 0 <==> b & 0x01 != 0) && (c & 0x02 != 0 <==> b & 0x02 != 0)
    ensures (c & 0x04 != 0 <==> b & 0x04 != 0) && (c & 0x08 != 0 <==> b & 0x08 != 0)
    ensures (c & 0x10 != 0 <==> b & 0x10 != 0) && (c & 0x20 != 0 <==> b & 0x20 != 0)
    ensures (c & 0x40 != 0 <==> b & 0x40 != 0) && (c & 0x80 != 0 <==> b & 0x80 != 0)
    ensures c & 0x0100 == 0 && c & 0x0200 == 0 && c & 0x0400 == 0 && c & 0x0800 == 0
    ensures c & 0x1000 == 0 && c & 0x2000 == 0 && c & 0x4000 == 0 && c & 0x8000 == 0
  {
  }

  lemma RegisterOfByte(b: bv8, c: bv16, i: nat)
    requires c == b as bv16 && i < 16
    ensures c & Mask(i) != 0 <==> i < 8 && BitsOf(b)[i]
  {
    Masks();
    WidenedBits(b, c);
  }

  lemma ToRegisterByte(b: bv8)
    ensures ToRegister(b as bv16) == Pad(BitsOf(b))
  {
    var c := b as bv16;
    forall i | 0 <= i < 16 ensures ToRegister(c)[i] == Pad(BitsOf(b))[i] {
      RegisterOfByte(b, c, i);
    }
  }

  lemma {:induction false} ToRegisterShiftTimes(c: bv16, n: nat)
    ensures ToRegister(ShiftTimes(c, n)) == ShiftN(ToRegister(c), n)
    decreases n
  {
    if n > 0 {
      ToRegisterShift(c);
      ToRegisterShiftTimes(Shift1(c), n - 1);
    }
  }

  function HalfTimes(h: bv16, n: nat): bv16
    decreases n
  {
    if n == 0 then h else HalfTimes(h >> 1, n - 1)
  }

  lemma EightHalves(h: bv16)
    ensures HalfTimes(h, 8) == h >> 8
  {
    assert (h >> 1) >> 1 == h >> 2 && (h >> 2) >> 1 == h >> 3 && (h >> 3) >> 1 == h >> 4 && (h >> 4) >> 1 == h >> 5;
    assert (h >> 5) >> 1 == h >> 6 && (h >> 6) >> 1 == h >> 7 && (h >> 7) >> 1 == h >> 8;
    assert HalfTimes(h >> 6, 2) == h >> 8;
    assert HalfTimes(h >> 4, 4) == h >> 8;
    assert HalfTimes(h >> 2, 6) == h >> 8;
  }

  lemma ShiftOfClear(r: Register)
    requires !r[0]
    ensures Shift(r) == r[1..] + [false]
  {
    XorZero(r[1..] + [false]);
  }

  /** While its lowest bit is clear, a word is shifted without feedback. */
  lemma {:induction false} ToRegisterHalfTimes(h: bv16, n: nat)
    requires n <= 16 && forall i | 0 <= i < n :: !ToRegister(h)[i]
    ensures ToRegister(HalfTimes(h, n)) == ShiftN(ToRegister(h), n)
    decreases n
  {
    if n > 0 {
      ToRegisterHalf(h);
      ShiftOfClear(ToRegister(h));
      ToRegisterHalfTimes(h >> 1, n - 1);
    }
  }

  lemma HighByte(c: bv16)
    ensures c == (c & 0xFF00) ^ (c & 0xFF) && (c & 0xFF00) >> 8 == c >> 8
  {
  }

  lemma HighByteIsClear(c: bv16, i: nat)
    requires i < 8
    ensures !ToRegister(c & 0xFF00)[i]
  {
    Masks();
  }

  lemma HighByteShifted(c: bv16)
    ensures ShiftN(ToRegister(c & 0xFF00), 8) == ToRegister(c >> 8)
  {
    var h := c & 0xFF00;
    forall i | 0 <= i < 8 ensures !ToRegister(h)[i] {
      HighByteIsClear(c, i);
    }
    ToRegisterHalfTimes(h, 8);
    EightHalves(h);
    HighByte(c);
  }

  /** Eight shifts of a word: its high byte moves down, and its low byte is fed back. */
  lemma SplitShift(c: bv16, low: bv16)
    requires low == c & 0xFF
    ensures ShiftN(ToRegister(c), 8) == Xor(ToRegister(c >> 8), ShiftN(ToRegister(low), 8))
  {
    HighByte(c);
    ToRegisterXor(c & 0xFF00, low);
    ShiftNIsLinear(ToRegister(c & 0xFF00), ToRegister(low), 8);
    HighByteShifted(c);
  }

  lemma SignedArithmetic(c: bv16, b: bv8)
    ensures (((SignExtend(c) ^ (b as bv32)) & 0x00FF) as bv8) as bv16 == (c ^ (b as bv16)) & 0xFF
    ensures ShiftRight8(SignExtend(c)) & 0x00FF == (c >> 8) as bv32
    ensures (c ^ (b as bv16)) >> 8 == c >> 8
  {
  }

  lemma XorNarrow(a: bv16, b: bv16)
    ensures Low16((a as bv32) ^ (b as bv32)) == a ^ b
  {
  }

  lemma CombineForm(c: bv16, entry: bv16)
    ensures Combine(c, entry) == (c >> 8) ^ entry
  {
    SignedArithmetic(c, 0);
    XorNarrow(c >> 8, entry);
  }

  lemma TableStepForm(c: bv16, b: bv8)
    ensures TableStep(c, b) == ((c ^ (b as bv16)) >> 8) ^ CrcTable(Index(c, b))
    ensures Index(c, b) as bv16 == (c ^ (b as bv16)) & 0xFF
  {
    CombineForm(c, CrcTable(Index(c, b)));
    SignedArithmetic(c, b);
  }

  /** A table entry as a register. */
  lemma EntryInRegisters(i: bv8)
    ensures ToRegister(CrcTable(i)) == ShiftN(ToRegister(i as bv16), 8)
  {
    TableEntry(i);
    ToRegisterShiftTimes(i as bv16, 8);
  }

  lemma XorWithByte(c: bv16, b: bv8)
    ensures ToRegister(c ^ (b as bv16)) == Xor(ToRegister(c), Pad(BitsOf(b)))
  {
    ToRegisterXor(c, b as bv16);
    ToRegisterByte(b);
  }

  lemma StepInRegisters(x: bv16, low: bv16, entry: bv16)
    requires low == x & 0xFF && ToRegister(entry) == ShiftN(ToRegister(low), 8)
    ensures ToRegister((x >> 8) ^ entry) == ShiftN(ToRegister(x), 8)
  {
    ToRegisterXor(x >> 8, entry);
    SplitShift(x, low);
  }

  lemma TableStepInRegisters(c: bv16, b: bv8)
    ensures ToRegister(TableStep(c, b)) == ShiftN(Xor(ToRegister(c), Pad(BitsOf(b))), 8)
  {
    TableStepForm(c, b);
    EntryInRegisters(Index(c, b));
    StepInRegisters(c ^ (b as bv16), Index(c, b) as bv16, CrcTable(Index(c, b)));
    XorWithByte(c, b);
  }

  /** One table step, signed shifts and all, is eight bit-serial steps. */
  lemma TableStepIsByteFeed(c: bv16, b: bv8)
    ensures ToRegister(TableStep(c, b)) == Feed(ToRegister(c), BitsOf(b))
  {
    TableStepInRegisters(c, b);
    FeedPadded(ToRegister(c), BitsOf(b));
  }

  // ----- the program -----

  /** CalculateCRC: the low half of the result is the CRC, the high half its sign extension. */
  method CalculateCRC(data: seq<bv8>, inputCrc: bv32) returns (r: bv32)
    requires |data| < 0x8000_0000
    ensures ToRegister(Low16(r)) == Crc(data, ToRegister(Low16(inputCrc)))
    ensures r == SignExtend(Low16(r))
  {
    var crc := Low16(inputCrc);
    var seed := ToRegister(crc);
    var i := 0;
    while i < |data|
      invariant 0 <= i <= |data|
      invariant ToRegister(crc) == Crc(data[..i], seed)
    {
      TableStepExtends(crc, data, i, seed);
      crc := TableStep(crc, data[i]);
      i := i + 1;
    }
    assert data[..i] == data;
    NarrowSignExtend(crc);
    r := SignExtend(crc);
  }

  lemma CrcExtends(data: seq<bv8>, i: nat, seed: Register)
    requires i < |data|
    ensures Crc(data[..i + 1], seed) == Feed(Crc(data[..i], seed), BitsOf(data[i]))
  {
    MessageBitsOfByte(data[i]);
    assert data[..i + 1] == data[..i] + [data[i]];
    CrcAppend(data[..i], [data[i]], seed);
  }

  lemma TableStepExtends(crc: bv16, data: seq<bv8>, i: nat, seed: Register)
    requires i < |data| && ToRegister(crc) == Crc(data[..i], seed)
    ensures ToRegister(TableStep(crc, data[i])) == Crc(data[..i + 1], seed)
  {
    TableStepIsByteFeed(crc, data[i]);
    CrcExtends(data, i, seed);
  }

  lemma NarrowUnsigned(c: bv16)
    ensures Low16(c as bv32) == c
  {
  }

  lemma NarrowNegative(c: bv16)
    ensures Low16((c as bv32) | 0xFFFF_0000) == c
  {
  }

  lemma NarrowSignExtend(c: bv16)
    ensures Low16(SignExtend(c)) == c
  {
    NarrowUnsigned(c);
    NarrowNegative(c);
  }

  const HEADER_SIZE := 116
  const BUFFER_SIZE := 100

  /** What read() may return, call by call, with the given number of bytes still unread:
      short reads are allowed, zero only at the end of the file, a negative result is an error. */
  predicate ReadPattern(results: seq<int>, remaining: nat) {
    && results != []
    && results[0] <= BUFFER_SIZE && results[0] <= remaining
    && (results[0] == 0 ==> remaining == 0)
    && (results[0] > 0 ==> ReadPattern(results[1..], remaining - results[0]))
  }

  predicate ReadFails(results: seq<int>) {
    results != [] && (results[0] < 0 || (results[0] > 0 && ReadFails(results[1..])))
  }

  datatype Report = ReadError | Report(fileSize: nat, fileCrc: bv32)

  /** The bytes of a table file after its two headers. */
  function Payload(file: seq<bv8>): seq<bv8> {
    if |file| <= HEADER_SIZE then [] else file[HEADER_SIZE..]
  }

  lemma CrcOfChunk(payload: seq<bv8>, k: nat, n: nat)
    requires k + n <= |payload|
    ensures Crc(payload[k..k + n], Crc(payload[..k], Zeros(16))) == Crc(payload[..k + n], Zeros(16))
  {
    CrcAppend(payload[..k], payload[k..k + n], Zeros(16));
    assert payload[..k + n] == payload[..k] + payload[k..k + n];
  }

  /** The 32-bit value the tool carries between chunks stands for the CRC of the bytes so far. */
  predicate StandsFor(crc: bv32, data: seq<bv8>) {
    && ToRegister(Low16(crc)) == Crc(data, Zeros(16))
    && crc == SignExtend(Low16(crc))
  }

  /** One chunk of the read loop. */
  method AddChunk(payload: seq<bv8>, k: nat, n: nat, crc: bv32) returns (r: bv32)
    requires n <= BUFFER_SIZE && k + n <= |payload| && StandsFor(crc, payload[..k])
    ensures StandsFor(r, payload[..k + n])
  {
    CrcOfChunk(payload, k, n);
    r := CalculateCRC(payload[k..k + n], crc);
  }

  lemma NoBytesYet(payload: seq<bv8>)
    ensures StandsFor(0, payload[..0])
  {
    ToRegisterGenerator();
    assert payload[..0] == [];
  }

  /** The tool's main loop: whatever the pattern of short reads, it reports the size and the
      CRC of exactly the bytes after the headers, unless a read fails. */
  method CrcOfFile(file: seq<bv8>, results: seq<int>) returns (report: Report)
    requires ReadPattern(results, |Payload(file)|)
    ensures report.ReadError? <==> ReadFails(results)
    ensures report.Report? ==> report.fileSize == |Payload(file)| && StandsFor(report.fileCrc, Payload(file))
  {
    var payload := Payload(file);
    var fileCrc: bv32 := 0;
    var fileSize := 0;
    var rest := results;
    NoBytesYet(payload);
    while true
      invariant 0 <= fileSize <= |payload|
      invariant ReadPattern(rest, |payload| - fileSize)
      invariant ReadFails(results) <==> ReadFails(rest)
      invariant StandsFor(fileCrc, payload[..fileSize])
      decreases |rest|
    {
      var readSize := rest[0];
      if readSize < 0 {
        return ReadError;
      }
      fileCrc := AddChunk(payload, fileSize, readSize, fileCrc);
      fileSize := fileSize + readSize;
      if readSize == 0 {
        assert payload[..fileSize] == payload;
        return Report(fileSize, fileCrc);
      }
      rest := rest[1..];
    }
  }
}
