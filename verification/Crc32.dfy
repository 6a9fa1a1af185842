/** The table-driven checksum of crc32.c against the bit-by-bit shift register it speeds up. */
module Crc32 {
  import opened Wire

  // ---------------------------------------------------------------- the shift register

  const POLYNOMIAL: bv32 := 0xedb88320

  function Plus(a: bv32, b: bv32): bv32 {
    a ^ b
  }

  predicate Odd(c: bv32) {
    c & 1 == 1
  }

  function Half(c: bv32): bv32 {
    c >> 1
  }

  function LowByte(c: bv32): bv32 {
    c & 0xff
  }

  function HighBytes(c: bv32): bv32 {
    c >> 8
  }

  function ShiftBit(c: bv32): bv32 {
    if Odd(c) then Plus(POLYNOMIAL, Half(c)) else Half(c)
  }

  function ShiftByte(c: bv32): bv32 {
    ShiftBit(ShiftBit(ShiftBit(ShiftBit(ShiftBit(ShiftBit(ShiftBit(ShiftBit(c))))))))
  }

  /** The register after the bytes of `s`, each entered low bit first. */
  function ShiftRegister(s: seq<bv8>): bv32 {
    if s == [] then 0 else ShiftByte(Plus(ShiftRegister(s[..|s|-1]), s[|s|-1] as bv32))
  }

  // ---------------------------------------------------------------- the register is linear

  lemma HalvesOfPlus(a: bv32, b: bv32)
    ensures Half(Plus(a, b)) == Plus(Half(a), Half(b))
    ensures Odd(Plus(a, b)) <==> Odd(a) != Odd(b)
  {
  }

  lemma PlusAssociates(p: bv32, a: bv32, b: bv32)
    ensures Plus(p, Plus(a, b)) == Plus(Plus(p, a), b)
  {
  }

  lemma PlusCommutes(a: bv32, b: bv32)
    ensures Plus(a, b) == Plus(b, a)
  {
  }

  lemma PlusCancels(a: bv32, b: bv32)
    ensures Plus(a, Plus(a, b)) == b
  {
  }

  /** Adding the polynomial to one of two summands, to the other, or to both. */
  lemma PlusIsAGroup(p: bv32, a: bv32, b: bv32)
    ensures Plus(p, Plus(a, b)) == Plus(Plus(p, a), b)
    ensures Plus(p, Plus(a, b)) == Plus(a, Plus(p, b))
    ensures Plus(Plus(p, a), Plus(p, b)) == Plus(a, b)
  {
    hide Plus;
    PlusAssociates(p, a, b);
    PlusCommutes(p, a);
    PlusAssociates(a, p, b);
    PlusAssociates(a, p, Plus(p, b));
    PlusCancels(p, b);
  }

  lemma ShiftBitLinear(a: bv32, b: bv32)
    ensures ShiftBit(Plus(a, b)) == Plus(ShiftBit(a), ShiftBit(b))
  {
    hide Plus, Odd, Half;
    HalvesOfPlus(a, b);
    PlusIsAGroup(POLYNOMIAL, Half(a), Half(b));
  }

  lemma ShiftByteLinear(a: bv32, b: bv32)
    ensures ShiftByte(Plus(a, b)) == Plus(ShiftByte(a), ShiftByte(b))
  {
    hide ShiftBit, Plus;
    var a1, b1 := ShiftBit(a), ShiftBit(b);
    ShiftBitLinear(a, b);
    var a2, b2 := ShiftBit(a1), ShiftBit(b1);
    ShiftBitLinear(a1, b1);
    var a3, b3 := ShiftBit(a2), ShiftBit(b2);
    ShiftBitLinear(a2, b2);
    var a4, b4 := ShiftBit(a3), ShiftBit(b3);
    ShiftBitLinear(a3, b3);
    var a5, b5 := ShiftBit(a4), ShiftBit(b4);
    ShiftBitLinear(a4, b4);
    var a6, b6 := ShiftBit(a5), ShiftBit(b5);
    ShiftBitLinear(a5, b5);
    var a7, b7 := ShiftBit(a6), ShiftBit(b6);
    ShiftBitLinear(a6, b6);
    ShiftBitLinear(a7, b7);
  }

  lemma LowBitsClear(h: bv32)
    requires LowByte(h) == 0
    ensures h & 1 == 0 && (h >> 1) & 1 == 0 && (h >> 2) & 1 == 0 && (h >> 3) & 1 == 0
    ensures (h >> 4) & 1 == 0 && (h >> 5) & 1 == 0 && (h >> 6) & 1 == 0 && (h >> 7) & 1 == 0
    ensures (h >> 1) >> 1 == h >> 2 && (h >> 2) >> 1 == h >> 3 && (h >> 3) >> 1 == h >> 4 && (h >> 4) >> 1 == h >> 5
    ensures (h >> 5) >> 1 == h >> 6 && (h >> 6) >> 1 == h >> 7 && (h >> 7) >> 1 == h >> 8
  {
  }

  /** Bits that have not reached the low end are only shifted. */
  lemma ShiftHigh(h: bv32)
    requires LowByte(h) == 0
    ensures ShiftByte(h) == HighBytes(h)
  {
    LowBitsClear(h);
  }

  lemma SplitLow(x: bv32) returns (hi: bv32)
    ensures x == Plus(LowByte(x), hi) && LowByte(hi) == 0 && HighBytes(hi) == HighBytes(x)
  {
    hi := x & 0xffffff00;
  }

  /** So a byte step is a look-up of the low byte and a shift of the rest. */
  lemma ShiftSplits(x: bv32)
    ensures ShiftByte(x) == Plus(ShiftByte(LowByte(x)), HighBytes(x))
  {
    hide ShiftByte, Plus, LowByte, HighBytes;
    var hi := SplitLow(x);
    ShiftByteLinear(LowByte(x), hi);
    ShiftHigh(hi);
  }

  /** A byte entered in the middle of a word leaves the bytes above it waiting, shifted down. */
  lemma EnterLow(r: bv32, w: bv32)
    ensures ShiftByte(Plus(r, w)) == Plus(ShiftByte(Plus(r, LowByte(w))), HighBytes(w))
  {
    hide ShiftByte, Plus, LowByte, HighBytes;
    ShiftByteLinear(r, w);
    ShiftSplits(w);
    ShiftByteLinear(r, LowByte(w));
    PlusAssociates(ShiftByte(r), ShiftByte(LowByte(w)), HighBytes(w));
  }

  lemma ShiftBitIsInvertible(c: bv32)
    requires ShiftBit(c) == 0
    ensures c == 0
  {
  }

  /** Shifting loses nothing: only zero becomes zero. */
  lemma ShiftByteIsInvertible(c: bv32)
    requires ShiftByte(c) == 0
    ensures c == 0
  {
    hide ShiftBit;
    var c1 := ShiftBit(c);
    var c2 := ShiftBit(c1);
    var c3 := ShiftBit(c2);
    var c4 := ShiftBit(c3);
    var c5 := ShiftBit(c4);
    var c6 := ShiftBit(c5);
    var c7 := ShiftBit(c6);
    ShiftBitIsInvertible(c7);
    ShiftBitIsInvertible(c6);
    ShiftBitIsInvertible(c5);
    ShiftBitIsInvertible(c4);
    ShiftBitIsInvertible(c3);
    ShiftBitIsInvertible(c2);
    ShiftBitIsInvertible(c1);
    ShiftBitIsInvertible(c);
  }

  // ---------------------------------------------------------------- the table

  /** The feedback terms, sixteen to a row. */
  const ROW0: seq<bv32> := [
    0x00000000, 0x77073096, 0xee0e612c, 0x990951ba, 0x076dc419, 0x706af48f, 0xe963a535, 0x9e6495a3,
    0x0edb8832, 0x79dcb8a4, 0xe0d5e91e, 0x97d2d988, 0x09b64c2b, 0x7eb17cbd, 0xe7b82d07, 0x90bf1d91]
  const ROW1: seq<bv32> := [
    0x1db71064, 0x6ab020f2, 0xf3b97148, 0x84be41de, 0x1adad47d, 0x6ddde4eb, 0xf4d4b551, 0x83d385c7,
    0x136c9856, 0x646ba8c0, 0xfd62f97a, 0x8a65c9ec, 0x14015c4f, 0x63066cd9, 0xfa0f3d63, 0x8d080df5]
  const ROW2: seq<bv32> := [
    0x3b6e20c8, 0x4c69105e, 0xd56041e4, 0xa2677172, 0x3c03e4d1, 0x4b04d447, 0xd20d85fd, 0xa50ab56b,
    0x35b5a8fa, 0x42b2986c, 0xdbbbc9d6, 0xacbcf940, 0x32d86ce3, 0x45df5c75, 0xdcd60dcf, 0xabd13d59]
  const ROW3: seq<bv32> := [
    0x26d930ac, 0x51de003a, 0xc8d75180, 0xbfd06116, 0x21b4f4b5, 0x56b3c423, 0xcfba9599, 0xb8bda50f,
    0x2802b89e, 0x5f058808, 0xc60cd9b2, 0xb10be924, 0x2f6f7c87, 0x58684c11, 0xc1611dab, 0xb6662d3d]
  const ROW4: seq<bv32> := [
    0x76dc4190, 0x01db7106, 0x98d220bc, 0xefd5102a, 0x71b18589, 0x06b6b51f, 0x9fbfe4a5, 0xe8b8d433,
    0x7807c9a2, 0x0f00f934, 0x9609a88e, 0xe10e9818, 0x7f6a0dbb, 0x086d3d2d, 0x91646c97, 0xe6635c01]
  const ROW5: seq<bv32> := [
    0x6b6b51f4, 0x1c6c6162, 0x856530d8, 0xf262004e, 0x6c0695ed, 0x1b01a57b, 0x8208f4c1, 0xf50fc457,
    0x65b0d9c6, 0x12b7e950, 0x8bbeb8ea, 0xfcb9887c, 0x62dd1ddf, 0x15da2d49, 0x8cd37cf3, 0xfbd44c65]
  const ROW6: seq<bv32> := [
    0x4db26158, 0x3ab551ce, 0xa3bc0074, 0xd4bb30e2, 0x4adfa541, 0x3dd895d7, 0xa4d1c46d, 0xd3d6f4fb,
    0x4369e96a, 0x346ed9fc, 0xad678846, 0xda60b8d0, 0x44042d73, 0x33031de5, 0xaa0a4c5f, 0xdd0d7cc9]
  const ROW7: seq<bv32> := [
    0x5005713c, 0x270241aa, 0xbe0b1010, 0xc90c2086, 0x5768b525, 0x206f85b3, 0xb966d409, 0xce61e49f,
    0x5edef90e, 0x29d9c998, 0xb0d09822, 0xc7d7a8b4, 0x59b33d17, 0x2eb40d81, 0xb7bd5c3b, 0xc0ba6cad]
  const ROW8: seq<bv32> := [
    0xedb88320, 0x9abfb3b6, 0x03b6e20c, 0x74b1d29a, 0xead54739, 0x9dd277af, 0x04db2615, 0x73dc1683,
    0xe3630b12, 0x94643b84, 0x0d6d6a3e, 0x7a6a5aa8, 0xe40ecf0b, 0x9309ff9d, 0x0a00ae27, 0x7d079eb1]
  const ROW9: seq<bv32> := [
    0xf00f9344, 0x8708a3d2, 0x1e01f268, 0x6906c2fe, 0xf762575d, 0x806567cb, 0x196c3671, 0x6e6b06e7,
    0xfed41b76, 0x89d32be0, 0x10da7a5a, 0x67dd4acc, 0xf9b9df6f, 0x8ebeeff9, 0x17b7be43, 0x60b08ed5]
  const ROW10: seq<bv32> := [
    0xd6d6a3e8, 0xa1d1937e, 0x38d8c2c4, 0x4fdff252, 0xd1bb67f1, 0xa6bc5767, 0x3fb506dd, 0x48b2364b,
    0xd80d2bda, 0xaf0a1b4c, 0x36034af6, 0x41047a60, 0xdf60efc3, 0xa867df55, 0x316e8eef, 0x4669be79]
  const ROW11: seq<bv32> := [
    0xcb61b38c, 0xbc66831a, 0x256fd2a0, 0x5268e236, 0xcc0c7795, 0xbb0b4703, 0x220216b9, 0x5505262f,
    0xc5ba3bbe, 0xb2bd0b28, 0x2bb45a92, 0x5cb36a04, 0xc2d7ffa7, 0xb5d0cf31, 0x2cd99e8b, 0x5bdeae1d]
  const ROW12: seq<bv32> := [
    0x9b64c2b0, 0xec63f226, 0x756aa39c, 0x026d930a, 0x9c0906a9, 0xeb0e363f, 0x72076785, 0x05005713,
    0x95bf4a82, 0xe2b87a14, 0x7bb12bae, 0x0cb61b38, 0x92d28e9b, 0xe5d5be0d, 0x7cdcefb7, 0x0bdbdf21]
  const ROW13: seq<bv32> := [
    0x86d3d2d4, 0xf1d4e242, 0x68ddb3f8, 0x1fda836e, 0x81be16cd, 0xf6b9265b, 0x6fb077e1, 0x18b74777,
    0x88085ae6, 0xff0f6a70, 0x66063bca, 0x11010b5c, 0x8f659eff, 0xf862ae69, 0x616bffd3, 0x166ccf45]
  const ROW14: seq<bv32> := [
    0xa00ae278, 0xd70dd2ee, 0x4e048354, 0x3903b3c2, 0xa7672661, 0xd06016f7, 0x4969474d, 0x3e6e77db,
    0xaed16a4a, 0xd9d65adc, 0x40df0b66, 0x37d83bf0, 0xa9bcae53, 0xdebb9ec5, 0x47b2cf7f, 0x30b5ffe9]
  const ROW15: seq<bv32> := [
    0xbdbdf21c, 0xcabac28a, 0x53b39330, 0x24b4a3a6, 0xbad03605, 0xcdd70693, 0x54de5729, 0x23d967bf,
    0xb3667a2e, 0xc4614ab8, 0x5d681b02, 0x2a6f2b94, 0xb40bbe37, 0xc30c8ea1, 0x5a05df1b, 0x2d02ef8d]
  const CRC32_TAB: seq<seq<bv32>> := [
    ROW0, ROW1, ROW2, ROW3, ROW4, ROW5, ROW6, ROW7,
    ROW8, ROW9, ROW10, ROW11, ROW12, ROW13, ROW14, ROW15]

  function TableEntry(x: bv8): bv32 {
    assert x >> 4 <= 15 && x & 15 <= 15;
    CRC32_TAB[x >> 4][x & 15]
  }

  /** The bit of `x` selected by `mask`, as a register value. */
  function Bit(x: bv8, mask: bv8): bv32 {
    (x & mask) as bv32
  }

  function Term(x: bv8, mask: bv8, value: bv32): bv32 {
    if x & mask != 0 then value else 0
  }

  function LowTerms(x: bv8): bv32 {
    Plus(Term(x, 1, 0x77073096), Plus(Term(x, 2, 0xee0e612c), Plus(Term(x, 4, 0x076dc419), Term(x, 8, 0x0edb8832))))
  }

  function HighTerms(x: bv8): bv32 {
    Plus(Term(x, 16, 0x1db71064),
         Plus(Term(x, 32, 0x3b6e20c8), Plus(Term(x, 64, 0x76dc4190), Term(x, 128, 0xedb88320))))
  }

  lemma BitsOf(x: bv8)
    ensures x as bv32 == Plus(Plus(Bit(x, 1), Plus(Bit(x, 2), Plus(Bit(x, 4), Bit(x, 8)))),
                              Plus(Bit(x, 16), Plus(Bit(x, 32), Plus(Bit(x, 64), Bit(x, 128)))))
  {
  }

  lemma ShiftLowBits(x: bv8)
    ensures ShiftByte(Bit(x, 1)) == Term(x, 1, 0x77073096)
    ensures ShiftByte(Bit(x, 2)) == Term(x, 2, 0xee0e612c)
    ensures ShiftByte(Bit(x, 4)) == Term(x, 4, 0x076dc419)
    ensures ShiftByte(Bit(x, 8)) == Term(x, 8, 0x0edb8832)
  {
  }

  lemma ShiftHighBits(x: bv8)
    ensures ShiftByte(Bit(x, 16)) == Term(x, 16, 0x1db71064)
    ensures ShiftByte(Bit(x, 32)) == Term(x, 32, 0x3b6e20c8)
    ensures ShiftByte(Bit(x, 64)) == Term(x, 64, 0x76dc4190)
    ensures ShiftByte(Bit(x, 128)) == Term(x, 128, 0xedb88320)
  {
  }

  lemma ShiftByteOfSum(a: bv32, b: bv32, c: bv32, d: bv32)
    ensures ShiftByte(Plus(a, Plus(b, Plus(c, d)))) ==
            Plus(ShiftByte(a), Plus(ShiftByte(b), Plus(ShiftByte(c), ShiftByte(d))))
  {
    hide ShiftByte, Plus;
    ShiftByteLinear(c, d);
    ShiftByteLinear(b, Plus(c, d));
    ShiftByteLinear(a, Plus(b, Plus(c, d)));
  }

  /** A byte step of a single byte is what its bits become, added up. */
  lemma ShiftOfByte(x: bv8)
    ensures ShiftByte(x as bv32) == Plus(LowTerms(x), HighTerms(x))
  {
    hide ShiftByte, Plus, Bit, Term;
    BitsOf(x);
    ShiftByteLinear(Plus(Bit(x, 1), Plus(Bit(x, 2), Plus(Bit(x, 4), Bit(x, 8)))),
                    Plus(Bit(x, 16), Plus(Bit(x, 32), Plus(Bit(x, 64), Bit(x, 128)))));
    ShiftByteOfSum(Bit(x, 1), Bit(x, 2), Bit(x, 4), Bit(x, 8));
    ShiftByteOfSum(Bit(x, 16), Bit(x, 32), Bit(x, 64), Bit(x, 128));
    ShiftLowBits(x);
    ShiftHighBits(x);
  }

  /** The entries of one row are those of the first row with `high` added. */
  ghost predicate IsRow(row: seq<bv32>, high: bv32) {
    |row| == 16 &&
    row[0] == Plus(ROW0[0], high) && row[1] == Plus(ROW0[1], high) &&
    row[2] == Plus(ROW0[2], high) && row[3] == Plus(ROW0[3], high) &&
    row[4] == Plus(ROW0[4], high) && row[5] == Plus(ROW0[5], high) &&
    row[6] == Plus(ROW0[6], high) && row[7] == Plus(ROW0[7], high) &&
    row[8] == Plus(ROW0[8], high) && row[9] == Plus(ROW0[9], high) &&
    row[10] == Plus(ROW0[10], high) && row[11] == Plus(ROW0[11], high) &&
    row[12] == Plus(ROW0[12], high) && row[13] == Plus(ROW0[13], high) &&
    row[14] == Plus(ROW0[14], high) && row[15] == Plus(ROW0[15], high)
  }

  lemma PlusZero(a: bv32)
    ensures Plus(a, 0) == a
    ensures Plus(0, a) == a
    ensures Plus(a, a) == 0
  {
  }

  lemma NoHighTerms()
    ensures HighTerms(0) == 0
  {
  }

  lemma Row0Ok()
    ensures IsRow(ROW0, HighTerms(0))
  {
    hide Plus, HighTerms;
    NoHighTerms();
    PlusZero(ROW0[0]);
    PlusZero(ROW0[1]);
    PlusZero(ROW0[2]);
    PlusZero(ROW0[3]);
    PlusZero(ROW0[4]);
    PlusZero(ROW0[5]);
    PlusZero(ROW0[6]);
    PlusZero(ROW0[7]);
    PlusZero(ROW0[8]);
    PlusZero(ROW0[9]);
    PlusZero(ROW0[10]);
    PlusZero(ROW0[11]);
    PlusZero(ROW0[12]);
    PlusZero(ROW0[13]);
    PlusZero(ROW0[14]);
    PlusZero(ROW0[15]);
  }

  lemma Row1Ok()
    ensures IsRow(ROW1, HighTerms(16))
  {
    assert HighTerms(16) == 0x1db71064;
  }

  lemma Row2Ok()
    ensures IsRow(ROW2, HighTerms(32))
  {
    assert HighTerms(32) == 0x3b6e20c8;
  }

  lemma Row3Ok()
    ensures IsRow(ROW3, HighTerms(48))
  {
    assert HighTerms(48) == 0x26d930ac;
  }

  lemma Row4Ok()
    ensures IsRow(ROW4, HighTerms(64))
  {
    assert HighTerms(64) == 0x76dc4190;
  }

  lemma Row5Ok()
    ensures IsRow(ROW5, HighTerms(80))
  {
    assert HighTerms(80) == 0x6b6b51f4;
  }

  lemma Row6Ok()
    ensures IsRow(ROW6, HighTerms(96))
  {
    assert HighTerms(96) == 0x4db26158;
  }

  lemma Row7Ok()
    ensures IsRow(ROW7, HighTerms(112))
  {
    assert HighTerms(112) == 0x5005713c;
  }

  lemma Row8Ok()
    ensures IsRow(ROW8, HighTerms(128))
  {
    assert HighTerms(128) == 0xedb88320;
  }

  lemma Row9Ok()
    ensures IsRow(ROW9, HighTerms(144))
  {
    assert HighTerms(144) == 0xf00f9344;
  }

  lemma Row10Ok()
    ensures IsRow(ROW10, HighTerms(160))
  {
    assert HighTerms(160) == 0xd6d6a3e8;
  }

  lemma Row11Ok()
    ensures IsRow(ROW11, HighTerms(176))
  {
    assert HighTerms(176) == 0xcb61b38c;
  }

  lemma Row12Ok()
    ensures IsRow(ROW12, HighTerms(192))
  {
    assert HighTerms(192) == 0x9b64c2b0;
  }

  lemma Row13Ok()
    ensures IsRow(ROW13, HighTerms(208))
  {
    assert HighTerms(208) == 0x86d3d2d4;
  }

  lemma Row14Ok()
    ensures IsRow(ROW14, HighTerms(224))
  {
    assert HighTerms(224) == 0xa00ae278;
  }

  lemma Row15Ok()
    ensures IsRow(ROW15, HighTerms(240))
  {
    assert HighTerms(240) == 0xbdbdf21c;
  }

  lemma FirstRow(low: bv8)
    requires low <= 15
    ensures ROW0[low] == LowTerms(low)
  {
    if low <= 7 {
      assert low == 0 || low == 1 || low == 2 || low == 3 || low == 4 || low == 5 || low == 6 || low == 7;
    } else {
      assert low == 8 || low == 9 || low == 10 || low == 11 || low == 12 || low == 13 || low == 14 || low == 15;
    }
  }

  lemma RowEntry(row: seq<bv32>, high: bv32, low: bv8)
    requires IsRow(row, high) && low <= 15
    ensures row[low] == Plus(ROW0[low], high)
  {
    hide Plus;
    if low <= 7 {
      assert low == 0 || low == 1 || low == 2 || low == 3 || low == 4 || low == 5 || low == 6 || low == 7;
    } else {
      assert low == 8 || low == 9 || low == 10 || low == 11 || low == 12 || low == 13 || low == 14 || low == 15;
    }
  }

  lemma TermsOfHalves(x: bv8)
    ensures LowTerms(x & 15) == LowTerms(x)
    ensures HighTerms(x & 240) == HighTerms(x)
  {
    hide Plus;
  }

  lemma HighHalf(x: bv8)
    ensures x >> 4 <= 15 && x & 240 == (x >> 4) << 4
  {
  }

  lemma LowerRow(k: bv8)
    requires k <= 7
    ensures IsRow(CRC32_TAB[k], HighTerms(k << 4))
  {
    hide IsRow, HighTerms;
    if k <= 3 {
      assert k == 0 || k == 1 || k == 2 || k == 3;
      Row0Ok(); Row1Ok(); Row2Ok(); Row3Ok();
    } else {
      assert k == 4 || k == 5 || k == 6 || k == 7;
      Row4Ok(); Row5Ok(); Row6Ok(); Row7Ok();
    }
  }

  lemma UpperRow(k: bv8)
    requires 8 <= k <= 15
    ensures IsRow(CRC32_TAB[k], HighTerms(k << 4))
  {
    hide IsRow, HighTerms;
    if k <= 11 {
      assert k == 8 || k == 9 || k == 10 || k == 11;
      Row8Ok(); Row9Ok(); Row10Ok(); Row11Ok();
    } else {
      assert k == 12 || k == 13 || k == 14 || k == 15;
      Row12Ok(); Row13Ok(); Row14Ok(); Row15Ok();
    }
  }

  /** Every entry of the table is eight steps of the register on the byte that selects it. */
  lemma TableIsShift(x: bv8)
    ensures TableEntry(x) == ShiftByte(x as bv32)
  {
    hide ShiftByte, Plus, IsRow, HighTerms, LowTerms;
    HighHalf(x);
    if x >> 4 <= 7 {
      LowerRow(x >> 4);
    } else {
      UpperRow(x >> 4);
    }
    RowEntry(CRC32_TAB[x >> 4], HighTerms(x & 240), x & 15);
    FirstRow(x & 15);
    TermsOfHalves(x);
    ShiftOfByte(x);
  }

  // ---------------------------------------------------------------- crc32

  lemma EnterByte(crc: bv32, b: bv8)
    ensures HighBytes(Plus(crc, b as bv32)) == HighBytes(crc)
    ensures LowByte(Plus(crc, b as bv32)) == (LowByte(Plus(crc, b as bv32)) as bv8) as bv32
  {
  }

  lemma TableStep(crc: bv32, b: bv8)
    ensures Plus(TableEntry(LowByte(Plus(crc, b as bv32)) as bv8), HighBytes(crc)) == ShiftByte(Plus(crc, b as bv32))
  {
    hide ShiftByte, Plus, TableEntry, HighBytes;
    EnterByte(crc, b);
    TableIsShift(LowByte(Plus(crc, b as bv32)) as bv8);
    ShiftSplits(Plus(crc, b as bv32));
  }

  method Crc32(s: seq<bv8>) returns (crc32val: bv32)
    ensures crc32val == ShiftRegister(s)
  {
    hide Plus, TableEntry, HighBytes, ShiftByte;
    crc32val := 0;
    for i := 0 to |s|
      invariant crc32val == ShiftRegister(s[..i])
    {
      TableStep(crc32val, s[i]);
      assert s[..i+1][..i] == s[..i];
      crc32val := Plus(TableEntry(LowByte(Plus(crc32val, s[i] as bv32)) as bv8), HighBytes(crc32val));
    }
    assert s[..|s|] == s;
  }

  /** A word, low byte first. */
  function WordBytes(w: bv32): (s: seq<bv8>)
    ensures |s| == 4
  {
    [(w & 0xff) as bv8, ((w >> 8) & 0xff) as bv8, ((w >> 16) & 0xff) as bv8, ((w >> 24) & 0xff) as bv8]
  }

  lemma OneMoreByte(s: seq<bv8>, b: bv8, t: seq<bv8>)
    requires t == s + [b]
    ensures ShiftRegister(t) == ShiftByte(Plus(ShiftRegister(s), b as bv32))
  {
    hide ShiftByte, Plus;
    assert t[..|t|-1] == s;
  }

  lemma FourBytes(s: seq<bv8>)
    requires |s| == 4
    ensures ShiftRegister(s) ==
            ShiftByte(Plus(ShiftByte(Plus(ShiftByte(Plus(ShiftByte(Plus(0, s[0] as bv32)),
                                                         s[1] as bv32)), s[2] as bv32)), s[3] as bv32))
  {
    hide ShiftByte, Plus, ShiftRegister;
    OneMoreByte(s[..3], s[3], s);
    OneMoreByte(s[..2], s[2], s[..3]);
    OneMoreByte(s[..1], s[1], s[..2]);
    OneMoreByte([], s[0], s[..1]);
    EmptyRegister();
  }

  lemma EmptyRegister()
    ensures ShiftRegister([]) == 0
  {
  }

  lemma LowByteOf(w: bv32)
    ensures ((w & 0xff) as bv8) as bv32 == LowByte(w)
  {
  }

  lemma WordParts(w: bv32)
    ensures HighBytes(w >> 8) == w >> 16 && HighBytes(w >> 16) == w >> 24 && HighBytes(w >> 24) == 0
    ensures HighBytes(w) == w >> 8
  {
  }

  /** The checksum of one word is the word itself, shifted through. */
  lemma WordIsShifted(w: bv32)
    ensures ShiftRegister(WordBytes(w)) == ShiftByte(ShiftByte(ShiftByte(ShiftByte(w))))
  {
    hide ShiftByte, Plus, LowByte, HighBytes, ShiftRegister;
    var s := WordBytes(w);
    FourBytes(s);
    LowByteOf(w);
    LowByteOf(w >> 8);
    LowByteOf(w >> 16);
    LowByteOf(w >> 24);
    WordParts(w);
    var b0, b1, b2, b3 := s[0] as bv32, s[1] as bv32, s[2] as bv32, s[3] as bv32;
    PlusZero(b0);
    PlusZero(w);
    EnterLow(0, w);
    var r1 := ShiftByte(Plus(0, b0));
    EnterLow(r1, w >> 8);
    var r2 := ShiftByte(Plus(r1, b1));
    EnterLow(r2, w >> 16);
    var r3 := ShiftByte(Plus(r2, b2));
    EnterLow(r3, w >> 24);
    PlusZero(ShiftByte(Plus(r3, b3)));
  }

  /** So only the zero word has checksum zero. */
  lemma WordChecksumZero(w: bv32)
    ensures ShiftRegister(WordBytes(w)) == 0 <==> w == 0
  {
    hide ShiftByte, ShiftRegister, WordBytes;
    WordIsShifted(w);
    if ShiftRegister(WordBytes(w)) == 0 {
      ShiftByteIsInvertible(ShiftByte(ShiftByte(ShiftByte(w))));
      ShiftByteIsInvertible(ShiftByte(ShiftByte(w)));
      ShiftByteIsInvertible(ShiftByte(w));
      ShiftByteIsInvertible(w);
    }
    if w == 0 {
      ZeroStays();
    }
  }

  lemma ZeroStays()
    ensures ShiftByte(0) == 0
  {
    PlusZero(0);
    ShiftOfZero();
  }

  // ---------------------------------------------------------------- what the missing complements cost

  function XorByte(x: bv8, y: bv8): bv8 {
    x ^ y
  }

  function XorBytes(a: seq<bv8>, b: seq<bv8>): seq<bv8>
    requires |a| == |b|
    ensures |XorBytes(a, b)| == |a|
  {
    seq(|a|, i requires 0 <= i < |a| => XorByte(a[i], b[i]))
  }

  lemma EnterSum(p: bv32, q: bv32, x: bv8, y: bv8)
    ensures Plus(Plus(p, q), XorByte(x, y) as bv32) == Plus(Plus(p, x as bv32), Plus(q, y as bv32))
  {
  }

  /** The register after one byte has been shifted in. */
  function Shifted(crc: bv32, x: bv8): bv32 {
    ShiftByte(Plus(crc, x as bv32))
  }

  lemma LastShifted(s: seq<bv8>)
    requires s != []
    ensures ShiftRegister(s) == Shifted(ShiftRegister(s[..|s|-1]), s[|s|-1])
  {
    hide Plus, ShiftByte;
  }

  lemma ShiftedLinear(p: bv32, q: bv32, x: bv8, y: bv8)
    ensures Shifted(Plus(p, q), XorByte(x, y)) == Plus(Shifted(p, x), Shifted(q, y))
  {
    hide Plus, ShiftByte, XorByte;
    EnterSum(p, q, x, y);
    ShiftByteLinear(Plus(p, x as bv32), Plus(q, y as bv32));
  }

  lemma NothingShifted()
    ensures ShiftRegister([]) == Plus(ShiftRegister([]), ShiftRegister([]))
  {
    hide Plus;
    PlusZero(0);
  }

  lemma XorBytesInit(a: seq<bv8>, b: seq<bv8>)
    requires |a| == |b| > 0
    ensures XorBytes(a, b)[..|a|-1] == XorBytes(a[..|a|-1], b[..|a|-1])
    ensures XorBytes(a, b)[|a|-1] == XorByte(a[|a|-1], b[|a|-1])
  {
    hide XorByte;
  }

  /** Starting at zero and complementing nothing, the checksum of a sum is the sum of the checksums. */
  lemma {:induction false} Crc32Linear(a: seq<bv8>, b: seq<bv8>)
    requires |a| == |b|
    ensures ShiftRegister(XorBytes(a, b)) == Plus(ShiftRegister(a), ShiftRegister(b))
  {
    hide ShiftRegister, Plus, Shifted, XorByte, XorBytes;
    if a == [] {
      assert b == [] && XorBytes(a, b) == [];
      NothingShifted();
    } else {
      var n := |a| - 1;
      Crc32Linear(a[..n], b[..n]);
      XorBytesInit(a, b);
      LastShifted(a);
      LastShifted(b);
      LastShifted(XorBytes(a, b));
      ShiftedLinear(ShiftRegister(a[..n]), ShiftRegister(b[..n]), a[n], b[n]);
    }
  }

  // ---------------------------------------------------------------- a word at a time

  lemma ShiftedOnTop(r: bv32, q: bv32, b: bv8)
    ensures Shifted(Plus(r, q), b) == Plus(ShiftByte(r), Shifted(q, b))
  {
    hide Plus, ShiftByte;
    PlusAssociates(r, q, b as bv32);
    ShiftByteLinear(r, Plus(q, b as bv32));
  }

  /** The register after four more bytes. */
  function FourShifted(r: bv32, s: seq<bv8>): bv32
    requires |s| == 4
  {
    Shifted(Shifted(Shifted(Shifted(r, s[0]), s[1]), s[2]), s[3])
  }

  lemma FourMoreBytes(t: seq<bv8>, s: seq<bv8>)
    requires |s| == 4
    ensures ShiftRegister(t + s) == FourShifted(ShiftRegister(t), s)
  {
    hide ShiftRegister, Shifted;
    assert t + s == t + [s[0]] + [s[1]] + [s[2]] + [s[3]];
    OneMoreShifted(t, s[0]);
    OneMoreShifted(t + [s[0]], s[1]);
    OneMoreShifted(t + [s[0]] + [s[1]], s[2]);
    OneMoreShifted(t + [s[0]] + [s[1]] + [s[2]], s[3]);
  }

  lemma OneMoreShifted(t: seq<bv8>, b: bv8)
    ensures ShiftRegister(t + [b]) == Shifted(ShiftRegister(t), b)
  {
    hide ShiftRegister, Shifted;
    LastShifted(t + [b]);
    assert (t + [b])[..|t|] == t;
  }

  lemma FourOnTop(r: bv32, s: seq<bv8>)
    requires |s| == 4
    ensures FourShifted(r, s) == Plus(ShiftByte(ShiftByte(ShiftByte(ShiftByte(r)))), FourShifted(0, s))
  {
    hide Plus, ShiftByte, Shifted;
    var q1 := Shifted(0, s[0]);
    var q2 := Shifted(q1, s[1]);
    var q3 := Shifted(q2, s[2]);
    var r1 := ShiftByte(r);
    var r2 := ShiftByte(r1);
    var r3 := ShiftByte(r2);
    PlusZero(r);
    ShiftedOnTop(r, 0, s[0]);
    ShiftedOnTop(r1, q1, s[1]);
    ShiftedOnTop(r2, q2, s[2]);
    ShiftedOnTop(r3, q3, s[3]);
  }

  lemma FourShiftsLinear(a: bv32, b: bv32)
    ensures ShiftByte(ShiftByte(ShiftByte(ShiftByte(Plus(a, b)))))
         == Plus(ShiftByte(ShiftByte(ShiftByte(ShiftByte(a)))), ShiftByte(ShiftByte(ShiftByte(ShiftByte(b)))))
  {
    hide Plus, ShiftByte;
    var a1, b1 := ShiftByte(a), ShiftByte(b);
    var a2, b2 := ShiftByte(a1), ShiftByte(b1);
    var a3, b3 := ShiftByte(a2), ShiftByte(b2);
    ShiftByteLinear(a, b);
    ShiftByteLinear(a1, b1);
    ShiftByteLinear(a2, b2);
    ShiftByteLinear(a3, b3);
  }

  /** A word is summed after other bytes by adding the register to it: the step of a checksum taken word by word. */
  lemma WordAppended(t: seq<bv8>, w: bv32)
    ensures ShiftRegister(t + WordBytes(w)) == ShiftRegister(WordBytes(Plus(w, ShiftRegister(t))))
  {
    hide Plus, ShiftByte, WordBytes, ShiftRegister, FourShifted;
    var r := ShiftRegister(t);
    FourMoreBytes(t, WordBytes(w));
    FourOnTop(r, WordBytes(w));
    FourMoreBytes([], WordBytes(w));
    assert [] + WordBytes(w) == WordBytes(w);
    EmptyRegister();
    WordIsShifted(w);
    WordIsShifted(Plus(w, r));
    FourShiftsLinear(r, w);
    PlusCommutes(r, w);
  }

  lemma ShiftOfZero()
    ensures ShiftByte(Plus(0, 0)) == 0
  {
  }

  /** Leading zero bytes leave no trace. */
  lemma {:induction false} Crc32IgnoresLeadingZeros(n: nat, s: seq<bv8>)
    ensures ShiftRegister(seq(n, i => 0) + s) == ShiftRegister(s)
  {
    hide Plus, ShiftByte;
    var zeros: seq<bv8> := seq(n, i => 0);
    if s != [] {
      var k := |s| - 1;
      Crc32IgnoresLeadingZeros(n, s[..k]);
      assert (zeros + s)[..n + k] == zeros + s[..k];
    } else if n > 0 {
      Crc32IgnoresLeadingZeros(n - 1, s);
      var fewer: seq<bv8> := seq(n - 1, i => 0);
      assert zeros + s == zeros && fewer + s == fewer && zeros[..n - 1] == fewer;
      ShiftOfZero();
    } else {
      assert zeros + s == s;
    }
  }

  // ---------------------------------------------------------------- on the bytes of a packet

  function Bits(s: seq<byte>): seq<bv8> {
    seq(|s|, i requires 0 <= i < |s| => s[i] as bv8)
  }

  function Checksum(s: seq<byte>): (r: nat)
    ensures r < 0x1_0000_0000
  {
    ShiftRegister(Bits(s)) as nat
  }

  method ChecksumOf(s: seq<byte>) returns (r: nat)
    ensures r == Checksum(s)
  {
    var crc32val := Crc32(Bits(s));
    r := crc32val as nat;
  }
}
