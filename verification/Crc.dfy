/** The table-driven CRC-32 of udp-test/crc.c, the FCS of section 8.2.4.8 of IEEE Std 802.11-2012. */
module Crc {
  type Byte = bv8
  type Word = bv32

  // The operations on words have names so that proofs can treat them as symbols.

  const POLYNOMIAL: Word := 0xEDB88320
  const ONES: Word := 0xFFFFFFFF

  function Xor(a: Word, b: Word): Word { a ^ b }

  function Half(a: Word): Word { a >> 1 }

  function Twice(a: Word): Word { a << 1 }

  predicate Odd(a: Word) { a & 1 == 1 }

  // ---------- bit by bit ----------

  /** One step of the division by the generator polynomial, with reflected bits. */
  function BitStep(c: Word): Word {
    if Odd(c) then Xor(Half(c), POLYNOMIAL) else Half(c)
  }

  function Two(c: Word): Word { BitStep(BitStep(c)) }

  function Four(c: Word): Word { Two(Two(c)) }

  function Eight(c: Word): Word { Four(Four(c)) }

  /** The register after one more byte. */
  function Feed(c: Word, b: Byte): Word { Eight(Xor(c, b as Word)) }

  function Register(c: Word, message: seq<Byte>): Word {
    if message == [] then c else Feed(Register(c, message[..|message| - 1]), message[|message| - 1])
  }

  /** The checksum by its definition. */
  function Checksum(message: seq<Byte>): Word { Xor(Register(ONES, message), ONES) }

  // ---------- crc32_80211_table, in rows of 16 ----------

  function Row0(low: Byte): Word
    requires low < 16
  {
    match low
    case 0 => 0x00000000 case 1 => 0x77073096 case 2 => 0xee0e612c case 3 => 0x990951ba
    case 4 => 0x076dc419 case 5 => 0x706af48f case 6 => 0xe963a535 case 7 => 0x9e6495a3
    case 8 => 0x0edb8832 case 9 => 0x79dcb8a4 case 10 => 0xe0d5e91e case 11 => 0x97d2d988
    case 12 => 0x09b64c2b case 13 => 0x7eb17cbd case 14 => 0xe7b82d07 case 15 => 0x90bf1d91
  }

  function Row1(low: Byte): Word
    requires low < 16
  {
    match low
    case 0 => 0x1db71064 case 1 => 0x6ab020f2 case 2 => 0xf3b97148 case 3 => 0x84be41de
    case 4 => 0x1adad47d case 5 => 0x6ddde4eb case 6 => 0xf4d4b551 case 7 => 0x83d385c7
    case 8 => 0x136c9856 case 9 => 0x646ba8c0 case 10 => 0xfd62f97a case 11 => 0x8a65c9ec
    case 12 => 0x14015c4f case 13 => 0x63066cd9 case 14 => 0xfa0f3d63 case 15 => 0x8d080df5
  }

  function Row2(low: Byte): Word
    requires low < 16
  {
    match low
    case 0 => 0x3b6e20c8 case 1 => 0x4c69105e case 2 => 0xd56041e4 case 3 => 0xa2677172
    case 4 => 0x3c03e4d1 case 5 => 0x4b04d447 case 6 => 0xd20d85fd case 7 => 0xa50ab56b
    case 8 => 0x35b5a8fa case 9 => 0x42b2986c case 10 => 0xdbbbc9d6 case 11 => 0xacbcf940
    case 12 => 0x32d86ce3 case 13 => 0x45df5c75 case 14 => 0xdcd60dcf case 15 => 0xabd13d59
  }

  function Row3(low: Byte): Word
    requires low < 16
  {
    match low
    case 0 => 0x26d930ac case 1 => 0x51de003a case 2 => 0xc8d75180 case 3 => 0xbfd06116
    case 4 => 0x21b4f4b5 case 5 => 0x56b3c423 case 6 => 0xcfba9599 case 7 => 0xb8bda50f
    case 8 => 0x2802b89e case 9 => 0x5f058808 case 10 => 0xc60cd9b2 case 11 => 0xb10be924
    case 12 => 0x2f6f7c87 case 13 => 0x58684c11 case 14 => 0xc1611dab case 15 => 0xb6662d3d
  }

  function Row4(low: Byte): Word
    requires low < 16
  {
    match low
    case 0 => 0x76dc4190 case 1 => 0x01db7106 case 2 => 0x98d220bc case 3 => 0xefd5102a
    case 4 => 0x71b18589 case 5 => 0x06b6b51f case 6 => 0x9fbfe4a5 case 7 => 0xe8b8d433
    case 8 => 0x7807c9a2 case 9 => 0x0f00f934 case 10 => 0x9609a88e case 11 => 0xe10e9818
    case 12 => 0x7f6a0dbb case 13 => 0x086d3d2d case 14 => 0x91646c97 case 15 => 0xe6635c01
  }

  function Row5(low: Byte): Word
    requires low < 16
  {
    match low
    case 0 => 0x6b6b51f4 case 1 => 0x1c6c6162 case 2 => 0x856530d8 case 3 => 0xf262004e
    case 4 => 0x6c0695ed case 5 => 0x1b01a57b case 6 => 0x8208f4c1 case 7 => 0xf50fc457
    case 8 => 0x65b0d9c6 case 9 => 0x12b7e950 case 10 => 0x8bbeb8ea case 11 => 0xfcb9887c
    case 12 => 0x62dd1ddf case 13 => 0x15da2d49 case 14 => 0x8cd37cf3 case 15 => 0xfbd44c65
  }

  function Row6(low: Byte): Word
    requires low < 16
  {
    match low
    case 0 => 0x4db26158 case 1 => 0x3ab551ce case 2 => 0xa3bc0074 case 3 => 0xd4bb30e2
    case 4 => 0x4adfa541 case 5 => 0x3dd895d7 case 6 => 0xa4d1c46d case 7 => 0xd3d6f4fb
    case 8 => 0x4369e96a case 9 => 0x346ed9fc case 10 => 0xad678846 case 11 => 0xda60b8d0
    case 12 => 0x44042d73 case 13 => 0x33031de5 case 14 => 0xaa0a4c5f case 15 => 0xdd0d7cc9
  }

  function Row7(low: Byte): Word
    requires low < 16
  {
    match low
    case 0 => 0x5005713c case 1 => 0x270241aa case 2 => 0xbe0b1010 case 3 => 0xc90c2086
    case 4 => 0x5768b525 case 5 => 0x206f85b3 case 6 => 0xb966d409 case 7 => 0xce61e49f
    case 8 => 0x5edef90e case 9 => 0x29d9c998 case 10 => 0xb0d09822 case 11 => 0xc7d7a8b4
    case 12 => 0x59b33d17 case 13 => 0x2eb40d81 case 14 => 0xb7bd5c3b case 15 => 0xc0ba6cad
  }

  function Row8(low: Byte): Word
    requires low < 16
  {
    match low
    case 0 => 0xedb88320 case 1 => 0x9abfb3b6 case 2 => 0x03b6e20c case 3 => 0x74b1d29a
    case 4 => 0xead54739 case 5 => 0x9dd277af case 6 => 0x04db2615 case 7 => 0x73dc1683
    case 8 => 0xe3630b12 case 9 => 0x94643b84 case 10 => 0x0d6d6a3e case 11 => 0x7a6a5aa8
    case 12 => 0xe40ecf0b case 13 => 0x9309ff9d case 14 => 0x0a00ae27 case 15 => 0x7d079eb1
  }

  function Row9(low: Byte): Word
    requires low < 16
  {
    match low
    case 0 => 0xf00f9344 case 1 => 0x8708a3d2 case 2 => 0x1e01f268 case 3 => 0x6906c2fe
    case 4 => 0xf762575d case 5 => 0x806567cb case 6 => 0x196c3671 case 7 => 0x6e6b06e7
    case 8 => 0xfed41b76 case 9 => 0x89d32be0 case 10 => 0x10da7a5a case 11 => 0x67dd4acc
    case 12 => 0xf9b9df6f case 13 => 0x8ebeeff9 case 14 => 0x17b7be43 case 15 => 0x60b08ed5
  }

  function RowA(low: Byte): Word
    requires low < 16
  {
    match low
    case 0 => 0xd6d6a3e8 case 1 => 0xa1d1937e case 2 => 0x38d8c2c4 case 3 => 0x4fdff252
    case 4 => 0xd1bb67f1 case 5 => 0xa6bc5767 case 6 => 0x3fb506dd case 7 => 0x48b2364b
    case 8 => 0xd80d2bda case 9 => 0xaf0a1b4c case 10 => 0x36034af6 case 11 => 0x41047a60
    case 12 => 0xdf60efc3 case 13 => 0xa867df55 case 14 => 0x316e8eef case 15 => 0x4669be79
  }

  function RowB(low: Byte): Word
    requires low < 16
  {
    match low
    case 0 => 0xcb61b38c case 1 => 0xbc66831a case 2 => 0x256fd2a0 case 3 => 0x5268e236
    case 4 => 0xcc0c7795 case 5 => 0xbb0b4703 case 6 => 0x220216b9 case 7 => 0x5505262f
    case 8 => 0xc5ba3bbe case 9 => 0xb2bd0b28 case 10 => 0x2bb45a92 case 11 => 0x5cb36a04
    case 12 => 0xc2d7ffa7 case 13 => 0xb5d0cf31 case 14 => 0x2cd99e8b case 15 => 0x5bdeae1d
  }

  function RowC(low: Byte): Word
    requires low < 16
  {
    match low
    case 0 => 0x9b64c2b0 case 1 => 0xec63f226 case 2 => 0x756aa39c case 3 => 0x026d930a
    case 4 => 0x9c0906a9 case 5 => 0xeb0e363f case 6 => 0x72076785 case 7 => 0x05005713
    case 8 => 0x95bf4a82 case 9 => 0xe2b87a14 case 10 => 0x7bb12bae case 11 => 0x0cb61b38
    case 12 => 0x92d28e9b case 13 => 0xe5d5be0d case 14 => 0x7cdcefb7 case 15 => 0x0bdbdf21
  }

  function RowD(low: Byte): Word
    requires low < 16
  {
    match low
    case 0 => 0x86d3d2d4 case 1 => 0xf1d4e242 case 2 => 0x68ddb3f8 case 3 => 0x1fda836e
    case 4 => 0x81be16cd case 5 => 0xf6b9265b case 6 => 0x6fb077e1 case 7 => 0x18b74777
    case 8 => 0x88085ae6 case 9 => 0xff0f6a70 case 10 => 0x66063bca case 11 => 0x11010b5c
    case 12 => 0x8f659eff case 13 => 0xf862ae69 case 14 => 0x616bffd3 case 15 => 0x166ccf45
  }

  function RowE(low: Byte): Word
    requires low < 16
  {
    match low
    case 0 => 0xa00ae278 case 1 => 0xd70dd2ee case 2 => 0x4e048354 case 3 => 0x3903b3c2
    case 4 => 0xa7672661 case 5 => 0xd06016f7 case 6 => 0x4969474d case 7 => 0x3e6e77db
    case 8 => 0xaed16a4a case 9 => 0xd9d65adc case 10 => 0x40df0b66 case 11 => 0x37d83bf0
    case 12 => 0xa9bcae53 case 13 => 0xdebb9ec5 case 14 => 0x47b2cf7f case 15 => 0x30b5ffe9
  }

  function RowF(low: Byte): Word
    requires low < 16
  {
    match low
    case 0 => 0xbdbdf21c case 1 => 0xcabac28a case 2 => 0x53b39330 case 3 => 0x24b4a3a6
    case 4 => 0xbad03605 case 5 => 0xcdd70693 case 6 => 0x54de5729 case 7 => 0x23d967bf
    case 8 => 0xb3667a2e case 9 => 0xc4614ab8 case 10 => 0x5d681b02 case 11 => 0x2a6f2b94
    case 12 => 0xb40bbe37 case 13 => 0xc30c8ea1 case 14 => 0x5a05df1b case 15 => 0x2d02ef8d
  }

  function Table(i: Byte): Word {
    var low := i & 0x0F;
    match i >> 4
    case 0 => Row0(low) case 1 => Row1(low) case 2 => Row2(low) case 3 => Row3(low)
    case 4 => Row4(low) case 5 => Row5(low) case 6 => Row6(low) case 7 => Row7(low)
    case 8 => Row8(low) case 9 => Row9(low) case 10 => RowA(low) case 11 => RowB(low)
    case 12 => RowC(low) case 13 => RowD(low) case 14 => RowE(low) case 15 => RowF(low)
  }

  // ---------- the operations are linear ----------

  lemma OddIsLinear(a: Word, b: Word)
    ensures Odd(Xor(a, b)) == (Odd(a) != Odd(b))
  {
  }

  lemma HalfIsLinear(a: Word, b: Word)
    ensures Half(Xor(a, b)) == Xor(Half(a), Half(b))
  {
  }

  lemma XorCommutes(a: Word, b: Word)
    ensures Xor(a, b) == Xor(b, a)
  {
  }

  lemma XorAssociates(a: Word, b: Word, c: Word)
    ensures Xor(Xor(a, b), c) == Xor(a, Xor(b, c))
  {
  }

  lemma XorCancels(a: Word, b: Word)
    ensures Xor(a, Xor(a, b)) == b
  {
  }

  lemma XorSwaps(a: Word, b: Word, c: Word)
    ensures Xor(Xor(a, b), c) == Xor(Xor(a, c), b)
  {
    hide Xor;
    XorAssociates(a, b, c);
    XorCommutes(b, c);
    XorAssociates(a, c, b);
  }

  lemma StepIsLinear(a: Word, b: Word)
    ensures BitStep(Xor(a, b)) == Xor(BitStep(a), BitStep(b))
  {
    hide Xor, Half, Odd;
    OddIsLinear(a, b);
    HalfIsLinear(a, b);
    var x, y := Half(a), Half(b);
    XorSwaps(x, y, POLYNOMIAL);
    XorAssociates(x, y, POLYNOMIAL);
    XorAssociates(Xor(x, POLYNOMIAL), y, POLYNOMIAL);
    XorSwaps(x, POLYNOMIAL, Xor(y, POLYNOMIAL));
    XorAssociates(x, Xor(y, POLYNOMIAL), POLYNOMIAL);
    XorCommutes(y, POLYNOMIAL);
    XorCommutes(Xor(y, POLYNOMIAL), POLYNOMIAL);
    XorCancels(POLYNOMIAL, y);
  }

  lemma EightIsLinear(a: Word, b: Word)
    ensures Eight(Xor(a, b)) == Xor(Eight(a), Eight(b))
  {
    hide Xor, BitStep;
    StepIsLinear(a, b);
    StepIsLinear(BitStep(a), BitStep(b));
    StepIsLinear(Two(a), Two(b));
    StepIsLinear(BitStep(Two(a)), BitStep(Two(b)));
    StepIsLinear(Four(a), Four(b));
    StepIsLinear(BitStep(Four(a)), BitStep(Four(b)));
    StepIsLinear(Two(Four(a)), Two(Four(b)));
    StepIsLinear(BitStep(Two(Four(a))), BitStep(Two(Four(b))));
  }

  // ---------- the entries of the table ----------

  lemma FirstEntries()
    ensures Row0(0) == Eight(0)
    ensures Row0(1) == Eight(1)
    ensures Row0(2) == Eight(2)
    ensures Row0(3) == Eight(3)
    ensures Row0(4) == Eight(4)
    ensures Row0(5) == Eight(5)
    ensures Row0(6) == Eight(6)
    ensures Row0(7) == Eight(7)
  {
  }

  lemma NinthEntry()
    ensures Row0(8) == Eight(8)
  {
  }

  lemma RestOfFirstRow(low: Byte)
    requires 8 <= low < 16
    ensures Row0(low) == Xor(Row0(8), Row0(low & 7)) && Xor(8, (low & 7) as Word) == low as Word
  {
  }

  lemma FirstColumn0()
    ensures Row1(0) == Eight(0x10)
    ensures Row2(0) == Eight(0x20)
    ensures Row3(0) == Eight(0x30)
    ensures Row4(0) == Eight(0x40)
    ensures Row5(0) == Eight(0x50)
    ensures Row6(0) == Eight(0x60)
    ensures Row7(0) == Eight(0x70)
  {
  }

  lemma FirstColumn1()
    ensures Row8(0) == Eight(0x80)
    ensures Row9(0) == Eight(0x90)
    ensures RowA(0) == Eight(0xA0)
    ensures RowB(0) == Eight(0xB0)
    ensures RowC(0) == Eight(0xC0)
    ensures RowD(0) == Eight(0xD0)
    ensures RowE(0) == Eight(0xE0)
    ensures RowF(0) == Eight(0xF0)
  {
  }

  lemma OtherRows0(low: Byte)
    requires low < 16
    ensures Row1(low) == Xor(Row1(0), Row0(low))
    ensures Row2(low) == Xor(Row2(0), Row0(low))
    ensures Row3(low) == Xor(Row3(0), Row0(low))
    ensures Row4(low) == Xor(Row4(0), Row0(low))
    ensures Row5(low) == Xor(Row5(0), Row0(low))
  {
  }

  lemma OtherRows1(low: Byte)
    requires low < 16
    ensures Row6(low) == Xor(Row6(0), Row0(low))
    ensures Row7(low) == Xor(Row7(0), Row0(low))
    ensures Row8(low) == Xor(Row8(0), Row0(low))
    ensures Row9(low) == Xor(Row9(0), Row0(low))
    ensures RowA(low) == Xor(RowA(0), Row0(low))
  {
  }

  lemma OtherRows2(low: Byte)
    requires low < 16
    ensures RowB(low) == Xor(RowB(0), Row0(low))
    ensures RowC(low) == Xor(RowC(0), Row0(low))
    ensures RowD(low) == Xor(RowD(0), Row0(low))
    ensures RowE(low) == Xor(RowE(0), Row0(low))
    ensures RowF(low) == Xor(RowF(0), Row0(low))
  {
  }

  lemma FirstRow(low: Byte)
    requires low < 16
    ensures Row0(low) == Eight(low as Word)
  {
    hide Row0, Eight, Xor;
    FirstEntries();
    if low >= 8 {
      NinthEntry();
      RestOfFirstRow(low);
      EightIsLinear(8, (low & 7) as Word);
    }
  }

  function High(i: Byte): Word { (i & 0xF0) as Word }

  lemma Nibbles(i: Byte)
    ensures Xor(High(i), (i & 0x0F) as Word) == i as Word
    ensures i >> 4 == 0 ==> High(i) == 0x00
    ensures i >> 4 == 1 ==> High(i) == 0x10
    ensures i >> 4 == 2 ==> High(i) == 0x20
    ensures i >> 4 == 3 ==> High(i) == 0x30
    ensures i >> 4 == 4 ==> High(i) == 0x40
    ensures i >> 4 == 5 ==> High(i) == 0x50
    ensures i >> 4 == 6 ==> High(i) == 0x60
    ensures i >> 4 == 7 ==> High(i) == 0x70
    ensures i >> 4 == 8 ==> High(i) == 0x80
    ensures i >> 4 == 9 ==> High(i) == 0x90
    ensures i >> 4 == 10 ==> High(i) == 0xA0
    ensures i >> 4 == 11 ==> High(i) == 0xB0
    ensures i >> 4 == 12 ==> High(i) == 0xC0
    ensures i >> 4 == 13 ==> High(i) == 0xD0
    ensures i >> 4 == 14 ==> High(i) == 0xE0
    ensures i >> 4 == 15 ==> High(i) == 0xF0
  {
  }

  lemma NoHigh(x: Word)
    ensures Eight(0) == 0 && Xor(0, x) == x
  {
  }

  /** Every entry of the table is eight steps of the division. */
  lemma TableIsEight(i: Byte)
    ensures Table(i) == Eight(i as Word)
  {
    hide Eight, Xor, High;
    hide Row0, Row1, Row2, Row3, Row4, Row5, Row6, Row7, Row8, Row9, RowA, RowB, RowC, RowD, RowE, RowF;
    var low := i & 0x0F;
    Nibbles(i);
    FirstRow(low);
    FirstColumn0();
    FirstColumn1();
    OtherRows0(low);
    OtherRows1(low);
    OtherRows2(low);
    EightIsLinear(High(i), low as Word);
    NoHigh(Eight(low as Word));
  }

  // ---------- what the steps do to a word ----------

  predicate Room(y: Word) { y & 0x80000000 == 0 }

  function Times4(y: Word): Word { Twice(Twice(y)) }

  function Times16(y: Word): Word { Times4(Times4(y)) }

  function Times256(y: Word): Word { Times16(Times16(y)) }

  /** The y << 8 of this y loses no bits. */
  predicate Fits24(y: Word) { y & 0xFF000000 == 0 }

  lemma OddShifts(c: Word, y: Word)
    ensures Odd(Xor(c, Twice(y))) == Odd(c)
  {
  }

  lemma HalfShifts(c: Word, y: Word)
    requires Room(y)
    ensures Half(Xor(c, Twice(y))) == Xor(Half(c), y)
  {
  }

  lemma StepShifts(c: Word, y: Word)
    requires Room(y)
    ensures BitStep(Xor(c, Twice(y))) == Xor(BitStep(c), y)
  {
    hide Xor, Twice, Half, Odd, Room;
    OddShifts(c, y);
    HalfShifts(c, y);
    XorSwaps(Half(c), y, POLYNOMIAL);
  }

  lemma StepInjective(a: Word, b: Word)
    requires BitStep(a) == BitStep(b)
    ensures a == b
  {
  }

  lemma TwoShifts(c: Word, y: Word)
    requires Room(y) && Room(Twice(y))
    ensures Two(Xor(c, Times4(y))) == Xor(Two(c), y)
  {
    hide Xor, Twice, BitStep, Room;
    StepShifts(c, Twice(y));
    StepShifts(BitStep(c), y);
  }

  lemma FourShifts(c: Word, y: Word)
    requires Room(y) && Room(Twice(y)) && Room(Times4(y)) && Room(Twice(Times4(y)))
    ensures Four(Xor(c, Times16(y))) == Xor(Four(c), y)
  {
    hide Xor, Twice, Two, Room, Times4;
    TwoShifts(c, Times4(y));
    TwoShifts(Two(c), y);
  }

  lemma Rooms(y: Word)
    requires Fits24(y)
    ensures Room(y) && Room(Twice(y)) && Room(Times4(y)) && Room(Twice(Times4(y)))
    ensures var z := Times16(y); Room(z) && Room(Twice(z)) && Room(Times4(z)) && Room(Twice(Times4(z)))
  {
  }

  /** Bits that are 8 places away pass through eight steps unchanged. */
  lemma EightShifts(c: Word, y: Word)
    requires Fits24(y)
    ensures Eight(Xor(c, Times256(y))) == Xor(Eight(c), y)
  {
    Rooms(y);
    hide Xor, Twice, Four, Room, Times4, Times16, Fits24;
    FourShifts(c, Times16(y));
    FourShifts(Four(c), y);
  }

  lemma TwoInjective(a: Word, b: Word)
    requires Two(a) == Two(b)
    ensures a == b
  {
    hide BitStep;
    StepInjective(BitStep(a), BitStep(b));
    StepInjective(a, b);
  }

  lemma EightInjective(a: Word, b: Word)
    requires Eight(a) == Eight(b)
    ensures a == b
  {
    hide Two;
    TwoInjective(Two(Four(a)), Two(Four(b)));
    TwoInjective(Four(a), Four(b));
    TwoInjective(Two(a), Two(b));
    TwoInjective(a, b);
  }

  // ---------- the implementation ----------

  function LowByte(x: Word): Byte { (x & 0xFF) as Byte }

  function Rest(x: Word): Word { x >> 8 }

  lemma JoinSplit(w: Word)
    ensures Xor(LowByte(w) as Word, Times256(Rest(w))) == w && Fits24(Rest(w))
  {
  }

  lemma RestIgnores(c: Word, b: Byte)
    ensures Rest(Xor(c, b as Word)) == Rest(c)
  {
  }

  /** One turn of the loop is one byte of the division. */
  lemma TableStep(crc: Word, b: Byte)
    ensures Xor(Table(LowByte(Xor(crc, b as Word))), Rest(crc)) == Feed(crc, b)
  {
    hide Table, Eight, LowByte, Rest, Xor, Times256, Fits24;
    var x := Xor(crc, b as Word);
    JoinSplit(x);
    RestIgnores(crc, b);
    TableIsEight(LowByte(x));
    EightShifts(LowByte(x) as Word, Rest(x));
  }

  /** crc32_80211 */
  method Crc32(p: array<Byte>, len: nat) returns (crc: Word)
    requires len <= p.Length
    ensures crc == Checksum(p[..len])
  {
    hide Table, Feed, LowByte, Rest, Xor;
    crc := ONES;
    var i := 0;
    while i < len
      invariant i <= len && crc == Register(ONES, p[..i])
    {
      TableStep(crc, p[i]);
      assert p[..i + 1][..i] == p[..i];
      crc := Xor(Table(LowByte(Xor(crc, p[i] as Word))), Rest(crc));
      i := i + 1;
    }
    crc := Xor(crc, ONES);
  }

  // ---------- registers and messages ----------

  lemma {:induction false} RegisterSplits(c: Word, a: seq<Byte>, b: seq<Byte>)
    ensures Register(c, a + b) == Register(Register(c, a), b)
  {
    hide Feed;
    if b == [] {
      assert a + b == a;
    } else {
      RegisterSplits(c, a, b[..|b| - 1]);
      assert (a + b)[..|a + b| - 1] == a + b[..|b| - 1];
    }
  }

  lemma XorInjective(a: Word, b: Word, c: Word)
    requires Xor(a, c) == Xor(b, c)
    ensures a == b
  {
  }

  lemma FeedInjective(c: Word, d: Word, b: Byte)
    requires Feed(c, b) == Feed(d, b)
    ensures c == d
  {
    hide Eight, Xor;
    EightInjective(Xor(c, b as Word), Xor(d, b as Word));
    XorInjective(c, d, b as Word);
  }

  /** Different registers stay different on the same message. */
  lemma {:induction false} RegisterInjective(c: Word, d: Word, message: seq<Byte>)
    requires Register(c, message) == Register(d, message)
    ensures c == d
  {
    hide Feed;
    if message != [] {
      var n := |message| - 1;
      FeedInjective(Register(c, message[..n]), Register(d, message[..n]), message[n]);
      RegisterInjective(c, d, message[..n]);
    }
  }

  // ---------- four bytes ----------

  function Join(b: Byte, rest: Word): Word { Xor(b as Word, Times256(rest)) }

  /** Four bytes as a little-endian word. */
  function AsWord(b: seq<Byte>): Word
    requires |b| == 4
  {
    Join(b[0], Join(b[1], Join(b[2], b[3] as Word)))
  }

  function AsBytes(w: Word): seq<Byte> {
    [LowByte(w), LowByte(Rest(w)), LowByte(Rest(Rest(w))), LowByte(Rest(Rest(Rest(w))))]
  }

  lemma JoinFits(b1: Byte, b2: Byte, b3: Byte)
    ensures Fits24(b3 as Word) && Fits24(Join(b2, b3 as Word)) && Fits24(Join(b1, Join(b2, b3 as Word)))
  {
  }

  lemma AsBytesIsInverse(w: Word)
    ensures AsWord(AsBytes(w)) == w
  {
  }

  lemma AsWordInjective(a: seq<Byte>, b: seq<Byte>)
    requires |a| == |b| == 4 && AsWord(a) == AsWord(b)
    ensures a == b
  {
  }

  lemma Absorbs(c: Word, b: Byte, rest: Word)
    requires Fits24(rest)
    ensures Eight(Xor(c, Join(b, rest))) == Xor(Feed(c, b), rest)
  {
    hide Eight, Xor, Times256, Fits24;
    XorAssociates(c, b as Word, Times256(rest));
    EightShifts(Xor(c, b as Word), rest);
  }

  function FourBytes(c: Word): Word { Eight(Eight(Eight(Eight(c)))) }

  lemma FourFeeds(c: Word, b0: Byte, b1: Byte, b2: Byte, b3: Byte)
    ensures Feed(Feed(Feed(Feed(c, b0), b1), b2), b3)
         == FourBytes(Xor(c, Join(b0, Join(b1, Join(b2, b3 as Word)))))
  {
    JoinFits(b1, b2, b3);
    hide Eight, Xor, Join, Fits24;
    var c1 := Feed(c, b0);
    var c2 := Feed(c1, b1);
    Absorbs(c, b0, Join(b1, Join(b2, b3 as Word)));
    Absorbs(c1, b1, Join(b2, b3 as Word));
    Absorbs(c2, b2, b3 as Word);
  }

  lemma RegisterOfFour(c: Word, b: seq<Byte>)
    requires |b| == 4
    ensures Register(c, b) == Feed(Feed(Feed(Feed(c, b[0]), b[1]), b[2]), b[3])
  {
    hide Feed;
    assert b[..3][..2] == b[..2] && b[..2][..1] == b[..1] && b[..1][..0] == [];
    assert Register(c, b[..1]) == Feed(c, b[0]);
    assert Register(c, b[..2]) == Feed(Feed(c, b[0]), b[1]);
    assert Register(c, b[..3]) == Feed(Feed(Feed(c, b[0]), b[1]), b[2]);
  }

  /** Four bytes act on the register as one word. */
  lemma FourBytesAreAWord(c: Word, b: seq<Byte>)
    requires |b| == 4
    ensures Register(c, b) == FourBytes(Xor(c, AsWord(b)))
  {
    hide Feed, FourBytes, Xor, Join, Register;
    RegisterOfFour(c, b);
    FourFeeds(c, b[0], b[1], b[2], b[3]);
  }

  lemma FourBytesInjective(a: Word, b: Word)
    requires FourBytes(a) == FourBytes(b)
    ensures a == b
  {
    hide Eight;
    EightInjective(Eight(Eight(Eight(a))), Eight(Eight(Eight(b))));
    EightInjective(Eight(Eight(a)), Eight(Eight(b)));
    EightInjective(Eight(a), Eight(b));
    EightInjective(a, b);
  }

  // ---------- main results ----------

  /** Four bytes decide the register: after the same register, different ones leave different registers. */
  lemma FourBytesDecide(c: Word, a: seq<Byte>, b: seq<Byte>)
    requires |a| == |b| == 4 && Register(c, a) == Register(c, b)
    ensures a == b
  {
    hide FourBytes, Xor, AsWord, Register;
    FourBytesAreAWord(c, a);
    FourBytesAreAWord(c, b);
    FourBytesInjective(Xor(c, AsWord(a)), Xor(c, AsWord(b)));
    XorSameLeft(c, AsWord(a), AsWord(b));
    AsWordInjective(a, b);
  }

  lemma XorSameLeft(c: Word, a: Word, b: Word)
    requires Xor(c, a) == Xor(c, b)
    ensures a == b
  {
  }

  /** Also up to four bytes: what is missing can be filled up with the same bytes. */
  lemma FewBytesDecide(c: Word, a: seq<Byte>, b: seq<Byte>)
    requires |a| == |b| <= 4 && Register(c, a) == Register(c, b)
    ensures a == b
  {
    hide Register;
    var pad: seq<Byte> := seq(4 - |a|, _ => 0);
    RegisterSplits(c, a, pad);
    RegisterSplits(c, b, pad);
    FourBytesDecide(c, a + pad, b + pad);
    assert a == (a + pad)[..|a|] && b == (b + pad)[..|b|];
  }

  /**
    Two different frames of the same length that differ only inside a window of four consecutive bytes have
    different checksums.
  */
  lemma ShortErrorsAreDetected(a: seq<Byte>, b: seq<Byte>, low: nat)
    requires |a| == |b| && a != b
    requires forall i :: 0 <= i < |a| && a[i] != b[i] ==> low <= i < low + 4
    ensures Checksum(a) != Checksum(b)
  {
    hide Register, Xor;
    var start := if low <= |a| then low else |a|;
    var end := if low + 4 <= |a| then low + 4 else |a|;
    assert a == a[..start] + (a[start..end] + a[end..]) && b == b[..start] + (b[start..end] + b[end..]);
    assert a[..start] == b[..start] && a[end..] == b[end..];
    if Checksum(a) == Checksum(b) {
      XorInjective(Register(ONES, a), Register(ONES, b), ONES);
      var c := Register(ONES, a[..start]);
      RegisterSplits(ONES, a[..start], a[start..end] + a[end..]);
      RegisterSplits(ONES, b[..start], b[start..end] + b[end..]);
      RegisterSplits(c, a[start..end], a[end..]);
      RegisterSplits(c, b[start..end], b[end..]);
      RegisterInjective(Register(c, a[start..end]), Register(c, b[start..end]), a[end..]);
      FewBytesDecide(c, a[start..end], b[start..end]);
    }
  }

  /** The checksum of any message that is followed by its own checksum; crc.h promises 0 here. */
  const RESIDUE: Word := 0x2144DF1C

  lemma ResidueOfOnes()
    ensures Xor(FourBytes(ONES), ONES) == RESIDUE != 0
  {
  }

  lemma XorIsOnes(r: Word, w: Word)
    ensures Xor(r, w) == ONES <==> w == Xor(r, ONES)
  {
    hide Xor;
    XorCancels(r, w);
    XorCancels(r, ONES);
  }

  /**
    A frame has the fixed residue as its checksum exactly if its last four bytes are, in little-endian order,
    the checksum of the bytes before: the comparison that the monitor makes.
  */
  lemma ResidueIffChecked(message: seq<Byte>, fcs: seq<Byte>)
    requires |fcs| == 4
    ensures Checksum(message + fcs) == RESIDUE <==> AsWord(fcs) == Checksum(message)
  {
    hide Register, Xor, FourBytes, AsWord;
    var r := Register(ONES, message);
    RegisterSplits(ONES, message, fcs);
    FourBytesAreAWord(r, fcs);
    XorIsOnes(r, AsWord(fcs));
    ResidueOfOnes();
    if Checksum(message + fcs) == RESIDUE {
      XorInjective(FourBytes(Xor(r, AsWord(fcs))), FourBytes(ONES), ONES);
      FourBytesInjective(Xor(r, AsWord(fcs)), ONES);
    }
  }

  /** Appending the checksum always yields the residue, which is not the 0 of the documentation. */
  lemma AppendedChecksum(message: seq<Byte>)
    ensures Checksum(message + AsBytes(Checksum(message))) == RESIDUE != 0
  {
    hide AsWord, AsBytes, Checksum;
    AsBytesIsInverse(Checksum(message));
    AsBytesLength(Checksum(message));
    ResidueIffChecked(message, AsBytes(Checksum(message)));
  }

  lemma AsBytesLength(w: Word)
    ensures |AsBytes(w)| == 4
  {
  }

  // ---------- the initial register ----------

  /** The only register that a byte of zeros turns into ones. */
  lemma BeforeOnes()
    ensures Eight(0xF0958FD9) == ONES
  {
  }

  lemma OnesAreLeft(b: Byte)
    ensures Xor(ONES, b as Word) != 0xF0958FD9 && Xor(ONES, ONES) == 0
  {
  }

  /** The checksum of no bytes is 0, and a byte more in front changes every checksum, a zero included. */
  lemma FrontIsChecked(message: seq<Byte>, b: Byte)
    ensures Checksum([]) == 0 && Checksum([b] + message) != Checksum(message)
  {
    hide Eight, Xor, Feed;
    OnesAreLeft(b);
    BeforeOnes();
    RegisterSplits(ONES, [b], message);
    assert [b][..0] == [] && Register(ONES, [b]) == Feed(ONES, b);
    if Checksum([b] + message) == Checksum(message) {
      XorInjective(Register(Feed(ONES, b), message), Register(ONES, message), ONES);
      RegisterInjective(Feed(ONES, b), ONES, message);
      FeedIsEight(ONES, b);
      EightInjective(Xor(ONES, b as Word), 0xF0958FD9);
    }
  }

  lemma FeedIsEight(c: Word, b: Byte)
    ensures Feed(c, b) == Eight(Xor(c, b as Word))
  {
  }

  lemma RegisterSnoc(c: Word, message: seq<Byte>, b: Byte)
    ensures Register(c, message + [b]) == Feed(Register(c, message), b)
  {
    assert (message + [b])[..|message|] == message;
  }

  lemma FedDigits()
    ensures Feed(0xFFFFFFFF, 0x31) == 0x7C231048
    ensures Feed(0x7C231048, 0x32) == 0xB0ACBB32
    ensures Feed(0xB0ACBB32, 0x33) == 0x77B79C2D
    ensures Feed(0x77B79C2D, 0x34) == 0x641C1F5C
    ensures Feed(0x641C1F5C, 0x35) == 0x340AC5E3
    ensures Feed(0x340AC5E3, 0x36) == 0xF68D2C9E
    ensures Feed(0xF68D2C9E, 0x37) == 0xAFFC9660
    ensures Feed(0xAFFC9660, 0x38) == 0x651F2550
    ensures Feed(0x651F2550, 0x39) == 0x340BC6D9
  {
  }

  /** A register after the first bytes of a message, and after one more. */
  lemma OneMoreByte(c: Word, message: seq<Byte>, n: nat, next: Word)
    requires n < |message| && Feed(Register(c, message[..n]), message[n]) == next
    ensures Register(c, message[..n + 1]) == next
  {
    hide Feed;
    RegisterSnoc(c, message[..n], message[n]);
    assert message[..n] + [message[n]] == message[..n + 1];
  }

  const DIGITS: seq<Byte> := [0x31, 0x32, 0x33, 0x34, 0x35, 0x36, 0x37, 0x38, 0x39]

  lemma Digits()
    ensures |DIGITS| == 9 && DIGITS[..0] == [] && DIGITS[..9] == DIGITS && Register(ONES, []) == ONES
    ensures forall i :: 0 <= i < 9 ==> DIGITS[i] as int == 0x31 + i
  {
  }

  /** The check value of CRC-32: the checksum of the characters 1 to 9. */
  lemma CheckValue()
    ensures Checksum(DIGITS) == 0xCBF43926
  {
    hide Feed, Register, DIGITS;
    Digits();
    FedDigits();
    OneMoreByte(ONES, DIGITS, 0, 0x7C231048);
    OneMoreByte(ONES, DIGITS, 1, 0xB0ACBB32);
    OneMoreByte(ONES, DIGITS, 2, 0x77B79C2D);
    OneMoreByte(ONES, DIGITS, 3, 0x641C1F5C);
    OneMoreByte(ONES, DIGITS, 4, 0x340AC5E3);
    OneMoreByte(ONES, DIGITS, 5, 0xF68D2C9E);
    OneMoreByte(ONES, DIGITS, 6, 0xAFFC9660);
    OneMoreByte(ONES, DIGITS, 7, 0x651F2550);
    OneMoreByte(ONES, DIGITS, 8, 0x340BC6D9);
  }
}
