/** CRC-32: the table-driven loop against bit-by-bit polynomial division. */
module Crc {
  import opened Bytes
  import opened Folds
  import opened Octets

  /** The generator polynomial of section 8 of RFC 1952, lowest bit first. */
  const POLY: bv32 := 0xEDB88320
  const ONES: bv32 := 0xFFFFFFFF
  const BYTE_BITS: nat := 8

  /** A byte as the low end of a word. */
  function Word(b: Byte): bv32 {
    Octet(b) as bv32
  }

  // ---- the reference: division, one message bit at a time ----

  predicate Odd(x: bv32) {
    x & 1 == 1
  }

  function Half(x: bv32): bv32 {
    x >> 1
  }

  function Xor(x: bv32, y: bv32): bv32 {
    x ^ y
  }

  /** Shifts one message bit into the remainder. */
  function ShiftIn(r: bv32, bit: bool): bv32 {
    if (r & 1 == 1) != bit then (r >> 1) ^ POLY else r >> 1
  }

  function Divide(r: bv32, bits: seq<bool>): bv32 {
    Fold(ShiftIn, r, bits)
  }

  /** The eight bits of a byte, lowest first. */
  function ByteBits(b: Byte): (d: seq<bool>)
    ensures |d| == 8
  {
    Digits(Odd, Half, Word(b), BYTE_BITS)
  }

  /** The bits of a message in the order in which they are divided. */
  function Bits(bytes: seq<Byte>): (d: seq<bool>) {
    FlatMap(ByteBits, bytes)
  }

  /** The checksum of `bytes`, continuing from checksum `crc`. */
  function Checksum(crc: bv32, bytes: seq<Byte>): bv32 {
    Divide(crc ^ ONES, Bits(bytes)) ^ ONES
  }

  // ---- the table ----

  function Row(r: nat): (row: seq<bv32>)
    requires r < 16
    ensures |row| == 16
  {
    match r
    case 0 => [
      0x00000000, 0x77073096, 0xee0e612c, 0x990951ba, 0x076dc419, 0x706af48f, 0xe963a535, 0x9e6495a3,
      0x0edb8832, 0x79dcb8a4, 0xe0d5e91e, 0x97d2d988, 0x09b64c2b, 0x7eb17cbd, 0xe7b82d07, 0x90bf1d91]
    case 1 => [
      0x1db71064, 0x6ab020f2, 0xf3b97148, 0x84be41de, 0x1adad47d, 0x6ddde4eb, 0xf4d4b551, 0x83d385c7,
      0x136c9856, 0x646ba8c0, 0xfd62f97a, 0x8a65c9ec, 0x14015c4f, 0x63066cd9, 0xfa0f3d63, 0x8d080df5]
    case 2 => [
      0x3b6e20c8, 0x4c69105e, 0xd56041e4, 0xa2677172, 0x3c03e4d1, 0x4b04d447, 0xd20d85fd, 0xa50ab56b,
      0x35b5a8fa, 0x42b2986c, 0xdbbbc9d6, 0xacbcf940, 0x32d86ce3, 0x45df5c75, 0xdcd60dcf, 0xabd13d59]
    case 3 => [
      0x26d930ac, 0x51de003a, 0xc8d75180, 0xbfd06116, 0x21b4f4b5, 0x56b3c423, 0xcfba9599, 0xb8bda50f,
      0x2802b89e, 0x5f058808, 0xc60cd9b2, 0xb10be924, 0x2f6f7c87, 0x58684c11, 0xc1611dab, 0xb6662d3d]
    case 4 => [
      0x76dc4190, 0x01db7106, 0x98d220bc, 0xefd5102a, 0x71b18589, 0x06b6b51f, 0x9fbfe4a5, 0xe8b8d433,
      0x7807c9a2, 0x0f00f934, 0x9609a88e, 0xe10e9818, 0x7f6a0dbb, 0x086d3d2d, 0x91646c97, 0xe6635c01]
    case 5 => [
      0x6b6b51f4, 0x1c6c6162, 0x856530d8, 0xf262004e, 0x6c0695ed, 0x1b01a57b, 0x8208f4c1, 0xf50fc457,
      0x65b0d9c6, 0x12b7e950, 0x8bbeb8ea, 0xfcb9887c, 0x62dd1ddf, 0x15da2d49, 0x8cd37cf3, 0xfbd44c65]
    case 6 => [
      0x4db26158, 0x3ab551ce, 0xa3bc0074, 0xd4bb30e2, 0x4adfa541, 0x3dd895d7, 0xa4d1c46d, 0xd3d6f4fb,
      0x4369e96a, 0x346ed9fc, 0xad678846, 0xda60b8d0, 0x44042d73, 0x33031de5, 0xaa0a4c5f, 0xdd0d7cc9]
    case 7 => [
      0x5005713c, 0x270241aa, 0xbe0b1010, 0xc90c2086, 0x5768b525, 0x206f85b3, 0xb966d409, 0xce61e49f,
      0x5edef90e, 0x29d9c998, 0xb0d09822, 0xc7d7a8b4, 0x59b33d17, 0x2eb40d81, 0xb7bd5c3b, 0xc0ba6cad]
    case 8 => [
      0xedb88320, 0x9abfb3b6, 0x03b6e20c, 0x74b1d29a, 0xead54739, 0x9dd277af, 0x04db2615, 0x73dc1683,
      0xe3630b12, 0x94643b84, 0x0d6d6a3e, 0x7a6a5aa8, 0xe40ecf0b, 0x9309ff9d, 0x0a00ae27, 0x7d079eb1]
    case 9 => [
      0xf00f9344, 0x8708a3d2, 0x1e01f268, 0x6906c2fe, 0xf762575d, 0x806567cb, 0x196c3671, 0x6e6b06e7,
      0xfed41b76, 0x89d32be0, 0x10da7a5a, 0x67dd4acc, 0xf9b9df6f, 0x8ebeeff9, 0x17b7be43, 0x60b08ed5]
    case 10 => [
      0xd6d6a3e8, 0xa1d1937e, 0x38d8c2c4, 0x4fdff252, 0xd1bb67f1, 0xa6bc5767, 0x3fb506dd, 0x48b2364b,
      0xd80d2bda, 0xaf0a1b4c, 0x36034af6, 0x41047a60, 0xdf60efc3, 0xa867df55, 0x316e8eef, 0x4669be79]
    case 11 => [
      0xcb61b38c, 0xbc66831a, 0x256fd2a0, 0x5268e236, 0xcc0c7795, 0xbb0b4703, 0x220216b9, 0x5505262f,
      0xc5ba3bbe, 0xb2bd0b28, 0x2bb45a92, 0x5cb36a04, 0xc2d7ffa7, 0xb5d0cf31, 0x2cd99e8b, 0x5bdeae1d]
    case 12 => [
      0x9b64c2b0, 0xec63f226, 0x756aa39c, 0x026d930a, 0x9c0906a9, 0xeb0e363f, 0x72076785, 0x05005713,
      0x95bf4a82, 0xe2b87a14, 0x7bb12bae, 0x0cb61b38, 0x92d28e9b, 0xe5d5be0d, 0x7cdcefb7, 0x0bdbdf21]
    case 13 => [
      0x86d3d2d4, 0xf1d4e242, 0x68ddb3f8, 0x1fda836e, 0x81be16cd, 0xf6b9265b, 0x6fb077e1, 0x18b74777,
      0x88085ae6, 0xff0f6a70, 0x66063bca, 0x11010b5c, 0x8f659eff, 0xf862ae69, 0x616bffd3, 0x166ccf45]
    case 14 => [
      0xa00ae278, 0xd70dd2ee, 0x4e048354, 0x3903b3c2, 0xa7672661, 0xd06016f7, 0x4969474d, 0x3e6e77db,
      0xaed16a4a, 0xd9d65adc, 0x40df0b66, 0x37d83bf0, 0xa9bcae53, 0xdebb9ec5, 0x47b2cf7f, 0x30b5ffe9]
    case _ => [
      0xbdbdf21c, 0xcabac28a, 0x53b39330, 0x24b4a3a6, 0xbad03605, 0xcdd70693, 0x54de5729, 0x23d967bf,
      0xb3667a2e, 0xc4614ab8, 0x5d681b02, 0x2a6f2b94, 0xb40bbe37, 0xc30c8ea1, 0x5a05df1b, 0x2d02ef8d]
  }

  /** crc32_tab[x] */
  function Table(x: bv32): bv32
    requires x < 256
  {
    Row((x >> 4) as int)[(x & 0xF) as int]
  }

  /** A division step with nothing shifted in. */
  function Step(x: bv32): bv32 {
    if x & 1 == 1 then (x >> 1) ^ POLY else x >> 1
  }

  function Step8(x: bv32): bv32 {
    Step(Step(Step(Step(Step(Step(Step(Step(x))))))))
  }

  ghost predicate EntryRight(r: bv32, j: bv32)
    requires r < 16 && j < 16
  {
    Row(r as int)[j as int] == Step8((r << 4) | j)
  }

  lemma Nibble(j: bv32)
    requires j < 16
    ensures j == 0 || j == 1 || j == 2 || j == 3 || j == 4 || j == 5 || j == 6 || j == 7
            || j == 8 || j == 9 || j == 10 || j == 11 || j == 12 || j == 13 || j == 14 || j == 15
  {
  }

  lemma Row0(r: bv32, j: bv32)
    requires r == 0 && j < 16
    ensures EntryRight(r, j)
  {
    if j < 8 {
      Row0Low(r, j);
    } else {
      Row0High(r, j);
    }
  }

  lemma Row0Low(r: bv32, j: bv32)
    requires r == 0 && j < 8
    ensures EntryRight(r, j)
  {
    Nibble(j);
  }

  lemma Row0High(r: bv32, j: bv32)
    requires r == 0 && 8 <= j < 16
    ensures EntryRight(r, j)
  {
    Nibble(j);
  }

  lemma Row1(r: bv32, j: bv32)
    requires r == 1 && j < 16
    ensures EntryRight(r, j)
  {
    Nibble(j);
  }

  lemma Rows2(r: bv32, j: bv32)
    requires (r == 2 || r == 3) && j < 16
    ensures EntryRight(r, j)
  {
    Nibble(j);
  }

  lemma Rows4(r: bv32, j: bv32)
    requires (r == 4 || r == 5) && j < 16
    ensures EntryRight(r, j)
  {
    Nibble(j);
  }

  lemma Rows6(r: bv32, j: bv32)
    requires (r == 6 || r == 7) && j < 16
    ensures EntryRight(r, j)
  {
    Nibble(j);
  }

  lemma Rows8(r: bv32, j: bv32)
    requires (r == 8 || r == 9) && j < 16
    ensures EntryRight(r, j)
  {
    Nibble(j);
  }

  lemma Rows10(r: bv32, j: bv32)
    requires (r == 10 || r == 11) && j < 16
    ensures EntryRight(r, j)
  {
    Nibble(j);
  }

  lemma Rows12(r: bv32, j: bv32)
    requires (r == 12 || r == 13) && j < 16
    ensures EntryRight(r, j)
  {
    Nibble(j);
  }

  lemma Rows14(r: bv32, j: bv32)
    requires (r == 14 || r == 15) && j < 16
    ensures EntryRight(r, j)
  {
    Nibble(j);
  }

  /** Every table entry is eight division steps of its index. */
  lemma TableEntry(x: bv32)
    requires x < 256
    ensures Table(x) == Step8(x)
  {
    var r, j := x >> 4, x & 0xF;
    Nibble(r);
    if r == 0 {
      Row0(r, j);
    } else if r == 1 {
      Row1(r, j);
    } else if r == 2 || r == 3 {
      Rows2(r, j);
    } else if r == 4 || r == 5 {
      Rows4(r, j);
    } else if r == 6 || r == 7 {
      Rows6(r, j);
    } else if r == 8 || r == 9 {
      Rows8(r, j);
    } else if r == 10 || r == 11 {
      Rows10(r, j);
    } else if r == 12 || r == 13 {
      Rows12(r, j);
    } else if r == 14 || r == 15 {
      Rows14(r, j);
    }
    assert (r << 4) | j == x;
  }

  // ---- one turn of the loop is eight bits of division ----

  lemma LowBit(x: bv32)
    ensures x & 1 == 0 || x & 1 == 1
  {
  }

  lemma XorRearrange(a: bv32, b: bv32, c: bv32)
    ensures (a ^ b) ^ c == (a ^ c) ^ b && (a ^ b) ^ c == a ^ (b ^ c)
  {
  }

  lemma StepDistributes(x: bv32, y: bv32)
    ensures Step(x ^ y) == Step(x) ^ Step(y)
  {
    LowBit(x);
    LowBit(y);
    XorRearrange(x >> 1, POLY, y >> 1);
    XorRearrange(x >> 1, y >> 1, POLY);
  }

  lemma StepAbsorbs(r: bv32, x: bv32)
    ensures Step(r ^ x) == ShiftIn(r, Odd(x)) ^ Half(x)
  {
    LowBit(r);
    LowBit(x);
    XorRearrange(r >> 1, POLY, x >> 1);
  }

  /** A word whose low byte is clear is only shifted. */
  lemma StepHigh(x: bv32)
    requires x & 0xFF == 0
    ensures Step8(x) == x >> 8
  {
  }

  lemma StepsDistribute(x: bv32, y: bv32)
    ensures Step8(Xor(x, y)) == Xor(Step8(x), Step8(y))
  {
    forall x, y ensures Step(Xor(x, y)) == Xor(Step(x), Step(y)) {
      StepDistributes(x, y);
    }
    RepeatDistributes(Step, Xor, x, y, BYTE_BITS);
    RepeatEight(Step, x, BYTE_BITS);
    RepeatEight(Step, y, BYTE_BITS);
    RepeatEight(Step, Xor(x, y), BYTE_BITS);
  }

  lemma AbsorbsAll()
    ensures Absorbs(ShiftIn, Odd, Half, Xor, Step)
  {
    forall r, x ensures Step(Xor(r, x)) == Xor(ShiftIn(r, Odd(x)), Half(x)) {
      StepAbsorbs(r, x);
    }
  }

  /** Dividing a byte's bits is eight steps from the remainder with the byte added in. */
  lemma FeedByte(r: bv32, b: Byte, x: bv32)
    requires x == Word(b)
    ensures Divide(r, ByteBits(b)) == Step8(Xor(r, x))
  {
    AbsorbsAll();
    FeedDigits(ShiftIn, Odd, Half, Xor, Step, r, x, BYTE_BITS);
    RepeatEight(Step, Xor(r, x), BYTE_BITS);
    RepeatEight(Half, x, BYTE_BITS);
  }

  lemma SplitByte(c: bv32, x: bv32)
    requires x < 256
    ensures ((c ^ x) & 0xFF) ^ ((c ^ x) & 0xFFFFFF00) == c ^ x
    ensures ((c ^ x) & 0xFFFFFF00) & 0xFF == 0
    ensures ((c ^ x) & 0xFFFFFF00) >> 8 == c >> 8
    ensures (c ^ x) & 0xFF < 256
  {
  }

  lemma LookUp(c: bv32, b: Byte, x: bv32, low: bv32, high: bv32, top: bv32)
    requires x == Word(b) && low < 256 && Xor(low, high) == Xor(c, x) && Step8(high) == top
    ensures Xor(Table(low), top) == Divide(c, ByteBits(b))
  {
    FeedByte(c, b, x);
    StepsDistribute(low, high);
    TableEntry(low);
  }

  lemma SplitLookUp(c: bv32, x: bv32, low: bv32, high: bv32)
    requires x < 256 && low == (c ^ x) & 0xFF && high == (c ^ x) & 0xFFFFFF00
    ensures low < 256 && Xor(low, high) == Xor(c, x) && Step8(high) == c >> 8
  {
    SplitByte(c, x);
    StepHigh(high);
  }

  /** One turn of the loop divides the eight bits of one byte. */
  lemma TableTurn(c: bv32, b: Byte, low: bv32)
    requires low == (c ^ Word(b)) & 0xFF
    ensures low < 256
    ensures Xor(Table(low), c >> 8) == Divide(c, ByteBits(b))
  {
    var x := Word(b);
    var high := (c ^ x) & 0xFFFFFF00;
    SplitLookUp(c, x, low, high);
    LookUp(c, b, x, low, high, c >> 8);
  }

  /** The table-driven loop computes the checksum defined by bit-by-bit division. */
  method Crc32(start: bv32, buf: array<Byte>, size: nat) returns (crc: bv32)
    requires size <= buf.Length
    ensures crc == Checksum(start, buf[..size])
  {
    crc := start ^ ONES;
    var p := 0;
    while p < size
      invariant p <= size
      invariant crc == Divide(start ^ ONES, Bits(buf[..p]))
    {
      var low := (crc ^ Word(buf[p])) & 0xFF;
      assert buf[..p + 1][..p] == buf[..p];
      DivideByte(start ^ ONES, buf[..p + 1], crc, low);
      crc := Table(low) ^ (crc >> 8);
      p := p + 1;
    }
    crc := crc ^ ONES;
  }

  lemma DivideByte(r: bv32, bytes: seq<Byte>, crc: bv32, low: bv32)
    requires bytes != [] && crc == Divide(r, Bits(bytes[..|bytes| - 1]))
    requires low == (crc ^ Word(bytes[|bytes| - 1])) & 0xFF
    ensures low < 256
    ensures Xor(Table(low), crc >> 8) == Divide(r, Bits(bytes))
  {
    var b := bytes[|bytes| - 1];
    TableTurn(crc, b, low);
    FoldAppend(ShiftIn, r, Bits(bytes[..|bytes| - 1]), ByteBits(b));
  }

  // ---- laws of the checksum ----

  lemma DivideAppend(r: bv32, a: seq<Byte>, b: seq<Byte>)
    ensures Divide(Divide(r, Bits(a)), Bits(b)) == Divide(r, Bits(a + b))
  {
    FlatMapAppend(ByteBits, a, b);
    FoldAppend(ShiftIn, r, Bits(a), Bits(b));
  }

  lemma ChecksumUndone(crc: bv32, a: seq<Byte>)
    ensures Checksum(crc, a) ^ ONES == Divide(crc ^ ONES, Bits(a))
  {
  }

  /** A checksum can be continued: what is summed in pieces is summed as a whole. */
  lemma ChecksumAppend(crc: bv32, a: seq<Byte>, b: seq<Byte>)
    ensures Checksum(Checksum(crc, a), b) == Checksum(crc, a + b)
  {
    ChecksumUndone(crc, a);
    DivideAppend(crc ^ ONES, a, b);
  }

  lemma ShiftInLosesNothing(r: bv32, s: bv32, bit: bool)
    requires ShiftIn(r, bit) == ShiftIn(s, bit)
    ensures r == s
  {
  }

  lemma DivideLosesNothing(r: bv32, s: bv32, bits: seq<bool>)
    requires Divide(r, bits) == Divide(s, bits)
    ensures r == s
  {
    forall r, s, bit | ShiftIn(r, bit) == ShiftIn(s, bit) ensures r == s {
      ShiftInLosesNothing(r, s, bit);
    }
    FoldLosesNothing(ShiftIn, r, s, bits);
  }

  // ---- a remainder determines the last 32 bits divided ----

  /** The word whose digits, lowest first, are the given bits. */
  function Pack(bits: seq<bool>): bv32 {
    FoldRight(Under, 0, bits)
  }

  function Under(x: bv32, bit: bool): bv32 {
    if bit then (x << 1) | 1 else x << 1
  }

  lemma UnderDigits(x: bv32, bit: bool)
    requires x >> 31 == 0
    ensures Odd(Under(x, bit)) == bit && Half(Under(x, bit)) == x
  {
  }

  /** The word whose n lowest bits are set. */
  function Cap(n: nat): bv32 {
    Repeat(Ones, 0, n)
  }

  function Ones(x: bv32): bv32 {
    (x << 1) | 1
  }

  predicate Within(x: bv32, cap: bv32) {
    x & cap == x
  }

  lemma WithinUnder(x: bv32, cap: bv32, bit: bool)
    requires Within(x, cap)
    ensures Within(Under(x, bit), Ones(cap)) && Within(Ones(x), Ones(cap))
  {
  }

  lemma CapTop(n: nat)
    requires n == 31
    ensures Cap(n) == 0x7FFFFFFF
  {
    RepeatEight(Ones, 0, n);
    RepeatEight(Ones, 0, n - 8);
    RepeatEight(Ones, 0, n - 16);
    RepeatTwice(Ones, 0, n - 26);
    RepeatTwice(Ones, 0, n - 28);
    RepeatTwice(Ones, 0, n - 30);
  }

  lemma WithinCap(x: bv32, n: nat, m: nat)
    requires n <= m && Within(x, Cap(n))
    ensures Within(x, Cap(m))
  {
    forall s ensures Within(0, s) {
    }
    forall s, t | Within(s, t) ensures Within(Ones(s), Ones(t)) {
      WithinUnder(s, t, true);
    }
    RepeatClimbs(Ones, Within, 0, n, m);
  }

  lemma PackWithin(bits: seq<bool>)
    ensures Within(Pack(bits), Cap(|bits|))
  {
    forall s, t, bit | Within(s, t) ensures Within(Under(s, bit), Ones(t)) {
      WithinUnder(s, t, bit);
    }
    FoldRightFollows(Under, Ones, Within, 0, 0, bits);
  }

  lemma PackTop(bits: seq<bool>, n: nat)
    requires |bits| <= n == 31
    ensures Pack(bits) >> 31 == 0
  {
    PackWithin(bits);
    WithinCap(Pack(bits), |bits|, n);
    CapTop(n);
  }

  lemma UnderAll(x: bv32, bit: bool, n: nat)
    requires x >> 31 == 0 && Repeat(Half, x, n) == 0
    ensures Digits(Odd, Half, Under(x, bit), n + 1) == [bit] + Digits(Odd, Half, x, n)
    ensures Repeat(Half, Under(x, bit), n + 1) == 0
  {
    UnderDigits(x, bit);
    DigitsFront(Odd, Half, Under(x, bit), n);
    RepeatFront(Half, Under(x, bit), n);
  }

  lemma {:induction false} PackDigits(bits: seq<bool>)
    requires |bits| <= 32
    ensures Digits(Odd, Half, Pack(bits), |bits|) == bits
    ensures Repeat(Half, Pack(bits), |bits|) == 0
    decreases |bits|
  {
    if bits != [] {
      var n, x := |bits| - 1, Pack(bits[1..]);
      PackDigits(bits[1..]);
      PackTop(bits[1..], 31);
      UnderAll(x, bits[0], n);
    }
  }

  lemma StepLosesNothing(x: bv32, y: bv32)
    requires Step(x) == Step(y)
    ensures x == y
  {
  }

  lemma XorLosesNothing(r: bv32, x: bv32, y: bv32)
    requires Xor(r, x) == Xor(r, y)
    ensures x == y
  {
  }

  /** Dividing at most 32 bits is stepping from the remainder with the packed bits added in. */
  lemma DividePacked(r: bv32, bits: seq<bool>)
    requires |bits| <= 32
    ensures Divide(r, bits) == Repeat(Step, Xor(r, Pack(bits)), |bits|)
  {
    AbsorbsAll();
    PackDigits(bits);
    FeedDigits(ShiftIn, Odd, Half, Xor, Step, r, Pack(bits), |bits|);
  }

  lemma LastBitsDetermined(r: bv32, xs: seq<bool>, ys: seq<bool>)
    requires |xs| == |ys| <= 32 && Divide(r, xs) == Divide(r, ys)
    ensures xs == ys
  {
    DividePacked(r, xs);
    DividePacked(r, ys);
    forall x, y | Step(x) == Step(y) ensures x == y {
      StepLosesNothing(x, y);
    }
    RepeatLosesNothing(Step, Xor(r, Pack(xs)), Xor(r, Pack(ys)), |xs|);
    XorLosesNothing(r, Pack(xs), Pack(ys));
    PackDigits(xs);
    PackDigits(ys);
  }

  /** Two bit strings of one length that differ only inside a window of 32 bits have different remainders. */
  lemma BurstDetected(r: bv32, before: seq<bool>, xs: seq<bool>, ys: seq<bool>, after: seq<bool>)
    requires |xs| == |ys| <= 32 && xs != ys
    ensures Divide(r, before + xs + after) != Divide(r, before + ys + after)
  {
    if Divide(r, before + xs + after) == Divide(r, before + ys + after) {
      FoldAppend(ShiftIn, r, before + xs, after);
      FoldAppend(ShiftIn, r, before + ys, after);
      DivideLosesNothing(Divide(r, before + xs), Divide(r, before + ys), after);
      FoldAppend(ShiftIn, r, before, xs);
      FoldAppend(ShiftIn, r, before, ys);
      LastBitsDetermined(Divide(r, before), xs, ys);
    }
  }

  lemma WordLosesNothing(b: Byte, c: Byte)
    requires Word(b) == Word(c)
    ensures b == c
  {
    OctetLosesNothing(b, c);
  }

  lemma ByteBitsLoseNothing(b: Byte, c: Byte)
    requires ByteBits(b) == ByteBits(c)
    ensures b == c
  {
    var x, y, zero := Word(b), Word(c), 0;
    FeedByte(zero, b, x);
    FeedByte(zero, c, y);
    forall x, y | Step(x) == Step(y) ensures x == y {
      StepLosesNothing(x, y);
    }
    RepeatEight(Step, Xor(zero, x), BYTE_BITS);
    RepeatEight(Step, Xor(zero, y), BYTE_BITS);
    RepeatLosesNothing(Step, Xor(zero, x), Xor(zero, y), BYTE_BITS);
    XorLosesNothing(zero, x, y);
    WordLosesNothing(b, c);
  }

  lemma BitsLoseNothing(a: seq<Byte>, b: seq<Byte>)
    requires |a| == |b| && Bits(a) == Bits(b)
    ensures a == b
  {
    forall x, y | ByteBits(x) == ByteBits(y) ensures x == y {
      ByteBitsLoseNothing(x, y);
    }
    FlatMapLosesNothing(ByteBits, a, b, 8);
  }

  /** Damage confined to four consecutive bytes always changes the checksum. */
  lemma DamageDetected(crc: bv32, before: seq<Byte>, a: seq<Byte>, b: seq<Byte>, after: seq<Byte>)
    requires |a| == |b| <= 4 && a != b
    ensures Checksum(crc, before + a + after) != Checksum(crc, before + b + after)
  {
    if Checksum(crc, before + a + after) == Checksum(crc, before + b + after) {
      ChecksumUndone(crc, before + a + after);
      ChecksumUndone(crc, before + b + after);
      FlatMapAppend(ByteBits, before + a, after);
      FlatMapAppend(ByteBits, before + b, after);
      FlatMapAppend(ByteBits, before, a);
      FlatMapAppend(ByteBits, before, b);
      FlatMapLength(ByteBits, a, 8);
      FlatMapLength(ByteBits, b, 8);
      if Bits(a) == Bits(b) {
        BitsLoseNothing(a, b);
      }
      BurstDetected(crc ^ ONES, Bits(before), Bits(a), Bits(b), Bits(after));
    }
  }
}
