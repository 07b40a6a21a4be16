/** CRC-32, by a table, against the bit-serial register. */
module Crc32 {
  import opened CrcRegister

  /** The polynomial of IEEE 802.3, lowest power at the top bit. */
  const POLY: bv64 := 0xEDB8_8320
  const MASK: bv64 := 0xFFFF_FFFF

  type word32 = x: bv64 | Fits(x, MASK)

  // ---------------------------------------------------------------- the table

  function FirstQuarter(k: bv64, i: bv64): bv64
  {
    if i < 8 then Pick(k, 0x00000000, 0x77073096, 0xee0e612c, 0x990951ba, 0x076dc419, 0x706af48f, 0xe963a535, 0x9e6495a3)
    else if i < 16 then Pick(k, 0x0edb8832, 0x79dcb8a4, 0xe0d5e91e, 0x97d2d988, 0x09b64c2b, 0x7eb17cbd, 0xe7b82d07, 0x90bf1d91)
    else if i < 24 then Pick(k, 0x1db71064, 0x6ab020f2, 0xf3b97148, 0x84be41de, 0x1adad47d, 0x6ddde4eb, 0xf4d4b551, 0x83d385c7)
    else if i < 32 then Pick(k, 0x136c9856, 0x646ba8c0, 0xfd62f97a, 0x8a65c9ec, 0x14015c4f, 0x63066cd9, 0xfa0f3d63, 0x8d080df5)
    else if i < 40 then Pick(k, 0x3b6e20c8, 0x4c69105e, 0xd56041e4, 0xa2677172, 0x3c03e4d1, 0x4b04d447, 0xd20d85fd, 0xa50ab56b)
    else if i < 48 then Pick(k, 0x35b5a8fa, 0x42b2986c, 0xdbbbc9d6, 0xacbcf940, 0x32d86ce3, 0x45df5c75, 0xdcd60dcf, 0xabd13d59)
    else if i < 56 then Pick(k, 0x26d930ac, 0x51de003a, 0xc8d75180, 0xbfd06116, 0x21b4f4b5, 0x56b3c423, 0xcfba9599, 0xb8bda50f)
    else Pick(k, 0x2802b89e, 0x5f058808, 0xc60cd9b2, 0xb10be924, 0x2f6f7c87, 0x58684c11, 0xc1611dab, 0xb6662d3d)
  }

  function SecondQuarter(k: bv64, i: bv64): bv64
  {
    if i < 72 then Pick(k, 0x76dc4190, 0x01db7106, 0x98d220bc, 0xefd5102a, 0x71b18589, 0x06b6b51f, 0x9fbfe4a5, 0xe8b8d433)
    else if i < 80 then Pick(k, 0x7807c9a2, 0x0f00f934, 0x9609a88e, 0xe10e9818, 0x7f6a0dbb, 0x086d3d2d, 0x91646c97, 0xe6635c01)
    else if i < 88 then Pick(k, 0x6b6b51f4, 0x1c6c6162, 0x856530d8, 0xf262004e, 0x6c0695ed, 0x1b01a57b, 0x8208f4c1, 0xf50fc457)
    else if i < 96 then Pick(k, 0x65b0d9c6, 0x12b7e950, 0x8bbeb8ea, 0xfcb9887c, 0x62dd1ddf, 0x15da2d49, 0x8cd37cf3, 0xfbd44c65)
    else if i < 104 then Pick(k, 0x4db26158, 0x3ab551ce, 0xa3bc0074, 0xd4bb30e2, 0x4adfa541, 0x3dd895d7, 0xa4d1c46d, 0xd3d6f4fb)
    else if i < 112 then Pick(k, 0x4369e96a, 0x346ed9fc, 0xad678846, 0xda60b8d0, 0x44042d73, 0x33031de5, 0xaa0a4c5f, 0xdd0d7cc9)
    else if i < 120 then Pick(k, 0x5005713c, 0x270241aa, 0xbe0b1010, 0xc90c2086, 0x5768b525, 0x206f85b3, 0xb966d409, 0xce61e49f)
    else Pick(k, 0x5edef90e, 0x29d9c998, 0xb0d09822, 0xc7d7a8b4, 0x59b33d17, 0x2eb40d81, 0xb7bd5c3b, 0xc0ba6cad)
  }

  function ThirdQuarter(k: bv64, i: bv64): bv64
  {
    if i < 136 then Pick(k, 0xedb88320, 0x9abfb3b6, 0x03b6e20c, 0x74b1d29a, 0xead54739, 0x9dd277af, 0x04db2615, 0x73dc1683)
    else if i < 144 then Pick(k, 0xe3630b12, 0x94643b84, 0x0d6d6a3e, 0x7a6a5aa8, 0xe40ecf0b, 0x9309ff9d, 0x0a00ae27, 0x7d079eb1)
    else if i < 152 then Pick(k, 0xf00f9344, 0x8708a3d2, 0x1e01f268, 0x6906c2fe, 0xf762575d, 0x806567cb, 0x196c3671, 0x6e6b06e7)
    else if i < 160 then Pick(k, 0xfed41b76, 0x89d32be0, 0x10da7a5a, 0x67dd4acc, 0xf9b9df6f, 0x8ebeeff9, 0x17b7be43, 0x60b08ed5)
    else if i < 168 then Pick(k, 0xd6d6a3e8, 0xa1d1937e, 0x38d8c2c4, 0x4fdff252, 0xd1bb67f1, 0xa6bc5767, 0x3fb506dd, 0x48b2364b)
    else if i < 176 then Pick(k, 0xd80d2bda, 0xaf0a1b4c, 0x36034af6, 0x41047a60, 0xdf60efc3, 0xa867df55, 0x316e8eef, 0x4669be79)
    else if i < 184 then Pick(k, 0xcb61b38c, 0xbc66831a, 0x256fd2a0, 0x5268e236, 0xcc0c7795, 0xbb0b4703, 0x220216b9, 0x5505262f)
    else Pick(k, 0xc5ba3bbe, 0xb2bd0b28, 0x2bb45a92, 0x5cb36a04, 0xc2d7ffa7, 0xb5d0cf31, 0x2cd99e8b, 0x5bdeae1d)
  }

  function FourthQuarter(k: bv64, i: bv64): bv64
  {
    if i < 200 then Pick(k, 0x9b64c2b0, 0xec63f226, 0x756aa39c, 0x026d930a, 0x9c0906a9, 0xeb0e363f, 0x72076785, 0x05005713)
    else if i < 208 then Pick(k, 0x95bf4a82, 0xe2b87a14, 0x7bb12bae, 0x0cb61b38, 0x92d28e9b, 0xe5d5be0d, 0x7cdcefb7, 0x0bdbdf21)
    else if i < 216 then Pick(k, 0x86d3d2d4, 0xf1d4e242, 0x68ddb3f8, 0x1fda836e, 0x81be16cd, 0xf6b9265b, 0x6fb077e1, 0x18b74777)
    else if i < 224 then Pick(k, 0x88085ae6, 0xff0f6a70, 0x66063bca, 0x11010b5c, 0x8f659eff, 0xf862ae69, 0x616bffd3, 0x166ccf45)
    else if i < 232 then Pick(k, 0xa00ae278, 0xd70dd2ee, 0x4e048354, 0x3903b3c2, 0xa7672661, 0xd06016f7, 0x4969474d, 0x3e6e77db)
    else if i < 240 then Pick(k, 0xaed16a4a, 0xd9d65adc, 0x40df0b66, 0x37d83bf0, 0xa9bcae53, 0xdebb9ec5, 0x47b2cf7f, 0x30b5ffe9)
    else if i < 248 then Pick(k, 0xbdbdf21c, 0xcabac28a, 0x53b39330, 0x24b4a3a6, 0xbad03605, 0xcdd70693, 0x54de5729, 0x23d967bf)
    else Pick(k, 0xb3667a2e, 0xc4614ab8, 0x5d681b02, 0x2a6f2b94, 0xb40bbe37, 0xc30c8ea1, 0x5a05df1b, 0x2d02ef8d)
  }

  function Table(i: bv64): bv64
    requires i < 256
  {
    var k := i & 7;
    if i < 64 then FirstQuarter(k, i)
    else if i < 128 then SecondQuarter(k, i)
    else if i < 192 then ThirdQuarter(k, i)
    else FourthQuarter(k, i)
  }

  lemma FirstQuarterIsRight(i: bv64)
    requires 0 <= i < 64
    ensures FirstQuarter(i & 7, i) == Step8(POLY, i)
  {
    if i < 16 {
      assert FirstQuarter(i & 7, i) == Step8(POLY, i);
    } else if i < 32 {
      assert FirstQuarter(i & 7, i) == Step8(POLY, i);
    }
  }

  lemma SecondQuarterIsRight(i: bv64)
    requires 64 <= i < 128
    ensures SecondQuarter(i & 7, i) == Step8(POLY, i)
  {
    if i < 96 {
      assert SecondQuarter(i & 7, i) == Step8(POLY, i);
    }
  }

  lemma ThirdQuarterIsRight(i: bv64)
    requires 128 <= i < 192
    ensures ThirdQuarter(i & 7, i) == Step8(POLY, i)
  {
    if i < 144 {
      assert ThirdQuarter(i & 7, i) == Step8(POLY, i);
    } else if i < 160 {
      assert ThirdQuarter(i & 7, i) == Step8(POLY, i);
    } else if i < 176 {
      assert ThirdQuarter(i & 7, i) == Step8(POLY, i);
    }
  }

  lemma FourthQuarterIsRight(i: bv64)
    requires 192 <= i < 256
    ensures FourthQuarter(i & 7, i) == Step8(POLY, i)
  {
    if i < 224 {
      assert FourthQuarter(i & 7, i) == Step8(POLY, i);
    }
  }

  /** Every entry of the table is what the register makes of its index in eight steps. */
  lemma TableIsRight(i: bv64)
    requires i < 256
    ensures Table(i) == Steps(POLY, i, 8)
  {
    hide Steps, Step8, FirstQuarter, SecondQuarter, ThirdQuarter, FourthQuarter;
    EightSteps(POLY, i);
    if i < 64 {
      FirstQuarterIsRight(i);
    } else if i < 128 {
      SecondQuarterIsRight(i);
    } else if i < 192 {
      ThirdQuarterIsRight(i);
    } else {
      FourthQuarterIsRight(i);
    }
  }

  // ---------------------------------------------------------------- the loop

  lemma PolyIsProper()
    ensures Proper(POLY, MASK)
  {
  }

  /** The body of the loop; addition is without carry. */
  function Update(r: bv64, b: octet): bv64
  {
    Add(Table(Add(r, b) & 0xFF), r >> 8)
  }

  lemma TableStep(r: bv64, m: seq<octet>, i: nat)
    requires i < |m|
    ensures Register(POLY, r, m[..i + 1]) == Update(Register(POLY, r, m[..i]), m[i])
  {
    hide Register, Table, Steps, Add;
    assert m[..i + 1] == m[..i] + [m[i]];
    RegisterOne(POLY, r, m[..i], m[i]);
    TableIsRight(Add(Register(POLY, r, m[..i]), m[i]) & 0xFF);
  }

  function Inverted(x: bv64): bv64 { x ^ MASK }

  /** The register between two inversions. */
  function Checksum(crc: word32, m: seq<octet>): bv64
  {
    Inverted(Register(POLY, Inverted(crc), m))
  }

  lemma InvertTwice(x: bv64)
    requires Fits(x, MASK)
    ensures Fits(Inverted(x), MASK) && Inverted(Inverted(x)) == x
  {
  }

  lemma ChecksumFits(crc: word32, m: seq<octet>)
    ensures Fits(Checksum(crc, m), MASK)
  {
    hide Register, Inverted, Fits, Proper;
    PolyIsProper();
    InvertTwice(crc);
    StaysInWidth(POLY, MASK, Inverted(crc), m);
    InvertTwice(Register(POLY, Inverted(crc), m));
  }

  method Crc(crc: word32, buf: seq<octet>) returns (r: word32)
    ensures r == Checksum(crc, buf)
  {
    hide Register, Update, Inverted, Fits, Proper;
    PolyIsProper();
    InvertTwice(crc);
    r := Inverted(crc);
    ghost var start := r;
    assert buf[..0] == [];
    RegisterOfNothing(POLY, start);
    for i := 0 to |buf|
      invariant r == Register(POLY, start, buf[..i])
    {
      TableStep(start, buf, i);
      StaysInWidth(POLY, MASK, start, buf[..i + 1]);
      r := Update(r, buf[i]);
    }
    assert buf[..|buf|] == buf;
    InvertTwice(r);
    r := Inverted(r);
  }

  /** The checksum of a message fed in two parts is that of the whole: the inversions in between cancel. */
  lemma InParts(crc: word32, a: seq<octet>, b: seq<octet>)
    ensures Fits(Checksum(crc, a), MASK) && Checksum(crc, a + b) == Checksum(Checksum(crc, a), b)
  {
    hide Register, Inverted, Fits, Proper;
    PolyIsProper();
    ChecksumFits(crc, a);
    RegisterAppend(POLY, Inverted(crc), a, b);
    InvertTwice(crc);
    StaysInWidth(POLY, MASK, Inverted(crc), a);
    InvertTwice(Register(POLY, Inverted(crc), a));
  }

  /** Two messages of one length that differ in one byte have different checksums. */
  lemma WrongByteIsNoticed(crc: word32, m: seq<octet>, m': seq<octet>, k: nat)
    requires DifferAt(m, m', k)
    ensures Checksum(crc, m) != Checksum(crc, m')
  {
    hide Register, Inverted, Fits;
    PolyIsProper();
    InvertTwice(crc);
    OneByteIsNoticed(POLY, MASK, Inverted(crc), m, m', k);
    StaysInWidth(POLY, MASK, Inverted(crc), m);
    StaysInWidth(POLY, MASK, Inverted(crc), m');
    InvertTwice(Register(POLY, Inverted(crc), m));
    InvertTwice(Register(POLY, Inverted(crc), m'));
  }

  /** So have two that differ only within four bytes in a row. */
  lemma BurstIsNoticed(crc: word32, m: seq<octet>, m': seq<octet>, k: nat)
    requires DifferWithin(m, m', k, 4)
    ensures Checksum(crc, m) != Checksum(crc, m')
  {
    hide Register, Inverted, Fits, Proper;
    PolyIsProper();
    InvertTwice(crc);
    BytesInARowAreNoticed(POLY, MASK, Inverted(crc), m, m', k, 4);
    StaysInWidth(POLY, MASK, Inverted(crc), m);
    StaysInWidth(POLY, MASK, Inverted(crc), m');
    InvertTwice(Register(POLY, Inverted(crc), m));
    InvertTwice(Register(POLY, Inverted(crc), m'));
  }
}
