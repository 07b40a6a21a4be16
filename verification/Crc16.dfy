/** CRC-16, by a table, against the bit-serial register. */
module Crc16 {
  import opened CrcRegister

  /** x^16 + x^15 + x^2 + 1, lowest power at the top bit. */
  const POLY: bv64 := 0xA001
  const MASK: bv64 := 0xFFFF

  type word16 = x: bv64 | Fits(x, MASK)

  // ---------------------------------------------------------------- the table

  function FirstQuarter(k: bv64, i: bv64): bv64
  {
    if i < 8 then Pick(k, 0x0000, 0xc0c1, 0xc181, 0x0140, 0xc301, 0x03c0, 0x0280, 0xc241)
    else if i < 16 then Pick(k, 0xc601, 0x06c0, 0x0780, 0xc741, 0x0500, 0xc5c1, 0xc481, 0x0440)
    else if i < 24 then Pick(k, 0xcc01, 0x0cc0, 0x0d80, 0xcd41, 0x0f00, 0xcfc1, 0xce81, 0x0e40)
    else if i < 32 then Pick(k, 0x0a00, 0xcac1, 0xcb81, 0x0b40, 0xc901, 0x09c0, 0x0880, 0xc841)
    else if i < 40 then Pick(k, 0xd801, 0x18c0, 0x1980, 0xd941, 0x1b00, 0xdbc1, 0xda81, 0x1a40)
    else if i < 48 then Pick(k, 0x1e00, 0xdec1, 0xdf81, 0x1f40, 0xdd01, 0x1dc0, 0x1c80, 0xdc41)
    else if i < 56 then Pick(k, 0x1400, 0xd4c1, 0xd581, 0x1540, 0xd701, 0x17c0, 0x1680, 0xd641)
    else Pick(k, 0xd201, 0x12c0, 0x1380, 0xd341, 0x1100, 0xd1c1, 0xd081, 0x1040)
  }

  function SecondQuarter(k: bv64, i: bv64): bv64
  {
    if i < 72 then Pick(k, 0xf001, 0x30c0, 0x3180, 0xf141, 0x3300, 0xf3c1, 0xf281, 0x3240)
    else if i < 80 then Pick(k, 0x3600, 0xf6c1, 0xf781, 0x3740, 0xf501, 0x35c0, 0x3480, 0xf441)
    else if i < 88 then Pick(k, 0x3c00, 0xfcc1, 0xfd81, 0x3d40, 0xff01, 0x3fc0, 0x3e80, 0xfe41)
    else if i < 96 then Pick(k, 0xfa01, 0x3ac0, 0x3b80, 0xfb41, 0x3900, 0xf9c1, 0xf881, 0x3840)
    else if i < 104 then Pick(k, 0x2800, 0xe8c1, 0xe981, 0x2940, 0xeb01, 0x2bc0, 0x2a80, 0xea41)
    else if i < 112 then Pick(k, 0xee01, 0x2ec0, 0x2f80, 0xef41, 0x2d00, 0xedc1, 0xec81, 0x2c40)
    else if i < 120 then Pick(k, 0xe401, 0x24c0, 0x2580, 0xe541, 0x2700, 0xe7c1, 0xe681, 0x2640)
    else Pick(k, 0x2200, 0xe2c1, 0xe381, 0x2340, 0xe101, 0x21c0, 0x2080, 0xe041)
  }

  function ThirdQuarter(k: bv64, i: bv64): bv64
  {
    if i < 136 then Pick(k, 0xa001, 0x60c0, 0x6180, 0xa141, 0x6300, 0xa3c1, 0xa281, 0x6240)
    else if i < 144 then Pick(k, 0x6600, 0xa6c1, 0xa781, 0x6740, 0xa501, 0x65c0, 0x6480, 0xa441)
    else if i < 152 then Pick(k, 0x6c00, 0xacc1, 0xad81, 0x6d40, 0xaf01, 0x6fc0, 0x6e80, 0xae41)
    else if i < 160 then Pick(k, 0xaa01, 0x6ac0, 0x6b80, 0xab41, 0x6900, 0xa9c1, 0xa881, 0x6840)
    else if i < 168 then Pick(k, 0x7800, 0xb8c1, 0xb981, 0x7940, 0xbb01, 0x7bc0, 0x7a80, 0xba41)
    else if i < 176 then Pick(k, 0xbe01, 0x7ec0, 0x7f80, 0xbf41, 0x7d00, 0xbdc1, 0xbc81, 0x7c40)
    else if i < 184 then Pick(k, 0xb401, 0x74c0, 0x7580, 0xb541, 0x7700, 0xb7c1, 0xb681, 0x7640)
    else Pick(k, 0x7200, 0xb2c1, 0xb381, 0x7340, 0xb101, 0x71c0, 0x7080, 0xb041)
  }

  function FourthQuarter(k: bv64, i: bv64): bv64
  {
    if i < 200 then Pick(k, 0x5000, 0x90c1, 0x9181, 0x5140, 0x9301, 0x53c0, 0x5280, 0x9241)
    else if i < 208 then Pick(k, 0x9601, 0x56c0, 0x5780, 0x9741, 0x5500, 0x95c1, 0x9481, 0x5440)
    else if i < 216 then Pick(k, 0x9c01, 0x5cc0, 0x5d80, 0x9d41, 0x5f00, 0x9fc1, 0x9e81, 0x5e40)
    else if i < 224 then Pick(k, 0x5a00, 0x9ac1, 0x9b81, 0x5b40, 0x9901, 0x59c0, 0x5880, 0x9841)
    else if i < 232 then Pick(k, 0x8801, 0x48c0, 0x4980, 0x8941, 0x4b00, 0x8bc1, 0x8a81, 0x4a40)
    else if i < 240 then Pick(k, 0x4e00, 0x8ec1, 0x8f81, 0x4f40, 0x8d01, 0x4dc0, 0x4c80, 0x8c41)
    else if i < 248 then Pick(k, 0x4400, 0x84c1, 0x8581, 0x4540, 0x8701, 0x47c0, 0x4680, 0x8641)
    else Pick(k, 0x8201, 0x42c0, 0x4380, 0x8341, 0x4100, 0x81c1, 0x8081, 0x4040)
  }

  function Table(i: bv64): bv64
    requires i < 256
  {
    var k := i & 7;
    if i < 64 then FirstQuarter(k, i)
    else if i < 128 then SecondQuarter(k, i)
    else if i < 192 then ThirdQuarter(k, i)
    else FourthQuarter(k, i)
  }

  lemma FirstQuarterIsRight(i: bv64)
    requires 0 <= i < 64
    ensures FirstQuarter(i & 7, i) == Step8(POLY, i)
  {
    if i < 16 {
      assert FirstQuarter(i & 7, i) == Step8(POLY, i);
    } else if i < 32 {
      assert FirstQuarter(i & 7, i) == Step8(POLY, i);
    }
  }

  lemma SecondQuarterIsRight(i: bv64)
    requires 64 <= i < 128
    ensures SecondQuarter(i & 7, i) == Step8(POLY, i)
  {
    if i < 96 {
      assert SecondQuarter(i & 7, i) == Step8(POLY, i);
    }
  }

  lemma ThirdQuarterIsRight(i: bv64)
    requires 128 <= i < 192
    ensures ThirdQuarter(i & 7, i) == Step8(POLY, i)
  {
    if i < 144 {
      assert ThirdQuarter(i & 7, i) == Step8(POLY, i);
    } else if i < 160 {
      assert ThirdQuarter(i & 7, i) == Step8(POLY, i);
    } else if i < 176 {
      assert ThirdQuarter(i & 7, i) == Step8(POLY, i);
    }
  }

  lemma FourthQuarterIsRight(i: bv64)
    requires 192 <= i < 256
    ensures FourthQuarter(i & 7, i) == Step8(POLY, i)
  {
    if i < 224 {
      assert FourthQuarter(i & 7, i) == Step8(POLY, i);
    }
  }

  /** Every entry of the table is what the register makes of its index in eight steps. */
  lemma TableIsRight(i: bv64)
    requires i < 256
    ensures Table(i) == Steps(POLY, i, 8)
  {
    hide Steps, Step8, FirstQuarter, SecondQuarter, ThirdQuarter, FourthQuarter;
    EightSteps(POLY, i);
    if i < 64 {
      FirstQuarterIsRight(i);
    } else if i < 128 {
      SecondQuarterIsRight(i);
    } else if i < 192 {
      ThirdQuarterIsRight(i);
    } else {
      FourthQuarterIsRight(i);
    }
  }

  // ---------------------------------------------------------------- the loop

  lemma PolyIsProper()
    ensures Proper(POLY, MASK)
  {
  }

  /** The body of the loop; addition is without carry. */
  function Update(r: bv64, b: octet): bv64
  {
    Add(Table(Add(r, b) & 0xFF), r >> 8)
  }

  lemma TableStep(r: bv64, m: seq<octet>, i: nat)
    requires i < |m|
    ensures Register(POLY, r, m[..i + 1]) == Update(Register(POLY, r, m[..i]), m[i])
  {
    hide Register, Table, Steps, Add;
    assert m[..i + 1] == m[..i] + [m[i]];
    RegisterOne(POLY, r, m[..i], m[i]);
    TableIsRight(Add(Register(POLY, r, m[..i]), m[i]) & 0xFF);
  }

  method Crc(crc: word16, buf: seq<octet>) returns (r: word16)
    ensures r == Register(POLY, crc, buf)
  {
    hide Register, Update, Fits, Proper;
    PolyIsProper();
    r := crc;
    assert buf[..0] == [];
    RegisterOfNothing(POLY, crc);
    for i := 0 to |buf|
      invariant r == Register(POLY, crc, buf[..i])
    {
      TableStep(crc, buf, i);
      StaysInWidth(POLY, MASK, crc, buf[..i + 1]);
      r := Update(r, buf[i]);
    }
    assert buf[..|buf|] == buf;
  }

  /** The checksum of a message fed in two parts is that of the whole. */
  lemma InParts(crc: word16, a: seq<octet>, b: seq<octet>)
    ensures Register(POLY, crc, a + b) == Register(POLY, Register(POLY, crc, a), b)
  {
    RegisterAppend(POLY, crc, a, b);
  }

  /** Two messages of one length that differ in one byte have different checksums. */
  lemma WrongByteIsNoticed(crc: word16, m: seq<octet>, m': seq<octet>, k: nat)
    requires DifferAt(m, m', k)
    ensures Register(POLY, crc, m) != Register(POLY, crc, m')
  {
    hide Register;
    PolyIsProper();
    OneByteIsNoticed(POLY, MASK, crc, m, m', k);
  }

  /** So have two that differ only within two bytes in a row. */
  lemma BurstIsNoticed(crc: word16, m: seq<octet>, m': seq<octet>, k: nat)
    requires DifferWithin(m, m', k, 2)
    ensures Register(POLY, crc, m) != Register(POLY, crc, m')
  {
    hide Register;
    PolyIsProper();
    BytesInARowAreNoticed(POLY, MASK, crc, m, m', k, 2);
  }
}
