/** The lookup table of the checksum (src/adaptation/CrcChecksum.cc) against the bitwise step. */
module CrcTable {

  /** One step of the bitwise division by the reflected polynomial 0xA001. */
  function Shift(crc: bv16): bv16 {
    if crc & 1 == 1 then (crc >> 1) ^ 0xa001 else crc >> 1
  }

  /** The steps of one byte. */
  function Shift8(crc: bv16): bv16 {
    Shift(Shift(Shift(Shift(Shift(Shift(Shift(Shift(crc))))))))
  }

  const ROW_0: seq<bv16> := [0x0000, 0xc0c1, 0xc181, 0x0140, 0xc301, 0x03c0, 0x0280, 0xc241,
    0xc601, 0x06c0, 0x0780, 0xc741, 0x0500, 0xc5c1, 0xc481, 0x0440]
  const ROW_1: seq<bv16> := [0xcc01, 0x0cc0, 0x0d80, 0xcd41, 0x0f00, 0xcfc1, 0xce81, 0x0e40,
    0x0a00, 0xcac1, 0xcb81, 0x0b40, 0xc901, 0x09c0, 0x0880, 0xc841]
  const ROW_2: seq<bv16> := [0xd801, 0x18c0, 0x1980, 0xd941, 0x1b00, 0xdbc1, 0xda81, 0x1a40,
    0x1e00, 0xdec1, 0xdf81, 0x1f40, 0xdd01, 0x1dc0, 0x1c80, 0xdc41]
  const ROW_3: seq<bv16> := [0x1400, 0xd4c1, 0xd581, 0x1540, 0xd701, 0x17c0, 0x1680, 0xd641,
    0xd201, 0x12c0, 0x1380, 0xd341, 0x1100, 0xd1c1, 0xd081, 0x1040]
  const ROW_4: seq<bv16> := [0xf001, 0x30c0, 0x3180, 0xf141, 0x3300, 0xf3c1, 0xf281, 0x3240,
    0x3600, 0xf6c1, 0xf781, 0x3740, 0xf501, 0x35c0, 0x3480, 0xf441]
  const ROW_5: seq<bv16> := [0x3c00, 0xfcc1, 0xfd81, 0x3d40, 0xff01, 0x3fc0, 0x3e80, 0xfe41,
    0xfa01, 0x3ac0, 0x3b80, 0xfb41, 0x3900, 0xf9c1, 0xf881, 0x3840]
  const ROW_6: seq<bv16> := [0x2800, 0xe8c1, 0xe981, 0x2940, 0xeb01, 0x2bc0, 0x2a80, 0xea41,
    0xee01, 0x2ec0, 0x2f80, 0xef41, 0x2d00, 0xedc1, 0xec81, 0x2c40]
  const ROW_7: seq<bv16> := [0xe401, 0x24c0, 0x2580, 0xe541, 0x2700, 0xe7c1, 0xe681, 0x2640,
    0x2200, 0xe2c1, 0xe381, 0x2340, 0xe101, 0x21c0, 0x2080, 0xe041]
  const ROW_8: seq<bv16> := [0xa001, 0x60c0, 0x6180, 0xa141, 0x6300, 0xa3c1, 0xa281, 0x6240,
    0x6600, 0xa6c1, 0xa781, 0x6740, 0xa501, 0x65c0, 0x6480, 0xa441]
  const ROW_9: seq<bv16> := [0x6c00, 0xacc1, 0xad81, 0x6d40, 0xaf01, 0x6fc0, 0x6e80, 0xae41,
    0xaa01, 0x6ac0, 0x6b80, 0xab41, 0x6900, 0xa9c1, 0xa881, 0x6840]
  const ROW_A: seq<bv16> := [0x7800, 0xb8c1, 0xb981, 0x7940, 0xbb01, 0x7bc0, 0x7a80, 0xba41,
    0xbe01, 0x7ec0, 0x7f80, 0xbf41, 0x7d00, 0xbdc1, 0xbc81, 0x7c40]
  const ROW_B: seq<bv16> := [0xb401, 0x74c0, 0x7580, 0xb541, 0x7700, 0xb7c1, 0xb681, 0x7640,
    0x7200, 0xb2c1, 0xb381, 0x7340, 0xb101, 0x71c0, 0x7080, 0xb041]
  const ROW_C: seq<bv16> := [0x5000, 0x90c1, 0x9181, 0x5140, 0x9301, 0x53c0, 0x5280, 0x9241,
    0x9601, 0x56c0, 0x5780, 0x9741, 0x5500, 0x95c1, 0x9481, 0x5440]
  const ROW_D: seq<bv16> := [0x9c01, 0x5cc0, 0x5d80, 0x9d41, 0x5f00, 0x9fc1, 0x9e81, 0x5e40,
    0x5a00, 0x9ac1, 0x9b81, 0x5b40, 0x9901, 0x59c0, 0x5880, 0x9841]
  const ROW_E: seq<bv16> := [0x8801, 0x48c0, 0x4980, 0x8941, 0x4b00, 0x8bc1, 0x8a81, 0x4a40,
    0x4e00, 0x8ec1, 0x8f81, 0x4f40, 0x8d01, 0x4dc0, 0x4c80, 0x8c41]
  const ROW_F: seq<bv16> := [0x4400, 0x84c1, 0x8581, 0x4540, 0x8701, 0x47c0, 0x4680, 0x8641,
    0x8201, 0x42c0, 0x4380, 0x8341, 0x4100, 0x81c1, 0x8081, 0x4040]

  /** Entry `i` of the table: row `i / 16`, column `i % 16`. */
  function Crctab(i: bv16): bv16
    requires i < 256
  {
    Cell(Row(i >> 4), i & 15)
  }

  function Cell(row: seq<bv16>, j: bv16): bv16
    requires |row| == 16 && j < 16
  {
    if j < 8 then
      if j < 4 then
        if j < 2 then (if j == 0 then row[0] else row[1]) else (if j == 2 then row[2] else row[3])
      else
        if j < 6 then (if j == 4 then row[4] else row[5]) else (if j == 6 then row[6] else row[7])
    else
      if j < 12 then
        if j < 10 then (if j == 8 then row[8] else row[9]) else (if j == 10 then row[10] else row[11])
      else
        if j < 14 then (if j == 12 then row[12] else row[13]) else (if j == 14 then row[14] else row[15])
  }

  function Row(k: bv16): (row: seq<bv16>)
    requires k < 16
    ensures |row| == 16
  {
    if k < 8 then
      if k < 4 then (if k == 0 then ROW_0 else if k == 1 then ROW_1 else if k == 2 then ROW_2 else ROW_3)
      else (if k == 4 then ROW_4 else if k == 5 then ROW_5 else if k == 6 then ROW_6 else ROW_7)
    else
      if k < 12 then (if k == 8 then ROW_8 else if k == 9 then ROW_9 else if k == 10 then ROW_A else ROW_B)
      else (if k == 12 then ROW_C else if k == 13 then ROW_D else if k == 14 then ROW_E else ROW_F)
  }

  lemma RowIsShift8(k: bv16, j: bv16)
    requires k < 16 && j < 16
    ensures Cell(Row(k), j) == Shift8((k << 4) | j)
  {
  }

  /** Every table entry is eight bitwise steps of its index. */
  lemma TableIsShift8(i: bv16)
    requires i < 256
    ensures Crctab(i) == Shift8(i)
  {
    hide Shift8, Cell, Row;
    RowIsShift8(i >> 4, i & 15);
    assert i == ((i >> 4) << 4) | (i & 15);
  }
}

/** The checksum itself: a table-driven CRC-16 with zero start, against bit-by-bit division. */
module Crc {
  import opened CrcTable

  /** The bits of a message, in the order in which they enter the register. */
  type Bits = seq<bool>

  /** Addition in the field of two elements, bit by bit. */
  function Add(x: bv16, y: bv16): bv16 {
    x ^ y
  }

  function BitValue(b: bool): bv16 {
    if b then 1 else 0
  }

  /** The reference: the register after the bits have entered one at a time. */
  function CrcBits(crc: bv16, bits: Bits): bv16
    decreases |bits|
  {
    if bits == [] then crc else CrcBits(Shift(Add(crc, BitValue(bits[0]))), bits[1..])
  }

  /** A word of at most sixteen bits, first bit lowest. */
  function Value(bits: Bits): bv16
    decreases |bits|
  {
    if bits == [] then 0 else BitValue(bits[0]) | (Value(bits[1..]) << 1)
  }

  function Repeat(crc: bv16, n: nat): bv16
    decreases n
  {
    if n == 0 then crc else Repeat(Shift(crc), n - 1)
  }

  /** The `n` low bits of a word, lowest first. */
  function LowBits(w: bv16, n: nat): (bits: Bits)
    ensures |bits| == n
    decreases n
  {
    if n == 0 then [] else [w & 1 == 1] + LowBits(w >> 1, n - 1)
  }

  function ByteBits(b: bv8): Bits {
    LowBits(b as bv16, 8)
  }

  function MessageBits(message: seq<bv8>): (bits: Bits)
    ensures |bits| == 8 * |message|
    decreases |message|
  {
    if message == [] then [] else ByteBits(message[0]) + MessageBits(message[1..])
  }

  // ---- the register takes a word at once ------------------------------------------------------

  lemma ShiftXor(x: bv16, y: bv16)
    ensures Shift(x ^ y) == Shift(x) ^ Shift(y)
  {
    if x & 1 == 1 {
      if y & 1 == 1 {
      } else {
      }
    } else {
      if y & 1 == 1 {
      } else {
      }
    }
  }

  /** The step is linear. */
  lemma ShiftLinear(x: bv16, y: bv16)
    ensures Shift(Add(x, y)) == Add(Shift(x), Shift(y))
  {
    hide Shift;
    ShiftXor(x, y);
  }

  lemma ShiftAhead(x: bv16, r: bv16)
    ensures Shift(x ^ r) == Shift(x ^ (r & 1)) ^ (r >> 1)
  {
  }

  /** What is left of a word above its `n` low bits. */
  function Above(w: bv16, n: nat): bv16 {
    if n == 0 then w else Above(w >> 1, n - 1)
  }

  lemma {:induction false} AboveZero(n: nat)
    ensures Above(0, n) == 0
  {
    if n > 0 {
      AboveZero(n - 1);
    }
  }

  lemma {:induction false} AboveMore(w: bv16, n: nat, m: nat)
    requires n <= m && Above(w, n) == 0
    ensures Above(w, m) == 0
  {
    if n == 0 {
      AboveZero(m);
    } else {
      AboveMore(w >> 1, n - 1, m - 1);
    }
  }

  lemma Above15(w: bv16)
    ensures Above(w, 15) == w >> 15
  {
    Above5(w, 15);
    Above5(w >> 5, 10);
    Above5(w >> 10, 5);
  }

  lemma Above8(w: bv16)
    ensures Above(w, 8) == w >> 8
  {
    Above5(w, 8);
    assert Above(w >> 5, 3) == Above(w >> 6, 2) == Above(w >> 7, 1) == w >> 8;
  }

  lemma Above5(w: bv16, n: nat)
    requires 5 <= n
    ensures Above(w, n) == Above(w >> 5, n - 5)
  {
    assert Above(w, n) == Above(w >> 1, n - 1) == Above(w >> 2, n - 2) == Above(w >> 3, n - 3);
    assert Above(w >> 3, n - 3) == Above(w >> 4, n - 4) == Above(w >> 5, n - 5);
  }

  /** Putting a bit below a word of at most fifteen bits. */
  lemma Below(v: bv16, b: bv16, n: nat)
    requires n <= 15 && Above(v, n) == 0 && b <= 1
    ensures (b | (v << 1)) >> 1 == v && (b | (v << 1)) & 1 == b
    ensures Above(b | (v << 1), n + 1) == 0
  {
    AboveMore(v, n, 15);
    Above15(v);
    Double(v, b);
  }

  lemma Double(v: bv16, b: bv16)
    requires v >> 15 == 0 && b <= 1
    ensures (b | (v << 1)) >> 1 == v && (b | (v << 1)) & 1 == b
  {
  }

  lemma {:induction false} ValueFits(bits: Bits)
    requires |bits| <= 16
    ensures Above(Value(bits), |bits|) == 0
    ensures bits != [] ==> Value(bits) >> 1 == Value(bits[1..]) && Value(bits) & 1 == BitValue(bits[0])
    decreases |bits|
  {
    if bits != [] {
      ValueFits(bits[1..]);
      Below(Value(bits[1..]), BitValue(bits[0]), |bits| - 1);
      hide Above;
    }
  }

  lemma AddLaws(x: bv16, y: bv16)
    ensures Add(x, 0) == x && Add(0, x) == x && Add(x, x) == 0 && Add(x, Add(x, y)) == y
  {
  }

  lemma EnterBit(crc: bv16, w: bv16, b: bv16, v: bv16)
    requires w & 1 == b && w >> 1 == v
    ensures Shift(Add(crc, w)) == Add(Shift(Add(crc, b)), v)
  {
    ShiftAhead(crc, w);
  }

  /** Letting bits enter one at a time is adding them all first and shifting then. */
  lemma {:induction false} WordAtOnce(crc: bv16, bits: Bits)
    requires |bits| <= 16
    ensures CrcBits(crc, bits) == Repeat(Add(crc, Value(bits)), |bits|)
    decreases |bits|
  {
    hide Shift, Add, BitValue, Above;
    if bits == [] {
      AddLaws(crc, 0);
    } else {
      var b := BitValue(bits[0]);
      ValueFits(bits);
      EnterBit(crc, Value(bits), b, Value(bits[1..]));
      hide Value;
      WordAtOnce(Shift(Add(crc, b)), bits[1..]);
    }
  }

  // ---- the table step is eight bitwise steps --------------------------------------------------

  lemma Reassemble(w: bv16, b: bool)
    requires b == (w & 1 == 1)
    ensures BitValue(b) | ((w >> 1) << 1) == w
  {
    if b {
    } else {
    }
  }

  lemma {:induction false} ValueLowBits(w: bv16, n: nat)
    requires n <= 16 && Above(w, n) == 0
    ensures Value(LowBits(w, n)) == w
    decreases n
  {
    if n > 0 {
      ValueLowBits(w >> 1, n - 1);
      assert LowBits(w, n)[1..] == LowBits(w >> 1, n - 1);
      Reassemble(w, w & 1 == 1);
      hide BitValue;
    }
  }

  lemma Shift8Linear(x: bv16, y: bv16)
    ensures Shift8(Add(x, y)) == Add(Shift8(x), Shift8(y))
  {
    var x1, y1 := Shift(x), Shift(y);
    var x2, y2 := Shift(x1), Shift(y1);
    var x3, y3 := Shift(x2), Shift(y2);
    var x4, y4 := Shift(x3), Shift(y3);
    var x5, y5 := Shift(x4), Shift(y4);
    var x6, y6 := Shift(x5), Shift(y5);
    var x7, y7 := Shift(x6), Shift(y6);
    ShiftLinear(x, y);
    ShiftLinear(x1, y1);
    ShiftLinear(x2, y2);
    ShiftLinear(x3, y3);
    ShiftLinear(x4, y4);
    ShiftLinear(x5, y5);
    ShiftLinear(x6, y6);
    ShiftLinear(x7, y7);
    hide Shift, Add;
  }

  lemma ShiftEven(x: bv16)
    requires x & 1 == 0
    ensures Shift(x) == x >> 1
  {
  }

  lemma Shift8High(x: bv16)
    requires x & 0xff == 0
    ensures Shift8(x) == x >> 8
  {
    ShiftEven(x);
    ShiftEven(x >> 1);
    ShiftEven(x >> 2);
    ShiftEven(x >> 3);
    ShiftEven(x >> 4);
    ShiftEven(x >> 5);
    ShiftEven(x >> 6);
    ShiftEven(x >> 7);
    hide Shift;
  }

  /** What the loop of the checksum does with one byte. */
  function TableStep(crc: bv16, b: bv8): bv16 {
    ((crc >> 8) & 0xff) ^ Crctab((crc & 0xff) ^ (b as bv16))
  }

  lemma TableStepIsShift8(crc: bv16, b: bv8)
    ensures TableStep(crc, b) == Shift8(Add(crc, b as bv16))
  {
    var low, high := (crc & 0xff) ^ (b as bv16), crc & 0xff00;
    TableIsShift8(low);
    Shift8Linear(high, low);
    Shift8High(high);
    hide Shift8, Crctab;
    assert Add(high, low) == Add(crc, b as bv16);
    assert high >> 8 == (crc >> 8) & 0xff;
  }

  lemma ByteAtOnce(crc: bv16, b: bv8)
    ensures CrcBits(crc, ByteBits(b)) == TableStep(crc, b)
  {
    var w := b as bv16;
    Above8(w);
    ValueLowBits(w, 8);
    WordAtOnce(crc, ByteBits(b));
    RepeatEight(Add(crc, w));
    TableStepIsShift8(crc, b);
  }

  lemma RepeatEight(x: bv16)
    ensures Repeat(x, 8) == Shift8(x)
  {
    hide Shift;
    assert Repeat(x, 8) == Repeat(Shift(Shift(x)), 6) == Repeat(Shift(Shift(Shift(Shift(x)))), 4);
  }

  lemma {:induction false} CrcAppend(crc: bv16, a: Bits, b: Bits)
    ensures CrcBits(crc, a + b) == CrcBits(CrcBits(crc, a), b)
    decreases |a|
  {
    if a == [] {
      assert a + b == b;
    } else {
      hide Shift, Add;
      assert (a + b)[1..] == a[1..] + b;
      CrcAppend(Shift(Add(crc, BitValue(a[0]))), a[1..], b);
    }
  }

  function CrcOf(message: seq<bv8>): bv16 {
    CrcBits(0, MessageBits(message))
  }

  /** The checksum of a buffer is the bit-by-bit CRC of its bits. */
  method Compute(buffer: seq<bv8>) returns (crc: bv16)
    ensures crc == CrcOf(buffer)
  {
    hide TableStep, ByteBits;
    crc := 0;
    for i := 0 to |buffer|
      invariant CrcBits(crc, MessageBits(buffer[i..])) == CrcOf(buffer)
    {
      NextByte(crc, buffer[i..]);
      assert buffer[i..][1..] == buffer[i + 1..];
      crc := TableStep(crc, buffer[i]);
    }
  }

  lemma NextByte(crc: bv16, rest: seq<bv8>)
    requires rest != []
    ensures CrcBits(crc, MessageBits(rest)) == CrcBits(TableStep(crc, rest[0]), MessageBits(rest[1..]))
  {
    hide TableStep, ByteBits;
    CrcAppend(crc, ByteBits(rest[0]), MessageBits(rest[1..]));
    ByteAtOnce(crc, rest[0]);
  }

  // ---- what the checksum detects --------------------------------------------------------------

  /** Where two equally long bit strings differ. */
  function Difference(a: Bits, b: Bits): (e: Bits)
    requires |a| == |b|
    ensures |e| == |a|
    ensures forall i :: 0 <= i < |a| ==> e[i] == (a[i] != b[i])
    decreases |a|
  {
    if a == [] then [] else [a[0] != b[0]] + Difference(a[1..], b[1..])
  }

  lemma AddAssociative(x: bv16, y: bv16, z: bv16)
    ensures Add(Add(x, y), z) == Add(x, Add(y, z)) && Add(x, y) == Add(y, x)
  {
  }

  lemma AddSwap(c: bv16, d: bv16, x: bv16, y: bv16)
    ensures Add(Add(c, d), Add(x, y)) == Add(Add(c, x), Add(d, y))
  {
    hide Add;
    AddAssociative(c, d, Add(x, y));
    AddAssociative(d, x, y);
    AddAssociative(x, d, y);
    AddAssociative(c, x, Add(d, y));
  }

  lemma BitAdd(a: bool, b: bool)
    ensures BitValue(a != b) == Add(BitValue(a), BitValue(b))
  {
  }

  lemma BitDifference(c: bv16, d: bv16, a: bool, b: bool)
    ensures Shift(Add(Add(c, d), BitValue(a != b))) == Add(Shift(Add(c, BitValue(a))), Shift(Add(d, BitValue(b))))
  {
    hide Shift, Add, BitValue;
    BitAdd(a, b);
    AddSwap(c, d, BitValue(a), BitValue(b));
    ShiftLinear(Add(c, BitValue(a)), Add(d, BitValue(b)));
  }

  /** The CRC is linear over bitwise addition. */
  lemma {:induction false} CrcLinear(c: bv16, d: bv16, a: Bits, b: Bits)
    requires |a| == |b|
    ensures CrcBits(Add(c, d), Difference(a, b)) == Add(CrcBits(c, a), CrcBits(d, b))
    decreases |a|
  {
    if a == [] {
    } else {
      BitDifference(c, d, a[0], b[0]);
      hide Shift, Add, BitValue;
      CrcLinear(Shift(Add(c, BitValue(a[0]))), Shift(Add(d, BitValue(b[0]))), a[1..], b[1..]);
      assert Difference(a, b)[1..] == Difference(a[1..], b[1..]);
    }
  }

  /** Two messages of one length have one checksum exactly when their difference has checksum zero. */
  lemma SameCrc(a: Bits, b: Bits)
    requires |a| == |b|
    ensures CrcBits(0, a) == CrcBits(0, b) <==> CrcBits(0, Difference(a, b)) == 0
  {
    AddSame(0, 0);
    AddSame(CrcBits(0, a), CrcBits(0, b));
    hide Add;
    CrcLinear(0, 0, a, b);
  }

  lemma AddSame(x: bv16, y: bv16)
    ensures Add(x, y) == 0 <==> x == y
  {
    hide Add;
    AddLaws(x, y);
  }

  lemma {:induction false} RepeatZero(n: nat)
    ensures Repeat(0, n) == 0
    decreases n
  {
    if n > 0 {
      assert Shift(0) == 0;
      RepeatZero(n - 1);
    }
  }

  lemma ShiftNonZero(x: bv16)
    ensures Shift(x) == 0 <==> x == 0
  {
  }

  lemma {:induction false} RepeatNonZero(x: bv16, n: nat)
    requires x != 0
    ensures Repeat(x, n) != 0
    decreases n
  {
    if n > 0 {
      ShiftNonZero(x);
      RepeatNonZero(Shift(x), n - 1);
    }
  }

  /** A message followed by its own checksum, low byte first, has checksum zero. */
  lemma SelfCheck(message: seq<bv8>)
    ensures
      var crc := CrcOf(message);
      CrcOf(message + [(crc & 0xff) as bv8, (crc >> 8) as bv8]) == 0
  {
    var crc := CrcOf(message);
    var low, high := (crc & 0xff) as bv8, (crc >> 8) as bv8;
    var tail := [low, high];
    MessageAppend(message, tail);
    CrcAppend(0, MessageBits(message), MessageBits(tail));
    hide Shift;
    NextByte(crc, tail);
    TableStepIsShift8(crc, low);
    TwoBytes(crc, low, high);
  }

  lemma TwoBytes(crc: bv16, low: bv8, high: bv8)
    requires low == (crc & 0xff) as bv8 && high == (crc >> 8) as bv8
    ensures CrcBits(TableStep(crc, low), MessageBits([high])) == 0
  {
    TableStepIsShift8(crc, low);
    assert Add(crc, low as bv16) == crc & 0xff00;
    Shift8High(crc & 0xff00);
    var rest := crc >> 8;
    assert (crc & 0xff00) >> 8 == rest;
    NextByte(rest, [high]);
    TableStepIsShift8(rest, high);
    assert Add(rest, high as bv16) == 0;
    Shift8High(0);
  }

  lemma {:induction false} MessageAppend(a: seq<bv8>, b: seq<bv8>)
    ensures MessageBits(a + b) == MessageBits(a) + MessageBits(b)
  {
    hide ByteBits, LowBits;
    if a == [] {
      assert a + b == b;
    } else {
      MessageAppend(a[1..], b);
      assert (a + b)[1..] == a[1..] + b;
      assert MessageBits(a + b) == ByteBits(a[0]) + (MessageBits(a[1..]) + MessageBits(b));
    }
  }

  lemma {:induction false} SomeBit(bits: Bits, i: nat)
    requires |bits| <= 16 && i < |bits| && bits[i]
    ensures Value(bits) != 0
    decreases |bits|
  {
    ValueFits(bits);
    hide Above;
    if i > 0 {
      SomeBit(bits[1..], i - 1);
    }
  }

  predicate Clear(bits: Bits) {
    forall i :: 0 <= i < |bits| ==> !bits[i]
  }

  lemma {:induction false} ClearBits(crc: bv16, bits: Bits)
    requires Clear(bits)
    ensures CrcBits(crc, bits) == Repeat(crc, |bits|)
    decreases |bits|
  {
    if bits != [] {
      assert Add(crc, BitValue(bits[0])) == crc;
      ClearBits(Shift(crc), bits[1..]);
    }
  }

  /** An error burst: all differing bits lie in a window of sixteen. */
  predicate Burst(a: Bits, b: Bits, at: nat) {
    && |a| == |b| && a != b
    && forall i :: 0 <= i < |a| && (i < at || at + 16 <= i) ==> a[i] == b[i]
  }

  lemma BurstCrc(pre: Bits, window: Bits, post: Bits, i: nat)
    requires Clear(pre) && Clear(post) && |window| <= 16 && i < |window| && window[i]
    ensures CrcBits(0, pre + (window + post)) != 0
  {
    hide Shift, Value, Add;
    ClearBits(0, pre);
    RepeatZero(|pre|);
    CrcAppend(0, pre, window + post);
    CrcAppend(0, window, post);
    WordAtOnce(0, window);
    SomeBit(window, i);
    AddLaws(Value(window), 0);
    RepeatNonZero(Value(window), |window|);
    ClearBits(CrcBits(0, window), post);
    RepeatNonZero(CrcBits(0, window), |post|);
  }

  lemma BurstDetected(a: Bits, b: Bits, at: nat, i: nat)
    requires Burst(a, b, at) && i < |a| && a[i] != b[i]
    ensures CrcBits(0, a) != CrcBits(0, b)
  {
    var e := Difference(a, b);
    var end := if at + 16 <= |e| then at + 16 else |e|;
    var pre, window, post := e[..at], e[at..end], e[end..];
    assert window[i - at];
    BurstCrc(pre, window, post, i - at);
    assert e == pre + (window + post);
    SameCrc(a, b);
  }

  /** Every error burst of at most sixteen bits changes the checksum. */
  lemma BurstsDetected(a: seq<bv8>, b: seq<bv8>, at: nat)
    requires Burst(MessageBits(a), MessageBits(b), at)
    ensures CrcOf(a) != CrcOf(b)
  {
    var x, y := MessageBits(a), MessageBits(b);
    var i :| 0 <= i < |x| && x[i] != y[i];
    BurstDetected(x, y, at, i);
  }

  function Half(x: bv16): bv16 {
    x >> 1
  }

  function LowBit(x: bv16): bool {
    x & 1 == 1
  }

  /** Whether the `n` low bits of a word hold an odd number of ones. */
  function OddIn(x: bv16, n: nat): bool
    decreases n
  {
    if n == 0 then false else LowBit(x) != OddIn(Half(x), n - 1)
  }

  function Odd(x: bv16): bool {
    OddIn(x, 16)
  }

  function OddBits(bits: Bits): bool
    decreases |bits|
  {
    if bits == [] then false else bits[0] != OddBits(bits[1..])
  }

  lemma HalfAdd(x: bv16, y: bv16)
    ensures Half(Add(x, y)) == Add(Half(x), Half(y))
    ensures LowBit(Add(x, y)) == (LowBit(x) != LowBit(y))
  {
  }

  lemma {:induction false} OddLinear(x: bv16, y: bv16, n: nat)
    ensures OddIn(Add(x, y), n) == (OddIn(x, n) != OddIn(y, n))
    decreases n
  {
    hide Add, Half, LowBit;
    if n > 0 {
      HalfAdd(x, y);
      OddLinear(Half(x), Half(y), n - 1);
    }
  }

  /** A word that ends below bit `n` has nothing to count there. */
  lemma {:induction false} OddTop(x: bv16, n: nat)
    requires Above(x, n) == 0
    ensures OddIn(x, n + 1) == OddIn(x, n)
    decreases n
  {
    if n > 0 {
      OddTop(Half(x), n - 1);
    }
  }

  lemma OddHalf(x: bv16)
    ensures Odd(x >> 1) == (Odd(x) != (x & 1 == 1))
  {
    Above15(x >> 1);
    assert (x >> 1) >> 15 == 0;
    OddTop(x >> 1, 15);
  }

  lemma PolynomialIsOdd()
    ensures Odd(0xa001)
  {
    assert OddIn(0xa, 4) == false;
    assert OddIn(0xa0, 8) == OddIn(0xa, 4);
    assert OddIn(0xa00, 12) == OddIn(0xa0, 8);
  }

  lemma ShiftParity(x: bv16)
    ensures Odd(Shift(x)) == Odd(x)
  {
    OddHalf(x);
    PolynomialIsOdd();
    hide OddIn;
    OddLinear(x >> 1, 0xa001, 16);
    hide Odd;
  }

  lemma BitParity(b: bool)
    ensures Odd(BitValue(b)) == b
  {
    OddZero(15);
    assert OddIn(1, 16) == (true != OddIn(0, 15));
    OddZero(16);
  }

  lemma {:induction false} OddZero(n: nat)
    ensures !OddIn(0, n)
    decreases n
  {
    if n > 0 {
      OddZero(n - 1);
    }
  }

  /** The checksum keeps the parity of the message. */
  lemma {:induction false} CrcParity(crc: bv16, bits: Bits)
    ensures Odd(CrcBits(crc, bits)) == (Odd(crc) != OddBits(bits))
    decreases |bits|
  {
    hide Shift, Add, OddIn, BitValue;
    if bits != [] {
      var b := BitValue(bits[0]);
      BitParity(bits[0]);
      OddLinear(crc, b, 16);
      ShiftParity(Add(crc, b));
      CrcParity(Shift(Add(crc, b)), bits[1..]);
    }
  }

  /** Every error that flips an odd number of bits changes the checksum. */
  lemma OddErrorsDetected(a: seq<bv8>, b: seq<bv8>)
    requires |a| == |b| && OddBits(Difference(MessageBits(a), MessageBits(b)))
    ensures CrcOf(a) != CrcOf(b)
  {
    CrcParity(0, Difference(MessageBits(a), MessageBits(b)));
    OddZero(16);
    SameCrc(MessageBits(a), MessageBits(b));
  }
}
