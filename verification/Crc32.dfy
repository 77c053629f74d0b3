/**
 The table-driven CRC-32 of the fixture ZIP writer, against the bit-serial
 definition of RFC 1952 section 8: a 32-bit shift register that takes in one
 message bit at a time, least significant bit first.

 The word operations are named functions so that the inductive proofs can hide
 their bit-level definitions; only the small lemmas at the end look inside.
 */
module Crc32 {

  type Byte = bv8

  /** The reflected CRC-32 polynomial. */
  const POLYNOMIAL: bv32 := 0xEDB8_8320

  const ALL_ONES: bv32 := 0xffff_ffff

  function Xor(a: bv32, b: bv32): bv32 {
    a ^ b
  }

  predicate IsOdd(c: bv32) {
    c & 1 == 1
  }

  function Half(c: bv32): bv32 {
    c >> 1
  }

  /** The bits of `b` from bit k upwards. */
  function BitsFrom(b: Byte, k: nat): bv32
    requires k <= 8
  {
    (b >> (k as bv4)) as bv32
  }

  function BitOf(b: Byte, k: nat): bv32
    requires k < 8
  {
    ((b >> (k as bv4)) & 1) as bv32
  }

  /** One turn of the shift register without an input bit. */
  function ShiftStep(c: bv32): bv32 {
    if IsOdd(c) then Xor(POLYNOMIAL, Half(c)) else Half(c)
  }

  function Shift(c: bv32, k: nat): bv32
    decreases k
  {
    if k == 0 then c else Shift(ShiftStep(c), k - 1)
  }

  //// The reference: one message bit at a time.

  /** Clocks bits k, k + 1, ..., 7 of `b` through the register. */
  function ClockBits(c: bv32, b: Byte, k: nat): bv32
    requires k <= 8
    decreases 8 - k
  {
    if k == 8 then c else ClockBits(ShiftStep(Xor(c, BitOf(b, k))), b, k + 1)
  }

  /** The register after the whole message, starting from `c`. */
  function Register(c: bv32, data: seq<Byte>): bv32
    decreases |data|
  {
    if data == [] then c else Register(ClockBits(c, data[0], 0), data[1..])
  }

  /** The CRC of a message: all-ones start value, complemented result. */
  function Checksum(data: seq<Byte>): bv32 {
    Xor(Register(ALL_ONES, data), ALL_ONES)
  }

  //// The table-driven program.

  function TableEntry(n: nat): bv32
    requires n < 256
  {
    Shift(n as bv32, 8)
  }

  ghost predicate IsTable(table: seq<bv32>) {
    |table| == 256 && forall n :: 0 <= n < 256 ==> table[n] == TableEntry(n)
  }

  method BuildTable() returns (table: array<bv32>)
    ensures fresh(table) && IsTable(table[..])
  {
    hide ShiftStep, TableEntry;
    table := new bv32[256];
    var n := 0;
    while n < 256
      invariant 0 <= n <= 256
      invariant forall i :: 0 <= i < n ==> table[i] == TableEntry(i)
    {
      var c := BuildEntry(n);
      table[n] := c;
      n := n + 1;
    }
  }

  /** The inner loop of the table builder. */
  method BuildEntry(n: nat) returns (c: bv32)
    requires n < 256
    ensures c == TableEntry(n)
  {
    c := n as bv32;
    ghost var start := c;
    var k := 0;
    while k < 8
      invariant 0 <= k <= 8
      invariant Shift(c, 8 - k) == Shift(start, 8)
    {
      c := if IsOdd(c) then Xor(POLYNOMIAL, Half(c)) else Half(c);
      k := k + 1;
    }
  }

  function TableIndex(crc: bv32, b: Byte): (n: nat)
    ensures n < 256
  {
    LowByte(Xor(crc, b as bv32)) as int
  }

  method ComputeCrc(table: array<bv32>, data: seq<Byte>) returns (result: bv32)
    requires IsTable(table[..])
    ensures result == Checksum(data)
  {
    hide ShiftStep, TableEntry, Xor, TableIndex, ClockBits;
    var crc: bv32 := ALL_ONES;
    var i := 0;
    while i < |data|
      invariant 0 <= i <= |data|
      invariant Register(crc, data[i..]) == Register(ALL_ONES, data)
    {
      TableStep(crc, data[i]);
      var n := TableIndex(crc, data[i]);
      assert table[..][n] == table[n];
      assert data[i..][1..] == data[i + 1..];
      crc := Xor(table[n], crc >> 8);
      i := i + 1;
    }
    result := Xor(crc, ALL_ONES);
  }

  //// Why one table look-up does the work of eight clocks.

  lemma {:induction false} ShiftLinear(a: bv32, b: bv32, k: nat)
    ensures Shift(Xor(a, b), k) == Xor(Shift(a, k), Shift(b, k))
    decreases k
  {
    hide ShiftStep, Xor;
    if k > 0 {
      StepLinear(a, b);
      ShiftLinear(ShiftStep(a), ShiftStep(b), k - 1);
    }
  }

  /** Whether the k low bits of `c` are clear. */
  predicate LowClear(c: bv32, k: nat) {
    k == 0 || (!IsOdd(c) && LowClear(Half(c), k - 1))
  }

  function Halved(c: bv32, k: nat): bv32
    decreases k
  {
    if k == 0 then c else Halved(Half(c), k - 1)
  }

  /** Clear low bits are shifted out without feedback. */
  lemma {:induction false} ClearBitsShiftOut(c: bv32, k: nat)
    requires LowClear(c, k)
    ensures Shift(c, k) == Halved(c, k)
    decreases k
  {
    hide IsOdd, Half, Xor;
    if k > 0 {
      ClearBitsShiftOut(Half(c), k - 1);
    }
  }

  /** Feeding bits one at a time equals adding all of them at once. */
  lemma {:induction false} ClockedByte(c: bv32, b: Byte, k: nat)
    requires k <= 8
    ensures ClockBits(c, b, k) == Shift(Xor(c, BitsFrom(b, k)), 8 - k)
    decreases 8 - k
  {
    hide ShiftStep, Xor, BitsFrom, BitOf;
    if k < 8 {
      ClockedByte(ShiftStep(Xor(c, BitOf(b, k))), b, k + 1);
      FeedOneBit(c, b, k);
    } else {
      NothingLeft(c, b);
    }
  }

  /** The table look-up of one byte clocks exactly the eight bits of it. */
  lemma TableStep(crc: bv32, b: Byte)
    ensures Xor(TableEntry(TableIndex(crc, b)), crc >> 8) == ClockBits(crc, b, 0)
  {
    hide ShiftStep, Xor, BitsFrom, BitOf, TableIndex, HighPart, Shift, LowClear, Halved;
    var v := Xor(crc, BitsFrom(b, 0));
    ClockedByte(crc, b, 0);
    SplitWord(crc, b);
    ShiftLinear(TableIndex(crc, b) as bv32, HighPart(v), 8);
    ClearBitsShiftOut(HighPart(v), 8);
  }

  //// What the checksum is for: a damaged byte is noticed.

  lemma {:induction false} ShiftInjective(a: bv32, b: bv32, k: nat)
    requires a != b
    ensures Shift(a, k) != Shift(b, k)
    decreases k
  {
    hide ShiftStep;
    if k > 0 {
      StepInjective(a, b);
      ShiftInjective(ShiftStep(a), ShiftStep(b), k - 1);
    }
  }

  lemma ClockInjective(c: bv32, c': bv32, b: Byte, b': Byte)
    requires (c == c') != (b == b')
    ensures ClockBits(c, b, 0) != ClockBits(c', b', 0)
  {
    hide ShiftStep, Xor, BitsFrom, BitOf, Shift;
    ClockedByte(c, b, 0);
    ClockedByte(c', b', 0);
    XorInjective(c, c', b, b');
    ShiftInjective(Xor(c, BitsFrom(b, 0)), Xor(c', BitsFrom(b', 0)), 8);
  }

  lemma {:induction false} RegisterInjective(c: bv32, c': bv32, data: seq<Byte>)
    requires c != c'
    ensures Register(c, data) != Register(c', data)
    decreases |data|
  {
    hide ClockBits;
    if data != [] {
      ClockInjective(c, c', data[0], data[0]);
      RegisterInjective(ClockBits(c, data[0], 0), ClockBits(c', data[0], 0), data[1..]);
    }
  }

  lemma {:induction false} RegisterAppend(c: bv32, front: seq<Byte>, back: seq<Byte>)
    ensures Register(c, front + back) == Register(Register(c, front), back)
    decreases |front|
  {
    hide ClockBits;
    if front == [] {
      assert front + back == back;
    } else {
      assert (front + back)[1..] == front[1..] + back;
      RegisterAppend(ClockBits(c, front[0], 0), front[1..], back);
    }
  }

  lemma RegisterThrough(front: seq<Byte>, b: Byte, back: seq<Byte>)
    ensures Register(ALL_ONES, front + [b] + back) ==
            Register(ClockBits(Register(ALL_ONES, front), b, 0), back)
  {
    hide ClockBits;
    assert front + [b] + back == front + ([b] + back);
    RegisterAppend(ALL_ONES, front, [b] + back);
    assert ([b] + back)[1..] == back;
  }

  /** Changing any one byte of any message, by any amount, changes its CRC. */
  lemma SingleByteDamageDetected(front: seq<Byte>, b: Byte, b': Byte, back: seq<Byte>)
    requires b != b'
    ensures Checksum(front + [b] + back) != Checksum(front + [b'] + back)
  {
    hide ClockBits, Xor, Register;
    var c := Register(ALL_ONES, front);
    RegisterThrough(front, b, back);
    RegisterThrough(front, b', back);
    ClockInjective(c, c, b, b');
    RegisterInjective(ClockBits(c, b, 0), ClockBits(c, b', 0), back);
    ComplementInjective(Register(ALL_ONES, front + [b] + back), Register(ALL_ONES, front + [b'] + back));
  }

  //// The bit-level facts.

  function LowByte(v: bv32): (r: bv32)
    ensures r as int < 256
  {
    v & 0xff
  }

  function HighPart(v: bv32): bv32 {
    (v >> 8) << 8
  }

  lemma OddLinear(a: bv32, b: bv32)
    ensures IsOdd(Xor(a, b)) == (IsOdd(a) != IsOdd(b))
    ensures Half(Xor(a, b)) == Xor(Half(a), Half(b))
  {
  }

  lemma XorAssociates(p: bv32, x: bv32, y: bv32)
    ensures Xor(Xor(p, x), y) == Xor(p, Xor(x, y))
  {
  }

  lemma XorCommutes(x: bv32, y: bv32)
    ensures Xor(x, y) == Xor(y, x)
  {
  }

  lemma XorCancels(p: bv32, x: bv32)
    ensures Xor(p, Xor(p, x)) == x
  {
  }

  /** One turn of the register is linear over exclusive or. */
  lemma StepLinear(a: bv32, b: bv32)
    ensures ShiftStep(Xor(a, b)) == Xor(ShiftStep(a), ShiftStep(b))
  {
    hide Xor, IsOdd, Half;
    OddLinear(a, b);
    var x, y := Half(a), Half(b);
    XorAssociates(POLYNOMIAL, x, y);
    XorAssociates(x, POLYNOMIAL, y);
    XorAssociates(POLYNOMIAL, x, Xor(POLYNOMIAL, y));
    XorCommutes(x, POLYNOMIAL);
    XorCancels(POLYNOMIAL, Xor(x, y));
  }

  lemma HalfAndParity(a: bv32, b: bv32)
    requires Half(a) == Half(b) && IsOdd(a) == IsOdd(b)
    ensures a == b
  {
  }

  /** Feedback sets the top bit, which halving leaves clear. */
  lemma FeedbackShows(a: bv32, b: bv32)
    ensures Xor(POLYNOMIAL, Half(a)) != Half(b)
  {
    hide IsOdd;
    assert Half(a) < 0x8000_0000 && Half(b) < 0x8000_0000;
  }

  lemma StepInjective(a: bv32, b: bv32)
    requires a != b
    ensures ShiftStep(a) != ShiftStep(b)
  {
    hide Xor, IsOdd, Half;
    FeedbackShows(a, b);
    FeedbackShows(b, a);
    if IsOdd(a) == IsOdd(b) && ShiftStep(a) == ShiftStep(b) {
      XorCancels(POLYNOMIAL, Half(a));
      XorCancels(POLYNOMIAL, Half(b));
      HalfAndParity(a, b);
    }
  }

  lemma SplitByte(b: Byte, k: bv4)
    requires k < 8
    ensures (b >> k) as bv32 == (((b >> k) & 1) as bv32) ^ (((b >> (k + 1)) as bv32) << 1)
    ensures (((b >> (k + 1)) as bv32) << 1) & 1 == 0
    ensures (((b >> (k + 1)) as bv32) << 1) >> 1 == (b >> (k + 1)) as bv32
  {
  }

  lemma SplitBits8(b: Byte, k: nat)
    requires k < 8
    ensures BitsFrom(b, k) == Xor(BitOf(b, k), BitsFrom(b, k + 1) << 1)
    ensures ShiftStep(BitsFrom(b, k + 1) << 1) == BitsFrom(b, k + 1)
  {
    SplitByte(b, k as bv4);
    NextCount(k);
  }

  lemma NextCount(k: nat)
    requires k < 8
    ensures (k + 1) as bv4 == (k as bv4) + 1
  {
  }

  lemma FeedOneBit(c: bv32, b: Byte, k: nat)
    requires k < 8
    ensures ShiftStep(Xor(c, BitsFrom(b, k))) == Xor(ShiftStep(Xor(c, BitOf(b, k))), BitsFrom(b, k + 1))
  {
    hide Xor, ShiftStep, BitsFrom, BitOf;
    SplitBits8(b, k);
    var even := BitsFrom(b, k + 1) << 1;
    XorAssociates(c, BitOf(b, k), even);
    StepLinear(Xor(c, BitOf(b, k)), even);
  }

  lemma NothingLeft(c: bv32, b: Byte)
    ensures Xor(c, BitsFrom(b, 8)) == c
  {
  }

  lemma WholeByte(b: Byte)
    ensures BitsFrom(b, 0) == b as bv32
  {
  }

  lemma SplitParts(v: bv32)
    ensures v == Xor(LowByte(v), HighPart(v))
  {
  }

  lemma ByteKeepsHigh(crc: bv32, b: Byte)
    ensures Xor(crc, b as bv32) >> 8 == crc >> 8
  {
  }

  function Twice(w: bv32): bv32 {
    w << 1
  }

  predicate Small(w: bv32) {
    w < 0x8000_0000
  }

  lemma TwiceHalf(w: bv32)
    requires Small(w)
    ensures !IsOdd(Twice(w)) && Half(Twice(w)) == w
  {
  }

  /** A zero bit appended to `h` is one more clear bit to halve away. */
  lemma AppendZero(h: bv32, k: nat, w: bv32)
    requires Small(h) && LowClear(h, k) && Halved(h, k) == w
    ensures LowClear(Twice(h), k + 1) && Halved(Twice(h), k + 1) == w
  {
    hide IsOdd, Half, Twice, Small;
    TwiceHalf(h);
  }

  lemma TwiceIs(w: bv32)
    ensures Twice(w) == w << 1 && Twice(w << 1) == w << 2
    ensures Twice(w << 2) == w << 3 && Twice(w << 3) == w << 4
    ensures Twice(w << 4) == w << 5 && Twice(w << 5) == w << 6
    ensures Twice(w << 6) == w << 7 && Twice(w << 7) == w << 8
  {
  }

  lemma Bounds(w: bv32)
    requires w <= 0xff_ffff
    ensures Small(w) && Small(w << 1) && Small(w << 2) && Small(w << 3)
    ensures Small(w << 4) && Small(w << 5) && Small(w << 6) && Small(w << 7)
  {
  }

  lemma EightZeros(v: bv32) returns (h1: bv32, h2: bv32, h3: bv32, h4: bv32, h5: bv32, h6: bv32, h7: bv32)
    ensures h1 == Twice(v >> 8) && h2 == Twice(h1) && h3 == Twice(h2) && h4 == Twice(h3)
    ensures h5 == Twice(h4) && h6 == Twice(h5) && h7 == Twice(h6) && HighPart(v) == Twice(h7)
    ensures Small(v >> 8) && Small(h1) && Small(h2) && Small(h3)
    ensures Small(h4) && Small(h5) && Small(h6) && Small(h7)
  {
    hide Twice, Small;
    var w := v >> 8;
    assert w <= 0xff_ffff;
    TwiceIs(w);
    Bounds(w);
    h1, h2, h3, h4, h5, h6, h7 := w << 1, w << 2, w << 3, w << 4, w << 5, w << 6, w << 7;
  }

  lemma HighPartClear(v: bv32)
    ensures LowClear(HighPart(v), 8) && Halved(HighPart(v), 8) == v >> 8
  {
    hide HighPart, Twice, Small, IsOdd, Half;
    var w := v >> 8;
    var h1, h2, h3, h4, h5, h6, h7 := EightZeros(v);
    AppendZero(w, 0, w);
    AppendZero(h1, 1, w);
    AppendZero(h2, 2, w);
    AppendZero(h3, 3, w);
    AppendZero(h4, 4, w);
    AppendZero(h5, 5, w);
    AppendZero(h6, 6, w);
    AppendZero(h7, 7, w);
  }

  lemma SplitWord(crc: bv32, b: Byte)
    ensures var v := Xor(crc, BitsFrom(b, 0));
            && v == Xor(TableIndex(crc, b) as bv32, HighPart(v))
            && LowClear(HighPart(v), 8)
            && Halved(HighPart(v), 8) == crc >> 8
  {
    hide BitsFrom, LowClear, Halved, Xor, HighPart, LowByte;
    WholeByte(b);
    var v := Xor(crc, b as bv32);
    SplitParts(v);
    HighPartClear(v);
    ByteKeepsHigh(crc, b);
    IndexBack(LowByte(v));
  }

  lemma IndexBack(w: bv32)
    ensures (w as int) as bv32 == w
  {
  }

  lemma XorInjective(c: bv32, c': bv32, b: Byte, b': Byte)
    requires (c == c') != (b == b')
    ensures Xor(c, BitsFrom(b, 0)) != Xor(c', BitsFrom(b', 0))
  {
    hide BitsFrom;
    WholeByte(b);
    WholeByte(b');
    if c == c' {
      DifferRight(c, b as bv32, b' as bv32);
    } else {
      DifferRight(b as bv32, c, c');
    }
  }

  lemma DifferRight(c: bv32, x: bv32, x': bv32)
    requires x != x'
    ensures Xor(c, x) != Xor(c, x') && Xor(x, c) != Xor(x', c)
  {
  }

  lemma ComplementInjective(a: bv32, b: bv32)
    requires a != b
    ensures Xor(a, ALL_ONES) != Xor(b, ALL_ONES)
  {
  }

  //// The check value of the checksum.

  lemma FirstThree()
    ensures ClockBits(0xffff_ffff, 0x31, 0) == 0x7c23_1048
    ensures ClockBits(0x7c23_1048, 0x32, 0) == 0xb0ac_bb32
    ensures ClockBits(0xb0ac_bb32, 0x33, 0) == 0x77b7_9c2d
  {
  }

  lemma MiddleThree()
    ensures ClockBits(0x77b7_9c2d, 0x34, 0) == 0x641c_1f5c
    ensures ClockBits(0x641c_1f5c, 0x35, 0) == 0x340a_c5e3
    ensures ClockBits(0x340a_c5e3, 0x36, 0) == 0xf68d_2c9e
  {
  }

  lemma LastThree()
    ensures ClockBits(0xf68d_2c9e, 0x37, 0) == 0xaffc_9660
    ensures ClockBits(0xaffc_9660, 0x38, 0) == 0x651f_2550
    ensures ClockBits(0x651f_2550, 0x39, 0) == 0x340b_c6d9
  {
  }

  lemma RegisterStep(c: bv32, b: Byte, rest: seq<Byte>)
    ensures Register(c, [b] + rest) == Register(ClockBits(c, b, 0), rest)
  {
    hide ClockBits;
    assert ([b] + rest)[1..] == rest;
  }

  /** The nine digits "123456789" have the checksum that names the algorithm CRC-32. */
  lemma CheckValue()
    ensures Checksum([0x31, 0x32, 0x33, 0x34, 0x35, 0x36, 0x37, 0x38, 0x39]) == 0xcbf4_3926
  {
    hide ClockBits;
    FirstThree();
    MiddleThree();
    LastThree();
    var seven: seq<Byte> := [0x37, 0x38, 0x39];
    var four: seq<Byte> := [0x34, 0x35, 0x36] + seven;
    ThreeBytes(0xffff_ffff, 0x31, 0x32, 0x33, four);
    ThreeBytes(0x77b7_9c2d, 0x34, 0x35, 0x36, seven);
    ThreeBytes(0xf68d_2c9e, 0x37, 0x38, 0x39, []);
    assert [0x37, 0x38, 0x39] + [] == seven;
    assert [0x31, 0x32, 0x33, 0x34, 0x35, 0x36, 0x37, 0x38, 0x39] == [0x31, 0x32, 0x33] + four;
  }

  lemma ThreeBytes(c: bv32, x: Byte, y: Byte, z: Byte, rest: seq<Byte>)
    ensures Register(c, [x, y, z] + rest) ==
            Register(ClockBits(ClockBits(ClockBits(c, x, 0), y, 0), z, 0), rest)
  {
    hide ClockBits, Register;
    assert [x, y, z] == [x] + [y, z] && [y, z] == [y] + [z];
    RegisterStep(c, x, [y, z] + rest);
    RegisterStep(ClockBits(c, x, 0), y, [z] + rest);
    RegisterStep(ClockBits(ClockBits(c, x, 0), y, 0), z, rest);
    OneInFront(x, [y, z], rest);
    OneInFront(y, [z], rest);
  }

  lemma OneInFront<T>(x: T, a: seq<T>, rest: seq<T>)
    ensures [x] + (a + rest) == ([x] + a) + rest
  {
  }
}
