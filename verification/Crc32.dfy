// The reflected CRC-32 of the checksum test interface, as a 32-bit register fed byte by byte, and
// its reading as the word of coefficients that CrcTheory reasons about.
module Crc32 {
  import opened CrcTheory

  type byte = bv8

  const POLY: bv32 := 0xEDB8_8320
  const SEED: bv32 := 0xFFFF_FFFF

  // ---- The register ----

  // Multiplication by x modulo the generator, on a register whose low bit is the highest power.
  function Step(crc: bv32): bv32 {
    if crc & 1 == 1 then (crc >> 1) ^ POLY else crc >> 1
  }

  function Steps(crc: bv32, n: nat): bv32
    decreases n
  {
    if n == 0 then crc else Steps(Step(crc), n - 1)
  }

  function ByteBits(): nat { 8 }

  // The register after one data byte.
  function FeedByte(crc: bv32, b: byte): bv32 {
    Steps(WithByte(crc, b), ByteBits())
  }

  function WithByte(crc: bv32, b: byte): bv32 { crc ^ (b as bv32) }

  // The register after a run of data bytes.
  function Feed(crc: bv32, data: seq<byte>): bv32
    decreases |data|
  {
    if data == [] then crc else Feed(FeedByte(crc, data[0]), data[1..])
  }

  // The inner loop: eight branch-free turns, in which an all-ones or all-zeros mask selects the
  // generator.
  method ShiftByteOut(init: bv32) returns (crc: bv32)
    ensures crc == Steps(init, ByteBits())
  {
    crc := init;
    var bit := 0;
    while bit < 8
      invariant 0 <= bit <= 8
      invariant Steps(crc, ByteBits() - bit) == Steps(init, ByteBits())
    {
      var mask: bv32 := 0 - (crc & 1);
      MaskedStep(crc, mask);
      crc := (crc >> 1) ^ (POLY & mask);
      bit := bit + 1;
    }
  }

  lemma MaskedStep(crc: bv32, mask: bv32)
    requires mask == 0 - (crc & 1)
    ensures (crc >> 1) ^ (POLY & mask) == Step(crc)
  {
    assert crc & 1 == 0 || crc & 1 == 1;
    if crc & 1 == 1 {
      assert mask == 0xFFFF_FFFF;
    } else {
      assert mask == 0;
    }
  }

  // Runs the register over buffer[start..start+len].
  method Crc32Feed(init: bv32, buffer: array<byte>, start: nat, len: nat) returns (crc: bv32)
    requires start + len <= buffer.Length
    ensures crc == Feed(init, buffer[start..start + len])
  {
    ghost var data := buffer[start..start + len];
    assert Feed(init, data[..0]) == init;
    hide Feed, Steps, WithByte;
    crc := init;
    var i := 0;
    while i < len
      invariant 0 <= i <= len
      invariant crc == Feed(init, data[..i])
    {
      assert buffer[start + i] == data[i];
      FeedNext(init, data, i);
      crc := ShiftByteOut(WithByte(crc, buffer[start + i]));
      i := i + 1;
    }
    assert data[..len] == data;
  }

  lemma FeedNext(crc: bv32, data: seq<byte>, i: nat)
    requires i < |data|
    ensures Feed(crc, data[..i + 1]) == FeedByte(Feed(crc, data[..i]), data[i])
  {
    hide FeedByte;
    FeedAppend(crc, data[..i], [data[i]]);
    FeedOne(Feed(crc, data[..i]), data[i]);
    assert data[..i + 1] == data[..i] + [data[i]];
  }

  lemma FeedOne(crc: bv32, b: byte)
    ensures Feed(crc, [b]) == FeedByte(crc, b)
  {
    assert [b][1..] == [];
  }

  // Feeding a region in two pieces is feeding it in one.
  lemma {:induction false} FeedAppend(crc: bv32, a: seq<byte>, b: seq<byte>)
    ensures Feed(crc, a + b) == Feed(Feed(crc, a), b)
    decreases |a|
  {
    hide FeedByte;
    if a == [] {
      assert a + b == b;
    } else {
      FeedAppend(FeedByte(crc, a[0]), a[1..], b);
      assert (a + b)[1..] == a[1..] + b;
    }
  }

  // ---- Words and messages as bit strings, low bit first ----

  predicate Low(x: bv32) { x & 1 == 1 }

  function Half(x: bv32): bv32 { x >> 1 }

  function BitsOf(x: bv32, k: nat): (bits: seq<bool>)
    ensures |bits| == k
    decreases k
  {
    if k == 0 then [] else [Low(x)] + BitsOf(Half(x), k - 1)
  }

  // The register as coefficients: its low bit is the highest power.
  function ToWord(x: bv32): Word { BitsOf(x, WordBits()) }

  function WordBits(): nat { 32 }

  // The message in transmission order: each byte low bit first.
  function AllBits(data: seq<byte>): (bits: seq<bool>)
    ensures |bits| == 8 * |data|
    decreases |data|
  {
    if data == [] then [] else BitsOf(data[0] as bv32, ByteBits()) + AllBits(data[1..])
  }

  // n single shifts.
  function Shift(x: bv32, n: nat): bv32
    decreases n
  {
    if n == 0 then x else Shift(Half(x), n - 1)
  }

  lemma {:induction false} ShiftAppend(x: bv32, m: nat, n: nat)
    ensures Shift(x, m + n) == Shift(Shift(x, m), n)
    decreases m
  {
    hide Half;
    if m > 0 {
      ShiftAppend(Half(x), m - 1, n);
    }
  }

  lemma Shift4(x: bv32)
    ensures Shift(x, 4) == Right4(x)
  {
    assert Shift(x, 4) == Half(Half(Half(Half(x)))) by {
      hide Half, Right4;
    }
    hide Shift;
  }

  function Right4(x: bv32): bv32 { x >> 4 }

  function Right8(x: bv32): bv32 { x >> 8 }

  function Right16(x: bv32): bv32 { x >> 16 }

  lemma RightTwice(x: bv32)
    ensures Right4(Right4(x)) == Right8(x) && Right8(Right8(x)) == Right16(x) && Right16(Right16(x)) == 0
  {
  }

  lemma Shift8(x: bv32)
    ensures Shift(x, 8) == Right8(x)
  {
    Shift4(x);
    Shift4(Right4(x));
    hide Shift, Right4, Right8;
    ShiftAppend(x, 4, 4);
    RightTwice(x);
  }

  lemma Shift16(x: bv32)
    ensures Shift(x, 16) == Right16(x)
  {
    hide Shift, Right8, Right16;
    ShiftAppend(x, 8, 8);
    Shift8(x);
    Shift8(Right8(x));
    RightTwice(x);
  }

  lemma Shift32(x: bv32)
    ensures Shift(x, 32) == 0
  {
    hide Shift, Right16;
    ShiftAppend(x, 16, 16);
    Shift16(x);
    Shift16(Right16(x));
    RightTwice(x);
  }

  lemma {:induction false} BitsAppend(x: bv32, m: nat, n: nat)
    ensures BitsOf(x, m + n) == BitsOf(x, m) + BitsOf(Shift(x, m), n)
    decreases m
  {
    hide Half, Low;
    if m > 0 {
      BitsAppend(Half(x), m - 1, n);
    }
  }

  lemma {:induction false} BitsOfZero(n: nat)
    ensures BitsOf(0, n) == Zeros(n)
    decreases n
  {
    if n > 0 {
      assert Half(0) == 0;
      BitsOfZero(n - 1);
    }
  }

  function Xor(c: bv32, d: bv32): bv32 { c ^ d }

  lemma XorHalf(c: bv32, d: bv32)
    ensures (c ^ d) >> 1 == (c >> 1) ^ (d >> 1)
  {
  }

  lemma XorLow(c: bv32, d: bv32)
    ensures ((c ^ d) & 1 == 1) == ((c & 1 == 1) != (d & 1 == 1))
  {
  }

  lemma {:induction false} BitsXor(c: bv32, d: bv32, n: nat)
    ensures BitsOf(Xor(c, d), n) == XorBits(BitsOf(c, n), BitsOf(d, n))
    decreases n
  {
    hide Half, Low, Xor;
    if n > 0 {
      LowOfXor(c, d);
      HalfOfXor(c, d);
      BitsXor(Half(c), Half(d), n - 1);
    }
  }

  lemma LowOfXor(c: bv32, d: bv32)
    ensures Low(Xor(c, d)) == (Low(c) != Low(d))
  {
    XorLow(c, d);
  }

  lemma HalfOfXor(c: bv32, d: bv32)
    ensures Half(Xor(c, d)) == Xor(Half(c), Half(d))
  {
    XorHalf(c, d);
  }

  lemma {:induction false} BitsInjective(c: bv32, d: bv32, n: nat)
    requires BitsOf(c, n) == BitsOf(d, n) && Shift(c, n) == Shift(d, n)
    ensures c == d
    decreases n
  {
    hide Half, Low;
    if n > 0 {
      var x, y := BitsOf(c, n), BitsOf(d, n);
      assert x[0] == y[0] && x[1..] == y[1..];
      BitsInjective(Half(c), Half(d), n - 1);
      SameParts(c, d);
    }
  }

  lemma SameParts(c: bv32, d: bv32)
    requires Half(c) == Half(d) && Low(c) == Low(d)
    ensures c == d
  {
    assert c & 1 == d & 1;
  }

  lemma WordInjective(c: bv32, d: bv32)
    requires ToWord(c) == ToWord(d)
    ensures c == d
  {
    Shift32(c);
    Shift32(d);
    BitsInjective(c, d, 32);
  }

  lemma {:induction false} AllBitsInjective(a: seq<byte>, b: seq<byte>)
    requires AllBits(a) == AllBits(b)
    ensures a == b
    decreases |a|
  {
    hide BitsOf;
    assert |a| == |b|;
    if a != [] {
      AllBitsFirst(a);
      AllBitsFirst(b);
      SameByte(a[0], b[0]);
      AllBitsInjective(a[1..], b[1..]);
    }
  }

  lemma AllBitsFirst(a: seq<byte>)
    requires a != []
    ensures AllBits(a)[..8] == BitsOf(a[0] as bv32, 8) && AllBits(a)[8..] == AllBits(a[1..])
  {
    hide BitsOf;
  }

  lemma SameByte(a: byte, b: byte)
    requires BitsOf(a as bv32, 8) == BitsOf(b as bv32, 8)
    ensures a == b
  {
    hide BitsOf, Shift;
    ByteShift(a);
    ByteShift(b);
    BitsInjective(a as bv32, b as bv32, 8);
    Widened(a, b);
  }

  lemma Widened(a: byte, b: byte)
    requires a as bv32 == b as bv32
    ensures a == b
  {
  }

  lemma ByteShift(b: byte)
    ensures Shift(b as bv32, 8) == 0
  {
    Shift8(b as bv32);
    assert (b as bv32) >> 8 == 0;
  }

  // ---- The register follows the word ----

  lemma ShiftedWord(c: bv32)
    ensures ToWord(Half(c)) == ToWord(c)[1..] + [false]
  {
    assert BitsOf(c, 32) == [Low(c)] + BitsOf(Half(c), 31);
    assert Shift(Half(c), 31) == Shift(c, 32);
    hide BitsOf, Shift, Half, Low;
    BitsAppend(Half(c), 31, 1);
    Shift32(c);
    BitsOfZero(1);
  }

  lemma SplitByte(x: bv32, n: nat)
    ensures BitsOf(x, 8 + n) == BitsOf(x, 8) + BitsOf(x >> 8, n)
  {
    hide BitsOf;
    BitsAppend(x, 8, n);
    Shift8(x);
  }

  lemma Nibble(x: bv32)
    ensures BitsOf(x, 4) == [Low(x), Low(x >> 1), Low(x >> 2), Low(x >> 3)]
  {
    HalfTwice(x);
    assert BitsOf(x, 4) == [Low(x), Low(Half(x)), Low(Half(Half(x))), Low(Half(Half(Half(x))))] by {
      hide Half, Low;
    }
  }

  lemma HalfTwice(x: bv32)
    ensures Half(Half(x)) == x >> 2 && Half(Half(Half(x))) == x >> 3
  {
  }

  // A byte's bits, as the bits of its two nibbles.
  lemma TwoNibbles(x: bv32, high: bv32)
    requires high == x >> 4
    ensures BitsOf(x, 8) == [Low(x), Low(x >> 1), Low(x >> 2), Low(x >> 3)]
      + [Low(high), Low(high >> 1), Low(high >> 2), Low(high >> 3)]
  {
    hide BitsOf, Low;
    BitsAppend(x, 4, 4);
    Shift4(x);
    Nibble(x);
    Nibble(high);
  }

  // The constant of the source is the IEEE generator with its coefficients in reflected order.
  lemma GeneratorIsPoly()
    ensures ToWord(POLY) == GENERATOR
  {
    hide BitsOf;
    SplitByte(POLY, 24);
    SplitByte(POLY >> 8, 16);
    SplitByte(POLY >> 8 >> 8, 8);
    assert POLY >> 8 == 0xED_B883 && POLY >> 8 >> 8 == 0xEDB8 && POLY >> 8 >> 8 >> 8 == 0xED;
    GeneratorByte0();
    GeneratorByte1();
    GeneratorByte2();
    GeneratorByte3();
    assert GENERATOR == GENERATOR[..8] + (GENERATOR[8..16] + (GENERATOR[16..24] + GENERATOR[24..]));
  }

  lemma GeneratorByte0()
    ensures BitsOf(POLY, 8) == GENERATOR[..8]
  {
    TwoNibbles(POLY, 0xEDB_8832);
    hide BitsOf;
    assert GENERATOR[..8] == [false, false, false, false, false, true, false, false];
  }

  lemma GeneratorByte1()
    ensures BitsOf(0xED_B883, 8) == GENERATOR[8..16]
  {
    TwoNibbles(0xED_B883, 0xE_DB88);
    hide BitsOf;
    assert GENERATOR[8] && GENERATOR[9] && !GENERATOR[10] && !GENERATOR[11];
    assert !GENERATOR[12] && !GENERATOR[13] && !GENERATOR[14] && GENERATOR[15];
  }

  lemma GeneratorByte2()
    ensures BitsOf(0xEDB8, 8) == GENERATOR[16..24]
  {
    TwoNibbles(0xEDB8, 0xEDB);
    hide BitsOf;
    assert GENERATOR[16..24] == [false, false, false, true, true, true, false, true];
  }

  lemma GeneratorByte3()
    ensures BitsOf(0xED, 8) == GENERATOR[24..]
  {
    TwoNibbles(0xED, 0xE);
    hide BitsOf;
    assert GENERATOR[24..] == [true, false, true, true, false, true, true, true];
  }

  lemma StepFollows(c: bv32)
    ensures ToWord(Step(c)) == StepWord(ToWord(c))
  {
    ShiftedWord(c);
    assert ToWord(c)[0] == Low(c);
    if Low(c) {
      BitsXor(Half(c), POLY, 32);
      GeneratorIsPoly();
    }
  }

  lemma {:induction false} StepsFollow(c: bv32, n: nat)
    ensures ToWord(Steps(c, n)) == StepsWord(ToWord(c), n)
    decreases n
  {
    hide Step, ToWord, StepWord;
    if n > 0 {
      StepFollows(c);
      StepsFollow(Step(c), n - 1);
    }
  }

  lemma ByteFollows(c: bv32, b: byte)
    ensures ToWord(FeedByte(c, b)) == FeedBits(ToWord(c), BitsOf(b as bv32, 8))
  {
    hide Step, StepWord, BitsOf, Shift, FeedBits;
    var d := b as bv32;
    assert WithByte(c, b) == Xor(c, d);
    StepsFollow(Xor(c, d), 8);
    BitsXor(c, d, 32);
    BitsAppend(d, 8, 24);
    ByteShift(b);
    BitsOfZero(24);
    StepsAreBits(ToWord(c), BitsOf(d, 8));
  }

  // The register after a message is the word after its bits.
  lemma {:induction false} FeedFollows(c: bv32, data: seq<byte>)
    ensures ToWord(Feed(c, data)) == FeedBits(ToWord(c), AllBits(data))
    decreases |data|
  {
    hide FeedByte, BitsOf, StepWord;
    if data != [] {
      ByteFollows(c, data[0]);
      FeedBitsAppend(ToWord(c), BitsOf(data[0] as bv32, 8), AllBits(data[1..]));
      FeedFollows(FeedByte(c, data[0]), data[1..]);
    }
  }

  // ---- Linearity ----

  function XorBytes(a: seq<byte>, b: seq<byte>): (r: seq<byte>)
    requires |a| == |b|
    ensures |r| == |a| && forall i :: 0 <= i < |r| ==> r[i] == XorByte(a[i], b[i])
  {
    seq(|a|, i requires 0 <= i < |a| => XorByte(a[i], b[i]))
  }

  function XorByte(a: byte, b: byte): byte { a ^ b }

  lemma StepLinear(c: bv32, d: bv32)
    ensures Step(Xor(c, d)) == Xor(Step(c), Step(d))
  {
    StepIs(c);
    StepIs(d);
    StepIs(Xor(c, d));
    LowOfXor(c, d);
    HalfOfXor(c, d);
    PolyMoves(Half(c), Half(d));
    hide Step, Low, Half, Xor;
  }

  lemma StepIs(c: bv32)
    ensures Step(c) == if Low(c) then Xor(Half(c), POLY) else Half(c)
  {
  }

  lemma PolyMoves(a: bv32, b: bv32)
    ensures Xor(Xor(a, POLY), Xor(b, POLY)) == Xor(a, b)
    ensures Xor(Xor(a, POLY), b) == Xor(a, Xor(b, POLY)) == Xor(Xor(a, b), POLY)
  {
    hide Xor;
    XorAssociates(a, b, POLY);
    XorAssociates(a, POLY, b);
    XorCommutes(POLY, b);
    XorAssociates(Xor(a, POLY), b, POLY);
    XorAssociates(Xor(a, b), POLY, POLY);
    XorSelf(POLY, Xor(a, b));
  }

  lemma XorAssociates(a: bv32, b: bv32, c: bv32)
    ensures Xor(Xor(a, b), c) == Xor(a, Xor(b, c))
  {
  }

  lemma XorCommutes(a: bv32, b: bv32)
    ensures Xor(a, b) == Xor(b, a)
  {
  }

  lemma XorSelf(a: bv32, b: bv32)
    ensures Xor(a, a) == 0 && Xor(b, 0) == b
  {
  }

  lemma {:induction false} StepsLinear(c: bv32, d: bv32, n: nat)
    ensures Steps(Xor(c, d), n) == Xor(Steps(c, n), Steps(d, n))
    decreases n
  {
    hide Step, Xor;
    if n > 0 {
      StepLinear(c, d);
      StepsLinear(Step(c), Step(d), n - 1);
    }
  }

  lemma ByteLinear(c: bv32, d: bv32, a: byte, b: byte)
    ensures FeedByte(Xor(c, d), XorByte(a, b)) == Xor(FeedByte(c, a), FeedByte(d, b))
  {
    hide Steps, WithByte, Xor, XorByte;
    StepsLinear(WithByte(c, a), WithByte(d, b), ByteBits());
    WithByteLinear(c, d, a, b);
  }

  lemma WithByteLinear(c: bv32, d: bv32, a: byte, b: byte)
    ensures WithByte(Xor(c, d), XorByte(a, b)) == Xor(WithByte(c, a), WithByte(d, b))
  {
  }

  // The register is linear in what it holds and what it is fed.
  lemma {:induction false} FeedLinear(c: bv32, d: bv32, a: seq<byte>, b: seq<byte>)
    requires |a| == |b|
    ensures Feed(Xor(c, d), XorBytes(a, b)) == Xor(Feed(c, a), Feed(d, b))
    decreases |a|
  {
    hide FeedByte, Xor, XorByte;
    if a != [] {
      ByteLinear(c, d, a[0], b[0]);
      assert XorBytes(a, b)[1..] == XorBytes(a[1..], b[1..]);
      FeedLinear(FeedByte(c, a[0]), FeedByte(d, b[0]), a[1..], b[1..]);
    }
  }

  lemma {:induction false} AllBitsAppend(a: seq<byte>, b: seq<byte>)
    ensures AllBits(a + b) == AllBits(a) + AllBits(b)
    decreases |a|
  {
    hide BitsOf;
    if a == [] {
      assert a + b == b;
    } else {
      AllBitsAppend(a[1..], b);
      assert (a + b)[1..] == a[1..] + b;
    }
  }

  // The byte 1 fed into an empty register.
  lemma FeedOfOne()
    ensures FeedByte(0, 1) == 0x7707_3096
  {
    assert WithByte(0, 1) == 1;
    assert Step(1) == 0xEDB8_8320 && Step(0xEDB8_8320) == 0x76DC_4190;
    assert Step(0x76DC_4190) == 0x3B6E_20C8 && Step(0x3B6E_20C8) == 0x1DB7_1064;
    assert Step(0x1DB7_1064) == 0x0EDB_8832 && Step(0x0EDB_8832) == 0x076D_C419;
    assert Step(0x076D_C419) == 0xEE0E_612C && Step(0xEE0E_612C) == 0x7707_3096;
    EightSteps(1);
    hide Step, Steps;
  }

  lemma EightSteps(c: bv32)
    ensures Steps(c, ByteBits()) == Step(Step(Step(Step(Step(Step(Step(Step(c))))))))
  {
    FourSteps(c, 4);
    FourSteps(Step(Step(Step(Step(c)))), 0);
    hide Step;
  }

  lemma FourSteps(c: bv32, n: nat)
    ensures Steps(c, n + 4) == Steps(Step(Step(Step(Step(c)))), n)
  {
    hide Step;
    assert Steps(c, n + 4) == Steps(Step(c), n + 3) == Steps(Step(Step(c)), n + 2);
    assert Steps(Step(Step(c)), n + 2) == Steps(Step(Step(Step(c))), n + 1);
  }
}
