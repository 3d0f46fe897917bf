// The UDP checksum test responder: header decoding, the CRC over two non-contiguous regions and
// the verdict ladder, against a packet builder and against the IEEE definition of the CRC.
module ChecksumTest {
  import opened Crc32
  import opened CrcTheory

  const TEST_MAGIC: bv32 := 0x5453_4554
  const REPLY_MAGIC: bv32 := 0x504C_5052
  const HEADER_SIZE := 16
  const CRC_OFFSET := 12
  const RX_BUFFER_SIZE := 2048

  datatype Verdict = Ok | BadMagic | LenMismatch | CrcMismatch | TooShort

  datatype Reply = Reply(magic: bv32, testId: bv32, verdict: Verdict, receivedTotalLen: nat, computedCrc: bv32)

  // ---- Little-endian words ----

  function ReadLe(p: seq<byte>): bv32
    requires |p| == 4
  {
    Joined(p[0], p[1], p[2], p[3])
  }

  function Joined(a: byte, b: byte, c: byte, d: byte): bv32 {
    (a as bv32) | ((b as bv32) << 8) | ((c as bv32) << 16) | ((d as bv32) << 24)
  }

  function WriteLe(x: bv32): (p: seq<byte>)
    ensures |p| == 4
  {
    [(x & 0xFF) as byte, ((x >> 8) & 0xFF) as byte, ((x >> 16) & 0xFF) as byte, (x >> 24) as byte]
  }

  lemma LeRoundTrip(x: bv32)
    ensures ReadLe(WriteLe(x)) == x
  {
    assert (x & 0xFF) | (((x >> 8) & 0xFF) << 8) | (((x >> 16) & 0xFF) << 16) | ((x >> 24) << 24) == x;
  }

  lemma LeBytes(a: byte, b: byte, c: byte, d: byte)
    ensures WriteLe(Joined(a, b, c, d)) == [a, b, c, d]
  {
  }

  lemma LeSurjective(p: seq<byte>)
    requires |p| == 4
    ensures WriteLe(ReadLe(p)) == p
  {
    hide Joined, WriteLe;
    LeBytes(p[0], p[1], p[2], p[3]);
  }

  // The declared_len field of a payload of n bytes, low byte first.
  function LenBytes(n: nat): (p: seq<byte>)
    requires n <= RX_BUFFER_SIZE
    ensures |p| == 4
  {
    [(n % 256) as byte, (n / 256) as byte, 0, 0]
  }

  function Num(b: byte): (n: nat)
    ensures n < 256
  {
    b as nat
  }

  function WordNum(x: bv32): nat { x as nat }

  // The number that four bytes hold, low byte first.
  function Value(p: seq<byte>): nat
    requires |p| == 4
  {
    Num(p[0]) + 256 * Num(p[1]) + 65536 * Num(p[2]) + 16777216 * Num(p[3])
  }

  lemma ReadsValue(p: seq<byte>)
    requires |p| == 4
    ensures WordNum(ReadLe(p)) == Value(p)
  {
    JoinedValue(p[0], p[1], p[2], p[3]);
    hide WordNum, Joined, Num;
  }

  lemma JoinedValue(a: byte, b: byte, c: byte, d: byte)
    ensures WordNum(Joined(a, b, c, d)) == Num(a) + 256 * Num(b) + 65536 * Num(c) + 16777216 * Num(d)
  {
  }

  lemma LenBytesValue(n: nat)
    requires n <= RX_BUFFER_SIZE
    ensures Value(LenBytes(n)) == n
  {
    hide Num;
    ByteValue(n % 256);
    ByteValue(n / 256);
    ZeroValue();
  }

  lemma ByteValue(k: nat)
    requires k < 256
    ensures Num(k as byte) == k
  {
  }

  lemma ZeroValue()
    ensures Num(0) == 0
  {
  }

  lemma ValueInjective(p: seq<byte>, q: seq<byte>)
    requires |p| == |q| == 4 && Value(p) == Value(q)
    ensures p == q
  {
    SameDigits(Num(p[0]), Num(p[1]), Num(p[2]), Num(p[3]), Num(q[0]), Num(q[1]), Num(q[2]), Num(q[3]));
    SameNum(p[0], q[0]);
    SameNum(p[1], q[1]);
    SameNum(p[2], q[2]);
    SameNum(p[3], q[3]);
    hide Num, Value;
  }

  lemma SameDigits(a: nat, b: nat, c: nat, d: nat, a': nat, b': nat, c': nat, d': nat)
    requires a < 256 && b < 256 && c < 256 && a' < 256 && b' < 256 && c' < 256
    requires a + 256 * b + 65536 * c + 16777216 * d == a' + 256 * b' + 65536 * c' + 16777216 * d'
    ensures a == a' && b == b' && c == c' && d == d'
  {
    SameDigit(a, b + 256 * (c + 256 * d), a', b' + 256 * (c' + 256 * d'));
    SameDigit(b, c + 256 * d, b', c' + 256 * d');
    SameDigit(c, d, c', d');
  }

  lemma SameDigit(a: nat, x: nat, a': nat, x': nat)
    requires a < 256 && a' < 256 && a + 256 * x == a' + 256 * x'
    ensures a == a' && x == x'
  {
  }

  lemma SameNum(a: byte, b: byte)
    ensures Num(a) == Num(b) <==> a == b
  {
  }

  // The final inversion of the register.
  function Finalise(c: bv32): bv32 { !c }

  // ---- What the responder computes ----

  // The bytes under the checksum: the packet without its crc32 field.
  function Covered(p: seq<byte>): seq<byte>
    requires |p| >= HEADER_SIZE
  {
    p[..CRC_OFFSET] + p[HEADER_SIZE..]
  }

  function PacketCrc(p: seq<byte>): bv32
    requires |p| >= HEADER_SIZE
  {
    Finalise(Feed(SEED, Covered(p)))
  }

  function Field(p: seq<byte>, offset: nat): bv32
    requires offset + 4 <= |p|
  {
    ReadLe(p[offset..offset + 4])
  }

  function VerdictFor(p: seq<byte>): Verdict
    requires |p| <= RX_BUFFER_SIZE
  {
    if |p| < HEADER_SIZE then TooShort
    else if Field(p, 0) != TEST_MAGIC then BadMagic
    else if WordNum(Field(p, 8)) != |p| - HEADER_SIZE then LenMismatch
    else if Field(p, 12) != PacketCrc(p) then CrcMismatch
    else Ok
  }

  // Answers the datagram held in the first `received` bytes of the receive buffer.
  method HandleDatagram(rx: array<byte>, received: nat) returns (reply: Reply)
    requires rx.Length == RX_BUFFER_SIZE && received <= rx.Length
    ensures var p := rx[..received];
      && reply.magic == 0x504C_5052 && reply.receivedTotalLen == received
      && reply.verdict == VerdictFor(p)
      && (received >= HEADER_SIZE ==> reply.testId == Field(p, 4) && reply.computedCrc == PacketCrc(p))
      && (received < HEADER_SIZE ==> reply.testId == 0 && reply.computedCrc == 0)
  {
    hide Feed, ReadLe, WordNum, Finalise;
    reply := Reply(REPLY_MAGIC, 0, TooShort, received, 0);
    if received >= HEADER_SIZE {
      ghost var p := rx[..received];
      var magic := ReadLe(rx[0..4]);
      var declaredLen := ReadLe(rx[8..12]);
      var crcField := ReadLe(rx[12..16]);
      assert rx[0..4] == p[0..4] && rx[4..8] == p[4..8] && rx[8..12] == p[8..12] && rx[12..16] == p[12..16];
      reply := reply.(testId := ReadLe(rx[4..8]));
      var payloadLen := received - HEADER_SIZE;
      var crc := SEED;
      crc := Crc32Feed(crc, rx, 0, CRC_OFFSET);
      crc := Crc32Feed(crc, rx, HEADER_SIZE, payloadLen);
      FeedAppend(SEED, p[..CRC_OFFSET], p[HEADER_SIZE..]);
      assert rx[0..0 + CRC_OFFSET] == p[..CRC_OFFSET] && rx[HEADER_SIZE..HEADER_SIZE + payloadLen] == p[HEADER_SIZE..];
      crc := Finalise(crc);
      reply := reply.(computedCrc := crc);
      if magic != TEST_MAGIC {
        reply := reply.(verdict := BadMagic);
      } else if WordNum(declaredLen) != payloadLen {
        reply := reply.(verdict := LenMismatch);
      } else if crcField != crc {
        reply := reply.(verdict := CrcMismatch);
      } else {
        reply := reply.(verdict := Ok);
      }
    }
  }

  // Each verdict from the bytes received: a short packet; any other
  // that does not start with "TEST"; then one whose third word, low byte first, is not the payload's
  // length; then one whose fourth word is not the frame check sequence of all its other bytes.
  lemma VerdictOnBytes(p: seq<byte>)
    requires |p| <= RX_BUFFER_SIZE
    ensures VerdictFor(p) == TooShort <==> |p| < 16
    ensures VerdictFor(p) == BadMagic <==> |p| >= 16 && p[..4] != [0x54, 0x45, 0x53, 0x54]
    ensures VerdictFor(p) == LenMismatch <==>
      && |p| >= 16 && p[..4] == [0x54, 0x45, 0x53, 0x54]
      && p[8] as nat + 256 * p[9] as nat + 65536 * p[10] as nat + 16777216 * p[11] as nat != |p| - 16
    ensures VerdictFor(p) == CrcMismatch <==>
      && |p| >= 16 && p[..4] == [0x54, 0x45, 0x53, 0x54]
      && p[8] as nat + 256 * p[9] as nat + 65536 * p[10] as nat + 16777216 * p[11] as nat == |p| - 16
      && AllBits(p[12..16]) != FrameCheckSequence(AllBits(p[..12] + p[16..]))
  {
    hide Field, PacketCrc, WordNum, FrameCheckSequence, AllBits, ToWord;
    if |p| >= HEADER_SIZE {
      MagicOnBytes(p);
      LengthOnBytes(p);
      CrcOnBytes(p);
    }
  }

  // The numbers of the reply are the packet's second word and the frame check sequence due.
  lemma NumbersOnBytes(p: seq<byte>)
    requires |p| >= 16
    ensures ToWord(Field(p, 4)) == AllBits(p[4..8])
    ensures ToWord(PacketCrc(p)) == FrameCheckSequence(AllBits(p[..12] + p[16..]))
  {
    hide ReadLe, PacketCrc, FrameCheckSequence, AllBits, ToWord;
    ReadsBits(p[4..8]);
    CrcOnBytes(p);
  }

  lemma MagicOnBytes(p: seq<byte>)
    requires |p| >= HEADER_SIZE
    ensures Field(p, 0) == TEST_MAGIC <==> p[..4] == [0x54, 0x45, 0x53, 0x54]
  {
    hide ReadLe;
    ReadsMagic(p[0..4]);
    assert p[..4] == p[0..4];
  }

  lemma LengthOnBytes(p: seq<byte>)
    requires |p| >= HEADER_SIZE
    ensures WordNum(Field(p, 8)) ==
      p[8] as nat + 256 * p[9] as nat + 65536 * p[10] as nat + 16777216 * p[11] as nat
  {
    NumIs(p[8]);
    NumIs(p[9]);
    NumIs(p[10]);
    NumIs(p[11]);
    hide ReadLe, Num, WordNum;
    ReadsValue(p[8..12]);
  }

  lemma NumIs(b: byte)
    ensures Num(b) == b as nat
  {
  }

  lemma CrcOnBytes(p: seq<byte>)
    requires HEADER_SIZE <= |p|
    ensures ToWord(PacketCrc(p)) == FrameCheckSequence(AllBits(p[..12] + p[16..]))
    ensures Field(p, 12) == PacketCrc(p) <==>
      AllBits(p[12..16]) == FrameCheckSequence(AllBits(p[..12] + p[16..]))
  {
    hide Feed, ReadLe, Finalise, FrameCheckSequence, AllBits, ToWord;
    FieldAcceptedIff(p);
    CrcIsFrameCheckSequence(p);
    ReadsBits(p[12..16]);
  }

  lemma ReadsMagic(p: seq<byte>)
    requires |p| == 4
    ensures ReadLe(p) == TEST_MAGIC <==> p == [0x54, 0x45, 0x53, 0x54]
  {
    JoinsMagic(p[0], p[1], p[2], p[3]);
    hide Joined;
  }

  lemma JoinsMagic(a: byte, b: byte, c: byte, d: byte)
    ensures Joined(a, b, c, d) == TEST_MAGIC <==> a == 0x54 && b == 0x45 && c == 0x53 && d == 0x54
  {
  }

  // Four bytes, low byte first, are the word of their bits, low bit first.
  lemma ReadsBits(p: seq<byte>)
    requires |p| == 4
    ensures ToWord(ReadLe(p)) == AllBits(p)
  {
    hide BitsOf, AllBits, Joined, Right8, LowByteIs, ToWord;
    JoinedBytes(p[0], p[1], p[2], p[3]);
    FourSplits(Joined(p[0], p[1], p[2], p[3]), p[0], p[1], p[2], p[3]);
    FourBytes(p[0], p[1], p[2], p[3]);
    assert p == [p[0]] + ([p[1]] + ([p[2]] + ([p[3]] + [])));
  }

  predicate LowByteIs(x: bv32, b: byte) {
    x & 0xFF == b as bv32
  }

  lemma FourSplits(x: bv32, a: byte, b: byte, c: byte, d: byte)
    requires LowByteIs(x, a) && LowByteIs(Right8(x), b)
    requires LowByteIs(Right8(Right8(x)), c) && LowByteIs(Right8(Right8(Right8(x))), d)
    ensures ToWord(x) ==
      BitsOf(a as bv32, 8) + (BitsOf(b as bv32, 8) + (BitsOf(c as bv32, 8) + BitsOf(d as bv32, 8)))
  {
    hide BitsOf, LowByteIs;
    SplitWord(x);
    hide Right8, ToWord;
    LowByteBits(x, a);
    LowByteBits(Right8(x), b);
    LowByteBits(Right8(Right8(x)), c);
    LowByteBits(Right8(Right8(Right8(x))), d);
  }

  lemma SplitWord(x: bv32)
    ensures ToWord(x) == BitsOf(x, 8) + (BitsOf(Right8(x), 8)
      + (BitsOf(Right8(Right8(x)), 8) + BitsOf(Right8(Right8(Right8(x))), 8)))
  {
    SplitRight(x, 24);
    SplitRight(Right8(x), 16);
    SplitRight(Right8(Right8(x)), 8);
    hide BitsOf, Right8;
  }

  lemma SplitRight(x: bv32, n: nat)
    ensures BitsOf(x, 8 + n) == BitsOf(x, 8) + BitsOf(Right8(x), n)
  {
    hide BitsOf;
    SplitByte(x, n);
  }

  lemma FourBytes(a: byte, b: byte, c: byte, d: byte)
    ensures AllBits([a] + ([b] + ([c] + ([d] + [])))) ==
      BitsOf(a as bv32, 8) + (BitsOf(b as bv32, 8) + (BitsOf(c as bv32, 8) + BitsOf(d as bv32, 8)))
  {
    FirstByte(a, [b] + ([c] + ([d] + [])));
    FirstByte(b, [c] + ([d] + []));
    FirstByte(c, [d] + []);
    FirstByte(d, []);
    assert AllBits([]) == [];
    hide BitsOf, AllBits;
    assert BitsOf(d as bv32, 8) + [] == BitsOf(d as bv32, 8);
  }

  lemma FirstByte(b: byte, rest: seq<byte>)
    ensures AllBits([b] + rest) == BitsOf(b as bv32, 8) + AllBits(rest)
  {
    hide BitsOf;
    assert ([b] + rest)[1..] == rest;
  }

  lemma JoinedBytes(a: byte, b: byte, c: byte, d: byte)
    ensures var x := Joined(a, b, c, d);
      && LowByteIs(x, a) && LowByteIs(Right8(x), b)
      && LowByteIs(Right8(Right8(x)), c) && LowByteIs(Right8(Right8(Right8(x))), d)
  {
  }

  lemma LowByteBits(x: bv32, b: byte)
    requires LowByteIs(x, b)
    ensures BitsOf(x, 8) == BitsOf(b as bv32, 8)
  {
    hide BitsOf;
    TwoNibbles(x, x >> 4);
    TwoNibbles(b as bv32, (b as bv32) >> 4);
    SameNibbles(x, b as bv32);
    hide Low;
  }

  lemma SameNibbles(x: bv32, y: bv32)
    requires x & 0xFF == y & 0xFF
    ensures Low(x) == Low(y) && Low(x >> 1) == Low(y >> 1)
    ensures Low(x >> 2) == Low(y >> 2) && Low(x >> 3) == Low(y >> 3)
    ensures Low(x >> 4) == Low(y >> 4) && Low(x >> 4 >> 1) == Low(y >> 4 >> 1)
    ensures Low(x >> 4 >> 2) == Low(y >> 4 >> 2) && Low(x >> 4 >> 3) == Low(y >> 4 >> 3)
  {
  }

  // ---- Which packets are accepted ----

  // A packet as a sender builds it.
  function Build(id: bv32, payload: seq<byte>): (p: seq<byte>)
    requires |payload| <= RX_BUFFER_SIZE - HEADER_SIZE
    ensures |p| == HEADER_SIZE + |payload|
  {
    var head := WriteLe(TEST_MAGIC) + WriteLe(id) + LenBytes(|payload|);
    head + WriteLe(Finalise(Feed(SEED, head + payload))) + payload
  }

  lemma BuiltPacketAccepted(id: bv32, payload: seq<byte>)
    requires |payload| <= RX_BUFFER_SIZE - HEADER_SIZE
    ensures VerdictFor(Build(id, payload)) == Ok
    ensures Field(Build(id, payload), 4) == id
  {
    hide Feed, WriteLe, ReadLe, LenBytes, Value, WordNum, Finalise;
    var p := Build(id, payload);
    var head := WriteLe(TEST_MAGIC) + WriteLe(id) + LenBytes(|payload|);
    assert p[0..4] == WriteLe(TEST_MAGIC) && p[4..8] == WriteLe(id) && p[8..12] == LenBytes(|payload|);
    assert p[12..16] == WriteLe(Finalise(Feed(SEED, head + payload)));
    assert Covered(p) == head + payload;
    LeRoundTrip(TEST_MAGIC);
    LeRoundTrip(id);
    ReadsValue(LenBytes(|payload|));
    LenBytesValue(|payload|);
    LeRoundTrip(Finalise(Feed(SEED, head + payload)));
  }

  lemma AcceptedPacketIsBuilt(p: seq<byte>)
    requires |p| <= RX_BUFFER_SIZE && VerdictFor(p) == Ok
    ensures p == Build(Field(p, 4), p[HEADER_SIZE..])
  {
    hide Feed, WriteLe, ReadLe, LenBytes, Value, WordNum, Finalise;
    AcceptedLongEnough(p);
    LeSurjective(p[0..4]);
    LeSurjective(p[4..8]);
    ReadsValue(p[8..12]);
    LenBytesValue(|p| - HEADER_SIZE);
    ValueInjective(p[8..12], LenBytes(|p| - HEADER_SIZE));
    LeSurjective(p[12..16]);
    FiveFields(p);
  }

  lemma FiveFields(p: seq<byte>)
    requires |p| >= HEADER_SIZE
    ensures p[..CRC_OFFSET] == p[0..4] + p[4..8] + p[8..12]
    ensures p == p[0..4] + p[4..8] + p[8..12] + p[12..16] + p[HEADER_SIZE..]
  {
    assert p[..8] == p[0..4] + p[4..8];
    assert p[..12] == p[..8] + p[8..12];
    assert p[..16] == p[..12] + p[12..16];
    assert p == p[..16] + p[16..];
  }

  // The verdict is Ok for exactly the packets a sender can build.
  lemma OkIffBuilt(p: seq<byte>)
    requires |p| <= RX_BUFFER_SIZE
    ensures VerdictFor(p) == Ok <==>
      exists id: bv32, payload: seq<byte> ::
        |payload| <= RX_BUFFER_SIZE - HEADER_SIZE && p == Build(id, payload)
  {
    hide Build, VerdictFor, Field;
    if VerdictFor(p) == Ok {
      AcceptedLongEnough(p);
      AcceptedPacketIsBuilt(p);
    }
    if id: bv32, payload: seq<byte> :|
      |payload| <= RX_BUFFER_SIZE - HEADER_SIZE && p == Build(id, payload)
    {
      BuiltPacketAccepted(id, payload);
    }
  }

  lemma AcceptedLongEnough(p: seq<byte>)
    requires |p| <= RX_BUFFER_SIZE && VerdictFor(p) == Ok
    ensures |p| >= HEADER_SIZE
  {
  }

  // ---- The checksum is the IEEE one ----

  // The frame check sequence of clause 3.2.9 of IEEE Std 802.3, coefficient of x^31 first:
  // complement the first 32 bits, append 32 zeros, divide, complement the remainder.
  function FrameCheckSequence(message: seq<bool>): Word
    requires |message| >= 32
  {
    Not(Remainder(Not(message[..32]) + message[32..] + Zeros(32)))
  }

  lemma ComplementBits(c: bv32)
    ensures ToWord(Finalise(c)) == Not(ToWord(c))
  {
    hide BitsOf;
    AllOnes();
    FinaliseIsXor(c);
    BitsXor(c, 0xFFFF_FFFF, 32);
  }

  lemma FinaliseIsXor(c: bv32)
    ensures Finalise(c) == Xor(c, 0xFFFF_FFFF)
  {
  }

  lemma AllOnes()
    ensures ToWord(0xFFFF_FFFF) == Not(Zeros(32))
  {
    hide BitsOf;
    OnesSplit();
    OnesBytes();
    var ones := Not(Zeros(8));
    assert ToWord(0xFFFF_FFFF) == ones + (ones + (ones + ones));
  }

  lemma OnesSplit()
    ensures ToWord(0xFFFF_FFFF) ==
      BitsOf(0xFFFF_FFFF, 8) + (BitsOf(0xFF_FFFF, 8) + (BitsOf(0xFFFF, 8) + BitsOf(0xFF, 8)))
  {
    hide BitsOf;
    SplitByte(0xFFFF_FFFF, 24);
    SplitByte(0xFF_FFFF, 16);
    SplitByte(0xFFFF, 8);
    var x3: bv32, x2: bv32, x1: bv32 := 0xFFFF_FFFF, 0xFF_FFFF, 0xFFFF;
    assert x3 >> 8 == x2 && x2 >> 8 == x1 && x1 >> 8 == 0xFF;
  }

  lemma OnesBytes()
    ensures BitsOf(0xFFFF_FFFF, 8) == BitsOf(0xFF_FFFF, 8) == BitsOf(0xFFFF, 8) == BitsOf(0xFF, 8) == Not(Zeros(8))
  {
    hide BitsOf;
    OnesByte(0xFFFF_FFFF);
    OnesByte(0xFF_FFFF);
    OnesByte(0xFFFF);
    OnesByte(0xFF);
  }

  lemma OnesByte(x: bv32)
    requires x & 0xFF == 0xFF
    ensures BitsOf(x, 8) == Not(Zeros(8))
  {
    hide BitsOf;
    TwoNibbles(x, x >> 4);
    OnesNibbles(x, x >> 4);
    hide Low;
  }

  lemma OnesNibbles(x: bv32, high: bv32)
    requires x & 0xFF == 0xFF && high == x >> 4
    ensures Low(x) && Low(x >> 1) && Low(x >> 2) && Low(x >> 3)
    ensures Low(high) && Low(high >> 1) && Low(high >> 2) && Low(high >> 3)
  {
  }

  lemma CrcIsFrameCheckSequence(p: seq<byte>)
    requires |p| >= HEADER_SIZE
    ensures ToWord(PacketCrc(p)) == FrameCheckSequence(AllBits(Covered(p)))
  {
    hide Feed, FeedBits, BitsOf, ToWord, Remainder, Finalise;
    var bits := AllBits(Covered(p));
    assert |Covered(p)| >= 4;
    FeedFollows(SEED, Covered(p));
    FeedIsRemainder(ToWord(SEED), bits);
    AllOnes();
    assert Dividend(ToWord(SEED), bits) == Not(bits[..32]) + bits[32..] + Zeros(32);
    ComplementBits(Feed(SEED, Covered(p)));
  }

  // The crc32 field is accepted exactly if its bits are the frame check sequence.
  lemma FieldAcceptedIff(p: seq<byte>)
    requires |p| >= HEADER_SIZE
    ensures Field(p, 12) == PacketCrc(p) <==> ToWord(Field(p, 12)) == FrameCheckSequence(AllBits(Covered(p)))
  {
    CrcIsFrameCheckSequence(p);
    hide Feed, ReadLe, BitsOf, ToWord, Remainder, Finalise, AllBits, Covered;
    if ToWord(Field(p, 12)) == ToWord(PacketCrc(p)) {
      WordInjective(Field(p, 12), PacketCrc(p));
    }
  }

  // ---- Burst errors are caught ----

  // Two packets of equal length that carry the same crc32 field, and whose covered bits agree
  // outside one window of at most 32 consecutive bits, have different checksums unless they are
  // the same packet: no burst of up to 32 covered bits turns an accepted packet into another one.
  lemma BurstDetected(p: seq<byte>, q: seq<byte>, start: nat, end: nat)
    requires HEADER_SIZE <= |p| == |q| <= RX_BUFFER_SIZE
    requires p[CRC_OFFSET..HEADER_SIZE] == q[CRC_OFFSET..HEADER_SIZE]
    requires p != q
    requires start <= end <= 8 * |Covered(p)| && end - start <= 32
    requires AllBits(Covered(p))[..start] == AllBits(Covered(q))[..start]
    requires AllBits(Covered(p))[end..] == AllBits(Covered(q))[end..]
    ensures PacketCrc(p) != PacketCrc(q)
    ensures !(VerdictFor(p) == Ok && VerdictFor(q) == Ok)
  {
    CoveredDiffers(p, q);
    MessageBurstDetected(Covered(p), Covered(q), start, end);
    hide Feed, AllBits, Covered, Finalise;
    if PacketCrc(p) == PacketCrc(q) {
      FinaliseInjective(Feed(SEED, Covered(p)), Feed(SEED, Covered(q)));
    }
  }

  lemma CoveredDiffers(p: seq<byte>, q: seq<byte>)
    requires HEADER_SIZE <= |p| == |q| && p[CRC_OFFSET..HEADER_SIZE] == q[CRC_OFFSET..HEADER_SIZE]
    ensures Covered(p) == Covered(q) ==> p == q
  {
    var a, b := Covered(p), Covered(q);
    assert p == a[..CRC_OFFSET] + p[CRC_OFFSET..HEADER_SIZE] + a[CRC_OFFSET..];
    assert q == b[..CRC_OFFSET] + q[CRC_OFFSET..HEADER_SIZE] + b[CRC_OFFSET..];
  }

  lemma MessageBurstDetected(a: seq<byte>, b: seq<byte>, start: nat, end: nat)
    requires |a| == |b| && a != b
    requires start <= end <= 8 * |a| && end - start <= 32
    requires AllBits(a)[..start] == AllBits(b)[..start]
    requires AllBits(a)[end..] == AllBits(b)[end..]
    ensures Feed(SEED, a) != Feed(SEED, b)
  {
    hide Feed, FeedBits, AllBits, ToWord;
    if Feed(SEED, a) == Feed(SEED, b) {
      FeedFollows(SEED, a);
      FeedFollows(SEED, b);
      BurstSeparates(ToWord(SEED), AllBits(a), AllBits(b), start, end);
      AllBitsInjective(a, b);
    }
  }

  lemma FinaliseInjective(c: bv32, d: bv32)
    requires Finalise(c) == Finalise(d)
    ensures c == d
  {
  }

  // Nor does any change of the crc32 field alone.
  lemma FieldErrorDetected(p: seq<byte>, q: seq<byte>)
    requires |p| == |q| <= RX_BUFFER_SIZE && p != q
    requires VerdictFor(p) == Ok && Covered(p) == Covered(q)
    ensures VerdictFor(q) != Ok
  {
    hide Feed, ReadLe, WriteLe, LenBytes, WordNum, Finalise;
    AcceptedLongEnough(p);
    if VerdictFor(q) == Ok {
      LeSurjective(p[12..16]);
      LeSurjective(q[12..16]);
      CoveredDiffers(p, q);
    }
  }

  // Any error turns an accepted packet into another one exactly if it leaves magic and length alone
  // and changes the crc32 field by the CRC, started from zero, of what it changes in the covered
  // bytes. That depends on the error alone, not on the packet.
  lemma UndetectedIff(p: seq<byte>, q: seq<byte>)
    requires |p| == |q| <= RX_BUFFER_SIZE && VerdictFor(p) == Ok
    ensures |p| >= HEADER_SIZE
    ensures VerdictFor(q) == Ok <==>
      && Field(q, 0) == Field(p, 0) && Field(q, 8) == Field(p, 8)
      && Xor(Field(p, 12), Field(q, 12)) == Feed(0, XorBytes(Covered(p), Covered(q)))
  {
    hide Feed, ReadLe, WriteLe, LenBytes, Value, WordNum, Finalise, Xor;
    AcceptedLongEnough(p);
    FeedLinear(SEED, SEED, Covered(p), Covered(q));
    XorCancels(SEED, PacketCrc(p), Field(q, 12), PacketCrc(q));
    FinaliseXor(Feed(SEED, Covered(p)), Feed(SEED, Covered(q)));
    ReadsValue(p[8..12]);
    ReadsValue(q[8..12]);
    if Value(p[8..12]) == Value(q[8..12]) {
      ValueInjective(p[8..12], q[8..12]);
    }
  }

  lemma XorCancels(seed: bv32, x: bv32, y: bv32, z: bv32)
    ensures Xor(seed, seed) == 0
    ensures Xor(x, y) == Xor(x, z) <==> y == z
  {
    assert Xor(x, Xor(x, y)) == y && Xor(x, Xor(x, z)) == z;
  }

  lemma FinaliseXor(c: bv32, d: bv32)
    ensures Xor(Finalise(c), Finalise(d)) == Xor(c, d)
  {
  }

  // A burst across the end of the crc32 field can go unseen: for every id the packets with the
  // payloads 0 and 1 are both accepted, and differ only inside 32 consecutive bits, the last 31 of
  // the field and the first of the payload.
  lemma StraddlingBurstMissed(id: bv32)
    ensures var p, q := Build(id, [0]), Build(id, [1]);
      && p != q && VerdictFor(p) == Ok && VerdictFor(q) == Ok
      && AllBits(p)[..97] == AllBits(q)[..97] && AllBits(p)[129..] == AllBits(q)[129..]
  {
    hide Feed, FeedByte, WriteLe, ReadLe, LenBytes, WordNum, Finalise, BitsOf, AllBits, Low;
    BuiltPacketAccepted(id, [0]);
    BuiltPacketAccepted(id, [1]);
    var head := WriteLe(TEST_MAGIC) + WriteLe(id) + LenBytes(1);
    var c := Feed(SEED, head);
    var x, y := Finalise(Feed(SEED, head + [0])), Finalise(Feed(SEED, head + [1]));
    FeedAppend(SEED, head, [0]);
    FeedAppend(SEED, head, [1]);
    FeedOne(c, 0);
    FeedOne(c, 1);
    SameLowBit(c);
    var p, q := Build(id, [0]), Build(id, [1]);
    assert p == head + (WriteLe(x) + [0]) && q == head + (WriteLe(y) + [1]);
    assert p[16] == 0 && q[16] == 1;
    AllBitsAppend(head, WriteLe(x) + [0]);
    AllBitsAppend(head, WriteLe(y) + [1]);
    AllBitsAppend(WriteLe(x), [0]);
    AllBitsAppend(WriteLe(y), [1]);
    FieldFirstBit(x);
    FieldFirstBit(y);
    PayloadBits();
    var h, fx, fy := AllBits(head), AllBits(WriteLe(x)), AllBits(WriteLe(y));
    SplitAt(h, fx, AllBits([0]));
    SplitAt(h, fy, AllBits([1]));
  }

  // Where the window starts and ends.
  lemma SplitAt(h: seq<bool>, f: seq<bool>, b: seq<bool>)
    requires |h| == 96 && |f| == 32 && |b| == 8
    ensures (h + (f + b))[..97] == h + [f[0]] && (h + (f + b))[129..] == b[1..]
  {
  }

  lemma SameLowBit(c: bv32)
    ensures Low(Finalise(FeedByte(c, 0))) == Low(Finalise(FeedByte(c, 1)))
  {
    hide FeedByte;
    ByteLinear(c, 0, 0, 1);
    FeedOfOne();
    assert Xor(c, 0) == c && XorByte(0, 1) == 1;
    LowKept(FeedByte(c, 0));
  }

  lemma LowKept(x: bv32)
    ensures Low(Finalise(Xor(x, 0x7707_3096))) == Low(Finalise(x))
  {
  }

  lemma FieldFirstBit(x: bv32)
    ensures AllBits(WriteLe(x))[0] == Low(x)
  {
    hide BitsOf, AllBits;
    AllBitsFirst(WriteLe(x));
    FirstBit(WriteLe(x)[0] as bv32);
    LowByteLow(x);
    hide WriteLe, Low;
    assert AllBits(WriteLe(x))[..8][0] == AllBits(WriteLe(x))[0];
  }

  lemma FirstBit(x: bv32)
    ensures BitsOf(x, 8)[0] == Low(x)
  {
    hide Low, Half;
  }

  lemma LowByteLow(x: bv32)
    ensures Low(WriteLe(x)[0] as bv32) == Low(x)
  {
    var b := (x & 0xFF) as byte;
    assert (b as bv32) & 1 == x & 1;
  }

  lemma PayloadBits()
    ensures AllBits([0])[1..] == AllBits([1])[1..]
  {
    hide BitsOf;
    AllBitsFirst([0]);
    AllBitsFirst([1]);
    FirstThenRest(0);
    FirstThenRest(1);
    assert Half(0) == Half(1);
  }

  lemma FirstThenRest(b: byte)
    ensures AllBits([b]) == [Low(b as bv32)] + BitsOf(Half(b as bv32), 7)
  {
    hide Low, Half;
    AllBitsFirst([b]);
    assert AllBits([b][1..]) == [];
    assert AllBits([b]) == AllBits([b])[..8] + AllBits([b])[8..];
  }
}
