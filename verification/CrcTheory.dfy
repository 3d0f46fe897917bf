// The CRC register as a word of 32 coefficients, highest power first, and the two facts that
// make it a checksum: it holds the remainder of a long division by the generator polynomial of
// clause 3.2.9 of IEEE Std 802.3, and it separates messages that differ inside 32 bits.
module CrcTheory {

  type Word = w: seq<bool> | |w| == 32 witness seq(32, i => false)

  // The generator x^32 + x^26 + x^23 + x^22 + x^16 + x^12 + x^11 + x^10 + x^8 + x^7 + x^5 + x^4
  // + x^2 + x + 1 without its leading term: index i is the coefficient of x^(31 - i).
  const GENERATOR: Word :=
    [ false, false, false, false, false, true, false, false,   // x^26
      true, true, false, false, false, false, false, true,     // x^23, x^22, x^16
      false, false, false, true, true, true, false, true,      // x^12, x^11, x^10, x^8
      true, false, true, true, false, true, true, true ]       // x^7, x^5, x^4, x^2, x, 1

  function Zeros(n: nat): (z: seq<bool>)
    ensures |z| == n && forall i :: 0 <= i < n ==> !z[i]
  {
    seq(n, i => false)
  }

  function XorBits(a: seq<bool>, b: seq<bool>): (r: seq<bool>)
    requires |a| == |b|
    ensures |r| == |a| && forall i :: 0 <= i < |a| ==> r[i] == (a[i] != b[i])
  {
    seq(|a|, i requires 0 <= i < |a| => a[i] != b[i])
  }

  function Not(a: seq<bool>): (r: seq<bool>)
    ensures |r| == |a| && forall i :: 0 <= i < |a| ==> r[i] == !a[i]
  {
    seq(|a|, i requires 0 <= i < |a| => !a[i])
  }

  // One shift of the register.
  function StepWord(w: Word): (r: Word)
    ensures forall i :: 0 <= i < 31 ==> r[i] == (w[i + 1] != (w[0] && GENERATOR[i]))
    ensures r[31] == w[0]
  {
    var shifted := w[1..] + [false];
    if w[0] then XorBits(shifted, GENERATOR) else shifted
  }

  function StepsWord(w: Word, n: nat): Word
    decreases n
  {
    if n == 0 then w else StepsWord(StepWord(w), n - 1)
  }

  // The register after one message bit.
  function FeedBit(w: Word, b: bool): Word {
    StepWord(w[0 := w[0] != b])
  }

  function FeedBits(w: Word, bits: seq<bool>): Word
    decreases |bits|
  {
    if bits == [] then w else FeedBits(FeedBit(w, bits[0]), bits[1..])
  }

  lemma {:induction false} FeedBitsAppend(w: Word, a: seq<bool>, b: seq<bool>)
    ensures FeedBits(w, a + b) == FeedBits(FeedBits(w, a), b)
    decreases |a|
  {
    if a == [] {
      assert a + b == b;
    } else {
      FeedBitsAppend(FeedBit(w, a[0]), a[1..], b);
      assert (a + b)[1..] == a[1..] + b;
    }
  }

  // XORing a group of bits into the register at once and then shifting them out is feeding them
  // one after the other.
  lemma {:induction false} StepsAreBits(w: Word, bits: seq<bool>)
    requires |bits| <= 32
    ensures StepsWord(XorBits(w, bits + Zeros(32 - |bits|)), |bits|) == FeedBits(w, bits)
    decreases |bits|
  {
    var padded := bits + Zeros(32 - |bits|);
    if bits == [] {
      assert XorBits(w, padded) == w;
    } else {
      var rest := bits[1..];
      StepsAreBits(FeedBit(w, bits[0]), rest);
      var next := rest + Zeros(32 - |rest|);
      assert next == padded[1..] + [false];
      StepXor(w, padded);
      hide StepWord, XorBits;
      assert StepWord(XorBits(w, padded)) == XorBits(FeedBit(w, bits[0]), next);
    }
  }

  lemma StepXor(w: Word, bits: Word)
    ensures StepWord(XorBits(w, bits)) == XorBits(FeedBit(w, bits[0]), bits[1..] + [false])
  {
    var lhs, rhs := StepWord(XorBits(w, bits)), XorBits(FeedBit(w, bits[0]), bits[1..] + [false]);
    forall i | 0 <= i < 31 ensures lhs[i] == rhs[i] {
      assert XorBits(w, bits)[i + 1] == (w[i + 1] != bits[i + 1]);
    }
    assert lhs == rhs;
  }

  // ---- Long division ----

  // The remainder of a dividend, highest power first, by the generator: one subtraction of the
  // aligned generator for each leading one.
  function Remainder(dividend: seq<bool>): (r: Word)
    requires |dividend| >= 32
    decreases |dividend|
  {
    if |dividend| == 32 then dividend
    else if dividend[0] then Remainder(XorBits(dividend[1..33], GENERATOR) + dividend[33..])
    else Remainder(dividend[1..])
  }

  // The message followed by 32 zeros, with the register XORed into its leading coefficients.
  function Dividend(w: Word, bits: seq<bool>): (d: seq<bool>)
    ensures |d| == |bits| + 32
    ensures forall i :: 0 <= i < |d| ==> d[i] == ((i < 32 && w[i]) != (i < |bits| && bits[i]))
  {
    XorBits(w + Zeros(|bits|), bits + Zeros(32))
  }

  lemma DivisionStep(w: Word, bits: seq<bool>)
    requires bits != []
    ensures Remainder(Dividend(w, bits)) == Remainder(Dividend(FeedBit(w, bits[0]), bits[1..]))
  {
    var d, d' := Dividend(w, bits), Dividend(FeedBit(w, bits[0]), bits[1..]);
    if d[0] {
      assert d' == XorBits(d[1..33], GENERATOR) + d[33..];
    } else {
      assert d' == d[1..];
    }
  }

  // The register after a message is the remainder of message * x^32 + register * x^length.
  lemma {:induction false} FeedIsRemainder(w: Word, bits: seq<bool>)
    ensures FeedBits(w, bits) == Remainder(Dividend(w, bits))
    decreases |bits|
  {
    if bits == [] {
      assert Dividend(w, bits) == w;
    } else {
      DivisionStep(w, bits);
      FeedIsRemainder(FeedBit(w, bits[0]), bits[1..]);
    }
  }

  // ---- Burst separation ----

  lemma StepInjective(w: Word, v: Word)
    requires StepWord(w) == StepWord(v)
    ensures w == v
  {
    assert StepWord(w)[31] == w[0] && StepWord(v)[31] == v[0];
    forall i | 1 <= i < 32 ensures w[i] == v[i] {
      assert StepWord(w)[i - 1] == StepWord(v)[i - 1];
    }
  }

  lemma {:induction false} FeedInjective(w: Word, v: Word, bits: seq<bool>)
    requires FeedBits(w, bits) == FeedBits(v, bits)
    ensures w == v
    decreases |bits|
  {
    if bits != [] {
      FeedInjective(FeedBit(w, bits[0]), FeedBit(v, bits[0]), bits[1..]);
      StepInjective(w[0 := w[0] != bits[0]], v[0 := v[0] != bits[0]]);
      assert forall i :: 1 <= i < 32 ==> w[i] == w[0 := w[0] != bits[0]][i] == v[i];
    }
  }

  // Two registers that meet after k <= 32 bits differed beforehand exactly where those bits do.
  lemma {:induction false} MeetWithin32(w: Word, v: Word, a: seq<bool>, b: seq<bool>)
    requires |a| == |b| <= 32
    requires FeedBits(w, a) == FeedBits(v, b)
    ensures XorBits(w, v) == XorBits(a, b) + Zeros(32 - |a|)
    decreases |a|
  {
    if a == [] {
      assert XorBits(w, v) == Zeros(32);
    } else {
      var w', v' := FeedBit(w, a[0]), FeedBit(v, b[0]);
      MeetWithin32(w', v', a[1..], b[1..]);
      var diff := XorBits(a[1..], b[1..]) + Zeros(33 - |a|);
      assert XorBits(w', v') == diff;
      assert !diff[31];
      assert w'[31] == v'[31];
      forall i | 0 <= i < 32
        ensures XorBits(w, v)[i] == (XorBits(a, b) + Zeros(32 - |a|))[i]
      {
        if i > 0 {
          assert XorBits(w', v')[i - 1] == diff[i - 1];
        }
      }
    }
  }

  // Messages of equal length that agree outside one window of at most 32 bits, and leave the same
  // register, are equal.
  lemma BurstSeparates(w: Word, a: seq<bool>, b: seq<bool>, start: nat, end: nat)
    requires |a| == |b| && start <= end <= |a| && end - start <= 32
    requires a[..start] == b[..start] && a[end..] == b[end..]
    requires FeedBits(w, a) == FeedBits(w, b)
    ensures a == b
  {
    hide FeedBits, XorBits;
    var pre, mid, mid', post := a[..start], a[start..end], b[start..end], a[end..];
    assert a == pre + mid + post && b == pre + mid' + post;
    FeedBitsAppend(w, pre + mid, post);
    FeedBitsAppend(w, pre + mid', post);
    FeedInjective(FeedBits(w, pre + mid), FeedBits(w, pre + mid'), post);
    FeedBitsAppend(w, pre, mid);
    FeedBitsAppend(w, pre, mid');
    var v := FeedBits(w, pre);
    MeetWithin32(v, v, mid, mid');
    forall i | 0 <= i < |mid| ensures mid[i] == mid'[i] {
      assert !XorBits(v, v)[i];
      assert XorBits(mid, mid')[i] == (XorBits(mid, mid') + Zeros(32 - |mid|))[i];
    }
  }
}
