// The JSON string escaper: the pure escape, a decoder for the strings of section 7 of RFC 8259
// that inverts it, and the bounded in-place writer.
module JsonEscape {

  type byte = b: int | 0 <= b < 256

  datatype Option<T> = None | Some(value: T)

  const QUOTE: byte := 0x22
  const BACKSLASH: byte := 0x5C
  const UNICODE: byte := 0x75 // 'u'

  // ---- The escape ----

  function HexDigit(n: nat): byte
    requires n < 16
  {
    if n < 10 then 0x30 + n else 0x41 + n - 10
  }

  function EscapeByte(c: byte): (r: seq<byte>)
    ensures 1 <= |r| <= 6
  {
    if c == QUOTE then [BACKSLASH, QUOTE]
    else if c == BACKSLASH then [BACKSLASH, BACKSLASH]
    else if c == 0x08 then [BACKSLASH, 0x62]
    else if c == 0x0C then [BACKSLASH, 0x66]
    else if c == 0x0A then [BACKSLASH, 0x6E]
    else if c == 0x0D then [BACKSLASH, 0x72]
    else if c == 0x09 then [BACKSLASH, 0x74]
    else if c < 0x20 then [BACKSLASH, UNICODE, 0x30, 0x30, HexDigit(c / 16), HexDigit(c % 16)]
    else [c]
  }

  function Escape(s: seq<byte>): seq<byte>
    decreases |s|
  {
    if s == [] then [] else EscapeByte(s[0]) + Escape(s[1..])
  }

  // ---- The decoder ----

  function HexValue(c: byte): Option<nat> {
    if 0x30 <= c <= 0x39 then Some(c - 0x30)
    else if 0x41 <= c <= 0x46 then Some(c - 0x41 + 10)
    else if 0x61 <= c <= 0x66 then Some(c - 0x61 + 10)
    else None
  }

  // The four hexadecimal digits of a \u escape.
  function Hex4(s: seq<byte>): Option<nat> {
    if |s| < 4 then None
    else
      match (HexValue(s[0]), HexValue(s[1]), HexValue(s[2]), HexValue(s[3]))
      case (Some(a), Some(b), Some(c), Some(d)) => Some(a * 4096 + b * 256 + c * 16 + d)
      case _ => None
  }

  // UTF-8 of a code point.
  function Utf8(u: nat): seq<byte>
    requires u < 0x11_0000
  {
    if u < 0x80 then [u]
    else if u < 0x800 then [0xC0 + u / 64, 0x80 + u % 64]
    else if u < 0x1_0000 then [0xE0 + u / 4096, 0x80 + u / 64 % 64, 0x80 + u % 64]
    else [0xF0 + u / 262144, 0x80 + u / 4096 % 64, 0x80 + u / 64 % 64, 0x80 + u % 64]
  }

  // One character of a JSON string, or one byte of its UTF-8 encoding, which is not checked: the
  // bytes it stands for and how many bytes it takes.
  function DecodeOne(s: seq<byte>): (r: Option<(seq<byte>, nat)>)
    ensures r.Some? ==> 0 < r.value.1 <= |s|
  {
    if s == [] || s[0] < 0x20 || s[0] == QUOTE then None
    else if s[0] != BACKSLASH then Some(([s[0]], 1))
    else if |s| < 2 then None
    else if s[1] == QUOTE || s[1] == BACKSLASH || s[1] == 0x2F then Some(([s[1]], 2))
    else if s[1] == 0x62 then Some(([0x08], 2))
    else if s[1] == 0x66 then Some(([0x0C], 2))
    else if s[1] == 0x6E then Some(([0x0A], 2))
    else if s[1] == 0x72 then Some(([0x0D], 2))
    else if s[1] == 0x74 then Some(([0x09], 2))
    else if s[1] != UNICODE then None
    else
      match Hex4(s[2..])
      case None => None
      case Some(u) =>
        if u < 0xD800 || 0xE000 <= u < 0x1_0000 then Some((Utf8(u), 6))
        else if 0xD800 <= u < 0xDC00 && |s| >= 12 && s[6] == BACKSLASH && s[7] == UNICODE then
          match Hex4(s[8..])
          case Some(v) =>
            if 0xDC00 <= v < 0xE000 then Some((Utf8(0x1_0000 + (u - 0xD800) * 1024 + (v - 0xDC00)), 12))
            else None
          case None => None
        else None
  }

  // The contents of a JSON string literal, without its quotes, or None if it is not one.
  function Decode(s: seq<byte>): Option<seq<byte>>
    decreases |s|
  {
    if s == [] then Some([])
    else
      match DecodeOne(s)
      case None => None
      case Some((bytes, n)) =>
        match Decode(s[n..])
        case None => None
        case Some(rest) => Some(bytes + rest)
  }

  lemma EscapeByteDecodes(c: byte, rest: seq<byte>)
    ensures DecodeOne(EscapeByte(c) + rest) == Some(([c], |EscapeByte(c)|))
  {
    var e := EscapeByte(c);
    var s := e + rest;
    assert forall i :: 0 <= i < |e| ==> s[i] == e[i];
    if |e| == 6 {
      assert s[2..][..4] == e[2..];
      assert Hex4(s[2..]) == Some(c / 16 * 16 + c % 16);
    }
  }

  // Decoding the escape of any byte string gives the string back.
  lemma {:induction false} RoundTrip(s: seq<byte>)
    ensures Decode(Escape(s)) == Some(s)
    decreases |s|
  {
    if s != [] {
      var rest := Escape(s[1..]);
      EscapeByteDecodes(s[0], rest);
      assert (EscapeByte(s[0]) + rest)[|EscapeByte(s[0])|..] == rest;
      RoundTrip(s[1..]);
      assert s == [s[0]] + s[1..];
    }
  }

  lemma EscapeInjective(s: seq<byte>, t: seq<byte>)
    requires Escape(s) == Escape(t)
    ensures s == t
  {
    RoundTrip(s);
    RoundTrip(t);
  }

  // The escape holds no raw control byte, and so no NUL.
  lemma {:induction false} NoControlBytes(s: seq<byte>)
    ensures forall i :: 0 <= i < |Escape(s)| ==> Escape(s)[i] >= 0x20
    decreases |s|
  {
    if s != [] {
      NoControlBytes(s[1..]);
    }
  }

  lemma {:induction false} EscapeAppend(s: seq<byte>, t: seq<byte>)
    ensures Escape(s + t) == Escape(s) + Escape(t)
    decreases |s|
  {
    hide EscapeByte;
    if s == [] {
      assert s + t == t;
    } else {
      EscapeAppend(s[1..], t);
      assert (s + t)[1..] == s[1..] + t;
    }
  }

  // ---- The escape is shortest ----

  lemma OneShortest(e: seq<byte>)
    requires DecodeOne(e).Some?
    ensures |Escape(DecodeOne(e).value.0)| <= DecodeOne(e).value.1
  {
    hide Utf8, Hex4;
    var bytes, n := DecodeOne(e).value.0, DecodeOne(e).value.1;
    if n == 6 || n == 12 {
      hide DecodeOne, EscapeByte;
      Utf8Escape(e);
    } else {
      assert |bytes| == 1;
      assert Escape(bytes) == EscapeByte(bytes[0]) + Escape(bytes[1..]) && bytes[1..] == [];
    }
  }

  // A \u escape, or a pair of them, stands for no more bytes than it takes.
  lemma Utf8Escape(e: seq<byte>)
    requires DecodeOne(e).Some? && (DecodeOne(e).value.1 == 6 || DecodeOne(e).value.1 == 12)
    ensures |Escape(DecodeOne(e).value.0)| <= DecodeOne(e).value.1
  {
    var bytes, n := DecodeOne(e).value.0, DecodeOne(e).value.1;
    assert |bytes| == 1 || (|bytes| <= 4 && forall i :: 0 <= i < |bytes| ==> bytes[i] >= 0x80);
    hide DecodeOne, Utf8, Hex4;
    if |bytes| == 1 {
      assert Escape(bytes) == EscapeByte(bytes[0]) + Escape(bytes[1..]) && bytes[1..] == [];
    } else {
      PlainUnchanged(bytes);
    }
  }

  // No shorter JSON string stands for the same bytes.
  lemma {:induction false} Shortest(e: seq<byte>)
    requires Decode(e).Some?
    ensures |Escape(Decode(e).value)| <= |e|
    decreases |e|
  {
    if e != [] {
      hide DecodeOne, EscapeByte, Escape;
      OneShortest(e);
      var n := DecodeOne(e).value.1;
      Shortest(e[n..]);
      EscapeAppend(DecodeOne(e).value.0, Decode(e[n..]).value);
    } else {
      assert Decode(e).value == [];
    }
  }

  // A text comes out as it is exactly if it has no quote, no backslash and no control byte.
  lemma {:induction false} PlainUnchanged(s: seq<byte>)
    ensures Escape(s) == s <==> forall i :: 0 <= i < |s| ==> s[i] >= 0x20 && s[i] != 0x22 && s[i] != 0x5C
    ensures |Escape(s)| >= |s| && (Escape(s) == s <==> |Escape(s)| == |s|)
    decreases |s|
  {
    if s != [] {
      PlainUnchanged(s[1..]);
      assert s == [s[0]] + s[1..];
      assert forall i :: 1 <= i < |s| ==> s[i] == s[1..][i - 1];
    }
  }

  // The escapes of the other bytes.
  lemma SpecialEscapes(c: byte)
    ensures c == 0x22 || c == 0x5C ==> Escape([c]) == [0x5C, c]
    ensures c < 0x20 ==>
      Escape([c]) ==
        match c
        case 0x08 => [0x5C, 'b' as int]
        case 0x09 => [0x5C, 't' as int]
        case 0x0A => [0x5C, 'n' as int]
        case 0x0C => [0x5C, 'f' as int]
        case 0x0D => [0x5C, 'r' as int]
        case _ => [0x5C, 'u' as int, '0' as int, '0' as int,
                   "0123456789ABCDEF"[c / 16] as int, "0123456789ABCDEF"[c % 16] as int]
  {
    HexDigitIs(c / 16);
    HexDigitIs(c % 16);
    hide HexDigit;
    assert [c][1..] == [];
    assert Escape([c]) == EscapeByte(c) + [];
  }

  lemma HexDigitIs(n: nat)
    requires n < 16
    ensures HexDigit(n) == "0123456789ABCDEF"[n] as int
  {
  }

  // ---- Cut escapes ----

  function Min(a: nat, b: nat): nat { if a < b then a else b }

  // A cut escape is a JSON string exactly if the cut does not fall inside an escape sequence, and
  // it then stands for the characters before the cut.
  lemma {:induction false} CutDecodes(s: seq<byte>, w: nat)
    requires w <= |Escape(s)|
    ensures Decode(Escape(s)[..w]).Some? <==> exists k :: 0 <= k <= |s| && w == |Escape(s[..k])|
    ensures forall k :: 0 <= k <= |s| && w == |Escape(s[..k])| ==> Decode(Escape(s)[..w]) == Some(s[..k])
    decreases |s|
  {
    forall k | 0 <= k <= |s| && w == |Escape(s[..k])| ensures Decode(Escape(s)[..w]) == Some(s[..k]) {
      EscapeAppend(s[..k], s[k..]);
      assert s == s[..k] + s[k..];
      assert Escape(s)[..w] == Escape(s[..k]);
      RoundTrip(s[..k]);
    }
    if Decode(Escape(s)[..w]).Some? {
      BoundaryFound(s, w);
    }
  }

  lemma {:induction false} BoundaryFound(s: seq<byte>, w: nat)
    requires w <= |Escape(s)| && Decode(Escape(s)[..w]).Some?
    ensures exists k :: 0 <= k <= |s| && w == |Escape(s[..k])|
    decreases |s|
  {
    if w == 0 {
      assert |Escape(s[..0])| == 0;
    } else {
      var e, rest := EscapeByte(s[0]), Escape(s[1..]);
      var cut := Escape(s)[..w];
      if w < |e| {
        assert cut == e[..w];
        PartialFails(s[0], w);
        assert false;
      } else {
        assert cut == e + rest[..w - |e|];
        EscapeByteDecodes(s[0], rest[..w - |e|]);
        assert cut[|e|..] == rest[..w - |e|];
        BoundaryFound(s[1..], w - |e|);
        var k :| 0 <= k <= |s| - 1 && w - |e| == |Escape(s[1..][..k])|;
        assert s[..k + 1][1..] == s[1..][..k];
        assert w == |Escape(s[..k + 1])|;
      }
    }
  }

  // A proper prefix of an escape sequence is not a JSON string.
  lemma PartialFails(c: byte, w: nat)
    requires 0 < w < |EscapeByte(c)|
    ensures Decode(EscapeByte(c)[..w]).None?
  {
  }

  // ---- The bounded writer ----

  // The bytes of a C string: up to its first NUL.
  function CString(memory: seq<byte>): seq<byte>
    decreases |memory|
  {
    if memory == [] || memory[0] == 0 then [] else [memory[0]] + CString(memory[1..])
  }

  lemma {:induction false} CStringIs(memory: seq<byte>, n: nat)
    requires n < |memory| && memory[n] == 0 && forall i :: 0 <= i < n ==> memory[i] != 0
    ensures CString(memory) == memory[..n]
    decreases n
  {
    if n > 0 {
      CStringIs(memory[1..], n - 1);
      assert memory[..n] == [memory[0]] + memory[1..][..n - 1];
    }
  }

  // The replacement for one byte as the switch builds it, terminated by a NUL.
  function Replacement(c: byte): (r: seq<byte>)
    requires c != 0
    ensures |r| == |EscapeByte(c)| + 1 && r[|EscapeByte(c)|] == 0
    ensures forall i :: 0 <= i < |EscapeByte(c)| ==> r[i] == EscapeByte(c)[i] != 0
  {
    EscapeByte(c) + [0]
  }

  lemma EscapeNext(memory: seq<byte>, r: nat)
    requires r < |memory|
    ensures Escape(memory[..r + 1]) == Escape(memory[..r]) + EscapeByte(memory[r])
  {
    EscapeAppend(memory[..r], [memory[r]]);
    assert memory[..r + 1] == memory[..r] + [memory[r]];
    assert [memory[r]][1..] == [];
    assert Escape([memory[r]]) == EscapeByte(memory[r]);
  }

  // The inner loop: copies the replacement of one byte, or stops where only the NUL still fits.
  method CopyReplacement(out: array<byte>, cap: nat, start: nat, c: byte) returns (w: nat, full: bool)
    requires c != 0 && start < cap <= out.Length
    modifies out
    ensures start <= w < cap
    ensures w - start <= |EscapeByte(c)| && out[..w] == old(out[..start]) + EscapeByte(c)[..w - start]
    ensures if full then w + 1 == cap && w - start < |EscapeByte(c)| && out[w] == 0 else w - start == |EscapeByte(c)|
    ensures forall j :: w < j < out.Length ==> out[j] == old(out[j])
  {
    var repl := Replacement(c);
    ghost var e := EscapeByte(c);
    hide EscapeByte;
    w, full := start, false;
    var i := 0;
    while repl[i] != 0
      invariant 0 <= i <= |e| && w == start + i < cap
      invariant out[..w] == old(out[..start]) + e[..i]
      invariant forall j :: w < j < out.Length ==> out[j] == old(out[j])
      decreases |e| - i
    {
      if w + 1 >= cap {
        out[w] := 0;
        return w, true;
      }
      assert e[..i + 1] == e[..i] + [repl[i]];
      out[w] := repl[i];
      w := w + 1;
      i := i + 1;
    }
  }

  // Writes as much of the escape of `input` as fits in cap - 1 bytes, then a NUL.
  method EscapeStringInto(input: array?<byte>, out: array?<byte>, cap: nat) returns (w: nat)
    requires out != null ==> cap <= out.Length
    requires input != null ==> 0 in input[..] && input != out
    modifies out
    ensures out == null || cap == 0 ==> w == 0
    ensures out != null && cap > 0 ==>
      var escaped := if input == null then [] else Escape(CString(old(input[..])));
      && w == Min(|escaped|, cap - 1)
      && out[..w] == escaped[..w] && out[w] == 0
    ensures out != null ==> forall i :: (cap == 0 || w < i) && 0 <= i < out.Length ==> out[i] == old(out[i])
  {
    if out == null || cap == 0 { return 0; }
    assert Escape([]) == [];
    hide Escape, CString;
    out[0] := 0;
    if input == null { return 0; }
    w := WriteEscaped(input, out, cap);
  }

  // The outer loop, over the characters of the input.
  method WriteEscaped(input: array<byte>, out: array<byte>, cap: nat) returns (w: nat)
    requires 0 < cap <= out.Length && 0 in input[..] && input != out
    modifies out
    ensures var escaped := Escape(CString(input[..]));
      w == Min(|escaped|, cap - 1) && out[..w] == escaped[..w] && out[w] == 0
    ensures forall i :: w < i < out.Length ==> out[i] == old(out[i])
  {
    ghost var memory := input[..];
    assert Escape(memory[..0]) == [];
    hide Escape, EscapeByte, CString;
    w := 0;
    var r := 0;
    while input[r] != 0
      invariant 0 <= r < input.Length && memory == input[..]
      invariant forall i :: 0 <= i < r ==> memory[i] != 0
      invariant w < cap && out[..w] == Escape(memory[..r])
      invariant forall i :: w < i < out.Length ==> out[i] == old(out[i])
      decreases input.Length - r
    {
      EscapeNext(memory, r);
      ghost var start, e := w, EscapeByte(memory[r]);
      var full;
      w, full := CopyReplacement(out, cap, w, input[r]);
      if full {
        CutShort(memory, r, w, out[..w]);
        return w;
      }
      assert e[..w - start] == e;
      NulFollows(memory, r);
      r := r + 1;
    }
    CStringIs(memory, r);
    out[w] := 0;
  }

  lemma NulFollows(memory: seq<byte>, r: nat)
    requires 0 in memory && r < |memory| && forall i :: 0 <= i <= r ==> memory[i] != 0
    ensures r + 1 < |memory|
  {
  }

  // Where the writer stops early it has written the escape's first bytes.
  lemma CutShort(memory: seq<byte>, r: nat, w: nat, written: seq<byte>)
    requires r < |memory| && 0 in memory && forall i :: 0 <= i <= r ==> memory[i] != 0
    requires |written| == w < |Escape(memory[..r + 1])| && written == Escape(memory[..r + 1])[..w]
    ensures w < |Escape(CString(memory))| && written == Escape(CString(memory))[..w]
  {
    var n := FirstNul(memory);
    CStringIs(memory, n);
    assert memory[..n] == memory[..r + 1] + memory[r + 1..n];
    EscapeAppend(memory[..r + 1], memory[r + 1..n]);
  }

  lemma {:induction false} FirstNul(memory: seq<byte>) returns (n: nat)
    requires 0 in memory
    ensures n < |memory| && memory[n] == 0 && forall i :: 0 <= i < n ==> memory[i] != 0
    decreases |memory|
  {
    if memory[0] == 0 {
      n := 0;
    } else {
      assert memory == [memory[0]] + memory[1..];
      n := FirstNul(memory[1..]);
      n := n + 1;
      forall i | 0 <= i < n ensures memory[i] != 0 {
        if i > 0 { assert memory[1..][i - 1] != 0; }
      }
    }
  }
}
