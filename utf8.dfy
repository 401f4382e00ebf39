/** UTF-8 validity as unicode/utf8.Valid decides it: the byte syntax of
    section 4 of RFC 3629 (no overlong forms, no surrogates, nothing above
    U+10FFFF), with a byte-by-byte validator proved against the grammar and
    the grammar proved equal to "is the encoding of some scalar values". */
module Utf8 {
  import opened GoText

  function B(c: Byte): int { c as int }

  /** UTF8-tail = %x80-BF */
  predicate Tail(c: Byte) { 0x80 <= B(c) <= 0xBF }

  /** Length of the UTF8-char that `s` starts with, or 0 when `s` does not
      start with one (section 4 of RFC 3629, one alternative per line). */
  function CharLen(s: GoString): (n: nat)
    ensures n <= 4 && n <= |s|
  {
    if |s| == 0 then 0
    else
      var b0 := B(s[0]);
      if b0 <= 0x7F then 1
      else if |s| < 2 then 0
      else if 0xC2 <= b0 <= 0xDF then (if Tail(s[1]) then 2 else 0)
      else if |s| < 3 then 0
      else if b0 == 0xE0 then (if 0xA0 <= B(s[1]) <= 0xBF && Tail(s[2]) then 3 else 0)
      else if 0xE1 <= b0 <= 0xEC || 0xEE <= b0 <= 0xEF then (if Tail(s[1]) && Tail(s[2]) then 3 else 0)
      else if b0 == 0xED then (if 0x80 <= B(s[1]) <= 0x9F && Tail(s[2]) then 3 else 0)
      else if |s| < 4 then 0
      else if b0 == 0xF0 then (if 0x90 <= B(s[1]) <= 0xBF && Tail(s[2]) && Tail(s[3]) then 4 else 0)
      else if 0xF1 <= b0 <= 0xF3 then (if Tail(s[1]) && Tail(s[2]) && Tail(s[3]) then 4 else 0)
      else if b0 == 0xF4 then (if 0x80 <= B(s[1]) <= 0x8F && Tail(s[2]) && Tail(s[3]) then 4 else 0)
      else 0
  }

  /** UTF8-octets = *( UTF8-char ) */
  predicate WellFormed(s: GoString)
    decreases |s|
  {
    s == [] || (CharLen(s) > 0 && WellFormed(s[CharLen(s)..]))
  }

  /** utf8.Valid: walks the bytes once, one character at a time. */
  method Valid(s: GoString) returns (ok: bool)
    ensures ok == WellFormed(s)
  {
    var i := 0;
    while i < |s|
      invariant 0 <= i <= |s|
      invariant WellFormed(s) == WellFormed(s[i..])
      decreases |s| - i
    {
      var n := CharLen(s[i..]);
      if n == 0 {
        return false;
      }
      assert s[i..][n..] == s[i + n..];
      i := i + n;
    }
    return true;
  }

  // ---- The reference definition: UTF-8 is what encoding scalar values gives.

  /** A Unicode scalar value: a code point that is not a surrogate. */
  predicate Scalar(c: int) { 0 <= c <= 0x10FFFF && !(0xD800 <= c <= 0xDFFF) }

  function Octet(x: int): Byte
    requires 0 <= x < 256
  {
    x as char
  }

  /** The encoding of one scalar value, as the table in section 3 of RFC 3629 gives it. */
  function EncodeChar(c: int): (r: GoString)
    requires Scalar(c)
    ensures 1 <= |r| <= 4
  {
    if c < 0x80 then [Octet(c)]
    else if c < 0x800 then [Octet(0xC0 + c / 64), Octet(0x80 + c % 64)]
    else if c < 0x10000 then
      [Octet(0xE0 + c / 4096), Octet(0x80 + (c / 64) % 64), Octet(0x80 + c % 64)]
    else
      [Octet(0xF0 + c / 262144), Octet(0x80 + (c / 4096) % 64),
       Octet(0x80 + (c / 64) % 64), Octet(0x80 + c % 64)]
  }

  predicate AllScalar(cs: seq<int>) { forall i :: 0 <= i < |cs| ==> Scalar(cs[i]) }

  function Encode(cs: seq<int>): GoString
    requires AllScalar(cs)
  {
    if cs == [] then [] else EncodeChar(cs[0]) + Encode(cs[1..])
  }

  /** The code point of the UTF8-char that `s` starts with. */
  function DecodeChar(s: GoString): int
    requires CharLen(s) > 0
  {
    var n := CharLen(s);
    if n == 1 then B(s[0])
    else if n == 2 then (B(s[0]) - 0xC0) * 64 + (B(s[1]) - 0x80)
    else if n == 3 then (B(s[0]) - 0xE0) * 4096 + (B(s[1]) - 0x80) * 64 + (B(s[2]) - 0x80)
    else (B(s[0]) - 0xF0) * 262144 + (B(s[1]) - 0x80) * 4096 + (B(s[2]) - 0x80) * 64 + (B(s[3]) - 0x80)
  }

  function Decode(s: GoString): seq<int>
    requires WellFormed(s)
    decreases |s|
  {
    if s == [] then [] else [DecodeChar(s)] + Decode(s[CharLen(s)..])
  }

  /** Every scalar value encodes to exactly one well-formed UTF8-char. */
  lemma EncodeCharIsChar(c: int, rest: GoString)
    requires Scalar(c)
    ensures CharLen(EncodeChar(c) + rest) == |EncodeChar(c)|
    ensures DecodeChar(EncodeChar(c) + rest) == c
  {
    var e := EncodeChar(c);
    var s := e + rest;
    assert s[..|e|] == e;
    if c < 0x80 {
    } else if c < 0x800 {
      Encode2(c, rest);
    } else if c < 0x10000 {
      Encode3(c, rest);
    } else {
      Encode4(c, rest);
    }
  }

  lemma Encode2(c: int, rest: GoString)
    requires 0x80 <= c < 0x800
    ensures Scalar(c)
    ensures CharLen(EncodeChar(c) + rest) == 2
    ensures DecodeChar(EncodeChar(c) + rest) == c
  {
    var s := EncodeChar(c) + rest;
    assert B(s[0]) == 0xC0 + c / 64 && B(s[1]) == 0x80 + c % 64;
    assert 2 <= c / 64 <= 31;
  }

  /** Place value: `q` followed by the lower digits `r` in base `d`. */
  lemma Place(q: int, r: int, d: int)
    requires d == 64 || d == 4096 || d == 262144
    requires 0 <= r < d
    ensures (q * d + r) / d == q && (q * d + r) % d == r
  {
    if d == 64 {
      assert q * d + r == q * 64 + r;
    } else if d == 4096 {
      assert q * d + r == q * 4096 + r;
    } else {
      assert q * d + r == q * 262144 + r;
    }
  }

  lemma Split3(c: int) returns (hi: int, mid: int, lo: int)
    requires 0x800 <= c < 0x10000 && !(0xD800 <= c <= 0xDFFF)
    ensures hi == c / 4096 && mid == (c / 64) % 64 && lo == c % 64
    ensures c == hi * 4096 + mid * 64 + lo
    ensures 0 <= hi <= 15 && 0 <= mid < 64 && 0 <= lo < 64
    ensures hi == 0 ==> 32 <= mid
    ensures hi == 13 ==> mid < 32
  {
    hi, mid, lo := c / 4096, (c / 64) % 64, c % 64;
    var x := c / 64;
    Place(x / 64, mid * 64 + lo, 4096);
  }

  lemma Encode3(c: int, rest: GoString)
    requires 0x800 <= c < 0x10000 && !(0xD800 <= c <= 0xDFFF)
    ensures Scalar(c)
    ensures CharLen(EncodeChar(c) + rest) == 3
    ensures DecodeChar(EncodeChar(c) + rest) == c
  {
    var hi, mid, lo := Split3(c);
    var s := EncodeChar(c) + rest;
    assert B(s[0]) == 0xE0 + hi && B(s[1]) == 0x80 + mid && B(s[2]) == 0x80 + lo;
  }

  lemma Split4(c: int) returns (hi: int, m1: int, m2: int, lo: int)
    requires 0x10000 <= c <= 0x10FFFF
    ensures hi == c / 262144 && m1 == (c / 4096) % 64 && m2 == (c / 64) % 64 && lo == c % 64
    ensures c == hi * 262144 + m1 * 4096 + m2 * 64 + lo
    ensures 0 <= hi <= 4 && 0 <= m1 < 64 && 0 <= m2 < 64 && 0 <= lo < 64
    ensures hi == 0 ==> 16 <= m1
    ensures hi == 4 ==> m1 < 16
  {
    hi, m1, m2, lo := c / 262144, (c / 4096) % 64, (c / 64) % 64, c % 64;
    var x := c / 64;
    var y := x / 64;
    Place(y, m2 * 64 + lo, 4096);
    Place(y / 64, (y % 64) * 4096 + m2 * 64 + lo, 262144);
  }

  lemma Encode4(c: int, rest: GoString)
    requires 0x10000 <= c <= 0x10FFFF
    ensures Scalar(c)
    ensures CharLen(EncodeChar(c) + rest) == 4
    ensures DecodeChar(EncodeChar(c) + rest) == c
  {
    var hi, m1, m2, lo := Split4(c);
    var s := EncodeChar(c) + rest;
    assert B(s[0]) == 0xF0 + hi && B(s[1]) == 0x80 + m1 && B(s[2]) == 0x80 + m2 && B(s[3]) == 0x80 + lo;
  }

  /** The UTF8-char at the head of `s` is the encoding of the scalar value it decodes to. */
  lemma DecodeCharIsScalar(s: GoString)
    requires CharLen(s) > 0
    ensures Scalar(DecodeChar(s))
    ensures EncodeChar(DecodeChar(s)) == s[..CharLen(s)]
  {
    var n := CharLen(s);
    if n == 1 {
    } else if n == 2 {
      DecodeTwo(s);
    } else if n == 3 {
      DecodeThree(s);
    } else {
      DecodeFour(s);
    }
  }

  lemma DecodeTwo(s: GoString)
    requires CharLen(s) == 2
    ensures Scalar(DecodeChar(s)) && EncodeChar(DecodeChar(s)) == s[..2]
  {
    assert 0xC2 <= B(s[0]) <= 0xDF && Tail(s[1]);
    var b0, b1 := B(s[0]) - 0xC0, B(s[1]) - 0x80;
    Decode2(b0, b1);
    var c := DecodeChar(s);
    assert c == b0 * 64 + b1;
    assert EncodeChar(c) == [s[0], s[1]];
  }

  /** The byte ranges a three-byte UTF8-char lies in. */
  lemma ThreeBytes(s: GoString)
    requires CharLen(s) == 3
    ensures 0xE0 <= B(s[0]) <= 0xEF && Tail(s[1]) && Tail(s[2])
    ensures B(s[0]) == 0xE0 ==> 0xA0 <= B(s[1])
    ensures B(s[0]) == 0xED ==> B(s[1]) <= 0x9F
  {
  }

  lemma DecodeThree(s: GoString)
    requires CharLen(s) == 3
    ensures Scalar(DecodeChar(s)) && EncodeChar(DecodeChar(s)) == s[..3]
  {
    ThreeBytes(s);
    var b0, b1, b2 := B(s[0]) - 0xE0, B(s[1]) - 0x80, B(s[2]) - 0x80;
    Decode3(b0, b1, b2);
    var c := DecodeChar(s);
    assert c == b0 * 4096 + b1 * 64 + b2;
    assert EncodeChar(c) == [s[0], s[1], s[2]];
  }

  /** The byte ranges a four-byte UTF8-char lies in. */
  lemma FourBytes(s: GoString)
    requires CharLen(s) == 4
    ensures 0xF0 <= B(s[0]) <= 0xF4 && Tail(s[1]) && Tail(s[2]) && Tail(s[3])
    ensures B(s[0]) == 0xF0 ==> 0x90 <= B(s[1])
    ensures B(s[0]) == 0xF4 ==> B(s[1]) <= 0x8F
  {
  }

  lemma DecodeFour(s: GoString)
    requires CharLen(s) == 4
    ensures Scalar(DecodeChar(s)) && EncodeChar(DecodeChar(s)) == s[..4]
  {
    FourBytes(s);
    var b0, b1, b2, b3 := B(s[0]) - 0xF0, B(s[1]) - 0x80, B(s[2]) - 0x80, B(s[3]) - 0x80;
    Decode4(b0, b1, b2, b3);
    var c := DecodeChar(s);
    assert c == b0 * 262144 + b1 * 4096 + b2 * 64 + b3;
    assert EncodeChar(c) == [s[0], s[1], s[2], s[3]];
  }

  lemma Decode2(b0: int, b1: int)
    requires 2 <= b0 <= 31 && 0 <= b1 < 64
    ensures var c := b0 * 64 + b1; 0x80 <= c < 0x800 && c / 64 == b0 && c % 64 == b1
  {
  }

  lemma Decode3(b0: int, b1: int, b2: int)
    requires 0 <= b0 <= 15 && 0 <= b1 < 64 && 0 <= b2 < 64
    requires b0 == 0 ==> 32 <= b1
    requires b0 == 13 ==> b1 < 32
    ensures var c := b0 * 4096 + b1 * 64 + b2;
      0x800 <= c < 0x10000 && !(0xD800 <= c <= 0xDFFF) &&
      c / 4096 == b0 && (c / 64) % 64 == b1 && c % 64 == b2
  {
    Place(b0 * 64 + b1, b2, 64);
    Place(b0, b1, 64);
    Place(b0, b1 * 64 + b2, 4096);
  }

  lemma Decode4(b0: int, b1: int, b2: int, b3: int)
    requires 0 <= b0 <= 4 && 0 <= b1 < 64 && 0 <= b2 < 64 && 0 <= b3 < 64
    requires b0 == 0 ==> 16 <= b1
    requires b0 == 4 ==> b1 < 16
    ensures var c := b0 * 262144 + b1 * 4096 + b2 * 64 + b3;
      0x10000 <= c <= 0x10FFFF &&
      c / 262144 == b0 && (c / 4096) % 64 == b1 && (c / 64) % 64 == b2 && c % 64 == b3
  {
    Place(b0 * 4096 + b1 * 64 + b2, b3, 64);
    Place(b0 * 64 + b1, b2, 64);
    Place(b0 * 64 + b1, b2 * 64 + b3, 4096);
    Place(b0, b1, 64);
    Place(b0, b1 * 4096 + b2 * 64 + b3, 262144);
  }

  /** Encoding scalar values always gives well-formed UTF-8, which decodes back. */
  lemma {:induction false} EncodeWellFormed(cs: seq<int>)
    requires AllScalar(cs)
    ensures WellFormed(Encode(cs))
    ensures Decode(Encode(cs)) == cs
  {
    if cs != [] {
      var e := EncodeChar(cs[0]);
      EncodeCharIsChar(cs[0], Encode(cs[1..]));
      assert (e + Encode(cs[1..]))[|e|..] == Encode(cs[1..]);
      EncodeWellFormed(cs[1..]);
    }
  }

  /** A character's encoding followed by the rest's is the whole string. */
  lemma Reassemble(s: GoString, n: nat, c: int, rest: seq<int>)
    requires 0 < n <= |s| && Scalar(c) && AllScalar(rest)
    requires EncodeChar(c) == s[..n] && Encode(rest) == s[n..]
    ensures AllScalar([c] + rest)
    ensures Encode([c] + rest) == s
  {
    assert ([c] + rest)[1..] == rest;
    assert s == s[..n] + s[n..];
  }

  /** Well-formed UTF-8 is the encoding of the scalar values it decodes to. */
  lemma {:induction false} DecodeEncodes(s: GoString)
    requires WellFormed(s)
    ensures AllScalar(Decode(s))
    ensures Encode(Decode(s)) == s
    decreases |s|
  {
    if s != [] {
      var n := CharLen(s);
      DecodeCharIsScalar(s);
      DecodeEncodes(s[n..]);
      Reassemble(s, n, DecodeChar(s), Decode(s[n..]));
    }
  }

  /** So a byte string passes utf8.Valid exactly when it encodes some scalar values. */
  lemma WellFormedIffEncoding(s: GoString)
    ensures WellFormed(s) <==> exists cs :: AllScalar(cs) && Encode(cs) == s
  {
    if WellFormed(s) {
      DecodeEncodes(s);
    }
    forall cs | AllScalar(cs) && Encode(cs) == s
      ensures WellFormed(s)
    {
      EncodeWellFormed(cs);
    }
  }

  /** Text made only of ASCII bytes (such as the "(invalid utf8)" sentinel) is valid. */
  lemma {:induction false} AsciiWellFormed(s: GoString)
    requires forall i :: 0 <= i < |s| ==> B(s[i]) < 0x80
    ensures WellFormed(s)
    decreases |s|
  {
    if s != [] {
      AsciiWellFormed(s[1..]);
    }
  }
}
