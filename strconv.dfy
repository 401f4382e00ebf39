/** Decimal integers as strconv.Atoi reads them (the id in a /_show/ path)
    and as %d prints them (the token counts and indexes on the detail page),
    for Go's 64-bit `int`. */
module Decimal {
  import opened GoText

  const MinInt: int := -0x8000_0000_0000_0000
  const MaxInt: int := 0x7FFF_FFFF_FFFF_FFFF

  /** Go's `int` on a 64-bit platform. */
  type Int64 = x: int | MinInt <= x <= MaxInt

  predicate IsDigit(c: Byte) { '0' <= c <= '9' }

  predicate AllDigits(s: GoString) { forall i :: 0 <= i < |s| ==> IsDigit(s[i]) }

  function DigitValue(c: Byte): nat
    requires IsDigit(c)
  {
    c as int - '0' as int
  }

  function Digit(d: nat): (c: Byte)
    requires d < 10
    ensures IsDigit(c) && DigitValue(c) == d
  {
    ('0' as int + d) as char
  }

  /** The value of a string of decimal digits, most significant first. */
  function Value(s: GoString): nat
    requires AllDigits(s)
  {
    if s == [] then 0 else Value(s[..|s| - 1]) * 10 + DigitValue(s[|s| - 1])
  }

  /** Length of the optional leading sign. */
  function SignLen(s: GoString): nat
  {
    if |s| > 0 && (s[0] == '+' || s[0] == '-') then 1 else 0
  }

  /** An optional sign followed by at least one decimal digit. */
  predicate Numeral(s: GoString)
  {
    |s| > SignLen(s) && AllDigits(s[SignLen(s)..])
  }

  /** The value a numeral denotes, with its sign applied. */
  function Signed(s: GoString): int
    requires Numeral(s)
  {
    if SignLen(s) == 1 && s[0] == '-' then -(Value(s[1..]) as int) else Value(s[SignLen(s)..])
  }

  /** strconv.Atoi: an optional + or -, then one or more decimal digits (no
      underscores, no spaces), whose value must fit in `int`; anything else
      is an error (None). */
  function Atoi(s: GoString): (r: Option<Int64>)
    ensures r.Some? <==> Numeral(s) && MinInt <= Signed(s) <= MaxInt
    ensures r.Some? ==> r.value == Signed(s)
    ensures r.Some? && s[0] == '-' ==> r.value <= 0
    ensures r.Some? && s[0] != '-' ==> r.value >= 0
  {
    var digits := s[SignLen(s)..];
    if |digits| == 0 || !AllDigits(digits) then None
    else
      var magnitude: int := Value(digits);
      var v := if SignLen(s) == 1 && s[0] == '-' then -magnitude else magnitude;
      if MinInt <= v <= MaxInt then Some(v) else None
  }

  /** The decimal digits of a natural number, without leading zeros. */
  function NatDigits(n: nat): (s: GoString)
    ensures |s| >= 1 && AllDigits(s)
  {
    if n < 10 then [Digit(n)] else NatDigits(n / 10) + [Digit(n % 10)]
  }

  /** %d (and strconv.Itoa): a minus sign for negative numbers, then the digits. */
  function Itoa(n: int): GoString
  {
    if n < 0 then "-" + NatDigits(-n) else NatDigits(n)
  }

  lemma {:induction false} ValueOfNatDigits(n: nat)
    ensures Value(NatDigits(n)) == n
  {
    var s := NatDigits(n);
    if n >= 10 {
      assert s[..|s| - 1] == NatDigits(n / 10);
      ValueOfNatDigits(n / 10);
    }
  }

  /** What %d prints, Atoi reads back: the two agree on every `int`. */
  lemma AtoiItoa(n: Int64)
    ensures Atoi(Itoa(n)) == Some(n)
  {
    var s := Itoa(n);
    var m: int := n;
    if m < 0 {
      assert s[0] == '-' && s[1..] == NatDigits(-m);
      ValueOfNatDigits(-m);
    } else {
      assert s[0] != '+' && s[0] != '-';
      ValueOfNatDigits(n);
    }
  }

  /** The text %d prints for a number outside `int` is refused. */
  lemma AtoiOutOfRange(n: int)
    requires n < MinInt || MaxInt < n
    ensures Atoi(Itoa(n)).None?
  {
    var s := Itoa(n);
    if n < 0 {
      assert s[0] == '-' && s[1..] == NatDigits(-n);
      ValueOfNatDigits(-n);
    } else {
      assert s[0] != '+' && s[0] != '-';
      ValueOfNatDigits(n);
    }
  }

  /** A leading zero does not change the value of a digit string. */
  lemma {:induction false} ValueLeadingZero(s: GoString)
    requires AllDigits(s)
    ensures AllDigits("0" + s) && Value("0" + s) == Value(s)
  {
    var t := "0" + s;
    assert forall i :: 1 <= i < |t| ==> t[i] == s[i - 1];
    if s != [] {
      assert t[..|t| - 1] == "0" + s[..|s| - 1];
      ValueLeadingZero(s[..|s| - 1]);
    }
  }

  /** Atoi also accepts numerals %d never prints: a leading '+' and leading
      zeros, read with their plain value. */
  lemma AtoiAcceptsPlusAndZeros(n: nat)
    requires n <= MaxInt
    ensures Atoi("+" + Itoa(n)) == Some(n)
    ensures Atoi("0" + Itoa(n)) == Some(n)
  {
    var d := NatDigits(n);
    ValueOfNatDigits(n);
    assert ("+" + Itoa(n))[1..] == d;
    ValueLeadingZero(d);
    var z := "0" + d;
    assert z[0] == '0' && SignLen(z) == 0 && z[0..] == z;
  }

  /** Printed numbers contain no '<', so they cannot end an HTML element early. */
  lemma ItoaLacksAngle(n: int)
    ensures Lacks(Itoa(n), '<')
  {
    var s := Itoa(n);
    if n < 0 {
      assert forall i :: 1 <= i < |s| ==> s[i] == NatDigits(-n)[i - 1];
    }
  }
}
