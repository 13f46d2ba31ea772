/** Decimal integers as text: the rendering both helpers use (`to_string`,
    `str`) and the three parsers they rely on: Rust's `u16::from_str` and
    `i32::from_str`, and Python's `int()` on a string. */
module Numbers {
  import opened Common

  predicate IsDigit(c: char)
  {
    '0' <= c <= '9'
  }

  predicate AllDigits(s: string)
  {
    forall k :: 0 <= k < |s| ==> IsDigit(s[k])
  }

  function DigitChar(d: nat): char
    requires d < 10
  {
    ('0' as int + d) as char
  }

  /** The value of a run of decimal digits, most significant digit first. */
  function DigitsValue(s: string): nat
    requires AllDigits(s)
  {
    if s == [] then 0 else DigitsValue(s[..|s| - 1]) * 10 + (s[|s| - 1] as int - '0' as int)
  }

  /** Canonical decimal text of a natural number: digits only, no leading zero. */
  function Decimal(n: nat): (s: string)
    ensures s != [] && AllDigits(s)
    ensures s[0] == '0' ==> n == 0
  {
    if n < 10 then [DigitChar(n)] else Decimal(n / 10) + [DigitChar(n % 10)]
  }

  /** Reading back the canonical text of `n` gives `n`. */
  lemma {:induction false} DecimalValue(n: nat)
    ensures DigitsValue(Decimal(n)) == n
  {
    if n >= 10 {
      DecimalValue(n / 10);
      var s := Decimal(n);
      assert s[..|s| - 1] == Decimal(n / 10);
    }
  }

  /** Rust `i32::to_string` / Python `str(int)`: a minus sign, then the digits. */
  function IntText(n: int): string
  {
    if n < 0 then "-" + Decimal(-n) else Decimal(n)
  }

  /** Rust `u16::from_str`: an optional `+`, then at least one ASCII digit
      (leading zeros allowed), with a value that fits in 16 bits. */
  function ParseU16(s: string): (r: Option<int>)
    ensures r.Some? ==> 0 <= r.value < 0x1_0000
    ensures r.Some? ==> exists k :: 0 <= k < |s| && IsDigit(s[k])
  {
    var digits := if |s| > 0 && s[0] == '+' then s[1..] else s;
    if digits != [] && AllDigits(digits) && DigitsValue(digits) < 0x1_0000 then
      assert IsDigit(s[|s| - 1]);
      Some(DigitsValue(digits))
    else None
  }

  /** Rust `i32::from_str`: an optional sign, then at least one ASCII digit,
      with a value in the 32-bit two's-complement range. */
  function ParseI32(s: string): (r: Option<int>)
    ensures r.Some? ==> -0x8000_0000 <= r.value < 0x8000_0000
  {
    if |s| > 0 && s[0] == '-' then
      var digits := s[1..];
      if digits != [] && AllDigits(digits) && DigitsValue(digits) <= 0x8000_0000 then
        var v: int := DigitsValue(digits); Some(-v)
      else None
    else
      var digits := if |s| > 0 && s[0] == '+' then s[1..] else s;
      if digits != [] && AllDigits(digits) && DigitsValue(digits) < 0x8000_0000 then Some(DigitsValue(digits))
      else None
  }

  /** Python `int(text)`: surrounding whitespace ignored, an optional sign,
      then at least one ASCII digit; any other text raises ValueError (`None`). */
  function PyInt(s: string): Option<int>
  {
    SignedDigits(Trim(s, IsPyWhitespace))
  }

  /** An optional sign followed by at least one ASCII digit, and its value. */
  function SignedDigits(t: string): Option<int>
  {
    var neg := |t| > 0 && t[0] == '-';
    var digits := if |t| > 0 && (t[0] == '-' || t[0] == '+') then t[1..] else t;
    if digits != [] && AllDigits(digits) then
      var v: int := DigitsValue(digits);
      Some(if neg then -v else v)
    else None
  }

  /** Rust's `u16` parser accepts the canonical text of every 16-bit value,
      also behind a `+`, and rejects empty text. */
  lemma ParseU16Decimal(n: nat)
    requires n < 0x1_0000
    ensures ParseU16(Decimal(n)) == Some(n)
    ensures ParseU16("+" + Decimal(n)) == Some(n)
    ensures ParseU16("") == None
  {
    DecimalValue(n);
    assert ("+" + Decimal(n))[1..] == Decimal(n);
  }

  /** Rust's `u16` parser reads a run of digits, also behind a `+`, as its
      value when that fits in 16 bits and rejects it otherwise: it never
      wraps around. */
  lemma ParseU16Digits(s: string)
    requires s != [] && AllDigits(s)
    ensures ParseU16(s) == if DigitsValue(s) < 0x1_0000 then Some(DigitsValue(s)) else None
    ensures ParseU16("+" + s) == ParseU16(s)
  {
    assert s[0] != '+';
    assert ("+" + s)[1..] == s;
  }

  /** The canonical text of a number beyond 16 bits is rejected. */
  lemma ParseU16TooLarge(n: nat)
    requires n >= 0x1_0000
    ensures ParseU16(Decimal(n)) == None && ParseU16("+" + Decimal(n)) == None
  {
    DecimalValue(n);
    ParseU16Digits(Decimal(n));
  }

  /** Text with any character other than a digit, except one leading `+`,
      is rejected: a `-` sign, a trailing letter, inner spaces. */
  lemma ParseU16NonDigit(s: string, k: nat)
    requires k < |s| && !IsDigit(s[k]) && (k > 0 || s[k] != '+')
    ensures ParseU16(s) == None
  {
    if s[0] == '+' {
      assert s[1..][k - 1] == s[k];
    }
  }

  /** Rust's `i32` parser reads back the text `to_string` gives every i32. */
  lemma ParseI32IntText(n: int)
    requires -0x8000_0000 <= n < 0x8000_0000
    ensures ParseI32(IntText(n)) == Some(n)
  {
    if n < 0 {
      var d := Decimal(-n);
      DecimalValue(-n);
      assert IntText(n) == "-" + d;
      assert ("-" + d)[0] == '-' && ("-" + d)[1..] == d;
    } else {
      DecimalValue(n);
      assert Decimal(n)[0] != '-';
    }
  }

  /** Python's `int` reads back the text `str` gives every integer. */
  lemma PyIntIntText(n: int)
    ensures PyInt(IntText(n)) == Some(n)
  {
    assert Trim(IntText(n), IsPyWhitespace) == IntText(n) by {
      WhitespaceIsNotNumeric();
      IntTextUntrimmed(n, IsPyWhitespace);
    }
    SignedDigitsIntText(n);
  }

  lemma SignedDigitsIntText(n: int)
    ensures SignedDigits(IntText(n)) == Some(n)
  {
    if n < 0 {
      var d := Decimal(-n);
      DecimalValue(-n);
      assert IntText(n) == "-" + d;
      assert ("-" + d)[0] == '-' && ("-" + d)[1..] == d;
    } else {
      DecimalValue(n);
      assert IntText(n)[0] != '-' && IntText(n)[0] != '+';
    }
  }

  /** The text of an integer has no surrounding whitespace to strip, for
      any notion of whitespace that excludes digits and the minus sign. */
  lemma IntTextUntrimmed(n: int, ws: char -> bool)
    requires forall c :: ws(c) ==> !IsDigit(c) && c != '-'
    ensures Trim(IntText(n), ws) == IntText(n)
  {
    var s := IntText(n);
    var first, last := s[0], s[|s| - 1];
    assert first == '-' || IsDigit(first);
    assert IsDigit(last);
    assert !ws(first) && !ws(last);
    assert TrimStart(s, ws) == s;
  }

  /** Neither Rust's nor Python's whitespace includes a digit or a minus sign. */
  lemma WhitespaceIsNotNumeric()
    ensures forall c :: IsRustWhitespace(c) ==> !IsDigit(c) && c != '-'
    ensures forall c :: IsPyWhitespace(c) ==> !IsDigit(c) && c != '-'
  {
  }

  /** Python's `int` rejects text with no digit at all. */
  lemma PyIntNeedsDigit(s: string)
    requires forall k :: 0 <= k < |s| ==> !IsDigit(s[k])
    ensures PyInt(s).None?
  {
    var t := Trim(s, IsPyWhitespace);
    var t0 := TrimStart(s, IsPyWhitespace);
    assert t == t0[..|t|] && t0 == s[|s| - |t0|..];
    assert forall k :: 0 <= k < |t| ==> t[k] == s[|s| - |t0| + k];
    var digits := if |t| > 0 && (t[0] == '-' || t[0] == '+') then t[1..] else t;
    assert digits == [] || !IsDigit(digits[0]);
  }
}
