/**
 * Python's integer parsing as the manifest parser uses it: `int(s)` (base
 * ten) and Python 2's `int(s, 0)` restricted to decimal and leading-zero
 * octal. Both strip surrounding whitespace and accept one sign, which blanks may follow.
 */
module Numbers {
  import opened Wrappers
  import opened Text

  predicate IsDigit(c: char, base: nat)
    requires 2 <= base <= 10
  {
    '0' <= c && (c as int) < ('0' as int) + base
  }

  predicate AllDigits(s: string, base: nat)
    requires 2 <= base <= 10
  {
    forall k :: 0 <= k < |s| ==> IsDigit(s[k], base)
  }

  /** The value of a digit string read in `base`, most significant digit first. */
  function Value(s: string, base: nat): nat
    requires 2 <= base <= 10 && AllDigits(s, base)
  {
    if s == [] then 0
    else Value(s[..|s| - 1], base) * base + ((s[|s| - 1] as int) - ('0' as int))
  }

  /** The digits of `n` in `base`, without leading zeros ("0" for zero). */
  function Digits(n: nat, base: nat): (r: string)
    requires 2 <= base <= 10
    ensures r != [] && AllDigits(r, base)
  {
    if n < base then [(('0' as int) + n) as char]
    else Digits(n / base, base) + [(('0' as int) + n % base) as char]
  }

  /** Reading back the digits of `n` gives `n`, and only zero starts with '0'. */
  lemma DigitsRoundTrip(n: nat, base: nat)
    requires 2 <= base <= 10
    ensures Value(Digits(n, base), base) == n
    ensures Digits(n, base)[0] == '0' <==> n == 0
  {
    DigitsValue(n, base);
    DigitsLeadingZero(n, base);
  }

  lemma {:induction false} DigitsValue(n: nat, base: nat)
    requires 2 <= base <= 10
    ensures Value(Digits(n, base), base) == n
  {
    if n >= base {
      DigitsValue(n / base, base);
      DigitsValueStep(n, base);
    } else {
      DigitsValueOne(n, base);
    }
  }

  /** A number below the base is its own single digit. */
  lemma DigitsValueOne(n: nat, base: nat)
    requires 2 <= base <= 10 && n < base
    ensures Value(Digits(n, base), base) == n
  {
    var ch := (('0' as int) + n) as char;
    ValueAppend([], ch, base);
    assert Digits(n, base) == [] + [ch];
  }

  /** The last digit adds n % base to base times the value of the others. */
  lemma DigitsValueStep(n: nat, base: nat)
    requires 2 <= base <= n && base <= 10
    requires Value(Digits(n / base, base), base) == n / base
    ensures Value(Digits(n, base), base) == n
  {
    var q := Digits(n / base, base);
    var ch := (('0' as int) + n % base) as char;
    ValueAppend(q, ch, base);
    assert Digits(n, base) == q + [ch];
    DivMod(n, base);
  }

  lemma {:induction false} DigitsLeadingZero(n: nat, base: nat)
    requires 2 <= base <= 10
    ensures Digits(n, base)[0] == '0' <==> n == 0
  {
    if n >= base {
      DigitsLeadingZero(n / base, base);
      var q := Digits(n / base, base);
      assert Digits(n, base) == q + [(('0' as int) + n % base) as char];
      assert Digits(n, base)[0] == q[0];
    }
  }

  /** Appending a digit shifts the value up one place. */
  lemma ValueAppend(s: string, ch: char, base: nat)
    requires 2 <= base <= 10 && AllDigits(s, base) && IsDigit(ch, base)
    ensures AllDigits(s + [ch], base)
    ensures Value(s + [ch], base) == Value(s, base) * base + ((ch as int) - ('0' as int))
  {
    assert (s + [ch])[..|s|] == s;
  }

  lemma DivMod(n: nat, base: nat)
    requires base > 0
    ensures n == (n / base) * base + n % base
  {
  }

  /**
   * Splits an optional leading '+' or '-' off `t`: the sign factor and the
   * rest. As in Python 2's strtol, whitespace between the sign and the
   * digits is skipped, so `int("- 5")` is -5.
   */
  function Sign(t: string): (int, string) {
    if t != [] && t[0] == '-' then (-1, LStripChars(t[1..], Whitespace))
    else if t != [] && t[0] == '+' then (1, LStripChars(t[1..], Whitespace))
    else (1, t)
  }

  /** `int(s)`: whitespace-stripped, optionally signed (blanks may follow the sign), non-empty decimal digits. */
  function ParseInt(s: string): Option<int> {
    var (sign, body) := Sign(Strip(s));
    if body != [] && AllDigits(body, 10) then Some(sign * Value(body, 10)) else None
  }

  /**
   * Python 2's `int(s, 0)` for decimal and octal: after an optional sign, a
   * body starting with '0' is octal (so "0" and "00" are zero and "08" is
   * rejected), any other body is decimal.
   */
  function ParseIntAuto(s: string): Option<int> {
    var (sign, body) := Sign(Strip(s));
    if body == [] then None
    else if body[0] == '0' then
      if AllDigits(body[1..], 8) then Some(sign * Value(body[1..], 8)) else None
    else if AllDigits(body, 10) then Some(sign * Value(body, 10))
    else None
  }

  /** A rendered decimal number carries no whitespace or sign. */
  lemma DigitsClean(n: nat, base: nat)
    requires 2 <= base <= 10
    ensures Strip(Digits(n, base)) == Digits(n, base)
    ensures Sign(Digits(n, base)) == (1, Digits(n, base))
  {
    DigitStringClean(Digits(n, base), base);
  }

  lemma DigitStringClean(d: string, base: nat)
    requires 2 <= base <= 10 && d != [] && AllDigits(d, base)
    ensures Strip(d) == d && Sign(d) == (1, d)
  {
    var first, last := d[0], d[|d| - 1];
    assert IsDigit(first, base) && IsDigit(last, base);
    assert !IsSpace(first) && !IsSpace(last);
    StripUnchanged(d);
    assert first != '-' && first != '+';
  }

  /** `int` reads back every rendered natural number. */
  lemma ParseIntDigits(n: nat)
    ensures ParseInt(Digits(n, 10)) == Some(n)
  {
    DigitsClean(n, 10);
    DigitsRoundTrip(n, 10);
  }

  /** `int(s, 0)` reads "0" followed by octal digits as octal... */
  lemma ParseIntAutoOctal(n: nat)
    ensures ParseIntAuto("0" + Digits(n, 8)) == Some(n)
  {
    var d := Digits(n, 8);
    var s := "0" + d;
    assert IsDigit(s[|s| - 1], 8);
    StripUnchanged(s);
    assert Sign(s) == (1, s);
    assert s[1..] == d;
    DigitsRoundTrip(n, 8);
  }

  /** ...and a number rendered without a leading zero as decimal. */
  lemma ParseIntAutoDecimal(n: nat)
    requires n > 0
    ensures ParseIntAuto(Digits(n, 10)) == Some(n)
  {
    DigitsClean(n, 10);
    DigitsRoundTrip(n, 10);
  }

  /** A body with a non-octal digit after a leading zero is rejected, as "08" is. */
  lemma LeadingZeroNotOctal(s: string)
    requires |s| >= 2 && !IsSpace(s[|s| - 1]) && s[0] == '0' && !AllDigits(s[1..], 8)
    ensures ParseIntAuto(s) == None
  {
    StripUnchanged(s);
    assert Sign(s) == (1, s);
  }

  /** A minus sign, then blanks, then digits: `int` reads the negated number ("- 5" is -5). */
  lemma ParseIntSpacedSign(gap: string, d: string)
    requires forall k :: 0 <= k < |gap| ==> IsSpace(gap[k])
    requires d != [] && AllDigits(d, 10)
    ensures ParseInt(['-'] + gap + d) == Some(-(Value(d, 10) as int))
  {
    assert IsDigit(d[0], 10) && IsDigit(d[|d| - 1], 10);
    SpacedSign(gap, d);
    DecimalNegated(['-'] + gap + d, d);
  }

  /** With the sign split off, `int` negates the decimal body. */
  lemma DecimalNegated(s: string, d: string)
    requires Strip(s) == s && Sign(s) == (-1, d) && d != [] && AllDigits(d, 10)
    ensures ParseInt(s) == Some(-(Value(d, 10) as int))
  {
  }

  /**
   * The same for `int(s, 0)`: `-`, blanks, a zero and octal digits are read as
   * the negated octal number ("- 0755" is -493).
   */
  lemma ParseIntAutoSpacedSign(gap: string, d: string)
    requires forall k :: 0 <= k < |gap| ==> IsSpace(gap[k])
    requires AllDigits(d, 8)
    ensures ParseIntAuto(['-'] + gap + (['0'] + d)) == Some(-(Value(d, 8) as int))
  {
    var o := ['0'] + d;
    assert o[1..] == d;
    assert !IsSpace(o[|o| - 1]) by {
      if d != [] { assert o[|o| - 1] == d[|d| - 1]; }
    }
    SpacedSign(gap, o);
    OctalNegated(['-'] + gap + o, d);
  }

  /** With the sign split off, `int(s, 0)` negates the octal digits after the leading zero. */
  lemma OctalNegated(s: string, d: string)
    requires Strip(s) == s && Sign(s) == (-1, ['0'] + d) && AllDigits(d, 8)
    ensures ParseIntAuto(s) == Some(-(Value(d, 8) as int))
  {
    assert (['0'] + d)[1..] == d;
  }

  /** `-`, blanks, and a body with no outer whitespace: stripped alone, with the blanks dropped after the sign. */
  lemma SpacedSign(gap: string, body: string)
    requires forall k :: 0 <= k < |gap| ==> IsSpace(gap[k])
    requires body != [] && !IsSpace(body[0]) && !IsSpace(body[|body| - 1])
    ensures Strip(['-'] + gap + body) == ['-'] + gap + body
    ensures Sign(['-'] + gap + body) == (-1, body)
  {
    var s := ['-'] + gap + body;
    assert s[|s| - 1] == body[|body| - 1];
    StripUnchanged(s);
    assert s[1..] == gap + body;
    LStripPrefix(gap, body, Whitespace);
  }

  /** A stripped string starting with a letter is no number in any base. */
  lemma LetterNotNumber(s: string)
    requires s != [] && Strip(s) == s && 'a' <= s[0] <= 'z'
    ensures ParseIntAuto(s) == None
  {
    assert Sign(s) == (1, s);
    assert !IsDigit(s[0], 10);
  }
}
