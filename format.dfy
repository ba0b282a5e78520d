/** The integer arithmetic and `printf` formatting the firmware applies to
    telemetry: C's truncating `/` and `%`, `%d`, `%02d`, and the remaining-time
    text `snprintf(buf, 12, "%02d:%02d", m/60, m%60)` (src/main.cpp:108-112). */
module Format {

  /** `int` on the ESP32: 32-bit two's complement. */
  type Int32 = x: int | -0x8000_0000 <= x < 0x8000_0000

  // ---------------- C division ----------------

  /** C's `a / b` for `b > 0`: the quotient rounded toward zero. */
  function TruncDiv(a: int, b: int): (q: int)
    requires b > 0
    ensures a >= 0 ==> 0 <= q && b * q <= a < b * q + b
    ensures a < 0 ==> q <= 0 && b * q - b < a <= b * q
  {
    if a >= 0 then a / b
    else
      var n := -a;
      assert b * -(n / b) == -(b * (n / b));
      -(n / b)
  }

  /** C's `a % b` for `b > 0`: what is left after the truncated quotient,
      with the sign of `a`. */
  function TruncMod(a: int, b: int): (r: int)
    requires b > 0
    ensures a == b * TruncDiv(a, b) + r
    ensures a >= 0 ==> 0 <= r < b
    ensures a < 0 ==> -b < r <= 0
  {
    a - b * TruncDiv(a, b)
  }

  // ---------------- decimal text ----------------

  function DigitChar(d: nat): (c: char)
    requires d < 10
    ensures '0' <= c <= '9'
  {
    ('0' as int + d) as char
  }

  predicate IsDigit(c: char) { '0' <= c <= '9' }

  function DigitValue(c: char): (d: nat)
    requires IsDigit(c)
    ensures d < 10 && DigitChar(d) == c
  {
    c as int - '0' as int
  }

  /** The decimal digits of `n`, without leading zeros ("0" for zero). */
  function Digits(n: nat): (r: string)
    ensures |r| >= 1
    ensures forall i :: 0 <= i < |r| ==> IsDigit(r[i])
    ensures |r| > 1 ==> r[0] != '0'
    ensures n < 10 <==> |r| == 1
    decreases n
  {
    if n < 10 then [DigitChar(n)] else Digits(n / 10) + [DigitChar(n % 10)]
  }

  /** The number a string of decimal digits denotes. */
  function Value(s: string): nat
    requires forall i :: 0 <= i < |s| ==> IsDigit(s[i])
  {
    if |s| == 0 then 0 else Value(s[..|s| - 1]) * 10 + DigitValue(s[|s| - 1])
  }

  /** Reading the digits back gives the number. */
  lemma {:induction false} DigitsValue(n: nat)
    ensures Value(Digits(n)) == n
    decreases n
  {
    if n >= 10 {
      DigitsValue(n / 10);
      var d := Digits(n);
      assert d[..|d| - 1] == Digits(n / 10);
    }
  }

  /** A two-digit number has the two digits one expects. */
  lemma TwoDigits(n: nat)
    requires 10 <= n < 100
    ensures Digits(n) == [DigitChar(n / 10), DigitChar(n % 10)]
  {
  }

  /** `%d`. */
  function DecText(x: int): (r: string)
    ensures |r| >= 1
    ensures x >= 0 ==> r == Digits(x)
    ensures x < 0 ==> r == "-" + Digits(-x)
  {
    if x < 0 then "-" + Digits(-x) else Digits(x)
  }

  /** `%02d`: at least two characters, zero-padded; a negative number is
      already two characters wide with its sign. */
  function Pad2(x: int): (r: string)
    ensures |r| >= 2
    ensures 0 <= x < 10 ==> r == ['0', DigitChar(x)]
    ensures 10 <= x < 100 ==> r == [DigitChar(x / 10), DigitChar(x % 10)]
    ensures x >= 10 ==> r == DecText(x)
    ensures x < 0 ==> r == DecText(x)
  {
    if 0 <= x < 10 then "0" + Digits(x)
    else
      assert 10 <= x < 100 ==> Digits(x) == [DigitChar(x / 10), DigitChar(x % 10)] by {
        if 10 <= x < 100 {
          TwoDigits(x);
        }
      }
      DecText(x)
  }

  /** The remaining-time text: `snprintf` into a 12-byte buffer writes at most
      11 characters of "%02d:%02d" with the truncated hours and minutes. */
  function ClockText(m: Int32): (r: string)
    ensures |r| <= 11
    ensures '\0' !in r
  {
    var full := Pad2(TruncDiv(m, 60)) + ":" + Pad2(TruncMod(m, 60));
    assert forall i :: 0 <= i < |full| ==> full[i] != '\0';
    if |full| <= 11 then full else full[..11]
  }

  /** For a remaining time of 0 to 5999 minutes the text is exactly hours and
      minutes, two digits each, around a colon. */
  lemma ClockTextHoursMinutes(m: Int32)
    requires 0 <= m < 6000
    ensures ClockText(m) == [DigitChar(m / 60 / 10), DigitChar(m / 60 % 10), ':',
                             DigitChar(m % 60 / 10), DigitChar(m % 60 % 10)]
  {
    assert TruncDiv(m, 60) == m / 60 && TruncMod(m, 60) == m % 60;
  }

  /** From 6000 minutes on the hours take three or more digits. */
  lemma ClockTextLongHours(m: Int32)
    requires 6000 <= m
    ensures ClockText(m) == Digits(m / 60) + ":" + Pad2(m % 60)
  {
    assert TruncDiv(m, 60) == m / 60 && TruncMod(m, 60) == m % 60;
    var h := m / 60;
    assert h <= 35791394;
    assert Pow10(8) == 100000000;
    DigitsBelow(h, 8);
  }

  function Pow10(k: nat): (r: nat)
    ensures r >= 1
  {
    if k == 0 then 1 else 10 * Pow10(k - 1)
  }

  /** A number below `10^k` has at most `k` digits. */
  lemma {:induction false} DigitsBelow(n: nat, k: nat)
    requires n < Pow10(k)
    ensures n >= 10 ==> |Digits(n)| <= k
    decreases k
  {
    if n >= 10 {
      assert Pow10(1) == 10;
      DigitsBelow(n / 10, k - 1);
    }
  }

  /** The most negative minute count overflows the buffer: the 12-character
      "-35791394:-8" is cut to its first 11 characters. */
  lemma ClockTextMostNegative()
    ensures ClockText(-0x8000_0000) == "-35791394:-"
  {
    var full := Pad2(TruncDiv(-0x8000_0000, 60)) + ":" + Pad2(TruncMod(-0x8000_0000, 60));
    MostNegativeParts();
    assert full == "-35791394:-8";
  }

  lemma MostNegativeParts()
    ensures Pad2(TruncDiv(-0x8000_0000, 60)) == "-35791394"
    ensures Pad2(TruncMod(-0x8000_0000, 60)) == "-8"
  {
    assert TruncDiv(-0x8000_0000, 60) == -35791394;
    assert TruncMod(-0x8000_0000, 60) == -8;
    HoursDigits();
  }

  lemma HoursDigits()
    ensures Digits(35791394) == "35791394"
  {
  }
}
