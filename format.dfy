/** Number formatting as the C library's `sprintf` does it for the
    conversions the framework uses: `%X` / `%x` with a zero-padded minimum
    width (`%04X`, `%08x`) and `%d`. */
module Format {

  /** A hexadecimal digit in the given case: `0-9`, then `A-F` or `a-f`. */
  predicate IsHexDigit(c: char, upper: bool) {
    ('0' <= c <= '9') || (if upper then 'A' <= c <= 'F' else 'a' <= c <= 'f')
  }

  predicate IsAnyHexDigit(c: char) {
    IsHexDigit(c, true) || IsHexDigit(c, false)
  }

  predicate AllHexDigits(s: string, upper: bool) {
    forall i :: 0 <= i < |s| ==> IsHexDigit(s[i], upper)
  }

  predicate AllAnyHexDigits(s: string) {
    forall i :: 0 <= i < |s| ==> IsAnyHexDigit(s[i])
  }

  function HexDigitValue(c: char): (v: nat)
    requires IsAnyHexDigit(c)
    ensures v < 16
  {
    if c <= '9' then c as int - '0' as int
    else if c <= 'F' then c as int - 'A' as int + 10
    else c as int - 'a' as int + 10
  }

  function HexChar(v: nat, upper: bool): (c: char)
    requires v < 16
    ensures IsHexDigit(c, upper) && HexDigitValue(c) == v
  {
    if v < 10 then ('0' as int + v) as char
    else if upper then ('A' as int + v - 10) as char
    else ('a' as int + v - 10) as char
  }

  /** The number a string of hexadecimal digits denotes, most significant first. */
  function HexValue(s: string): nat
    requires AllAnyHexDigits(s)
  {
    if s == [] then 0 else HexValue(s[..|s| - 1]) * 16 + HexDigitValue(s[|s| - 1])
  }

  /** The shortest hexadecimal spelling of `n` (a single `0` for zero). */
  function HexDigits(n: nat, upper: bool): (s: string)
    ensures |s| >= 1 && AllHexDigits(s, upper) && AllAnyHexDigits(s)
    ensures HexValue(s) == n
    ensures n > 0 ==> s[0] != '0'
    ensures n < 16 <==> |s| == 1
    decreases n
  {
    if n < 16 then [HexChar(n, upper)]
    else
      var s := HexDigits(n / 16, upper) + [HexChar(n % 16, upper)];
      assert s[..|s| - 1] == HexDigits(n / 16, upper);
      s
  }

  function Pow16(k: nat): (p: nat)
    ensures p >= 1
  {
    if k == 0 then 1 else 16 * Pow16(k - 1)
  }

  /** A number below 16^k needs at most k hexadecimal digits. */
  lemma {:induction false} HexDigitsLength(n: nat, k: nat, upper: bool)
    ensures k >= 1 && n < Pow16(k) ==> |HexDigits(n, upper)| <= k
  {
    if n >= 16 && k >= 1 && n < Pow16(k) {
      assert k >= 2;
      HexDigitsLength(n / 16, k - 1, upper);
    }
  }

  function Zeros(k: nat): (z: string)
    ensures |z| == k && forall i :: 0 <= i < k ==> z[i] == '0'
  {
    seq(k, _ => '0')
  }

  lemma {:induction false} HexValueOfZeros(k: nat)
    ensures AllAnyHexDigits(Zeros(k)) && HexValue(Zeros(k)) == 0
  {
    if k > 0 {
      assert Zeros(k)[..k - 1] == Zeros(k - 1);
      HexValueOfZeros(k - 1);
    }
  }

  /** Leading zeros do not change the value of a hexadecimal numeral. */
  lemma {:induction false} HexValueLeadingZeros(k: nat, s: string)
    requires AllAnyHexDigits(s)
    ensures AllAnyHexDigits(Zeros(k) + s) && HexValue(Zeros(k) + s) == HexValue(s)
  {
    HexValueOfZeros(k);
    if s != [] {
      var t := s[..|s| - 1];
      assert (Zeros(k) + s)[..|Zeros(k) + s| - 1] == Zeros(k) + t;
      HexValueLeadingZeros(k, t);
    } else {
      assert Zeros(k) + s == Zeros(k);
    }
  }

  /** `sprintf("%0<width>X", n)` (upper) or `sprintf("%0<width>x", n)`:
      the digits of `n`, zero-padded on the left to at least `width`. */
  function FormatHex(n: nat, width: nat, upper: bool): (s: string)
    ensures |s| >= width && AllHexDigits(s, upper) && AllAnyHexDigits(s)
    ensures HexValue(s) == n
    ensures n > 0 && |s| > width ==> s[0] != '0'
    ensures width >= 1 && n < Pow16(width) ==> |s| == width
  {
    var d := HexDigits(n, upper);
    HexDigitsLength(n, width, upper);
    if |d| >= width then d
    else
      HexValueLeadingZeros(width - |d|, d);
      Zeros(width - |d|) + d
  }

  predicate IsDecimalDigit(c: char) {
    '0' <= c <= '9'
  }

  predicate AllDecimalDigits(s: string) {
    forall i :: 0 <= i < |s| ==> IsDecimalDigit(s[i])
  }

  function DecimalValue(s: string): nat
    requires AllDecimalDigits(s)
  {
    if s == [] then 0 else DecimalValue(s[..|s| - 1]) * 10 + (s[|s| - 1] as int - '0' as int)
  }

  function DecimalDigits(n: nat): (s: string)
    ensures |s| >= 1 && AllDecimalDigits(s) && DecimalValue(s) == n
    ensures n > 0 ==> s[0] != '0'
    decreases n
  {
    if n < 10 then [('0' as int + n) as char]
    else
      var s := DecimalDigits(n / 10) + [('0' as int + n % 10) as char];
      assert s[..|s| - 1] == DecimalDigits(n / 10);
      s
  }

  /** `sprintf("%d", n)`: an optional minus sign, then the digits of |n|. */
  function FormatDecimal(n: int): (s: string)
    ensures n >= 0 ==> AllDecimalDigits(s) && DecimalValue(s) == n
    ensures n < 0 ==> |s| >= 2 && s[0] == '-' && AllDecimalDigits(s[1..]) && DecimalValue(s[1..]) == -n
    ensures |s| >= 1 && s[|s| - 1] != ' '
  {
    if n >= 0 then DecimalDigits(n)
    else
      var d := DecimalDigits(-n);
      assert (['-'] + d)[1..] == d;
      ['-'] + d
  }
}
