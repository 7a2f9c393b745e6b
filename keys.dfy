/** Key names of the GUI framework (Keys.cpp): a printable key is named by
    its Unicode code point, spelled `U+` followed by at least four upper-case
    hexadecimal digits; `keyToUnicode` parses such a name back and answers 0
    for anything that is not one. */
module Keys {
  import opened Format

  /** The largest Unicode code point. */
  const MaxCodePoint: int := 0x10FFFF

  type CodePoint = cp: int | 0 <= cp <= MaxCodePoint

  /** An unsigned 32-bit value (a `U32`, or the bit pattern of an `S32`). */
  type U32 = x: int | 0 <= x < 0x1_0000_0000

  predicate IsUpperHexDigit(c: char) {
    IsHexDigit(c, true)
  }

  /** `unicodeToKey(cp)`: `sprintf("U+%04X", cp)`. */
  function UnicodeToKey(cp: CodePoint): (key: string)
    ensures |key| >= 6 && key[..2] == "U+"
    ensures AllHexDigits(key[2..], true) && AllAnyHexDigits(key[2..])
    ensures HexValue(key[2..]) == cp
    ensures |key| > 6 ==> key[2] != '0'
    ensures cp <= 0xFFFF ==> |key| == 6
  {
    var digits := FormatHex(cp, 4, true);
    assert Pow16(4) == 0x10000 by {
      assert Pow16(1) == 16;
      assert Pow16(2) == 256;
      assert Pow16(3) == 4096;
    }
    assert ("U+" + digits)[2..] == digits;
    "U+" + digits
  }

  /** The position of the first NUL of `key`, or its length if it has none. */
  function NulIndex(key: string): (n: nat)
    ensures n <= |key| && forall j :: 0 <= j < n ==> key[j] != '\0'
    ensures n < |key| ==> key[n] == '\0'
  {
    if key == [] || key[0] == '\0' then 0 else 1 + NulIndex(key[1..])
  }

  /** The characters `key.getPtr()` shows to C code: everything before the
      first NUL. */
  function CString(key: string): (c: string)
    ensures '\0' !in c && |c| <= |key| && c == key[..|c|]
  {
    key[..NulIndex(key)]
  }

  /** What `keyToUnicode` answers, stated without its loop: the code point
      named by `U+` and a non-empty or empty run of upper-case hexadecimal
      digits whose value does not exceed 0x10FFFF, and 0 for every other key. */
  function KeyCode(key: string): int {
    var c := CString(key);
    if |c| < 2 || c[0] != 'U' || c[1] != '+' then 0
    else if !AllHexDigits(c[2..], true) then 0
    else if HexValue(c[2..]) > MaxCodePoint then 0
    else HexValue(c[2..])
  }

  /** A prefix of a numeral never has a larger value than the whole. */
  lemma {:induction false} HexValuePrefix(s: string, k: nat)
    requires AllAnyHexDigits(s) && k <= |s|
    ensures HexValue(s[..k]) <= HexValue(s)
  {
    if k < |s| {
      assert s[..|s| - 1][..k] == s[..k];
      HexValuePrefix(s[..|s| - 1], k);
    } else {
      assert s[..k] == s;
    }
  }

  /** `keyToUnicode`: walks the characters after `U+` and accumulates the
      code point, answering 0 on the first character that is not `0-9` or
      `A-F` and on the first digit that takes the value past 0x10FFFF. */
  method KeyToUnicode(key: string) returns (cp: int)
    ensures cp == KeyCode(key)
    ensures 0 <= cp <= MaxCodePoint
  {
    cp := 0;
    if |key| == 0 || key[0] != 'U' {
      return 0;
    }
    if |key| == 1 || key[1] != '+' {
      return 0;
    }
    var i := 2;
    while i < |key| && key[i] != '\0'
      invariant 2 <= i <= |key|
      invariant forall j :: 0 <= j < i ==> key[j] != '\0'
      invariant AllHexDigits(key[2..i], true) && AllAnyHexDigits(key[2..i])
      invariant cp == HexValue(key[2..i]) && cp <= MaxCodePoint
    {
      cp := cp * 16;
      if '0' <= key[i] <= '9' {
        cp := cp + (key[i] as int - '0' as int);
      } else if 'A' <= key[i] <= 'F' {
        cp := cp + (key[i] as int - ('A' as int - 10));
      } else {
        KeyCodeStops(key, i);
        return 0;
      }
      KeyDigitsExtend(key, i);
      if cp > MaxCodePoint {
        KeyCodeStops(key, i);
        return 0;
      }
      i := i + 1;
    }
    KeyCodeAtEnd(key, i);
  }

  /** One more upper-case digit: the value so far times 16 plus the digit. */
  lemma KeyDigitsExtend(key: string, i: nat)
    requires 2 <= i < |key| && IsHexDigit(key[i], true)
    requires AllHexDigits(key[2..i], true) && AllAnyHexDigits(key[2..i])
    ensures AllHexDigits(key[2..i + 1], true) && AllAnyHexDigits(key[2..i + 1])
    ensures HexValue(key[2..i + 1]) == HexValue(key[2..i]) * 16 + HexDigitValue(key[i])
  {
    assert key[2..i + 1] == key[2..i] + [key[i]];
    assert key[2..i + 1][..i - 2] == key[2..i];
  }

  /** The loop answers 0 at position `i`, before any NUL, when that
      character is not a digit or the digits through it exceed 0x10FFFF;
      so does `KeyCode`. */
  lemma KeyCodeStops(key: string, i: nat)
    requires 2 <= i < |key| && key[0] == 'U' && key[1] == '+'
    requires forall j :: 0 <= j <= i ==> key[j] != '\0'
    requires !IsHexDigit(key[i], true) ||
             (AllHexDigits(key[2..i + 1], true) && AllAnyHexDigits(key[2..i + 1]) &&
              HexValue(key[2..i + 1]) > MaxCodePoint)
    ensures KeyCode(key) == 0
  {
    var c := CString(key);
    assert NulIndex(key) >= i + 1;
    assert forall j :: 0 <= j < i + 1 ==> c[j] == key[j];
    var digits := c[2..];
    assert digits[..i - 1] == key[2..i + 1];
    if !IsHexDigit(key[i], true) {
      assert digits[i - 2] == key[i];
    } else if AllHexDigits(digits, true) {
      HexValuePrefix(digits, i - 1);
    }
  }

  /** The loop ends at the end of the key or at its first NUL, with every
      character before that a digit and a value within range: `KeyCode`
      is that value. */
  lemma KeyCodeAtEnd(key: string, i: nat)
    requires 2 <= i <= |key| && key[0] == 'U' && key[1] == '+'
    requires forall j :: 0 <= j < i ==> key[j] != '\0'
    requires i == |key| || key[i] == '\0'
    requires AllHexDigits(key[2..i], true) && AllAnyHexDigits(key[2..i])
    requires HexValue(key[2..i]) <= MaxCodePoint
    ensures KeyCode(key) == HexValue(key[2..i])
  {
    assert NulIndex(key) == i;
    assert CString(key)[2..] == key[2..i];
  }

  /** Formatting and then parsing gives the code point back. */
  lemma KeyRoundTrip(cp: CodePoint)
    ensures KeyCode(UnicodeToKey(cp)) == cp
  {
    var key := UnicodeToKey(cp);
    assert forall j :: 0 <= j < |key| ==> key[j] != '\0' by {
      forall j | 2 <= j < |key| ensures key[j] != '\0' {
        assert key[j] == key[2..][j - 2];
      }
    }
    assert CString(key) == key;
  }

  /** A key that does not begin with `U` and then `+` parses to 0. */
  lemma KeyCodeNeedsPrefix(key: string)
    requires |key| < 2 || key[0] != 'U' || key[1] != '+'
    ensures KeyCode(key) == 0
  {
    var c := CString(key);
    assert |c| >= 1 ==> c[0] == key[0];
    assert |c| >= 2 ==> c[1] == key[1];
  }

  /** A character other than `0-9` and `A-F` among the digits (lower-case
      `a-f` included) makes the whole key parse to 0. */
  lemma KeyCodeRejectsNonDigit(key: string, j: nat)
    requires 2 <= j < |key| && forall k :: 0 <= k <= j ==> key[k] != '\0'
    requires !IsUpperHexDigit(key[j])
    ensures KeyCode(key) == 0
  {
    var c := CString(key);
    assert |c| >= j + 1 && c[..j + 1] == key[..j + 1];
    if |c| >= 2 && c[0] == 'U' && c[1] == '+' {
      assert c[2..][j - 2] == key[j];
    }
  }

  /** Once the digits read so far exceed 0x10FFFF the key parses to 0,
      whatever follows. */
  lemma KeyCodeRejectsLargePrefix(key: string, j: nat)
    requires 2 <= j <= |key| && forall k :: 0 <= k < j ==> key[k] != '\0'
    requires AllAnyHexDigits(key[2..j]) && HexValue(key[2..j]) > MaxCodePoint
    ensures KeyCode(key) == 0
  {
    var c := CString(key);
    assert |c| >= j && c[..j] == key[..j];
    if |c| >= 2 && c[0] == 'U' && c[1] == '+' && AllHexDigits(c[2..], true) {
      assert c[2..][..j - 2] == key[2..j];
      HexValuePrefix(c[2..], j - 2);
    }
  }

  /** `U+` with no digits names code point 0. */
  lemma KeyCodeEmptyDigits()
    ensures KeyCode("U+") == 0
    ensures KeyCode("U+0041") == 0x41
  {
    assert CString("U+") == "U+";
    assert "U+"[2..] == [];
    var k := "U+0041";
    assert CString(k) == k;
    assert k[2..] == "0041";
    assert "0041"[..3] == "004";
    assert "004"[..2] == "00";
    assert "00"[..1] == "0";
    assert "0"[..0] == [];
  }

  // ---------------------------------------------------------------------
  // Dead keys (the end of vkeyToKey)

  /** The code points `MapVirtualKeyW` reports for dead keys (high bit set)
      that the framework turns into combining marks. */
  const DeadKeyCodes: set<U32> := {
    0x80000060, 0x800000B4, 0x8000005E, 0x8000007E, 0x800000AF, 0x800002D8,
    0x800002D9, 0x800000A8, 0x800002DA, 0x800002DD, 0x800002C7, 0x800000B8,
    0x800002DB, 0x8000037A, 0x8000309B, 0x8000309C }

  /** A combining diacritical mark (U+0300..U+036F) or a combining kana
      voicing mark (U+3099, U+309A). */
  predicate IsCombiningMark(cp: int) {
    (0x0300 <= cp <= 0x036F) || cp == 0x3099 || cp == 0x309A
  }

  /** The dead-key switch of `vkeyToKey`. */
  function DeadKeyToCombining(cp: U32): (r: U32)
    ensures r != cp <==> cp in DeadKeyCodes
    ensures cp in DeadKeyCodes ==> IsCombiningMark(r)
  {
    match cp
    case 0x80000060 => 0x0300  // grave
    case 0x800000B4 => 0x0301  // acute
    case 0x8000005E => 0x0302  // circumflex
    case 0x8000007E => 0x0303  // tilde
    case 0x800000AF => 0x0304  // macron
    case 0x800002D8 => 0x0306  // breve
    case 0x800002D9 => 0x0307  // dot above
    case 0x800000A8 => 0x0308  // diaeresis
    case 0x800002DA => 0x030A  // ring above
    case 0x800002DD => 0x030B  // double acute
    case 0x800002C7 => 0x030C  // caron
    case 0x800000B8 => 0x0327  // cedilla
    case 0x800002DB => 0x0328  // ogonek
    case 0x8000037A => 0x0345  // iota subscript
    case 0x8000309B => 0x3099  // voiced sound mark
    case 0x8000309C => 0x309A  // semi-voiced sound mark
    case _ => cp
  }

  /** Two different dead keys never give the same combining mark. */
  lemma DeadKeysDistinct(a: U32, b: U32)
    requires a in DeadKeyCodes && b in DeadKeyCodes && a != b
    ensures DeadKeyToCombining(a) != DeadKeyToCombining(b)
  {
  }

  datatype Option<T> = None | Some(value: T)

  /** The last line of `vkeyToKey`: `(cp) ? unicodeToKey(cp) : ""` on the
      remapped code point. `None` stands for the failed range assertion of
      `unicodeToKey` on a code point outside 0..0x10FFFF. */
  function VirtualCodeToKey(cp: U32): (key: Option<string>)
    ensures key == Some("") <==> DeadKeyToCombining(cp) == 0
    ensures key.None? <==> DeadKeyToCombining(cp) > MaxCodePoint
    ensures key.Some? && key.value != "" ==> KeyCode(key.value) == DeadKeyToCombining(cp)
  {
    var r := DeadKeyToCombining(cp);
    if r == 0 then Some("")
    else if r > MaxCodePoint then None
    else
      KeyRoundTrip(r);
      Some(UnicodeToKey(r))
  }
}
