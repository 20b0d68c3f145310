/**
 * The pieces of Java's arithmetic and string library that the modelled code relies on:
 * 16- and 32-bit truncation, truncating division, String.trim, equalsIgnoreCase and
 * the decimal rendering and parsing of integers.
 */
module JavaLang {
  import opened Wrappers

  const SHORT_MIN: int := -32768
  const SHORT_MAX: int := 32767
  const INT_MIN: int := -2147483648
  const INT_MAX: int := 2147483647

  predicate IsShort(x: int) { SHORT_MIN <= x <= SHORT_MAX }
  predicate IsInt(x: int) { INT_MIN <= x <= INT_MAX }

  /** The Java cast `(short) x`: keeps the low 16 bits as a two's-complement value. */
  function ToShort(x: int): (r: int)
    ensures IsShort(r)
    ensures (r - x) % 65536 == 0
    ensures IsShort(x) ==> r == x
  {
    (x + 32768) % 65536 - 32768
  }

  /** Java `int` arithmetic: the result of an addition or multiplication wrapped to 32 bits. */
  function ToInt(x: int): (r: int)
    ensures IsInt(r)
    ensures (r - x) % 4294967296 == 0
    ensures IsInt(x) ==> r == x
  {
    (x + 2147483648) % 4294967296 - 2147483648
  }

  /** Java's `/` on ints: the quotient truncated toward zero. */
  function Quot(a: int, b: int): (q: int)
    requires b != 0
    ensures a >= 0 && b > 0 ==> q == a / b
    ensures a < 0 && b > 0 ==> q == -((-a) / b)
  {
    if (a >= 0) == (b > 0) then (if a >= 0 then a / b else (-a) / (-b))
    else -((if a >= 0 then a else -a) / (if b > 0 then b else -b))
  }

  /** Java's `%` on ints: the remainder takes the sign of the dividend. */
  function Rem(a: int, b: int): (r: int)
    requires b != 0
    ensures a == Quot(a, b) * b + r
    ensures a >= 0 ==> 0 <= r < (if b > 0 then b else -b)
    ensures a < 0 ==> -(if b > 0 then b else -b) < r <= 0
  {
    a - Quot(a, b) * b
  }

  /** On a non-negative dividend and a positive divisor, Java's quotient and remainder are Dafny's. */
  lemma QuotRemNonNegative(a: int, b: int)
    requires a >= 0 && b > 0
    ensures Quot(a, b) == a / b && Rem(a, b) == a % b
  {
  }

  lemma MulAtLeast(d: int, b: int)
    requires d >= 1 && b > 0
    ensures d * b >= b
  {
    assert d * b == (d - 1) * b + b;
  }

  /** The only multiple of b strictly between -b and b is 0. */
  lemma BoundedMultiple(d: int, b: int)
    requires b > 0 && -b < d * b < b
    ensures d == 0
  {
    if d > 0 {
      MulAtLeast(d, b);
    } else if d < 0 {
      MulAtLeast(-d, b);
    }
  }

  /** Quotient and remainder are the only pair that rebuilds the dividend with a remainder in [0, b). */
  lemma DivModUnique(a: int, b: int, q: int, r: int)
    requires b > 0 && 0 <= r < b && a == q * b + r
    ensures a / b == q && a % b == r
  {
    var q0, r0 := a / b, a % b;
    assert (q0 - q) * b == r - r0;
    BoundedMultiple(q0 - q, b);
  }

  /** A sum of two non-negative ints that passes Integer.MAX_VALUE wraps to a negative int. */
  lemma ToIntWrapsOnce(x: int)
    requires INT_MAX < x <= 2 * INT_MAX
    ensures ToInt(x) == x - 4294967296 && ToInt(x) < 0
  {
    DivModUnique(x + 2147483648, 4294967296, 1, x + 2147483648 - 4294967296);
  }

  /** The characters String.trim removes from both ends: everything up to and including ' '. */
  predicate IsTrimmable(c: char) { c <= ' ' }

  function TrimLeft(s: string): (r: string)
    ensures |r| <= |s| && r == s[|s| - |r|..]
    ensures r == [] || !IsTrimmable(r[0])
    ensures forall i :: 0 <= i < |s| - |r| ==> IsTrimmable(s[i])
  {
    if s != [] && IsTrimmable(s[0]) then TrimLeft(s[1..]) else s
  }

  function TrimRight(s: string): (r: string)
    ensures |r| <= |s| && r == s[..|r|]
    ensures r == [] || !IsTrimmable(r[|r| - 1])
    ensures forall i :: |r| <= i < |s| ==> IsTrimmable(s[i])
  {
    if s != [] && IsTrimmable(s[|s| - 1]) then TrimRight(s[..|s| - 1]) else s
  }

  /** String.trim. */
  function Trim(s: string): (r: string)
    ensures |r| <= |s|
    ensures r == [] || (!IsTrimmable(r[0]) && !IsTrimmable(r[|r| - 1]))
  {
    TrimRight(TrimLeft(s))
  }

  /** Character.toLowerCase restricted to ASCII letters. */
  function Lower(c: char): char
  {
    if 'A' <= c <= 'Z' then (c as int - 'A' as int + 'a' as int) as char else c
  }

  /** String.equalsIgnoreCase for ASCII text. */
  predicate EqualsIgnoreCase(a: string, b: string)
  {
    |a| == |b| && forall i :: 0 <= i < |a| ==> Lower(a[i]) == Lower(b[i])
  }

  predicate IsDigit(c: char) { '0' <= c <= '9' }

  predicate IsLetter(c: char) { 'a' <= c <= 'z' || 'A' <= c <= 'Z' }

  predicate AllDigits(s: string) { forall i :: 0 <= i < |s| ==> IsDigit(s[i]) }

  function DigitChar(d: nat): (c: char)
    requires d < 10
    ensures IsDigit(c)
  {
    ('0' as int + d) as char
  }

  function DigitValue(c: char): (d: nat)
    requires IsDigit(c)
    ensures d < 10 && DigitChar(d) == c
  {
    c as int - '0' as int
  }

  /** The decimal text of a natural number, without leading zeros. */
  function NatToString(n: nat): (s: string)
    ensures |s| > 0 && AllDigits(s)
    ensures n > 0 ==> s[0] != '0'
  {
    if n < 10 then [DigitChar(n)] else NatToString(n / 10) + [DigitChar(n % 10)]
  }

  /** Java's `"" + i` for an int. */
  function IntToString(i: int): (s: string)
    ensures |s| > 0
    ensures i >= 0 <==> s[0] != '-'
  {
    if i < 0 then "-" + NatToString(-i) else NatToString(i)
  }

  /** The value of a non-empty run of decimal digits. */
  function DigitsValue(s: string): nat
    requires |s| > 0 && AllDigits(s)
  {
    if |s| == 1 then DigitValue(s[0])
    else DigitsValue(s[..|s| - 1]) * 10 + DigitValue(s[|s| - 1])
  }

  /** Parsing the decimal text of a number gives the number back. */
  lemma {:induction false} DigitsValueOfNatToString(n: nat)
    ensures DigitsValue(NatToString(n)) == n
  {
    if n >= 10 {
      var s := NatToString(n);
      assert s[..|s| - 1] == NatToString(n / 10);
      DigitsValueOfNatToString(n / 10);
    }
  }

  /** The text of an int: decimal digits, after a minus sign for a negative number. */
  predicate IsIntText(s: string)
  {
    |s| > 0 && if s[0] == '-' then |s| > 1 && AllDigits(s[1..]) else AllDigits(s)
  }

  /** The int an int text denotes. */
  function IntTextValue(s: string): int
    requires IsIntText(s)
  {
    if s[0] == '-' then -(DigitsValue(s[1..]) as int) else DigitsValue(s)
  }

  /** The text of an int reads back as the int. */
  lemma IntToStringReadsBack(i: int)
    ensures IsIntText(IntToString(i)) && IntTextValue(IntToString(i)) == i
  {
    if i < 0 {
      assert IntToString(i)[1..] == NatToString(-i);
      DigitsValueOfNatToString(-i);
    } else {
      DigitsValueOfNatToString(i);
    }
  }

  /** The text of an int holds nothing but digits and a minus sign, and ends with a digit. */
  lemma IntTextChars(i: int)
    ensures forall c :: c in IntToString(i) ==> IsDigit(c) || c == '-'
    ensures IsDigit(IntToString(i)[0]) || IntToString(i)[0] == '-'
    ensures IsDigit(IntToString(i)[|IntToString(i)| - 1])
  {
    var s := IntToString(i);
    if i < 0 {
      var n := NatToString(-i);
      assert s == "-" + n;
      forall c | c in s
        ensures IsDigit(c) || c == '-'
      {
        var k :| 0 <= k < |s| && s[k] == c;
        if k > 0 {
          assert s[k] == n[k - 1];
        }
      }
    }
  }

  /** Integer.parseInt on a run of digits: NumberFormatException (None) above Integer.MAX_VALUE. */
  function ParseInt(s: string): (r: Option<int>)
    requires |s| > 0 && AllDigits(s)
    ensures r.Some? <==> DigitsValue(s) <= INT_MAX
    ensures r.Some? ==> r.value == DigitsValue(s) && IsInt(r.value)
  {
    if DigitsValue(s) <= INT_MAX then Some(DigitsValue(s)) else None
  }
}
