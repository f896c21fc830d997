/**
 * The few JavaScript value rules the pages rely on: truthiness of a possibly
 * missing text field, how a template literal renders it, `Number.prototype.toString`
 * on integers and `parseInt` on the strings it produces.
 */
module Js {

  import opened Wrappers

  /** A field that may be a string, `null` (a NULL column) or `undefined` (a missing key or join). */
  datatype Text = Undefined | Null | Str(value: string)

  /** `!!t`: only a non-empty string is truthy. */
  predicate Truthy(t: Text) {
    t.Str? && t.value != ""
  }

  /** `t || fallback` for a text field whose result is used as a string. */
  function Or(t: Text, fallback: string): (r: string)
    ensures Truthy(t) ==> r == t.value
    ensures !Truthy(t) ==> r == fallback
  {
    if Truthy(t) then t.value else fallback
  }

  /** `${t}` inside a template literal. */
  function Render(t: Text): string {
    match t
    case Undefined => "undefined"
    case Null => "null"
    case Str(s) => s
  }

  predicate IsDigit(c: char) {
    '0' <= c <= '9'
  }

  function DigitChar(d: int): (c: char)
    requires 0 <= d <= 9
    ensures IsDigit(c)
  {
    ('0' as int + d) as char
  }

  function DigitValue(c: char): (d: int)
    requires IsDigit(c)
    ensures 0 <= d <= 9 && DigitChar(d) == c
  {
    c as int - '0' as int
  }

  /** Decimal digits of a natural number, most significant first, without leading zeros. */
  function Digits(n: nat): (s: string)
    ensures |s| >= 1
    ensures forall i :: 0 <= i < |s| ==> IsDigit(s[i])
    ensures n >= 10 ==> s[0] != '0'
    decreases n
  {
    if n < 10 then [DigitChar(n)] else Digits(n / 10) + [DigitChar(n % 10)]
  }

  /** `n.toString()` for an integer (the exponent form of very large numbers is not modelled). */
  function NumberToString(n: int): (s: string)
    ensures |s| >= 1
  {
    if n < 0 then "-" + Digits(-n) else Digits(n)
  }

  /** The value of a non-empty run of decimal digits, read left to right. */
  function DigitsValue(s: string): (v: nat)
    requires forall i :: 0 <= i < |s| ==> IsDigit(s[i])
    decreases |s|
  {
    if s == [] then 0 else DigitsValue(s[..|s| - 1]) * 10 + DigitValue(s[|s| - 1])
  }

  /** The longest prefix of `s` made of decimal digits. */
  function LeadingDigits(s: string): (r: string)
    ensures |r| <= |s| && r == s[..|r|]
    ensures forall i :: 0 <= i < |r| ==> IsDigit(r[i])
    ensures |r| < |s| ==> !IsDigit(s[|r|])
  {
    if s == [] || !IsDigit(s[0]) then [] else [s[0]] + LeadingDigits(s[1..])
  }

  /** White space that `parseInt` skips before the number (ECMAScript WhiteSpace and LineTerminator). */
  predicate IsSpace(c: char) {
    var n := c as int;
    n == 0x09 || n == 0x0A || n == 0x0B || n == 0x0C || n == 0x0D || n == 0x20 ||
    n == 0xA0 || n == 0x1680 || (0x2000 <= n <= 0x200A) || n == 0x2028 || n == 0x2029 ||
    n == 0x202F || n == 0x205F || n == 0x3000 || n == 0xFEFF
  }

  function SkipSpaces(s: string): (r: string)
    ensures |r| <= |s| && r == s[|s| - |r|..]
    ensures r == [] || !IsSpace(r[0])
  {
    if s != [] && IsSpace(s[0]) then SkipSpaces(s[1..]) else s
  }

  /**
   * `parseInt(s)` in base ten: skip leading white space, read an optional sign and
   * the longest run of digits; `None` stands for `NaN` (no digit at all).
   */
  function ParseInt(s: string): (r: Option<int>)
    ensures r.None? <==> LeadingDigits(Unsigned(SkipSpaces(s))) == []
  {
    var t := SkipSpaces(s);
    var ds := LeadingDigits(Unsigned(t));
    var v: int := if ds == [] then 0 else DigitsValue(ds);
    if ds == [] then None
    else if t != [] && t[0] == '-' then Some(-v)
    else Some(v)
  }

  /** What follows an optional leading sign. */
  function Unsigned(t: string): string {
    if t != [] && (t[0] == '-' || t[0] == '+') then t[1..] else t
  }

  lemma {:induction false} DigitsValueOfDigits(n: nat)
    ensures DigitsValue(Digits(n)) == n
    decreases n
  {
    if n >= 10 {
      var s := Digits(n);
      DigitsValueOfDigits(n / 10);
      assert s[..|s| - 1] == Digits(n / 10);
    }
  }

  lemma {:induction false} LeadingDigitsOfDigitRun(s: string)
    requires forall i :: 0 <= i < |s| ==> IsDigit(s[i])
    ensures LeadingDigits(s) == s
  {
    if s != [] {
      LeadingDigitsOfDigitRun(s[1..]);
    }
  }

  /** `parseInt(n.toString()) === n`: an id rendered into a form field reads back unchanged. */
  lemma ParseIntOfNumberToString(n: int)
    ensures ParseInt(NumberToString(n)) == Some(n)
  {
    var s := NumberToString(n);
    var m: nat := if n < 0 then -n else n;
    assert !IsSpace(s[0]);
    assert SkipSpaces(s) == s;
    LeadingDigitsOfDigitRun(Digits(m));
    DigitsValueOfDigits(m);
    if n < 0 {
      assert Unsigned(s) == Digits(m);
    } else {
      assert Unsigned(s) == Digits(m);
    }
  }
}
