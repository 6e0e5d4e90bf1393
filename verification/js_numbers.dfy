/** The two number/string conversions the pages perform: printing an integer
    Number in a template literal (`${Date.now()}`, `/posts/${id}`), and
    `parseInt(text)` with no radix argument, as ECMA-262 defines it. Numbers are
    modelled as exact integers. */
module JsNumbers {
  import opened Wrappers
  import opened JsStrings

  /** A Number produced by `parseInt`: an integer or `NaN`. */
  datatype JsNumber = NaN | Num(value: int)

  predicate IsDecimalDigit(c: char) {
    '0' <= c <= '9'
  }

  /** The value of `c` as a digit in the given radix (letters count from 10,
      either case), if it is one. */
  function DigitValue(c: char, radix: nat): (r: Option<nat>)
    requires radix == 10 || radix == 16
    ensures r.Some? ==> r.value < radix
    ensures radix == 10 ==> (r.Some? <==> IsDecimalDigit(c))
  {
    var v: int :=
      if '0' <= c <= '9' then c as int - '0' as int
      else if 'a' <= c <= 'z' then c as int - 'a' as int + 10
      else if 'A' <= c <= 'Z' then c as int - 'A' as int + 10
      else radix;
    if 0 <= v < radix then Some(v) else None
  }

  predicate AllDigits(s: string, radix: nat)
    requires radix == 10 || radix == 16
  {
    forall i :: 0 <= i < |s| ==> DigitValue(s[i], radix).Some?
  }

  /** The value of a string of digits, most significant first. */
  function DigitsValue(s: string, radix: nat): (r: nat)
    requires radix == 10 || radix == 16
    requires AllDigits(s, radix)
  {
    if |s| == 0 then 0
    else DigitsValue(s[..|s| - 1], radix) * radix + DigitValue(s[|s| - 1], radix).value
  }

  /** The length of the longest prefix of `s` made of digits of the radix. */
  function DigitPrefixLength(s: string, radix: nat): (k: nat)
    requires radix == 10 || radix == 16
    ensures k <= |s|
    ensures AllDigits(s[..k], radix)
    ensures k < |s| ==> DigitValue(s[k], radix).None?
    decreases |s|
  {
    if |s| > 0 && DigitValue(s[0], radix).Some? then
      var k := 1 + DigitPrefixLength(s[1..], radix);
      assert forall i :: 1 <= i < k ==> s[..k][i] == s[1..][..k - 1][i - 1];
      k
    else 0
  }

  /** The unsigned part of `parseInt`: radix 16 after a `0x`/`0X` prefix,
      otherwise radix 10, then the longest run of digits; none gives `NaN`. */
  function ParseMagnitude(u: string): JsNumber {
    var hex := |u| >= 2 && u[0] == '0' && (u[1] == 'x' || u[1] == 'X');
    var radix := if hex then 16 else 10;
    var w := if hex then u[2..] else u;
    var k := DigitPrefixLength(w, radix);
    if k == 0 then NaN else Num(DigitsValue(w[..k], radix))
  }

  /** `parseInt(text)`: skip leading white space, take an optional sign, then
      read the magnitude. */
  function ParseInt(text: string): JsNumber {
    var t := TrimStart(text);
    var negative := |t| > 0 && t[0] == '-';
    var u := if |t| > 0 && (t[0] == '-' || t[0] == '+') then t[1..] else t;
    match ParseMagnitude(u)
    case NaN => NaN
    case Num(m) => Num(if negative then 0 - m else m)
  }

  function DigitChar(d: nat): (c: char)
    requires d < 10
    ensures DigitValue(c, 10) == Some(d)
  {
    "0123456789"[d]
  }

  /** `${n}` for a non-negative integer Number: its shortest decimal numeral. */
  function Decimal(n: nat): (r: string)
    ensures |r| > 0 && AllDigits(r, 10)
    ensures |r| > 1 ==> r[0] != '0'
    ensures DigitsValue(r, 10) == n
    decreases n
  {
    if n < 10 then [DigitChar(n)]
    else
      var r := Decimal(n / 10) + [DigitChar(n % 10)];
      assert r[..|r| - 1] == Decimal(n / 10);
      r
  }

  /** `${n}` for any integer Number. */
  function IntText(n: int): (r: string)
    ensures |r| > 0
  {
    if n < 0 then "-" + Decimal(-n) else Decimal(n)
  }

  /** Digits followed by a character that is not a digit: the digit run is
      exactly the digits. */
  lemma {:induction false} DigitPrefixOfDigits(digits: string, rest: string)
    requires AllDigits(digits, 10)
    requires |rest| > 0 ==> DigitValue(rest[0], 10).None?
    ensures DigitPrefixLength(digits + rest, 10) == |digits|
    decreases |digits|
  {
    var s := digits + rest;
    if |digits| > 0 {
      assert s[1..] == digits[1..] + rest;
      DigitPrefixOfDigits(digits[1..], rest);
    } else {
      assert s == rest;
    }
  }

  /** Text that does not start with white space is left alone by `trimStart`. */
  lemma TrimStartKeeps(s: string)
    requires |s| > 0 && !IsWhiteSpace(s[0])
    ensures TrimStart(s) == s
  {
  }

  /** `parseInt` reads a run of decimal digits up to the first character that
      cannot continue it (so `parseInt("12.5")` is 12), unless the digits are a
      lone `0` followed by `x`/`X`, which selects radix 16. */
  lemma ParseLeadingDigits(digits: string, rest: string)
    requires |digits| > 0 && AllDigits(digits, 10)
    requires |rest| > 0 ==> DigitValue(rest[0], 10).None?
    requires digits == "0" && |rest| > 0 ==> rest[0] != 'x' && rest[0] != 'X'
    ensures ParseInt(digits + rest) == Num(DigitsValue(digits, 10))
  {
    var s := digits + rest;
    assert s[0] == digits[0];
    assert IsDecimalDigit(s[0]);
    UnsignedText(s);
    MagnitudeOfDigits(digits, rest);
  }

  /** Text starting with a digit is parsed as a magnitude, without sign. */
  lemma UnsignedText(s: string)
    requires |s| > 0 && IsDecimalDigit(s[0])
    ensures ParseInt(s) == ParseMagnitude(s)
  {
    TrimStartKeeps(s);
  }

  lemma MagnitudeOfDigits(digits: string, rest: string)
    requires |digits| > 0 && AllDigits(digits, 10)
    requires |rest| > 0 ==> DigitValue(rest[0], 10).None?
    requires digits == "0" && |rest| > 0 ==> rest[0] != 'x' && rest[0] != 'X'
    ensures ParseMagnitude(digits + rest) == Num(DigitsValue(digits, 10))
  {
    var s := digits + rest;
    assert !(|s| >= 2 && s[0] == '0' && (s[1] == 'x' || s[1] == 'X')) by {
      if |s| >= 2 && s[0] == '0' {
        if |digits| >= 2 {
          assert s[1] == digits[1];
          assert IsDecimalDigit(digits[1]);
        } else {
          assert digits == "0" && s[1] == rest[0];
        }
      }
    }
    DigitPrefixOfDigits(digits, rest);
    assert s[..|digits|] == digits;
  }

  /** Printing an integer and parsing it back gives the same integer. */
  lemma ParseIntText(n: int)
    ensures ParseInt(IntText(n)) == Num(n)
  {
    var m: nat := if n < 0 then -n else n;
    var d := Decimal(m);
    assert d + "" == d;
    MagnitudeOfDigits(d, "");
    if n < 0 {
      var s := "-" + d;
      assert IntText(n) == s;
      TrimStartKeeps(s);
      assert s[1..] == d;
    } else {
      assert IntText(n) == d;
      ParseLeadingDigits(d, "");
    }
  }
}
