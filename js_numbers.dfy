/** JavaScript's global `parseInt(string)` with no radix argument, on integers,
    and the decimal rendering of an integer it undoes. */
module JsNumbers {
  import opened Basics

  /** The characters `parseInt` skips at the start: ECMAScript's WhiteSpace
      (tab, vertical tab, form feed, space, no-break space, the byte order mark
      and the space separators) and LineTerminator characters. */
  predicate IsWhiteSpace(c: char)
  {
    || c == '\t' || c == '\n' || c == '\U{B}' || c == '\U{C}' || c == '\r' || c == ' '
    || c == '\U{A0}' || c == '\U{1680}' || ('\U{2000}' <= c <= '\U{200A}')
    || c == '\U{2028}' || c == '\U{2029}' || c == '\U{202F}' || c == '\U{205F}'
    || c == '\U{3000}' || c == '\U{FEFF}'
  }

  function TrimStart(s: string): (r: string)
    ensures r == [] || !IsWhiteSpace(r[0])
  {
    if s != [] && IsWhiteSpace(s[0]) then TrimStart(s[1..]) else s
  }

  /** The value of `c` as a digit of base 36 (0-9, then a-z or A-Z), if it is one. */
  function DigitValue(c: char): (d: Option<nat>)
    ensures d.Some? ==> d.value < 36
  {
    if '0' <= c <= '9' then Some(c as int - '0' as int)
    else if 'a' <= c <= 'z' then Some(c as int - 'a' as int + 10)
    else if 'A' <= c <= 'Z' then Some(c as int - 'A' as int + 10)
    else None
  }

  predicate IsDigit(c: char, radix: nat)
  {
    DigitValue(c).Some? && DigitValue(c).value < radix
  }

  ghost predicate AllDigits(s: string, radix: nat)
  {
    forall i :: 0 <= i < |s| ==> IsDigit(s[i], radix)
  }

  /** The longest prefix of `s` made of digits of `radix`. */
  function DigitPrefix(s: string, radix: nat): (d: string)
    ensures |d| <= |s| && d == s[..|d|] && AllDigits(d, radix)
    ensures |d| == |s| || !IsDigit(s[|d|], radix)
  {
    if s != [] && IsDigit(s[0], radix) then
      var d := [s[0]] + DigitPrefix(s[1..], radix);
      assert s == [s[0]] + s[1..];
      d
    else []
  }

  /** The number a digit string denotes in `radix`. */
  function Value(ds: string, radix: nat): nat
    requires AllDigits(ds, radix)
  {
    if ds == [] then 0
    else Value(ds[..|ds| - 1], radix) * radix + DigitValue(ds[|ds| - 1]).value
  }

  /** The text after an optional leading `-` or `+`. */
  function StripSign(t: string): string
  {
    if t != [] && (t[0] == '-' || t[0] == '+') then t[1..] else t
  }

  /** The digits after the sign: base 16 after `0x` or `0X`, base 10 otherwise;
      the longest digit prefix, `None` (`NaN`) when there is none. */
  function ParseUnsigned(u: string): (n: Option<nat>)
  {
    if |u| >= 2 && u[0] == '0' && (u[1] == 'x' || u[1] == 'X') then
      var digits := DigitPrefix(u[2..], 16);
      if digits == [] then None else Some(Value(digits, 16))
    else
      var digits := DigitPrefix(u, 10);
      if digits == [] then None else Some(Value(digits, 10))
  }

  /** An optional sign, then the unsigned number. A negative zero is `0` here. */
  function ParseSigned(t: string): (n: Option<int>)
  {
    match ParseUnsigned(StripSign(t))
    case None => None
    case Some(v) => Some(if t != [] && t[0] == '-' then -(v as int) else v as int)
  }

  /** `parseInt(s)`, with `None` for `NaN`: skip leading white space, read an
      optional sign, then the digits. */
  function ParseInt(s: string): (n: Option<int>)
    // a number needs a decimal digit right after the white space and the sign
    ensures var u := StripSign(TrimStart(s)); n.Some? ==> u != [] && IsDigit(u[0], 10)
    // and has one whenever such a digit does not begin a bare `0x`
    ensures var u := StripSign(TrimStart(s));
            u != [] && IsDigit(u[0], 10) && !(|u| >= 2 && u[0] == '0' && (u[1] == 'x' || u[1] == 'X')) ==> n.Some?
    // only a leading `-` makes it negative
    ensures n.Some? && n.value < 0 ==> TrimStart(s)[0] == '-'
  {
    ParseSigned(TrimStart(s))
  }

  function DecimalDigit(d: nat): (c: char)
    requires d < 10
    ensures IsDigit(c, 10) && DigitValue(c) == Some(d)
  {
    ('0' as int + d) as char
  }

  /** The decimal numeral of a natural number, without leading zeros. */
  function ShowNat(n: nat): (s: string)
    ensures s != [] && AllDigits(s, 10)
    ensures s[0] == '0' ==> n == 0
  {
    (if n < 10 then [] else ShowNat(n / 10)) + [DecimalDigit(n % 10)]
  }

  /** `String(n)` for an integer `n`. */
  function Show(n: int): string
  {
    if n < 0 then "-" + ShowNat(-n) else ShowNat(n)
  }

  lemma {:induction false} ValueShowNat(n: nat)
    ensures Value(ShowNat(n), 10) == n
    decreases n
  {
    var s := ShowNat(n);
    var front := if n < 10 then [] else ShowNat(n / 10);
    assert s[..|s| - 1] == front;
    if n >= 10 {
      ValueShowNat(n / 10);
    }
  }

  lemma {:induction false} DigitPrefixOfDigits(d: string, rest: string, radix: nat)
    requires AllDigits(d, radix)
    requires rest == [] || !IsDigit(rest[0], radix)
    ensures DigitPrefix(d + rest, radix) == d
    decreases |d|
  {
    if d != [] {
      assert (d + rest)[1..] == d[1..] + rest;
      DigitPrefixOfDigits(d[1..], rest, radix);
      assert d == [d[0]] + d[1..];
    }
  }

  lemma ParseUnsignedShowNat(m: nat, rest: string)
    requires rest == [] || (!IsDigit(rest[0], 10) && rest[0] != 'x' && rest[0] != 'X')
    ensures ParseUnsigned(ShowNat(m) + rest) == Some(m)
  {
    var digits := ShowNat(m);
    var u := digits + rest;
    assert !(|u| >= 2 && u[0] == '0' && (u[1] == 'x' || u[1] == 'X')) by {
      if |u| >= 2 && u[0] == '0' {
        assert m == 0 && |digits| == 1;
        assert u[1] == rest[0];
      }
    }
    DigitPrefixOfDigits(digits, rest, 10);
    ValueShowNat(m);
  }

  /** A numeral does not start with white space or a sign. */
  lemma ShowNatStart(m: nat, rest: string)
    ensures var u := ShowNat(m) + rest;
            u != [] && !IsWhiteSpace(u[0]) && u[0] != '-' && u[0] != '+'
  {
    var digits := ShowNat(m);
    assert (digits + rest)[0] == digits[0];
    assert IsDigit(digits[0], 10);
  }

  lemma ParseSignedUnsigned(u: string, v: nat, negative: bool)
    requires u != [] && !IsWhiteSpace(u[0]) && u[0] != '-' && u[0] != '+'
    requires ParseUnsigned(u) == Some(v)
    ensures ParseInt(if negative then "-" + u else u) == Some(if negative then -(v as int) else v as int)
  {
    var s := if negative then "-" + u else u;
    assert s[0] == if negative then '-' else u[0];
    assert negative ==> s[1..] == u;
    assert TrimStart(s) == s;
  }

  /** `parseInt` reads back the decimal numeral of every integer, also when text
      follows that does not continue the number (`parseInt("12abc") == 12`). */
  lemma ParseShow(n: int, rest: string)
    requires rest == [] || (!IsDigit(rest[0], 10) && rest[0] != 'x' && rest[0] != 'X')
    ensures ParseInt(Show(n) + rest) == Some(n)
  {
    var m: nat := if n < 0 then -n else n;
    var u := ShowNat(m) + rest;
    ShowNatStart(m, rest);
    ParseUnsignedShowNat(m, rest);
    if n < 0 {
      assert Show(n) + rest == "-" + u;
      ParseSignedUnsigned(u, m, true);
    } else {
      assert Show(n) + rest == u;
      ParseSignedUnsigned(u, m, false);
    }
  }

  lemma {:induction false} TrimWhiteSpace(ws: string, s: string)
    requires forall i :: 0 <= i < |ws| ==> IsWhiteSpace(ws[i])
    ensures TrimStart(ws + s) == TrimStart(s)
    decreases |ws|
  {
    if ws == [] {
      assert ws + s == s;
    } else {
      assert (ws + s)[0] == ws[0];
      assert (ws + s)[1..] == ws[1..] + s;
      assert TrimStart(ws + s) == TrimStart(ws[1..] + s);
      TrimWhiteSpace(ws[1..], s);
    }
  }

  /** Leading white space does not change what `parseInt` reads. */
  lemma ParseIgnoresLeadingWhiteSpace(ws: string, s: string)
    requires forall i :: 0 <= i < |ws| ==> IsWhiteSpace(ws[i])
    ensures ParseInt(ws + s) == ParseInt(s)
  {
    TrimWhiteSpace(ws, s);
    assert ParseInt(ws + s) == ParseSigned(TrimStart(ws + s));
  }

  /** Text that does not start (after white space and a sign) with a digit is `NaN`. */
  lemma ParseNaN(s: string)
    requires var u := StripSign(TrimStart(s)); u == [] || !IsDigit(u[0], 10)
    ensures ParseInt(s) == None
  {
  }

  /** `parseInt("0x1A") == 26`: the hexadecimal prefix is honoured. */
  lemma ParseHex()
    ensures ParseInt("0x1A") == Some(26)
  {
    var s := "0x1A";
    assert TrimStart(s) == s && StripSign(s) == s;
    assert ParseInt(s) == ParseSigned(s);
    var digits := "1A";
    assert s[2..] == digits + "";
    assert AllDigits(digits, 16) by {
      assert DigitValue(digits[0]) == Some(1) && DigitValue(digits[1]) == Some(10);
    }
    DigitPrefixOfDigits(digits, "", 16);
    assert digits[..1] == "1";
    assert Value(digits, 16) == 26;
  }
}
