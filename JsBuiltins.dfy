/** The few JavaScript built-ins the resource page relies on, written out with
    the semantics ECMAScript gives them: `parseInt` with no radix argument,
    the truncating remainder operator `%`, and `Number.prototype.toString`
    on non-negative integers below 10^21. */
module JsBuiltins {
  import opened Wrappers

  /** ECMAScript's StrWhiteSpaceChar: WhiteSpace (tab, vertical tab, form feed,
      zero-width no-break space, and every Unicode "Zs" space) or LineTerminator. */
  predicate IsJsWhiteSpace(c: char) {
    || c == '\t' || c == '\U{000B}' || c == '\U{000C}' || c == '\U{FEFF}'
    || c == ' ' || c == '\U{00A0}' || c == '\U{1680}'
    || ('\U{2000}' <= c <= '\U{200A}')
    || c == '\U{202F}' || c == '\U{205F}' || c == '\U{3000}'
    || c == '\n' || c == '\r' || c == '\U{2028}' || c == '\U{2029}'
  }

  predicate IsDecimalDigit(c: char) {
    '0' <= c <= '9'
  }

  /** The value of `c` as a digit in radices up to 36 (`0-9`, then `a-z` or `A-Z`). */
  function DigitValue(c: char): (v: nat)
    ensures IsDecimalDigit(c) ==> v == c as int - '0' as int && v < 10
  {
    if '0' <= c <= '9' then c as nat - '0' as nat
    else if 'a' <= c <= 'z' then c as nat - 'a' as nat + 10
    else if 'A' <= c <= 'Z' then c as nat - 'A' as nat + 10
    else 36
  }

  /** A radix-`radix` digit, for `2 <= radix <= 36`. */
  predicate IsRadixDigit(c: char, radix: nat) {
    DigitValue(c) < radix
  }

  /** How many white-space characters `s` starts with. */
  function LeadingWhiteSpace(s: string): (n: nat)
    ensures n <= |s|
    ensures forall i :: 0 <= i < n ==> IsJsWhiteSpace(s[i])
    ensures n < |s| ==> !IsJsWhiteSpace(s[n])
  {
    if |s| > 0 && IsJsWhiteSpace(s[0]) then 1 + LeadingWhiteSpace(s[1..]) else 0
  }

  /** Removes the leading white space, as TrimString(s, start) does: what is
      left is a suffix of `s` that does not start with white space. */
  function TrimStart(s: string): (t: string)
    ensures |t| <= |s| && forall i :: 0 <= i < |s| - |t| ==> IsJsWhiteSpace(s[i])
    ensures |t| > 0 ==> !IsJsWhiteSpace(t[0])
  {
    s[LeadingWhiteSpace(s)..]
  }

  /** What `TrimStart` leaves is the input with a prefix removed. */
  lemma TrimStartSuffix(s: string)
    ensures |TrimStart(s)| <= |s| && TrimStart(s) == s[|s| - |TrimStart(s)|..]
  {
  }

  /** The longest prefix of `s` made of radix-`radix` digits. */
  function DigitPrefix(s: string, radix: nat): (d: string)
    ensures |d| <= |s| && d == s[..|d|]
    ensures forall i :: 0 <= i < |d| ==> IsRadixDigit(d[i], radix)
    ensures |d| < |s| ==> !IsRadixDigit(s[|d|], radix)
  {
    if |s| > 0 && IsRadixDigit(s[0], radix) then [s[0]] + DigitPrefix(s[1..], radix) else []
  }

  /** The number a string of radix-`radix` digits denotes, most significant first. */
  function DigitsValue(d: string, radix: nat): nat {
    if |d| == 0 then 0 else DigitsValue(d[..|d| - 1], radix) * radix + DigitValue(d[|d| - 1])
  }

  /** The digits after the sign: a `0x`/`0X` prefix switches to radix 16, and
      the value is that of the longest run of digits, or `None` when it is empty. */
  function ParseMagnitude(u: string): (r: Option<nat>)
    ensures r.Some? ==> |u| > 0 && IsDecimalDigit(u[0])
  {
    if |u| >= 2 && u[0] == '0' && (u[1] == 'x' || u[1] == 'X') then
      var digits := DigitPrefix(u[2..], 16);
      if |digits| == 0 then None else Some(DigitsValue(digits, 16))
    else
      var digits := DigitPrefix(u, 10);
      if |digits| == 0 then None else Some(DigitsValue(digits, 10))
  }

  /** What `parseInt` reads once white space is skipped: an optional sign,
      then the magnitude. */
  function ParseSigned(t: string): (r: Option<int>)
    ensures r.Some? ==> |t| > 0 && (IsDecimalDigit(t[0]) || t[0] == '-' || t[0] == '+')
    ensures r.Some? && r.value < 0 ==> t[0] == '-'
  {
    if |t| > 0 && t[0] == '-' then
      match ParseMagnitude(t[1..])
      case None => None
      case Some(m) => Some(-(m as int))
    else if |t| > 0 && t[0] == '+' then
      ParseMagnitude(t[1..])
    else
      ParseMagnitude(t)
  }

  /** `parseInt(s)` with no radix: skip white space, take an optional sign, then
      read the magnitude. `None` is NaN. A `-0` result is the integer 0. */
  function ParseInt(s: string): (r: Option<int>)
    ensures r.Some? ==> |TrimStart(s)| > 0
    ensures r.Some? ==> var c := TrimStart(s)[0]; IsDecimalDigit(c) || c == '-' || c == '+'
    ensures r.Some? && r.value < 0 ==> TrimStart(s)[0] == '-'
  {
    ParseSigned(TrimStart(s))
  }

  function Abs(n: int): nat {
    if n < 0 then -n else n
  }

  /** JavaScript's `a % b` on integers: the remainder of the division truncated
      toward zero, so it takes the sign of the dividend. */
  function JsRem(a: int, b: int): (r: int)
    requires b != 0
    ensures Abs(r) < Abs(b)
    ensures a >= 0 ==> 0 <= r && r == a % Abs(b)
    ensures a < 0 ==> r <= 0 && -r == (-a) % Abs(b)
  {
    if a >= 0 then a % Abs(b) else -((-a) % Abs(b))
  }

  function DigitChar(d: nat): (c: char)
    requires d < 10
    ensures IsDecimalDigit(c) && DigitValue(c) == d
  {
    ('0' as int + d) as char
  }

  /** `n.toString()` for a non-negative integer `n` below 10^21 (the only
      values the page converts are 2, 4 and 6): its shortest decimal form.
      From 10^21 on, JavaScript writes exponent form instead. */
  function DecimalString(n: nat): (s: string)
    ensures |s| > 0
    ensures forall i :: 0 <= i < |s| ==> IsDecimalDigit(s[i])
    ensures |s| > 1 ==> s[0] != '0'
  {
    if n < 10 then [DigitChar(n)] else DecimalString(n / 10) + [DigitChar(n % 10)]
  }

  lemma {:induction false} DecimalStringValue(n: nat)
    ensures DigitsValue(DecimalString(n), 10) == n
  {
    if n >= 10 {
      var s := DecimalString(n);
      assert s[..|s| - 1] == DecimalString(n / 10);
      DecimalStringValue(n / 10);
    }
  }

  lemma DigitPrefixAll(s: string, radix: nat)
    requires forall i :: 0 <= i < |s| ==> IsRadixDigit(s[i], radix)
    ensures DigitPrefix(s, radix) == s
  {
  }

  lemma DigitsValueOne(d: string, radix: nat)
    requires |d| == 1
    ensures DigitsValue(d, radix) == DigitValue(d[0])
  {
  }

  lemma DigitsValueTwo(d: string, radix: nat)
    requires |d| == 2
    ensures DigitsValue(d, radix) == DigitValue(d[0]) * radix + DigitValue(d[1])
  {
    DigitsValueOne(d[..1], radix);
  }

  lemma {:induction false} TrimStartAfterWhiteSpace(ws: string, u: string)
    requires forall i :: 0 <= i < |ws| ==> IsJsWhiteSpace(ws[i])
    requires |u| == 0 || !IsJsWhiteSpace(u[0])
    ensures TrimStart(ws + u) == u
  {
    if |ws| == 0 {
      assert ws + u == u;
    } else {
      assert (ws + u)[0] == ws[0] && (ws + u)[1..] == ws[1..] + u;
      TrimStartAfterWhiteSpace(ws[1..], u);
    }
  }

  /** Leading white space does not change what `parseInt` reads. */
  lemma ParseIntSkipsWhiteSpace(ws: string, x: string)
    requires forall i :: 0 <= i < |ws| ==> IsJsWhiteSpace(ws[i])
    ensures ParseInt(ws + x) == ParseInt(x)
  {
    var n := LeadingWhiteSpace(x);
    var lead, rest := x[..n], x[n..];
    assert x == lead + rest;
    assert ws + x == (ws + lead) + rest;
    TrimStartAfterWhiteSpace(lead, rest);
    TrimStartAfterWhiteSpace(ws + lead, rest);
  }

  /** A leading `-` negates the magnitude that follows. */
  lemma ParseIntMinus(u: string)
    ensures ParseInt("-" + u) == match ParseMagnitude(u) case None => None case Some(m) => Some(-(m as int))
  {
    TrimStartUnchanged("-" + u);
    ParseSignedMinus(u);
  }

  lemma ParseSignedMinus(u: string)
    ensures ParseSigned("-" + u) == match ParseMagnitude(u) case None => None case Some(m) => Some(-(m as int))
  {
    assert ("-" + u)[0] == '-' && ("-" + u)[1..] == u;
  }

  /** A leading `+` keeps the magnitude that follows. */
  lemma ParseIntPlus(u: string)
    ensures ParseInt("+" + u) == ParseMagnitude(u)
  {
    TrimStartUnchanged("+" + u);
    ParseSignedPlus(u);
  }

  lemma ParseSignedPlus(u: string)
    ensures ParseSigned("+" + u) == ParseMagnitude(u)
  {
    assert ("+" + u)[0] == '+' && ("+" + u)[1..] == u;
  }

  /** With neither white space nor a sign in front, the magnitude is the result. */
  lemma ParseIntUnsigned(u: string)
    requires |u| == 0 || (!IsJsWhiteSpace(u[0]) && u[0] != '-' && u[0] != '+')
    ensures ParseInt(u) == ParseMagnitude(u)
  {
    TrimStartUnchanged(u);
    ParseSignedUnsigned(u);
  }

  lemma TrimStartUnchanged(u: string)
    requires |u| == 0 || !IsJsWhiteSpace(u[0])
    ensures TrimStart(u) == u
  {
  }

  lemma ParseSignedUnsigned(u: string)
    requires |u| == 0 || (u[0] != '-' && u[0] != '+')
    ensures ParseSigned(u) == ParseMagnitude(u)
  {
  }

  /** A non-empty run of decimal digits parses to the number it denotes. */
  lemma ParseIntDigits(s: string)
    requires |s| > 0 && forall i :: 0 <= i < |s| ==> IsDecimalDigit(s[i])
    ensures ParseInt(s) == Some(DigitsValue(s, 10))
  {
    assert !IsJsWhiteSpace(s[0]) && s[0] != '-' && s[0] != '+';
    ParseIntUnsigned(s);
    MagnitudeOfDigits(s);
  }

  lemma MagnitudeOfDigits(s: string)
    requires |s| > 0 && forall i :: 0 <= i < |s| ==> IsDecimalDigit(s[i])
    ensures ParseMagnitude(s) == Some(DigitsValue(s, 10))
  {
    assert !(|s| >= 2 && s[0] == '0' && (s[1] == 'x' || s[1] == 'X'));
    DigitPrefixAll(s, 10);
  }

  /** `parseInt` reads back what `toString` writes in decimal form (below 10^21). */
  lemma ParseIntDecimalString(n: nat)
    ensures ParseInt(DecimalString(n)) == Some(n)
  {
    ParseIntDigits(DecimalString(n));
    DecimalStringValue(n);
  }

  /** Two decimal digits parse to their two-digit value. */
  lemma ParseIntTwoDigits(s: string)
    requires |s| == 2 && IsDecimalDigit(s[0]) && IsDecimalDigit(s[1])
    ensures ParseInt(s) == Some(10 * DigitValue(s[0]) + DigitValue(s[1]))
  {
    var v := DigitsValue(s, 10);
    assert v == 10 * DigitValue(s[0]) + DigitValue(s[1]) by {
      DigitsValueTwo(s, 10);
    }
    assert forall i :: 0 <= i < |s| ==> IsDecimalDigit(s[i]);
    ParseIntDigits(s);
  }

  /** A decimal digit followed by a non-digit parses to that digit alone,
      except for `0x`/`0X`, where the prefix leaves no hexadecimal digit: NaN. */
  lemma ParseIntDigitThenOther(s: string)
    requires |s| == 2 && IsDecimalDigit(s[0]) && !IsDecimalDigit(s[1])
    ensures s[0] == '0' && (s[1] == 'x' || s[1] == 'X') ==> ParseInt(s) == None
    ensures !(s[0] == '0' && (s[1] == 'x' || s[1] == 'X')) ==> ParseInt(s) == Some(DigitValue(s[0]))
  {
    ParseIntUnsigned(s);
    MagnitudeDigitThenOther(s);
  }

  lemma MagnitudeDigitThenOther(s: string)
    requires |s| == 2 && IsDecimalDigit(s[0]) && !IsDecimalDigit(s[1])
    ensures s[0] == '0' && (s[1] == 'x' || s[1] == 'X') ==> ParseMagnitude(s) == None
    ensures !(s[0] == '0' && (s[1] == 'x' || s[1] == 'X')) ==> ParseMagnitude(s) == Some(DigitValue(s[0]))
  {
    assert DigitPrefix(s[1..], 10) == [];
    assert DigitPrefix(s, 10) == [s[0]];
    DigitsValueOne([s[0]], 10);
  }

  /** A string starting with anything other than white space, a sign or a
      decimal digit is not a number. */
  lemma ParseIntNotANumber(s: string)
    requires |s| > 0 && !IsJsWhiteSpace(s[0]) && !IsDecimalDigit(s[0]) && s[0] != '-' && s[0] != '+'
    ensures ParseInt(s) == None
  {
  }

  lemma MagnitudeBound(u: string)
    requires |u| <= 2
    ensures ParseMagnitude(u).Some? ==> ParseMagnitude(u).value <= (if |u| <= 1 then 9 else 99)
  {
    if !(|u| >= 2 && u[0] == '0' && (u[1] == 'x' || u[1] == 'X')) {
      var d := DigitPrefix(u, 10);
      if |d| == 1 {
        DigitsValueOne(d, 10);
      } else if |d| == 2 {
        DigitsValueTwo(d, 10);
      }
    }
  }

  /** Whatever two characters hold, `parseInt` yields NaN or an integer in [-9, 99]. */
  lemma ParseIntTwoCharRange(s: string)
    requires |s| == 2
    ensures ParseInt(s).Some? ==> -9 <= ParseInt(s).value <= 99
  {
    var t := TrimStart(s);
    if |t| > 0 && (t[0] == '-' || t[0] == '+') {
      MagnitudeBound(t[1..]);
    } else {
      MagnitudeBound(t);
    }
  }
}
