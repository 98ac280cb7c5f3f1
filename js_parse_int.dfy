/** JavaScript's global `parseInt(string)` called without a radix, as the
    ECMAScript language specification defines it (section 19.2.5, "parseInt
    (string, radix)"): skip leading white space and line terminators, read an
    optional sign, strip a "0x"/"0X" prefix (which switches to radix 16),
    then read the longest run of digits in the radix; no digit at all gives NaN. */
module JsParseInt {

  /** The Number parseInt returns. Negative zero is folded into `Int(0)`:
      both are falsy, which is the only use the routes make of zero. */
  datatype ParsedInt = NaN | Int(value: int)

  /** StrWhiteSpaceChar: the WhiteSpace code points (tab, vertical tab, form
      feed, space, no-break space, the byte order mark and the other
      space separators of category Zs) and the LineTerminator code points. */
  predicate IsStrWhiteSpace(c: char) {
    c == '\t' || c == '\U{000B}' || c == '\U{000C}' || c == ' ' || c == '\U{00A0}'
    || c == '\U{FEFF}' || c == '\U{1680}' || ('\U{2000}' <= c <= '\U{200A}')
    || c == '\U{202F}' || c == '\U{205F}' || c == '\U{3000}'
    || c == '\n' || c == '\r' || c == '\U{2028}' || c == '\U{2029}'
  }

  /** The value of `c` as a digit of any radix up to 36; 36 when it is none. */
  function DigitValue(c: char): (d: nat)
    ensures d <= 36
    ensures '0' <= c <= '9' ==> d == c as int - '0' as int
    ensures d < 10 ==> '0' <= c <= '9'
  {
    if '0' <= c <= '9' then c as int - '0' as int
    else if 'a' <= c <= 'z' then c as int - 'a' as int + 10
    else if 'A' <= c <= 'Z' then c as int - 'A' as int + 10
    else 36
  }

  predicate IsRadixDigit(c: char, radix: nat) {
    DigitValue(c) < radix
  }

  /** The length of the run of StrWhiteSpace that `s` starts with. */
  function LeadingSpace(s: string): (n: nat)
    ensures n <= |s|
    ensures forall i :: 0 <= i < n ==> IsStrWhiteSpace(s[i])
    ensures n == |s| || !IsStrWhiteSpace(s[n])
  {
    if s == [] || !IsStrWhiteSpace(s[0]) then 0 else 1 + LeadingSpace(s[1..])
  }

  /** The length of the run of `radix` digits that `s` starts with. */
  function DigitRun(s: string, radix: nat): (n: nat)
    ensures n <= |s|
    ensures forall i :: 0 <= i < n ==> IsRadixDigit(s[i], radix)
    ensures n == |s| || !IsRadixDigit(s[n], radix)
  {
    if s == [] || !IsRadixDigit(s[0], radix) then 0 else 1 + DigitRun(s[1..], radix)
  }

  /** The integer a string of radix digits denotes, most significant first. */
  function Value(digits: string, radix: nat): nat {
    if digits == [] then 0
    else Value(digits[..|digits| - 1], radix) * radix + DigitValue(digits[|digits| - 1])
  }

  /** `s` with its leading StrWhiteSpace removed. */
  function TrimStart(s: string): (t: string)
    ensures |t| <= |s| && t == s[|s| - |t|..]
    ensures forall i :: 0 <= i < |s| - |t| ==> IsStrWhiteSpace(s[i])
    ensures t == [] || !IsStrWhiteSpace(t[0])
  {
    s[LeadingSpace(s)..]
  }

  /** parseInt(s) with no radix argument: white space, then a sign. A
      number is read only when the trimmed text starts with a sign or a
      decimal digit, and its sign is the one written. */
  function ParseInt(s: string): (r: ParsedInt)
    ensures r.Int? ==> var t := TrimStart(s);
      |t| > 0 && (IsRadixDigit(t[0], 10) || t[0] == '+' || t[0] == '-')
    ensures r.Int? && TrimStart(s)[0] == '-' ==> r.value <= 0
    ensures r.Int? && TrimStart(s)[0] != '-' ==> r.value >= 0
  {
    var t := TrimStart(s);
    if |t| > 0 && t[0] == '-' then Negate(ParseMagnitude(t[1..]))
    else if |t| > 0 && t[0] == '+' then ParseMagnitude(t[1..])
    else ParseMagnitude(t)
  }

  /** Unary minus on the parsed Number; NaN stays NaN. */
  function Negate(r: ParsedInt): (m: ParsedInt)
    ensures m.NaN? == r.NaN?
    ensures r.Int? ==> m.value == -r.value
  {
    if r.NaN? then NaN else Int(-r.value)
  }

  /** Whether `u` starts with the "0x"/"0X" prefix that selects radix 16. */
  predicate HasHexPrefix(u: string) {
    |u| >= 2 && u[0] == '0' && (u[1] == 'x' || u[1] == 'X')
  }

  /** What parseInt reads after the sign: a "0x"/"0X" prefix selects radix 16.
      It is NaN exactly when no digit of the chosen radix comes first (so a
      bare "0x" is NaN, not 0), and otherwise a non-negative number. */
  function ParseMagnitude(u: string): (r: ParsedInt)
    ensures r.NaN? <==> if HasHexPrefix(u) then |u| == 2 || !IsRadixDigit(u[2], 16)
                        else u == [] || !IsRadixDigit(u[0], 10)
    ensures r.Int? ==> r.value >= 0 && |u| > 0 && IsRadixDigit(u[0], 10)
  {
    if HasHexPrefix(u) then ParseDigits(u[2..], 16)
    else ParseDigits(u, 10)
  }

  /** The longest run of radix digits `s` starts with, or NaN when there is none. */
  function ParseDigits(s: string, radix: nat): (r: ParsedInt)
    ensures r.NaN? <==> s == [] || !IsRadixDigit(s[0], radix)
    ensures r.Int? ==> r.value >= 0
  {
    var n := DigitRun(s, radix);
    if n == 0 then NaN else Int(Value(s[..n], radix))
  }

  /** The lower-case digit character for a digit value below 16. */
  function DigitChar(d: nat): (c: char)
    requires d < 16
    ensures DigitValue(c) == d
  {
    if d < 10 then ('0' as int + d) as char else ('a' as int + d - 10) as char
  }

  /** The canonical numeral of `n` in `radix` (no leading zeros, "0" for zero);
      for radix 10 this is what JavaScript's String(n) gives. */
  function Numeral(n: nat, radix: nat): (s: string)
    requires 2 <= radix <= 16
    decreases n
  {
    if n < radix then [DigitChar(n)]
    else Numeral(n / radix, radix) + [DigitChar(n % radix)]
  }

  /** Appending one digit to a digit string multiplies by the radix and adds the digit. */
  lemma ValueSnoc(q: string, c: char, radix: nat)
    ensures Value(q + [c], radix) == Value(q, radix) * radix + DigitValue(c)
  {
    assert (q + [c])[..|q + [c]| - 1] == q;
  }

  /** Reading a numeral back gives its number, and the numeral is made of
      radix digits only, starting with "0" only when it is "0". */
  lemma {:induction false} NumeralValue(n: nat, radix: nat)
    requires radix == 10 || radix == 16
    ensures |Numeral(n, radix)| >= 1
    ensures Value(Numeral(n, radix), radix) == n
    ensures forall i :: 0 <= i < |Numeral(n, radix)| ==> IsRadixDigit(Numeral(n, radix)[i], radix)
    ensures Numeral(n, radix)[0] == '0' ==> n == 0
    decreases n
  {
    if n >= radix {
      var q := Numeral(n / radix, radix);
      var c := DigitChar(n % radix);
      NumeralValue(n / radix, radix);
      ValueSnoc(q, c, radix);
      assert Numeral(n, radix) == q + [c];
      assert n / radix > 0;
    }
  }

  /** The white-space run ends exactly where the white space ends. */
  lemma LeadingSpaceOf(a: string, b: string)
    requires forall i :: 0 <= i < |a| ==> IsStrWhiteSpace(a[i])
    requires b == [] || !IsStrWhiteSpace(b[0])
    ensures LeadingSpace(a + b) == |a|
  {
    var s := a + b;
    assert forall i :: 0 <= i < |a| ==> s[i] == a[i];
    if b != [] { assert s[|a|] == b[0]; }
  }

  /** The digit run ends exactly where the digits end. */
  lemma DigitRunOf(a: string, b: string, radix: nat)
    requires forall i :: 0 <= i < |a| ==> IsRadixDigit(a[i], radix)
    requires b == [] || !IsRadixDigit(b[0], radix)
    ensures DigitRun(a + b, radix) == |a|
  {
    var s := a + b;
    assert forall i :: 0 <= i < |a| ==> s[i] == a[i];
    if b != [] { assert s[|a|] == b[0]; }
  }

  /** Leading white space does not change what parseInt reads. */
  lemma ParseIntSkipsLeadingSpace(ws: string, s: string)
    requires forall i :: 0 <= i < |ws| ==> IsStrWhiteSpace(ws[i])
    ensures ParseInt(ws + s) == ParseInt(s)
  {
    var t := TrimStart(s);
    var k := |s| - |t|;
    assert s == s[..k] + t;
    LeadingSpaceOf(ws + s[..k], t);
    assert ws + s == (ws + s[..k]) + t;
  }

  /** A string that starts with no white space is read from its first
      character: a sign, then the magnitude. */
  lemma ParseIntSigned(sign: string, u: string)
    requires sign == "" || sign == "+" || sign == "-"
    requires sign == "" ==> u == [] || (!IsStrWhiteSpace(u[0]) && u[0] != '+' && u[0] != '-')
    ensures ParseInt(sign + u) == if sign == "-" then Negate(ParseMagnitude(u)) else ParseMagnitude(u)
  {
    var t := sign + u;
    LeadingSpaceOf([], t);
    assert [] + t == t;
    assert TrimStart(t) == t;
    if sign != "" {
      assert t[0] == sign[0];
      assert t[1..] == u;
    }
  }

  /** Any non-empty run of radix digits followed by a non-digit is read as
      the number the run denotes, leading zeros included. */
  lemma ParseDigitsOfRun(d: string, rest: string, radix: nat)
    requires d != [] && forall i :: 0 <= i < |d| ==> IsRadixDigit(d[i], radix)
    requires rest == [] || !IsRadixDigit(rest[0], radix)
    ensures ParseDigits(d + rest, radix) == Int(Value(d, radix))
  {
    DigitRunOf(d, rest, radix);
    assert (d + rest)[..|d|] == d;
  }

  /** A string of zeros denotes 0. */
  lemma {:induction false} ZerosValue(z: string, radix: nat)
    requires forall i :: 0 <= i < |z| ==> z[i] == '0'
    ensures Value(z, radix) == 0
    decreases |z|
  {
    if z != [] {
      ZerosValue(z[..|z| - 1], radix);
    }
  }

  /** Leading zeros do not change the number a digit string denotes. */
  lemma {:induction false} ValueLeadingZeros(z: string, d: string, radix: nat)
    requires forall i :: 0 <= i < |z| ==> z[i] == '0'
    ensures Value(z + d, radix) == Value(d, radix)
    decreases |d|
  {
    if d == [] {
      assert z + d == z;
      ZerosValue(z, radix);
    } else {
      var init := d[..|d| - 1];
      var c := d[|d| - 1];
      assert d == init + [c];
      assert z + d == (z + init) + [c];
      ValueSnoc(z + init, c, radix);
      ValueSnoc(init, c, radix);
      ValueLeadingZeros(z, init, radix);
    }
  }

  /** The radix a written prefix selects: 16 after "0x" or "0X", 10 without one. */
  function PrefixRadix(prefix: string): nat {
    if prefix == "" then 10 else 16
  }

  /** After the sign: an optional "0x"/"0X" prefix and a run of digits of the
      radix it selects, followed by a non-digit, are read as the run's number.
      A decimal "0" directly followed by "x" or "X" is excluded, since that
      is the prefix itself. */
  lemma MagnitudeOfDigits(prefix: string, d: string, rest: string)
    requires prefix == "" || prefix == "0x" || prefix == "0X"
    requires d != [] && forall i :: 0 <= i < |d| ==> IsRadixDigit(d[i], PrefixRadix(prefix))
    requires rest == [] || !IsRadixDigit(rest[0], PrefixRadix(prefix))
    requires prefix == "" && d == "0" && rest != [] ==> rest[0] != 'x' && rest[0] != 'X'
    ensures var u := prefix + (d + rest);
      u != [] && !IsStrWhiteSpace(u[0]) && u[0] != '-' && u[0] != '+'
      && ParseMagnitude(u) == Int(Value(d, PrefixRadix(prefix)))
  {
    if prefix == "" {
      assert prefix + (d + rest) == d + rest;
      DecimalMagnitude(d, rest);
    } else {
      HexMagnitude(prefix, d, rest);
    }
  }

  /** The decimal case: a run of decimal digits is not mistaken for a prefix. */
  lemma DecimalMagnitude(d: string, rest: string)
    requires d != [] && forall i :: 0 <= i < |d| ==> IsRadixDigit(d[i], 10)
    requires rest == [] || !IsRadixDigit(rest[0], 10)
    requires d == "0" && rest != [] ==> rest[0] != 'x' && rest[0] != 'X'
    ensures var u := d + rest;
      u != [] && !IsStrWhiteSpace(u[0]) && u[0] != '-' && u[0] != '+'
      && ParseMagnitude(u) == Int(Value(d, 10))
  {
    var u := d + rest;
    assert u[0] == d[0];
    assert !HasHexPrefix(u) by {
      if |d| >= 2 {
        assert u[1] == d[1];
      } else if rest != [] {
        assert d == [d[0]];
        assert u[1] == rest[0];
      }
    }
    ParseDigitsOfRun(d, rest, 10);
  }

  /** The hexadecimal case: the prefix is stripped and the rest read in radix 16. */
  lemma HexMagnitude(prefix: string, d: string, rest: string)
    requires prefix == "0x" || prefix == "0X"
    requires d != [] && forall i :: 0 <= i < |d| ==> IsRadixDigit(d[i], 16)
    requires rest == [] || !IsRadixDigit(rest[0], 16)
    ensures var u := prefix + (d + rest);
      u != [] && !IsStrWhiteSpace(u[0]) && u[0] != '-' && u[0] != '+'
      && ParseMagnitude(u) == Int(Value(d, 16))
  {
    var u := prefix + (d + rest);
    assert HasHexPrefix(u) && u[2..] == d + rest by {
      assert u[0] == prefix[0] && u[1] == prefix[1];
    }
    assert ParseDigits(d + rest, 16) == Int(Value(d, 16)) by {
      ParseDigitsOfRun(d, rest, 16);
    }
  }

  /** The number n written after `sign`: negated after "-". */
  function Signed(sign: string, n: nat): int {
    if sign == "-" then -(n as int) else n
  }

  /** parseInt of white space and a sign followed by text that starts with
      neither, and whose magnitude is n, is n, or -n after "-". */
  lemma ParseIntOfMagnitude(ws: string, sign: string, u: string, n: nat)
    requires forall i :: 0 <= i < |ws| ==> IsStrWhiteSpace(ws[i])
    requires sign == "" || sign == "+" || sign == "-"
    requires u != [] && !IsStrWhiteSpace(u[0]) && u[0] != '+' && u[0] != '-'
    requires ParseMagnitude(u) == Int(n)
    ensures ParseInt(ws + (sign + u)) == Int(Signed(sign, n))
  {
    assert ParseInt(ws + (sign + u)) == ParseInt(sign + u) by {
      ParseIntSkipsLeadingSpace(ws, sign + u);
    }
    assert ParseInt(sign + u) == Int(Signed(sign, n)) by {
      ParseIntSigned(sign, u);
    }
  }

  /** parseInt of white space, a sign, an optional "0x"/"0X" prefix and any
      non-empty run of digits of the selected radix, followed by anything
      that is not a further digit, is the signed number the run denotes. */
  lemma ParseIntOfDigits(ws: string, sign: string, prefix: string, d: string, rest: string)
    requires forall i :: 0 <= i < |ws| ==> IsStrWhiteSpace(ws[i])
    requires sign == "" || sign == "+" || sign == "-"
    requires prefix == "" || prefix == "0x" || prefix == "0X"
    requires d != [] && forall i :: 0 <= i < |d| ==> IsRadixDigit(d[i], PrefixRadix(prefix))
    requires rest == [] || !IsRadixDigit(rest[0], PrefixRadix(prefix))
    requires prefix == "" && d == "0" && rest != [] ==> rest[0] != 'x' && rest[0] != 'X'
    ensures var n := Value(d, PrefixRadix(prefix));
      ParseInt(ws + (sign + (prefix + (d + rest)))) == Int(Signed(sign, n))
  {
    MagnitudeOfDigits(prefix, d, rest);
    ParseIntOfMagnitude(ws, sign, prefix + (d + rest), Value(d, PrefixRadix(prefix)));
  }

  /** The round trip: parseInt of white space, a sign, an optional "0x"
      prefix and a canonical numeral, followed by anything that is not a
      further digit, gives back the signed number. A "0" followed by "x" or
      "X" is excluded because parseInt reads that as a hexadecimal prefix. */
  lemma ParseIntOfNumeral(ws: string, sign: string, hex: bool, n: nat, rest: string)
    requires forall i :: 0 <= i < |ws| ==> IsStrWhiteSpace(ws[i])
    requires sign == "" || sign == "+" || sign == "-"
    requires rest == [] || !IsRadixDigit(rest[0], if hex then 16 else 10)
    requires !hex && n == 0 && rest != [] ==> rest[0] != 'x' && rest[0] != 'X'
    ensures ParseInt(ws + (sign + ((if hex then "0x" else "") + (Numeral(n, if hex then 16 else 10) + rest))))
         == Int(Signed(sign, n))
  {
    var radix := if hex then 16 else 10;
    NumeralValue(n, radix);
    ParseIntOfDigits(ws, sign, if hex then "0x" else "", Numeral(n, radix), rest);
  }

  /** A character that ends what parseInt reads wherever it follows the text
      read so far: no white space, sign, digit of radix 16 (nor so of radix
      10) or "x" of a hexadecimal prefix. */
  predicate EndsNumber(c: char) {
    !IsStrWhiteSpace(c) && c != '+' && c != '-' && !IsRadixDigit(c, 16) && c != 'x' && c != 'X'
  }

  /** Trimming stops inside `a` or at the first character of `b`. */
  lemma TrimStartAppend(a: string, b: string)
    requires b != [] && !IsStrWhiteSpace(b[0])
    ensures TrimStart(a + b) == TrimStart(a) + b
  {
    var k := LeadingSpace(a);
    assert a + b == a[..k] + (a[k..] + b);
    LeadingSpaceOf(a[..k], a[k..] + b);
  }

  /** The digit run stops inside `s` or at the first character of `b`. */
  lemma DigitsAppend(s: string, b: string, radix: nat)
    requires b != [] && !IsRadixDigit(b[0], radix)
    ensures ParseDigits(s + b, radix) == ParseDigits(s, radix)
  {
    var k := DigitRun(s, radix);
    assert s + b == s[..k] + (s[k..] + b);
    DigitRunOf(s[..k], s[k..] + b, radix);
    assert (s + b)[..k] == s[..k];
  }

  /** Appending text that starts with a number-ending character leaves the magnitude unchanged. */
  lemma MagnitudeAppend(u: string, b: string)
    requires b != [] && EndsNumber(b[0])
    ensures ParseMagnitude(u + b) == ParseMagnitude(u)
  {
    var w := u + b;
    if |u| >= 2 {
      assert w[0] == u[0] && w[1] == u[1];
      assert w[2..] == u[2..] + b;
      DigitsAppend(u[2..], b, 16);
      DigitsAppend(u, b, 10);
    } else {
      if |u| == 1 {
        assert w[1] == b[0];
      }
      assert !HasHexPrefix(w) && !HasHexPrefix(u);
      DigitsAppend(u, b, 10);
    }
  }

  /** parseInt stops at a character that can continue neither white space,
      nor a sign, nor a prefix, nor a number: what follows it is ignored. */
  lemma ParseIntStopsAt(a: string, b: string)
    requires b != [] && EndsNumber(b[0])
    ensures ParseInt(a + b) == ParseInt(a)
  {
    var t := TrimStart(a);
    TrimStartAppend(a, b);
    var tb := t + b;
    if t == [] {
      assert tb == b;
      assert "" + b == b;
      MagnitudeAppend("", b);
    } else if t[0] == '-' || t[0] == '+' {
      assert tb[0] == t[0];
      assert tb[1..] == t[1..] + b;
      MagnitudeAppend(t[1..], b);
    } else {
      assert tb[0] == t[0];
      MagnitudeAppend(t, b);
    }
  }

  /** Without any digit after the white space and the sign, parseInt gives NaN. */
  lemma ParseIntWithoutDigits(ws: string, sign: string, rest: string)
    requires forall i :: 0 <= i < |ws| ==> IsStrWhiteSpace(ws[i])
    requires sign == "" || sign == "+" || sign == "-"
    requires rest == [] || (!IsRadixDigit(rest[0], 10) && !IsStrWhiteSpace(rest[0]))
    requires sign == "" ==> rest == [] || (rest[0] != '+' && rest[0] != '-')
    ensures ParseInt(ws + sign + rest) == NaN
  {
    assert ParseInt(ws + sign + rest) == ParseInt(sign + rest) by {
      assert ws + sign + rest == ws + (sign + rest);
      ParseIntSkipsLeadingSpace(ws, sign + rest);
    }
    assert ParseMagnitude(rest) == NaN by {
      assert rest != [] ==> DigitValue(rest[0]) >= 10;
    }
    ParseIntSigned(sign, rest);
  }
}
