/** The JavaScript built-ins the storefront relies on, stated over Dafny
    strings: the `\d` and `\s` classes of its regular expressions,
    `String.prototype.replace` with a global class and with a first-match
    string, `trim`, `parseInt`, `parseFloat` and `Number.prototype.toString`
    on integers and on amounts in cents. Section numbers are those of
    ECMA-262. Numbers are exact here: the double-precision rounding of the
    engine is not modelled. */
module Js {
  import opened Wrappers

  // ---------------------------------------------------------------------
  // Character classes
  // ---------------------------------------------------------------------

  /** `\d` */
  predicate IsDigit(c: char) { '0' <= c <= '9' }

  predicate AllDigits(s: string) { forall i :: 0 <= i < |s| ==> IsDigit(s[i]) }

  /** `\s`, which is also the set `trim` and `parseInt` skip: WhiteSpace and
      LineTerminator (sections 12.2 and 12.3). */
  predicate IsWhitespace(c: char) {
    c == '\t' || c == '\n' || c == '\U{000B}' || c == '\U{000C}' || c == '\r' || c == ' '
    || c == '\U{00A0}' || c == '\U{1680}' || ('\U{2000}' <= c <= '\U{200A}')
    || c == '\U{2028}' || c == '\U{2029}' || c == '\U{202F}' || c == '\U{205F}'
    || c == '\U{3000}' || c == '\U{FEFF}'
  }

  predicate NoWhitespace(s: string) { forall i :: 0 <= i < |s| ==> !IsWhitespace(s[i]) }

  predicate IsBlank(s: string) { forall i :: 0 <= i < |s| ==> IsWhitespace(s[i]) }

  // ---------------------------------------------------------------------
  // Filtering: s.replace(/[^...]/g, '') and s.replace(/\D/g, '')
  // ---------------------------------------------------------------------

  /** The characters of `s` that satisfy `p`, in their order. */
  function Keep(s: string, p: char -> bool): (r: string)
    ensures |r| <= |s|
    ensures forall i :: 0 <= i < |r| ==> p(r[i])
  {
    if s == [] then [] else (if p(s[0]) then [s[0]] else []) + Keep(s[1..], p)
  }

  /** A filter every character passes keeps the whole text. */
  lemma {:induction false} KeepAll(s: string, p: char -> bool)
    requires forall i :: 0 <= i < |s| ==> p(s[i])
    ensures Keep(s, p) == s
  {
    if s != [] {
      KeepAll(s[1..], p);
    }
  }

  /** A filter no character passes keeps nothing. */
  lemma {:induction false} KeepNone(s: string, p: char -> bool)
    requires forall i :: 0 <= i < |s| ==> !p(s[i])
    ensures Keep(s, p) == []
  {
    if s != [] {
      KeepNone(s[1..], p);
    }
  }

  lemma {:induction false} KeepConcat(a: string, b: string, p: char -> bool)
    ensures Keep(a + b, p) == Keep(a, p) + Keep(b, p)
  {
    if a == [] {
      assert a + b == b;
    } else {
      assert (a + b)[1..] == a[1..] + b;
      KeepConcat(a[1..], b, p);
    }
  }

  /** Filtering by `p` first changes nothing when `q` only keeps what `p`
      keeps. */
  lemma {:induction false} KeepKeep(s: string, p: char -> bool, q: char -> bool)
    requires forall c :: q(c) ==> p(c)
    ensures Keep(Keep(s, p), q) == Keep(s, q)
  {
    if s != [] {
      KeepKeep(s[1..], p, q);
      KeepConcat(if p(s[0]) then [s[0]] else [], Keep(s[1..], p), q);
    }
  }

  /** Two filters that agree on every character of `s` keep the same text. */
  lemma {:induction false} KeepSame(s: string, p: char -> bool, q: char -> bool)
    requires forall i :: 0 <= i < |s| ==> p(s[i]) == q(s[i])
    ensures Keep(s, p) == Keep(s, q)
  {
    if s != [] {
      KeepSame(s[1..], p, q);
    }
  }

  /** `s.replace(/\D/g, '')` */
  function StripNonDigits(s: string): (r: string)
    ensures AllDigits(r)
  {
    Keep(s, IsDigit)
  }

  // ---------------------------------------------------------------------
  // Replacing the first occurrence: s.replace(',', '.'), s.replace('.', '')
  // ---------------------------------------------------------------------

  /** The index of the first `c` in `s`; `|s|` when there is none. */
  function IndexOf(s: string, c: char): (i: nat)
    ensures i <= |s| && c !in s[..i]
    ensures i < |s| ==> s[i] == c
    ensures i == |s| <==> c !in s
  {
    if s == [] || s[0] == c then 0
    else
      var i := 1 + IndexOf(s[1..], c);
      assert s[..i] == [s[0]] + s[1..][..i - 1];
      i
  }

  /** `s.replace(c, rep)` with a one-character string pattern: only the first
      occurrence of `c` is replaced. */
  function ReplaceFirst(s: string, c: char, rep: string): string {
    var i := IndexOf(s, c);
    if i == |s| then s else s[..i] + rep + s[i + 1..]
  }

  lemma ReplaceFirstAt(a: string, c: char, b: string, rep: string)
    requires c !in a
    ensures ReplaceFirst(a + [c] + b, c, rep) == a + rep + b
  {
    var s := a + [c] + b;
    var i := IndexOf(s, c);
    assert s[|a|] == c;
    assert s[..|a|] == a;
    assert s[|a| + 1..] == b;
  }

  // ---------------------------------------------------------------------
  // Numerals
  // ---------------------------------------------------------------------

  /** The value of `c` as a digit of radix up to 36 (section 19.2.5);
      36 for a character that is no such digit. */
  function DigitOf(c: char): nat {
    if '0' <= c <= '9' then c as int - '0' as int
    else if 'a' <= c <= 'z' then c as int - 'a' as int + 10
    else if 'A' <= c <= 'Z' then c as int - 'A' as int + 10
    else 36
  }

  /** The value of a numeral in `base`, most significant digit first. */
  function Numeral(s: string, base: nat): nat {
    if s == [] then 0 else Numeral(s[..|s| - 1], base) * base + DigitOf(s[|s| - 1])
  }

  /** The value of a decimal numeral; `Numeral(s, 10)`, kept apart so that
      decimal arithmetic stays linear. */
  function DigitValue(s: string): nat {
    if s == [] then 0 else DigitValue(s[..|s| - 1]) * 10 + DigitOf(s[|s| - 1])
  }

  lemma {:induction false} NumeralTen(s: string)
    ensures Numeral(s, 10) == DigitValue(s)
  {
    if s != [] {
      NumeralTen(s[..|s| - 1]);
    }
  }

  function Pow10(n: nat): (r: nat)
    ensures r >= 1
  {
    if n == 0 then 1 else 10 * Pow10(n - 1)
  }

  lemma {:induction false} DigitValueConcat(a: string, b: string)
    ensures DigitValue(a + b) == DigitValue(a) * Pow10(|b|) + DigitValue(b)
  {
    if b == [] {
      assert a + b == a;
    } else {
      var b' := b[..|b| - 1];
      var d := DigitOf(b[|b| - 1]);
      assert (a + b)[..|a + b| - 1] == a + b';
      assert (a + b)[|a + b| - 1] == b[|b| - 1];
      DigitValueConcat(a, b');
      ShiftDigit(DigitValue(a), Pow10(|b'|), DigitValue(b'), d);
    }
  }

  /** Appending a digit to `a * p + b`. */
  lemma ShiftDigit(a: int, p: int, b: int, d: int)
    ensures (a * p + b) * 10 + d == a * (10 * p) + (b * 10 + d)
  {
  }

  function DigitChar(d: nat): (c: char)
    requires d < 10
    ensures IsDigit(c) && DigitOf(c) == d
  {
    ('0' as int + d) as char
  }

  /** `String(n)` for a natural number: its shortest decimal numeral. */
  function NatToString(n: nat): (r: string)
    ensures r != [] && AllDigits(r)
    ensures DigitValue(r) == n
    ensures r[0] != '0' || n == 0
  {
    if n < 10 then
      var r := [DigitChar(n)];
      assert r[..0] == [] && DigitValue([]) == 0;
      r
    else
      var r := NatToString(n / 10) + [DigitChar(n % 10)];
      assert r[..|r| - 1] == NatToString(n / 10);
      r
  }

  /** `String(n)` for an integer. */
  function IntToString(n: int): (r: string)
    ensures r != [] && (IsDigit(r[0]) || r[0] == '-')
  {
    if n < 0 then "-" + NatToString(-n) else NatToString(n)
  }

  // ---------------------------------------------------------------------
  // Trimming
  // ---------------------------------------------------------------------

  function TrimStart(s: string): (r: string)
    ensures |r| <= |s| && r == s[|s| - |r|..]
    ensures forall i :: 0 <= i < |s| - |r| ==> IsWhitespace(s[i])
    ensures r != [] ==> !IsWhitespace(r[0])
  {
    if s != [] && IsWhitespace(s[0]) then TrimStart(s[1..]) else s
  }

  function TrimEnd(s: string): (r: string)
    ensures |r| <= |s| && r == s[..|r|]
    ensures forall i :: |r| <= i < |s| ==> IsWhitespace(s[i])
    ensures r != [] ==> !IsWhitespace(r[|r| - 1])
  {
    if s != [] && IsWhitespace(s[|s| - 1]) then TrimEnd(s[..|s| - 1]) else s
  }

  /** `String.prototype.trim` (section 22.1.3.32) */
  function Trim(s: string): string {
    TrimEnd(TrimStart(s))
  }

  /** `s.trim()` is empty exactly when every character of `s` is white space. */
  lemma TrimEmptyIffBlank(s: string)
    ensures Trim(s) == [] <==> IsBlank(s)
  {
    var t := TrimStart(s);
    assert t != [] ==> t[0] == s[|s| - |t|];
  }

  lemma TrimWithoutWhitespace(s: string)
    requires NoWhitespace(s)
    ensures Trim(s) == s
  {
  }

  // ---------------------------------------------------------------------
  // Longest prefixes
  // ---------------------------------------------------------------------

  /** The length of the longest prefix of `s` whose characters satisfy `p`. */
  function RunLength(s: string, p: char -> bool): (n: nat)
    ensures n <= |s|
    ensures forall i :: 0 <= i < n ==> p(s[i])
    ensures n < |s| ==> !p(s[n])
  {
    if s != [] && p(s[0]) then 1 + RunLength(s[1..], p) else 0
  }

  lemma RunLengthOf(s: string, t: string, p: char -> bool)
    requires forall i :: 0 <= i < |s| ==> p(s[i])
    requires t == [] || !p(t[0])
    ensures RunLength(s + t, p) == |s|
  {
    assert forall i :: 0 <= i < |s| ==> (s + t)[i] == s[i];
    assert t != [] ==> (s + t)[|s|] == t[0];
  }

  // ---------------------------------------------------------------------
  // parseInt (section 19.2.5)
  // ---------------------------------------------------------------------

  /** The value of the longest prefix of `body` made of digits of `base`;
      None when that prefix is empty. */
  function NumeralPrefix(body: string, base: nat): Option<nat> {
    var n := RunLength(body, c => DigitOf(c) < base);
    if n == 0 then None else Some(Numeral(body[..n], base))
  }

  lemma NumeralPrefixOfDigits(d: string)
    requires d != [] && AllDigits(d)
    ensures NumeralPrefix(d, 10) == Some(DigitValue(d))
  {
    RunLengthOf(d, [], c => DigitOf(c) < 10);
    assert d + [] == d;
    assert d[..|d|] == d;
    NumeralTen(d);
  }

  /** `parseInt(s, radix)`, where radix 0 stands for an omitted radix:
      leading white space is skipped, then one sign, then a "0x" prefix when
      the radix is 16 or omitted, then the longest run of digits of the
      radix. None is NaN; -0 is 0. */
  function ParseInt(s: string, radix: nat): (r: Option<int>)
    requires radix == 0 || 2 <= radix <= 36
  {
    if s != [] && IsWhitespace(s[0]) then ParseInt(s[1..], radix)
    else ParseSigned(s, radix)
  }

  /** `parseInt` once the white space is skipped: an optional sign, then
      the magnitude. */
  function ParseSigned(s: string, radix: nat): Option<int>
    requires radix == 0 || 2 <= radix <= 36
  {
    var u := if s != [] && (s[0] == '-' || s[0] == '+') then s[1..] else s;
    match ParseMagnitude(u, radix)
    case None => None
    case Some(v) => Some(if s != [] && s[0] == '-' then -(v as int) else v as int)
  }

  /** `parseInt` after the sign: a "0x" prefix when the radix is 16 or
      omitted, then the longest run of digits of the radix. */
  function ParseMagnitude(u: string, radix: nat): Option<nat>
    requires radix == 0 || 2 <= radix <= 36
  {
    var hex := (radix == 0 || radix == 16) && |u| >= 2 && u[0] == '0' && (u[1] == 'x' || u[1] == 'X');
    NumeralPrefix(if hex then u[2..] else u, if hex then 16 else if radix == 0 then 10 else radix)
  }

  /** A decimal numeral reads back as its value, whichever of the two radix
      forms the source uses. */
  lemma ParseIntOfDigits(d: string, radix: nat)
    requires AllDigits(d)
    requires radix == 0 || radix == 10
    ensures ParseInt(d, radix) == if d == [] then None else Some(DigitValue(d))
  {
    if d != [] {
      assert !IsWhitespace(d[0]);
      NumeralPrefixOfDigits(d);
    }
  }

  /** `parseInt(String(n))` gives `n` back. */
  lemma ParseIntOfIntToString(n: int)
    ensures ParseInt(IntToString(n), 0) == Some(n)
  {
    if n < 0 {
      var d := NatToString(-n);
      var s := "-" + d;
      assert s[0] == '-' && s[1..] == d;
      NumeralPrefixOfDigits(d);
    } else {
      ParseIntOfDigits(NatToString(n), 0);
    }
  }

  lemma NumeralPrefixOfDigitsThen(d: string, rest: string)
    requires d != [] && AllDigits(d)
    requires rest == [] || !IsDigit(rest[0])
    ensures NumeralPrefix(d + rest, 10) == Some(DigitValue(d))
  {
    RunLengthOf(d, rest, c => DigitOf(c) < 10);
    assert (d + rest)[..|d|] == d;
    NumeralTen(d);
  }

  /** The numeral of `n` followed by text not starting with 'x' never
      looks like a "0x" prefix. */
  lemma NoHexPrefix(n: nat, rest: string)
    requires rest == [] || (rest[0] != 'x' && rest[0] != 'X')
    ensures var s := NatToString(n) + rest;
            !(|s| >= 2 && s[0] == '0' && (s[1] == 'x' || s[1] == 'X'))
  {
    var d := NatToString(n);
    var s := d + rest;
    if n < 10 {
      assert |d| == 1;
      assert |s| >= 2 ==> s[1] == rest[0];
    } else {
      assert s[0] == d[0] && d[0] != '0';
    }
  }

  lemma ParseIntWithoutSpace(s: string, radix: nat)
    requires radix == 0 || 2 <= radix <= 36
    requires s == [] || !IsWhitespace(s[0])
    ensures ParseInt(s, radix) == ParseSigned(s, radix)
  {
  }

  /** The numeral of `n` followed by a non-digit other than 'x' has
      magnitude `n`. */
  lemma MagnitudeOfNatThen(n: nat, rest: string)
    requires rest == [] || (!IsDigit(rest[0]) && rest[0] != 'x' && rest[0] != 'X')
    ensures ParseMagnitude(NatToString(n) + rest, 0) == Some(n)
  {
    NoHexPrefix(n, rest);
    NumeralPrefixOfDigitsThen(NatToString(n), rest);
  }

  lemma ParseIntOfNatThen(n: nat, rest: string)
    requires rest == [] || (!IsDigit(rest[0]) && rest[0] != 'x' && rest[0] != 'X')
    ensures ParseInt(NatToString(n) + rest, 0) == Some(n)
  {
    var d := NatToString(n);
    var s := d + rest;
    assert s[0] == d[0];
    MagnitudeOfNatThen(n, rest);
    ParseIntWithoutSpace(s, 0);
  }

  lemma ParseIntOfMinusThen(m: nat, rest: string)
    requires rest == [] || (!IsDigit(rest[0]) && rest[0] != 'x' && rest[0] != 'X')
    ensures ParseInt("-" + (NatToString(m) + rest), 0) == Some(-(m as int))
  {
    var u := NatToString(m) + rest;
    var s := "-" + u;
    assert s[0] == '-' && s[1..] == u;
    MagnitudeOfNatThen(m, rest);
    ParseIntWithoutSpace(s, 0);
  }

  /** `parseInt` stops at the first character that is not a digit, so the
      numeral of `n` followed by such text still reads as `n`. */
  lemma ParseIntOfIntToStringThen(n: int, rest: string)
    requires rest == [] || (!IsDigit(rest[0]) && rest[0] != 'x' && rest[0] != 'X')
    ensures ParseInt(IntToString(n) + rest, 0) == Some(n)
  {
    if n < 0 {
      ParseIntOfNegativeThen(n, rest);
    } else {
      ParseIntOfNatThen(n, rest);
    }
  }

  lemma ParseIntOfNegativeThen(n: int, rest: string)
    requires n < 0
    requires rest == [] || (!IsDigit(rest[0]) && rest[0] != 'x' && rest[0] != 'X')
    ensures ParseInt(IntToString(n) + rest, 0) == Some(n)
  {
    NegativeThen(n, rest);
    ParseIntOfMinusThen(-n, rest);
  }

  lemma NegativeThen(n: int, rest: string)
    requires n < 0
    ensures IntToString(n) + rest == "-" + (NatToString(-n) + rest)
  {
  }



  // ---------------------------------------------------------------------
  // parseFloat (section 19.2.4), without the Infinity literal
  // ---------------------------------------------------------------------

  /** `m` times ten to the power `e`. */
  function Scale(m: real, e: int): real
    decreases if e < 0 then -e else e
  {
    if e == 0 then m else if e > 0 then Scale(m * 10.0, e - 1) else Scale(m / 10.0, e + 1)
  }

  /** The value of an exponent part at the start of `u`: 'e' or 'E', an
      optional sign and at least one digit; 0 when there is none. */
  function ExponentPart(u: string): int {
    if u != [] && (u[0] == 'e' || u[0] == 'E') then
      var v := u[1..];
      var digits := if v != [] && (v[0] == '-' || v[0] == '+') then v[1..] else v;
      var k := RunLength(digits, IsDigit);
      if k == 0 then 0
      else if v[0] == '-' then 0 - DigitValue(digits[..k])
      else DigitValue(digits[..k])
    else 0
  }

  /** Scans the digits after the point of a literal whose integer digits
      are `w`; `f` holds the fraction digits read so far. None when the
      literal has no digit at all. */
  function FractionPart(u: string, w: string, f: string): Option<real> {
    if u != [] && IsDigit(u[0]) then FractionPart(u[1..], w, f + [u[0]])
    else LiteralValue(u, w, f)
  }

  /** The value of a literal with integer digits `w` and fraction digits
      `f`, followed by `u`; None when it has no digit at all. */
  function LiteralValue(u: string, w: string, f: string): Option<real> {
    if w == [] && f == [] then None
    else Some(Scale(DigitValue(w + f) as real, ExponentPart(u) - |f|))
  }

  /** Scans the integer digits of an unsigned decimal literal; `w` holds the
      digits read so far. */
  function IntegerPart(u: string, w: string): Option<real> {
    if u != [] && IsDigit(u[0]) then IntegerPart(u[1..], w + [u[0]])
    else if u != [] && u[0] == '.' then FractionPart(u[1..], w, [])
    else if w == [] then None
    else Some(Scale(DigitValue(w) as real, ExponentPart(u)))
  }

  function Negated(o: Option<real>): Option<real> {
    match o
    case None => None
    case Some(x) => Some(-x)
  }

  /** `parseFloat(s)`: leading white space is skipped, then one sign, then
      the longest decimal literal is read. None is NaN. */
  function ParseFloat(s: string): Option<real> {
    if s != [] && IsWhitespace(s[0]) then ParseFloat(s[1..])
    else if s != [] && s[0] == '-' then Negated(IntegerPart(s[1..], []))
    else if s != [] && s[0] == '+' then IntegerPart(s[1..], [])
    else IntegerPart(s, [])
  }

  lemma {:induction false} IntegerPartOfDigits(d: string, rest: string, w: string)
    requires AllDigits(d)
    ensures IntegerPart(d + rest, w) == IntegerPart(rest, w + d)
  {
    if d == [] {
      assert d + rest == rest && w + d == w;
    } else {
      assert (d + rest)[0] == d[0] && (d + rest)[1..] == d[1..] + rest;
      IntegerPartOfDigits(d[1..], rest, w + [d[0]]);
      assert w + [d[0]] + d[1..] == w + d;
    }
  }

  lemma {:induction false} FractionPartOfDigits(d: string, rest: string, w: string, f: string)
    requires AllDigits(d)
    ensures FractionPart(d + rest, w, f) == FractionPart(rest, w, f + d)
  {
    if d == [] {
      assert d + rest == rest && f + d == f;
    } else {
      assert (d + rest)[0] == d[0] && (d + rest)[1..] == d[1..] + rest;
      FractionPartOfDigits(d[1..], rest, w, f + [d[0]]);
      assert f + [d[0]] + d[1..] == f + d;
    }
  }

  /** Unsigned decimal digits read back as their value. */
  lemma ParseFloatOfDigits(d: string)
    requires d != [] && AllDigits(d)
    ensures ParseFloat(d) == Some(DigitValue(d) as real)
  {
    assert !IsWhitespace(d[0]);
    IntegerPartOfDigits(d, [], []);
    assert d + [] == d && [] + d == d;
  }

  /** Unsigned decimal text with a point reads back as its value. */
  lemma ParseFloatOfPoint(d: string, f: string)
    requires d != [] && AllDigits(d) && AllDigits(f)
    ensures ParseFloat(d + "." + f) == Some(Scale(DigitValue(d + f) as real, -|f|))
  {
    var u := d + "." + f;
    assert u == d + ("." + f) && u[0] == d[0] && !IsWhitespace(d[0]);
    IntegerPartOfDigits(d, "." + f, []);
    assert [] + d == d && ("." + f)[1..] == f;
    FractionPartOfDigits(f, [], d, []);
    assert f + [] == f && [] + f == f;
  }

  /** Digits, a point and two more digits read back as a number of
      hundredths. */
  lemma ParseFloatOfHundredths(w: string, f: string, v: nat)
    requires w != [] && AllDigits(w) && AllDigits(f) && |f| == 2
    requires DigitValue(w + f) == v
    ensures ParseFloat(w + "." + f) == Some(v as real / 100.0)
  {
    ParseFloatOfPoint(w, f);
    ScaledHundredths(v);
  }

  /** A leading '-' negates what parseFloat reads. */
  lemma ParseFloatOfMinus(t: string, s: string)
    requires t == "-" + s && s != [] && IsDigit(s[0])
    ensures ParseFloat(t) == Negated(ParseFloat(s))
  {
    assert t[0] == '-' && t[1..] == s;
    assert !IsWhitespace(s[0]);
  }

  // ---------------------------------------------------------------------
  // Number.prototype.toString on an amount held in cents
  // ---------------------------------------------------------------------

  /** `String(c / 100)`: the integer part, then a point and the cents without
      trailing zeros when they are not zero. */
  function CentsToJsString(c: int): (r: string)
    ensures c >= 0 ==> r != [] && IsDigit(r[0])
    decreases if c < 0 then 1 else 0
  {
    if c < 0 then "-" + CentsToJsString(-c) else DecimalText(c / 100, c % 100)
  }

  /** The text of `whole + frac / 100` for `frac < 100`. */
  function DecimalText(whole: nat, frac: nat): (r: string)
    requires frac < 100
    ensures r != [] && IsDigit(r[0])
  {
    if frac == 0 then NatToString(whole)
    else if frac % 10 == 0 then NatToString(whole) + "." + [DigitChar(frac / 10)]
    else NatToString(whole) + "." + [DigitChar(frac / 10), DigitChar(frac % 10)]
  }

  lemma ScaleHundredth(m: real)
    ensures Scale(m, -1) == m / 10.0 && Scale(m, -2) == m / 100.0
  {
    assert Scale(m / 10.0, 0) == m / 10.0;
    assert Scale(m / 10.0 / 10.0, 0) == m / 10.0 / 10.0;
  }

  lemma ScaledTenths(n: nat, v: nat)
    requires v == n * 10
    ensures Some(Scale(n as real, -1)) == Some(v as real / 100.0)
  {
    ScaleHundredth(n as real);
  }

  lemma ScaledHundredths(v: nat)
    ensures Some(Scale(v as real, -2)) == Some(v as real / 100.0)
  {
    ScaleHundredth(v as real);
  }

  lemma WholeAsHundredths(whole: nat, v: nat)
    requires v == whole * 100
    ensures Some(whole as real) == Some(v as real / 100.0)
  {
  }

  lemma DigitValueOfOneDecimal(whole: nat, tenths: nat)
    requires tenths < 10
    ensures DigitValue(NatToString(whole) + [DigitChar(tenths)]) == whole * 10 + tenths
  {
    var w, f := NatToString(whole), [DigitChar(tenths)];
    DigitValueConcat(w, f);
    assert f[..0] == [] && DigitValue([]) == 0;
    assert Pow10(1) == 10;
  }

  lemma DigitValueOfTwoDecimals(whole: nat, frac: nat)
    requires frac < 100
    ensures DigitValue(NatToString(whole) + [DigitChar(frac / 10), DigitChar(frac % 10)]) == whole * 100 + frac
  {
    var w, f := NatToString(whole), [DigitChar(frac / 10), DigitChar(frac % 10)];
    DigitValueConcat(w, f);
    assert f[..1] == [f[0]] && f[..1][..0] == [] && DigitValue([]) == 0;
    assert DigitValue(f[..1]) == frac / 10;
    assert DigitValue(f) == frac;
    assert Pow10(2) == 100 by { assert Pow10(1) == 10; }
  }

  /** The text of `whole + frac / 100` reads back as that number. */
  lemma ParseFloatOfDecimalText(whole: nat, frac: nat, v: nat)
    requires frac < 100 && v == whole * 100 + frac
    ensures ParseFloat(DecimalText(whole, frac)) == Some(v as real / 100.0)
  {
    var w := NatToString(whole);
    if frac == 0 {
      ParseFloatOfDigits(w);
      WholeAsHundredths(whole, v);
    } else if frac % 10 == 0 {
      var f := [DigitChar(frac / 10)];
      DigitValueOfOneDecimal(whole, frac / 10);
      ParseFloatOfPoint(w, f);
      ScaledTenths(whole * 10 + frac / 10, v);
    } else {
      var f := [DigitChar(frac / 10), DigitChar(frac % 10)];
      DigitValueOfTwoDecimals(whole, frac);
      ParseFloatOfPoint(w, f);
      ScaledHundredths(v);
    }
  }

  lemma ParseFloatOfNonNegativeCents(c: nat)
    ensures ParseFloat(CentsToJsString(c)) == Some(c as real / 100.0)
  {
    assert CentsToJsString(c) == DecimalText(c / 100, c % 100);
    ParseFloatOfDecimalText(c / 100, c % 100, c);
  }

  lemma NegatedHundredths(c: int, m: nat)
    requires m == -c
    ensures Negated(Some(m as real / 100.0)) == Some(c as real / 100.0)
  {
  }

  lemma ParseFloatOfNegativeCents(c: int)
    requires c < 0
    ensures ParseFloat(CentsToJsString(c)) == Some(c as real / 100.0)
  {
    var m: nat := -c;
    ParseFloatOfNonNegativeCents(m);
    ParseFloatOfMinus(CentsToJsString(c), CentsToJsString(m));
    NegatedHundredths(c, m);
  }

  /** `parseFloat(String(c / 100))` gives the amount back. */
  lemma ParseFloatOfCents(c: int)
    ensures ParseFloat(CentsToJsString(c)) == Some(c as real / 100.0)
  {
    if c < 0 {
      ParseFloatOfNegativeCents(c);
    } else {
      ParseFloatOfNonNegativeCents(c);
    }
  }
}
