/** The static helpers of the PIX payment service: key validation, currency
    text, amount validation and the two payload strings of a transfer. */
module PaymentService {
  import opened Wrappers
  import opened Js
  import opened Brl
  import opened Domain
  import Base64

  // ---------------------------------------------------------------------
  // Payloads
  // ---------------------------------------------------------------------

  /** The text the simulated QR code carries. */
  function PixString(d: PaymentData): string {
    "PIX|" + d.recipient + "|" + d.amount + "|" + d.description
  }

  /** `generatePIXQRCode`: `btoa` of the text above; None where `btoa`
      throws. */
  function GeneratePIXQRCode(d: PaymentData): Option<string> {
    Base64.Btoa(PixString(d))
  }

  /** Every character lies in U+0000..U+00FF, as `btoa` demands. */
  predicate Latin1Only(s: string) {
    forall i :: 0 <= i < |s| ==> s[i] as int < 256
  }

  lemma {:induction false} Latin1OnlyConcat(a: string, b: string)
    ensures Latin1Only(a + b) <==> Latin1Only(a) && Latin1Only(b)
  {
    assert forall i :: 0 <= i < |a| ==> (a + b)[i] == a[i];
    assert forall i :: 0 <= i < |b| ==> (a + b)[|a| + i] == b[i];
  }

  /** The QR code exists exactly when recipient, amount and description are
      all Latin-1 text, and it then decodes back to the PIX text. */
  lemma QRCodeRoundTrip(d: PaymentData)
    ensures GeneratePIXQRCode(d).Some?
            <==> Latin1Only(d.recipient) && Latin1Only(d.amount) && Latin1Only(d.description)
    ensures GeneratePIXQRCode(d).Some? ==> Base64.Atob(GeneratePIXQRCode(d).value) == Some(PixString(d))
  {
    var s := PixString(d);
    Base64.AtobBtoa(s);
    assert Latin1Only(s) <==> !exists i :: 0 <= i < |s| && s[i] as int >= 256;
    Latin1OnlyConcat("PIX|" + d.recipient + "|" + d.amount + "|", d.description);
    Latin1OnlyConcat("PIX|" + d.recipient + "|" + d.amount, "|");
    Latin1OnlyConcat("PIX|" + d.recipient + "|", d.amount);
    Latin1OnlyConcat("PIX|" + d.recipient, "|");
    Latin1OnlyConcat("PIX|", d.recipient);
    assert Latin1Only("PIX|") && Latin1Only("|");
  }

  /** The fixed head of the copy-paste code, up to the recipient. */
  const CopyPasteHead: string := "00020126580014BR.GOV.BCB.PIX0136"

  /** `Math.random().toString(36).substr(2, 4).toUpperCase()`: at most four
      characters from 0-9 and A-Z. */
  predicate IsRandomSuffix(s: string) {
    |s| <= 4 && forall i :: 0 <= i < |s| ==> ('0' <= s[i] <= '9' || 'A' <= s[i] <= 'Z')
  }

  /** `generatePIXCopyPaste`, with the random suffix given. */
  function GeneratePIXCopyPaste(d: PaymentData, suffix: string): string
    requires IsRandomSuffix(suffix)
  {
    CopyPasteHead + d.recipient + "52040000530398654" + ReplaceFirst(d.amount, '.', "")
    + "5802BR5909" + d.description + "6008BRASILIA62070503***6304" + suffix
  }

  /** The code opens with the fixed head and the recipient and closes with
      the suffix. */
  lemma CopyPasteEnds(d: PaymentData, suffix: string)
    requires IsRandomSuffix(suffix)
    ensures var code := GeneratePIXCopyPaste(d, suffix);
            && code[..|CopyPasteHead| + |d.recipient|] == CopyPasteHead + d.recipient
            && code[|code| - |suffix|..] == suffix
  {
    var head := CopyPasteHead + d.recipient;
    var rest := "52040000530398654" + ReplaceFirst(d.amount, '.', "")
      + "5802BR5909" + d.description + "6008BRASILIA62070503***6304";
    var code := GeneratePIXCopyPaste(d, suffix);
    assert code == head + rest + suffix;
  }

  /** The amount field drops only the first '.' of the amount. */
  lemma CopyPasteAmount(amount: string, a: string, b: string)
    requires '.' !in a && amount == a + "." + b
    ensures ReplaceFirst(amount, '.', "") == a + b
  {
    ReplaceFirstAt(a, '.', b, "");
    assert a + "" + b == a + b;
  }

  // ---------------------------------------------------------------------
  // Currency text
  // ---------------------------------------------------------------------

  /** `formatCurrency`: the digits of the input read as cents. `parseInt`
      of no digits is NaN, which gives the empty text. */
  function FormatCurrency(value: string): string {
    var numeric := StripNonDigits(value);
    match ParseInt(numeric, 10)
    case None => ""
    case Some(n) => FormatBRL(n)
  }

  /** `formatCurrency` is "" exactly when the input has no digit, and
      otherwise the currency text of its digits read as cents. */
  lemma FormatCurrencyOfDigits(value: string)
    ensures StripNonDigits(value) == [] ==> FormatCurrency(value) == ""
    ensures StripNonDigits(value) != [] ==>
              FormatCurrency(value) == FormatBRL(DigitValue(StripNonDigits(value)))
  {
    ParseIntOfDigits(StripNonDigits(value), 10);
  }

  lemma FormatCurrencyEmpty(value: string)
    ensures FormatCurrency(value) == "" <==> StripNonDigits(value) == []
  {
    FormatCurrencyOfDigits(value);
  }

  /** Formatting a formatted amount changes nothing. */
  lemma FormatCurrencyIdempotent(value: string)
    ensures FormatCurrency(FormatCurrency(value)) == FormatCurrency(value)
  {
    FormatCurrencyOfDigits(value);
    var f := FormatCurrency(value);
    FormatCurrencyOfDigits(f);
    if StripNonDigits(value) != [] {
      FormatBRLDigits(DigitValue(StripNonDigits(value)));
    } else {
      assert StripNonDigits("") == [];
    }
  }

  predicate IsDigitOrComma(c: char) { IsDigit(c) || c == ',' }

  /** `parseCurrencyToNumber`: digits and commas are kept, the first comma
      becomes the decimal point; NaN (and 0) give 0. */
  function ParseCurrencyToNumber(value: string): real {
    var cleaned := ReplaceFirst(Keep(value, IsDigitOrComma), ',', ".");
    match ParseFloat(cleaned)
    case None => 0.0
    case Some(x) => x
  }

  /** The currency text of a non-negative amount parses back to the amount
      in reais. */
  lemma ParseCurrencyOfBRL(cents: nat)
    ensures ParseCurrencyToNumber(FormatBRL(cents)) == cents as real / 100.0
  {
    var g, t := Grouped(cents / 100), TwoDigits(cents % 100);
    var w := StripNonDigits(g);
    FormatBRLParts(cents);
    FormatBRLDigits(cents);
    var kept := Keep(Prefix + g + "," + t, IsDigitOrComma);
    assert kept == w + [','] + t by {
      KeepNone(Prefix, IsDigitOrComma);
      KeepSame(g, IsDigitOrComma, IsDigit);
      KeepAll(t, IsDigitOrComma);
      KeepAll(",", IsDigitOrComma);
      var a := Prefix + g;
      var b := a + ",";
      KeepConcat(Prefix, g, IsDigitOrComma);
      assert Keep(a, IsDigitOrComma) == w;
      KeepConcat(a, ",", IsDigitOrComma);
      assert Keep(b, IsDigitOrComma) == w + ",";
      KeepConcat(b, t, IsDigitOrComma);
    }
    assert ',' !in w by {
      assert forall i :: 0 <= i < |w| ==> IsDigit(w[i]);
    }
    ReplaceFirstAt(w, ',', t, ".");
    GroupedDigits(cents / 100);
    ParseFloatOfHundredths(w, t, cents);
  }

  /** Reading a formatted amount back gives its digits as cents. */
  lemma ParseCurrencyOfFormat(value: string)
    requires StripNonDigits(value) != []
    ensures ParseCurrencyToNumber(FormatCurrency(value)) == DigitValue(StripNonDigits(value)) as real / 100.0
  {
    FormatCurrencyOfDigits(value);
    ParseCurrencyOfBRL(DigitValue(StripNonDigits(value)));
  }

  /** Text without a digit parses to 0. */
  lemma ParseCurrencyOfNoDigits(value: string)
    requires StripNonDigits(value) == []
    ensures ParseCurrencyToNumber(value) == 0.0
  {
    var kept := Keep(value, IsDigitOrComma);
    assert forall i :: 0 <= i < |kept| ==> kept[i] == ',' by {
      KeepNoDigit(value);
    }
    var cleaned := ReplaceFirst(kept, ',', ".");
    if kept != [] {
      assert IndexOf(kept, ',') == 0;
      assert cleaned == "." + kept[1..];
      assert cleaned[1..] == kept[1..];
    }
  }

  lemma {:induction false} KeepNoDigit(value: string)
    requires StripNonDigits(value) == []
    ensures forall i :: 0 <= i < |Keep(value, IsDigitOrComma)| ==> Keep(value, IsDigitOrComma)[i] == ','
  {
    if value != [] {
      KeepNoDigit(value[1..]);
    }
  }

  /** `validateAmount`: more than zero and at most 10000 reais. */
  predicate ValidateAmount(amount: string) {
    var n := ParseCurrencyToNumber(amount);
    0.0 < n <= 10000.0
  }

  /** A formatted amount is valid exactly when it lies in 0,01 .. 10.000,00
      reais; text without a digit is never valid. */
  lemma ValidateAmountOfBRL(cents: nat, value: string)
    ensures ValidateAmount(FormatBRL(cents)) <==> 0 < cents <= 1000000
    ensures StripNonDigits(value) == [] ==> !ValidateAmount(value)
  {
    ParseCurrencyOfBRL(cents);
    if StripNonDigits(value) == [] {
      ParseCurrencyOfNoDigits(value);
    }
  }

  // ---------------------------------------------------------------------
  // PIX keys
  // ---------------------------------------------------------------------

  /** `[^\s@]+` */
  predicate EmailPart(t: string) {
    t != [] && forall k :: 0 <= k < |t| ==> !IsWhitespace(t[k]) && t[k] != '@'
  }

  /** `/^[^\s@]+@[^\s@]+\.[^\s@]+$/`: some '@' at i and '.' at j split the
      key into three such parts. */
  predicate EmailPattern(s: string) {
    exists i, j :: 0 < i < j < |s| && s[i] == '@' && s[j] == '.'
                   && EmailPart(s[..i]) && EmailPart(s[i + 1..j]) && EmailPart(s[j + 1..])
  }

  /** `/^\+?55\d{10,11}$/` */
  predicate PhonePattern(t: string) {
    var u := if t != [] && t[0] == '+' then t[1..] else t;
    12 <= |u| <= 13 && u[0] == '5' && u[1] == '5' && AllDigits(u[2..])
  }

  /** `/^\d{11}$/` */
  predicate CpfPattern(t: string) { |t| == 11 && AllDigits(t) }

  /** `/^\d{14}$/` */
  predicate CnpjPattern(t: string) { |t| == 14 && AllDigits(t) }

  /** `[a-f0-9]` under the `i` flag. */
  predicate IsHex(c: char) { '0' <= c <= '9' || 'a' <= c <= 'f' || 'A' <= c <= 'F' }

  /** `/^[a-f0-9]{8}-[a-f0-9]{4}-[a-f0-9]{4}-[a-f0-9]{4}-[a-f0-9]{12}$/i` */
  predicate UuidPattern(s: string) {
    |s| == 36
    && forall k :: 0 <= k < 36 ==> if k == 8 || k == 13 || k == 18 || k == 23 then s[k] == '-' else IsHex(s[k])
  }

  /** `validatePIXKey`: email and random-key patterns on the key as typed,
      phone, CPF and CNPJ patterns on its digits. */
  predicate ValidatePIXKey(key: string) {
    var digits := StripNonDigits(key);
    EmailPattern(key) || PhonePattern(digits) || CpfPattern(digits) || CnpjPattern(digits) || UuidPattern(key)
  }

  /** The email pattern in plain terms: no white space, exactly one '@', not
      at the start, and a '.' after the character following the '@' that is
      not the last character. */
  predicate EmailShape(s: string) {
    var i := IndexOf(s, '@');
    NoWhitespace(s) && multiset(s)['@'] == 1 && 0 < i
    && exists j :: i + 1 < j < |s| - 1 && s[j] == '.'
  }

  lemma AtsAreCounted(s: string, i: int, k: int)
    requires 0 <= i < k < |s| && s[i] == '@' && s[k] == '@'
    ensures multiset(s)['@'] >= 2
  {
    assert s == s[..k] + s[k..];
    assert s[..k][i] == '@' && s[k..][0] == '@';
    assert multiset(s) == multiset(s[..k]) + multiset(s[k..]);
  }

  lemma NoAtNotCounted(t: string)
    requires forall k :: 0 <= k < |t| ==> t[k] != '@'
    ensures multiset(t)['@'] == 0
  {
    assert '@' !in t;
  }

  lemma EmailPartsNoWhitespace(s: string, i: int, j: int)
    requires 0 < i < j < |s| && s[i] == '@' && s[j] == '.'
    requires EmailPart(s[..i]) && EmailPart(s[i + 1..j]) && EmailPart(s[j + 1..])
    ensures NoWhitespace(s)
  {
    forall k | 0 <= k < |s|
      ensures !IsWhitespace(s[k])
    {
      if k < i { assert s[k] == s[..i][k]; }
      else if i < k < j { assert s[k] == s[i + 1..j][k - i - 1]; }
      else if j < k { assert s[k] == s[j + 1..][k - j - 1]; }
    }
  }

  lemma EmailPartsOneAt(s: string, i: int, j: int)
    requires 0 < i < j < |s| && s[i] == '@' && s[j] == '.'
    requires EmailPart(s[..i]) && EmailPart(s[i + 1..j]) && EmailPart(s[j + 1..])
    ensures multiset(s)['@'] == 1
  {
    var a, b, c := s[..i], s[i + 1..j], s[j + 1..];
    assert s == a + [s[i]] + b + [s[j]] + c;
    NoAtNotCounted(a);
    NoAtNotCounted(b);
    NoAtNotCounted(c);
    assert multiset(s) == multiset(a) + multiset{'@'} + multiset(b) + multiset{'.'} + multiset(c);
  }

  lemma FirstAt(s: string, i: int)
    requires 0 <= i < |s| && s[i] == '@' && '@' !in s[..i]
    ensures IndexOf(s, '@') == i
  {
  }

  lemma EmailPatternToShape(s: string)
    requires EmailPattern(s)
    ensures EmailShape(s)
  {
    var i, j :| 0 < i < j < |s| && s[i] == '@' && s[j] == '.'
                && EmailPart(s[..i]) && EmailPart(s[i + 1..j]) && EmailPart(s[j + 1..]);
    EmailPartsNoWhitespace(s, i, j);
    EmailPartsOneAt(s, i, j);
    assert '@' !in s[..i] by {
      forall k | 0 <= k < i ensures s[..i][k] != '@' { }
    }
    FirstAt(s, i);
  }

  lemma EmailShapeToPattern(s: string)
    requires EmailShape(s)
    ensures EmailPattern(s)
  {
    var i := IndexOf(s, '@');
    assert '@' in s by { assert multiset(s)['@'] > 0; }
    var j :| i + 1 < j < |s| - 1 && s[j] == '.';
    assert EmailPart(s[..i]) by {
      forall k | 0 <= k < i ensures s[..i][k] != '@' { assert s[..i][k] in s[..i]; }
    }
    assert EmailPart(s[i + 1..j]) by {
      var b := s[i + 1..j];
      forall k | 0 <= k < |b| ensures b[k] != '@' && !IsWhitespace(b[k])
      {
        assert b[k] == s[i + 1 + k];
        if s[i + 1 + k] == '@' { AtsAreCounted(s, i, i + 1 + k); }
      }
    }
    assert EmailPart(s[j + 1..]) by {
      var c := s[j + 1..];
      forall k | 0 <= k < |c| ensures c[k] != '@' && !IsWhitespace(c[k])
      {
        assert c[k] == s[j + 1 + k];
        if s[j + 1 + k] == '@' { AtsAreCounted(s, i, j + 1 + k); }
      }
    }
  }

  /** The regular expression and its plain reading accept the same keys. */
  lemma EmailPatternIff(s: string)
    ensures EmailPattern(s) <==> EmailShape(s)
  {
    if EmailPattern(s) { EmailPatternToShape(s); }
    if EmailShape(s) { EmailShapeToPattern(s); }
  }

  /** The optional '+' of the phone pattern never matters: the key's digits
      match it exactly when they are 12 or 13 digits starting with "55". */
  lemma PhoneDigits(key: string)
    ensures var d := StripNonDigits(key);
            PhonePattern(d) <==> 12 <= |d| <= 13 && d[0] == '5' && d[1] == '5'
  {
  }

  /** `validatePIXKey` in plain terms. A key whose digits alone number 11 or
      14 is accepted whatever else it holds, with no check digit verified. */
  lemma ValidatePIXKeyIff(key: string)
    ensures var d := StripNonDigits(key);
            ValidatePIXKey(key) <==>
              EmailShape(key)
              || (12 <= |d| <= 13 && d[0] == '5' && d[1] == '5')
              || |d| == 11 || |d| == 14
              || UuidPattern(key)
  {
    EmailPatternIff(key);
    PhoneDigits(key);
  }

  /** A CPF typed with its punctuation is accepted: the punctuation goes
      before the CPF pattern is tried. */
  lemma SampleCpfKey(a: string, b: string, c: string, e: string)
    requires a == "123" && b == "456" && c == "789" && e == "09"
    ensures ValidatePIXKey(a + "." + b + "." + c + "-" + e)
  {
    var ab := a + "." + b;
    var abc := ab + "." + c;
    StripAround([], a, '.', b);
    assert [] + a + ['.'] + b == ab;
    StripAround([], ab, '.', c);
    assert [] + ab + ['.'] + c == abc;
    StripAround([], abc, '-', e);
    assert [] + abc + ['-'] + e == abc + "-" + e;
    KeepAll(a, IsDigit);
    assert |StripNonDigits(abc + "-" + e)| == 11;
  }

  /** An ordinary address is accepted. */
  lemma SampleEmailKey()
    ensures ValidatePIXKey("user@example.com")
  {
    var email := "user@example.com";
    assert email[4] == '@' && email[12] == '.';
    assert EmailPart(email[..4]) && EmailPart(email[5..12]) && EmailPart(email[13..]);
  }

  /** Three letters match no pattern. */
  lemma SampleRejectedKey()
    ensures !ValidatePIXKey("abc")
  {
    assert StripNonDigits("abc") == [];
    assert !EmailPattern("abc") by {
      assert forall k :: 0 <= k < 3 ==> "abc"[k] != '@';
    }
  }
}
