/** Brazilian real amounts as `Number.prototype.toLocaleString('pt-BR',
    { style: 'currency', currency: 'BRL' })` renders them, over an amount
    held in integer cents: an optional '-', "R$", a no-break space, the
    integer part with '.' between groups of three digits, ',' and exactly
    two digits of cents. */
module Brl {
  import opened Js

  /** "R$" and U+00A0, the no-break space the pt-BR pattern puts after the
      currency sign. */
  const Prefix: string := "R$" + ['\U{00A0}']

  function TwoDigits(k: nat): (r: string)
    requires k < 100
    ensures |r| == 2 && AllDigits(r) && DigitValue(r) == k
  {
    var r := [DigitChar(k / 10), DigitChar(k % 10)];
    assert r[..1][..0] == [] && r[..1] == [r[0]];
    assert DigitValue([]) == 0;
    assert DigitValue(r[..1]) == k / 10;
    r
  }

  function ThreeDigits(k: nat): (r: string)
    requires k < 1000
    ensures |r| == 3 && AllDigits(r) && DigitValue(r) == k
  {
    var r := TwoDigits(k / 10) + [DigitChar(k % 10)];
    assert r[..|r| - 1] == TwoDigits(k / 10);
    r
  }

  /** The integer part of an amount, most significant group first, with '.'
      between groups of three digits. */
  function Grouped(n: nat): (r: string)
    ensures r != [] && IsDigit(r[0])
    ensures forall i :: 0 <= i < |r| ==> IsDigit(r[i]) || r[i] == '.'
  {
    if n < 1000 then NatToString(n)
    else Grouped(n / 1000) + "." + ThreeDigits(n % 1000)
  }

  /** The display text of `cents / 100` reais. */
  function FormatBRL(cents: int): string {
    var m := if cents < 0 then -cents else cents;
    (if cents < 0 then "-" else "") + Prefix + Grouped(m / 100) + "," + TwoDigits(m % 100)
  }

  /** The digits of a grouped integer part spell the integer. */
  lemma {:induction false} GroupedDigits(n: nat)
    ensures StripNonDigits(Grouped(n)) != []
    ensures DigitValue(StripNonDigits(Grouped(n))) == n
  {
    if n < 1000 {
      KeepAll(NatToString(n), IsDigit);
    } else {
      var g, t := Grouped(n / 1000), ThreeDigits(n % 1000);
      var dg := StripNonDigits(g);
      GroupedDigits(n / 1000);
      StripAround([], g, '.', t);
      assert [] + g + ['.'] + t == Grouped(n);
      DigitValueConcat(dg, t);
      Pow10Three();
      DivMod(n, 1000, DigitValue(dg), DigitValue(t));
    }
  }

  lemma PrefixHasNoDigits()
    ensures Keep(Prefix, IsDigit) == []
  {
    KeepNone(Prefix, IsDigit);
  }

  /** Dropping the non-digits around a separator and a run of digits. */
  lemma StripAround(pre: string, g: string, sep: char, t: string)
    requires Keep(pre, IsDigit) == [] && !IsDigit(sep) && AllDigits(t)
    ensures StripNonDigits(pre + g + [sep] + t) == StripNonDigits(g) + t
  {
    var a := pre + g;
    var b := a + [sep];
    KeepNone([sep], IsDigit);
    KeepAll(t, IsDigit);
    KeepConcat(pre, g, IsDigit);
    assert Keep(a, IsDigit) == Keep(g, IsDigit);
    KeepConcat(a, [sep], IsDigit);
    assert Keep(b, IsDigit) == Keep(g, IsDigit);
    KeepConcat(b, t, IsDigit);
  }

  lemma Pow10Three()
    ensures Pow10(2) == 100 && Pow10(3) == 1000
  {
    assert Pow10(1) == 10;
  }

  /** Reassembling a number from its quotient and remainder. */
  lemma DivMod(n: nat, d: nat, q: int, r: int)
    requires d > 0 && q == n / d && r == n % d
    ensures q * d + r == n
  {
  }

  /** The text of a non-negative amount splits into the prefix, the grouped
      integer part, ',' and two digits of cents. */
  lemma FormatBRLParts(cents: nat)
    ensures FormatBRL(cents) == Prefix + Grouped(cents / 100) + "," + TwoDigits(cents % 100)
  {
    assert (if cents < 0 then "-" else "") == [];
  }

  /** The layout of the text of a non-negative amount: the prefix first, then
      digits and '.' only, then the one ',' of the text, third from the end,
      and the two digits of cents. */
  lemma FormatBRLLayout(cents: nat)
    ensures var r := FormatBRL(cents);
            && |r| >= |Prefix| + 4
            && r[..|Prefix|] == Prefix
            && (forall i :: |Prefix| <= i < |r| - 3 ==> IsDigit(r[i]) || r[i] == '.')
            && r[|r| - 3] == ','
            && (forall i :: 0 <= i < |r| && i != |r| - 3 ==> r[i] != ',')
            && r[|r| - 2..] == TwoDigits(cents % 100)
  {
    FormatBRLParts(cents);
    var g, t := Grouped(cents / 100), TwoDigits(cents % 100);
    var r := FormatBRL(cents);
    assert r == Prefix + g + "," + t;
    forall i | 0 <= i < |r| && i != |r| - 3
      ensures r[i] != ','
      ensures |Prefix| <= i < |r| - 3 ==> IsDigit(r[i]) || r[i] == '.'
    {
      if i < |Prefix| {
        assert r[i] == Prefix[i];
      } else if i < |r| - 3 {
        assert r[i] == g[i - |Prefix|];
      } else {
        assert r[i] == t[i - (|r| - 2)];
      }
    }
  }

  /** The digits of the text of a non-negative amount spell the amount in
      cents, so the text determines the amount. */
  lemma FormatBRLDigits(cents: nat)
    ensures StripNonDigits(FormatBRL(cents)) == StripNonDigits(Grouped(cents / 100)) + TwoDigits(cents % 100)
    ensures DigitValue(StripNonDigits(FormatBRL(cents))) == cents
  {
    var g, t := Grouped(cents / 100), TwoDigits(cents % 100);
    FormatBRLParts(cents);
    PrefixHasNoDigits();
    StripAround(Prefix, g, ',', t);
    GroupedDigits(cents / 100);
    DigitValueConcat(StripNonDigits(g), t);
    Pow10Three();
    DivMod(cents, 100, DigitValue(StripNonDigits(g)), DigitValue(t));
  }

  /** Different amounts never share a text. */
  lemma FormatBRLInjective(a: nat, b: nat)
    requires FormatBRL(a) == FormatBRL(b)
    ensures a == b
  {
    FormatBRLDigits(a);
    FormatBRLDigits(b);
  }
}
