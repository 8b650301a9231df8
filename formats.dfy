/**
 * The display forms the dashboard prints (`${x:,.0f}` at main.py:35-37 and
 * `{x:.2f}%` at main.py:35-36), written for whole amounts and for whole
 * hundredths of a percent, and the proof that cleaning reads them back.
 */
module Formats {
  import opened Wrappers
  import opened Cleaning

  function DigitChar(d: nat): (c: char)
    requires d < 10
    ensures IsDigit(c) && DigitValue(c) == d
  {
    ('0' as int + d) as char
  }

  /** The decimal digits of `n`, most significant first, without leading zeros. */
  function NatDigits(n: nat): (s: string)
    ensures |s| > 0 && AllDigits(s)
  {
    if n < 10 then [DigitChar(n)] else NatDigits(n / 10) + [DigitChar(n % 10)]
  }

  lemma {:induction false} NatDigitsValue(n: nat)
    ensures DigitsValue(NatDigits(n)) == n
  {
    if n >= 10 {
      var s := NatDigits(n);
      assert s[..|s| - 1] == NatDigits(n / 10);
      NatDigitsValue(n / 10);
    }
  }

  /** Digits with a `,` between every group of three, counted from the right. */
  function Grouped(s: string): (r: string)
    decreases |s|
  {
    if |s| <= 3 then s else Grouped(s[..|s| - 3]) + "," + s[|s| - 3..]
  }

  /** `${x:,.0f}` of a whole amount. Python puts the sign after the `$`. */
  function CurrencyText(n: int): string
  {
    "$" + (if n < 0 then "-" else "") + Grouped(NatDigits(if n < 0 then -n else n))
  }

  /** `{x:.2f}%` of `m` hundredths. */
  function PercentText(m: int): string
  {
    var a := if m < 0 then -m else m;
    (if m < 0 then "-" else "") + Hundredths(a) + "%"
  }

  lemma {:induction false} RemoveGrouping(s: string)
    requires AllDigits(s)
    ensures Remove(Grouped(s), {'$', ','}) == s
    decreases |s|
  {
    if |s| <= 3 {
      DigitsKept(s);
    } else {
      var a, b := s[..|s| - 3], s[|s| - 3..];
      var d := {'$', ','};
      DigitParts(s, |s| - 3);
      calc {
        Remove(Grouped(s), d);
        { GroupedSplit(s); }
        Remove((Grouped(a) + ",") + b, d);
        { RemoveAppend(Grouped(a) + ",", b, d); }
        Remove(Grouped(a) + ",", d) + Remove(b, d);
        { RemoveAppend(Grouped(a), ",", d); CommaRemoved(); }
        Remove(Grouped(a), d) + Remove(b, d);
        { RemoveGrouping(a); DigitsKept(b); }
        a + b;
        { assert a + b == s; }
        s;
      }
    }
  }

  lemma GroupedSplit(s: string)
    requires |s| > 3
    ensures Grouped(s) == (Grouped(s[..|s| - 3]) + ",") + s[|s| - 3..]
  {
  }

  lemma DigitParts(s: string, k: nat)
    requires AllDigits(s) && k <= |s|
    ensures AllDigits(s[..k]) && AllDigits(s[k..])
  {
    assert forall i :: 0 <= i < k ==> s[..k][i] == s[i];
    assert forall i :: 0 <= i < |s| - k ==> s[k..][i] == s[k + i];
  }

  lemma DigitsKept(s: string)
    requires AllDigits(s)
    ensures Remove(s, {'$', ','}) == s
  {
    assert forall i :: 0 <= i < |s| ==> IsDigit(s[i]);
    RemoveNothing(s, {'$', ','});
  }

  lemma CommaRemoved()
    ensures Remove(",", {'$', ','}) == ""
  {
    assert ","[1..] == "";
  }

  lemma {:induction false} FindFirst(p: string, c: char, q: string)
    requires forall i :: 0 <= i < |p| ==> p[i] != c
    ensures Find(p + [c] + q, c) == |p|
  {
    if p != [] {
      assert (p + [c] + q)[1..] == p[1..] + [c] + q;
      FindFirst(p[1..], c, q);
    }
  }

  /** A digit string, then optionally a point and a digit string, parses as its value. */
  lemma UnsignedValue(whole: string, frac: string)
    requires AllDigits(whole) && AllDigits(frac) && |whole| > 0
    ensures ParseUnsigned(whole + "." + frac) == Some(DecimalValue(whole, frac))
  {
    var s := whole + "." + frac;
    assert s[|whole|] == '.';
    FindFirst(whole, '.', frac);
    assert whole + "." + frac == whole + ['.'] + frac;
    assert s[..|whole|] == whole;
    assert s[|whole| + 1..] == frac;
  }

  /** `CurrencyText(n)` without its `$` and separators: the sign, then the digits. */
  function SignedDigits(n: int): string
  {
    if n < 0 then "-" + NatDigits(-n) else NatDigits(n)
  }

  lemma CurrencyTextStripped(n: int)
    ensures Remove(CurrencyText(n), {'$', ','}) == SignedDigits(n)
  {
    var d := NatDigits(if n < 0 then -n else n);
    var sign := if n < 0 then "-" else "";
    assert CurrencyText(n) == ("$" + sign) + Grouped(d);
    RemoveAppend("$" + sign, Grouped(d), {'$', ','});
    RemoveAppend("$", sign, {'$', ','});
    RemoveGrouping(d);
  }

  lemma SignedDigitsValue(n: int)
    ensures ParseDecimal(SignedDigits(n)) == Some(n as real)
  {
    var a := if n < 0 then -n else n;
    var d := NatDigits(a);
    NatDigitsValue(a);
    DigitsParse(d);
    if n < 0 {
      MinusNegates(d);
    } else {
      assert IsDigit(d[0]);
    }
  }

  /** Cleaning a currency cell reads back every whole amount the dashboard displays. */
  lemma CurrencyRoundTrip(n: int)
    ensures CleanCell(Currency, Text(CurrencyText(n))) == Num(n as real)
  {
    CurrencyTextStripped(n);
    SignedDigitsValue(n);
    assert |SignedDigits(n)| != 1 || SignedDigits(n)[0] != '-';
    CleanParsed(Currency, CurrencyText(n), n as real);
  }

  /** The unsigned part of `PercentText`: the digits of `a / 100`, a point, two digits. */
  function Hundredths(a: nat): string
  {
    NatDigits(a / 100) + "." + TwoDigits(a % 100)
  }

  function TwoDigits(r: nat): (s: string)
    requires r < 100
    ensures |s| == 2 && AllDigits(s)
  {
    [DigitChar(r / 10), DigitChar(r % 10)]
  }

  lemma TwoDigitsFraction(r: nat)
    requires r < 100
    ensures FracValue(TwoDigits(r)) == r as real / 100.0
  {
    var s := TwoDigits(r);
    assert s[1..][1..] == [];
    assert FracValue(s[1..]) == (r % 10) as real / 10.0;
    assert FracValue(s) == ((r / 10) as real + (r % 10) as real / 10.0) / 10.0;
    assert r == (r / 10) * 10 + r % 10;
  }

  lemma HundredthsValue(a: nat)
    ensures ParseUnsigned(Hundredths(a)) == Some(a as real / 100.0)
  {
    var q, r := a / 100, a % 100;
    UnsignedValue(NatDigits(q), TwoDigits(r));
    NatDigitsValue(q);
    TwoDigitsFraction(r);
    assert a == 100 * q + r;
    assert DecimalValue(NatDigits(q), TwoDigits(r)) == q as real + r as real / 100.0;
  }

  lemma HundredthsHasNoPercent(a: nat)
    ensures forall i :: 0 <= i < |Hundredths(a)| ==> Hundredths(a)[i] != '%'
  {
    var d := NatDigits(a / 100);
    assert forall i :: 0 <= i < |d| ==> IsDigit(d[i]);
  }

  /** `PercentText(m)` with its `%` removed: the sign, then `Hundredths`. */
  function SignedHundredths(m: int): string
  {
    var a := if m < 0 then -m else m;
    if m < 0 then "-" + Hundredths(a) else Hundredths(a)
  }

  lemma PercentTextStripped(m: int)
    ensures Remove(PercentText(m), {'%'}) == SignedHundredths(m)
  {
    var a := if m < 0 then -m else m;
    var body := Hundredths(a);
    var t := SignedHundredths(m);
    assert PercentText(m) == t + "%";
    assert Remove(t, {'%'}) == t by {
      HundredthsHasNoPercent(a);
      RemoveNothing(body, {'%'});
      RemoveAppend("-", body, {'%'});
    }
    RemoveAppend(t, "%", {'%'});
  }

  /** A text cell whose stripped text is a number other than the lone dash becomes that number. */
  lemma CleanParsed(kind: ColumnKind, s: string, x: real)
    requires Remove(s, Stripped(kind)) != "-"
    requires ParseDecimal(Remove(s, Stripped(kind))) == Some(x)
    ensures CleanCell(kind, Text(s)) == Num(x)
  {
    CleanText(kind, s);
  }

  lemma SignedHundredthsValue(m: int)
    ensures ParseDecimal(SignedHundredths(m)) == Some(m as real / 100.0)
    ensures |SignedHundredths(m)| >= 4
  {
    var a := if m < 0 then -m else m;
    HundredthsValue(a);
    ParsePercentBody(m, a, Hundredths(a), SignedHundredths(m));
  }

  /** Cleaning a MoM % cell reads back every value the dashboard displays with two decimals. */
  lemma PercentRoundTrip(m: int)
    ensures CleanCell(Percent, Text(PercentText(m))) == Num(m as real / 100.0)
  {
    PercentTextStripped(m);
    SignedHundredthsValue(m);
    CleanParsed(Percent, PercentText(m), m as real / 100.0);
  }

  lemma ParsePercentBody(m: int, a: nat, body: string, t: string)
    requires a == if m < 0 then -m else m
    requires ParseUnsigned(body) == Some(a as real / 100.0)
    requires |body| > 0 && IsDigit(body[0])
    requires t == if m < 0 then "-" + body else body
    ensures ParseDecimal(t) == Some(m as real / 100.0)
  {
    if m < 0 {
      MinusNegates(body);
    }
  }

  lemma GroupedAmountStripped()
    ensures Remove("$1,234.50", {'$', ','}) == "1234" + "." + "50"
  {
    assert "$1,234.50" == "$1," + "234.50";
    RemoveAppend("$1,", "234.50", {'$', ','});
    LeadingSeparatorsStripped();
    FractionKept();
    assert "1" + "234.50" == "1234" + "." + "50";
  }

  lemma LeadingSeparatorsStripped()
    ensures Remove("$1,", {'$', ','}) == "1"
  {
    assert "$1,"[1..] == "1,";
    assert "1,"[1..] == ",";
    CommaRemoved();
  }

  lemma FractionKept()
    ensures Remove("234.50", {'$', ','}) == "234.50"
  {
    assert forall i :: 0 <= i < |"234.50"| ==> "234.50"[i] in "0123456789.";
    RemoveNothing("234.50", {'$', ','});
  }

  lemma GroupedAmountParsed()
    ensures ParseDecimal("1234" + "." + "50") == Some(1234.5)
  {
    assert DigitsValue("1234") == 1234 by {
      assert "1234"[..3] == "123" && "123"[..2] == "12" && "12"[..1] == "1" && "1"[..0] == [];
    }
    assert FracValue("50") == 0.5 by {
      assert "50"[1..] == "0" && "0"[1..] == [];
    }
    UnsignedValue("1234", "50");
  }

  /** Worked example of the currency rule: every `$` and `,` goes. */
  lemma GroupedAmountExample()
    ensures CleanCell(Currency, Text("$1,234.50")) == Num(1234.5)
  {
    GroupedAmountStripped();
    GroupedAmountParsed();
    CleanParsed(Currency, "$1,234.50", 1234.5);
  }

  /** Worked example of the currency rule: the sign in front of the `$` stays. */
  lemma NegativeAmountExample()
    ensures CleanCell(Currency, Text("-$250")) == Num(-250.0)
  {
    assert Remove("-$250", {'$', ','}) == "-" + "250";
    assert DigitsValue("250") == 250 by {
      assert "250"[..2] == "25" && "25"[..1] == "2" && "2"[..0] == [];
    }
    DigitsParse("250");
    MinusNegates("250");
    CleanParsed(Currency, "-$250", -250.0);
  }

  lemma PercentTextExample()
    ensures PercentText(1234) == "12.34%" && PercentText(-1234) == "-12.34%"
  {
    assert NatDigits(12) == "12";
    assert TwoDigits(34) == "34";
  }

  /** Worked example of the percent rule: `%` goes. */
  lemma PercentExample()
    ensures CleanCell(Percent, Text("12.34%")) == Num(12.34)
  {
    PercentTextExample();
    PercentRoundTrip(1234);
  }

  /** Worked example of the percent rule: a leading minus keeps its sign. */
  lemma NegativePercentExample()
    ensures CleanCell(Percent, Text("-12.34%")) == Num(-12.34)
  {
    PercentTextExample();
    PercentRoundTrip(-1234);
  }

  /** Text that is not a number after stripping becomes Missing, never an error. */
  lemma MissingExamples()
    ensures CleanCell(Currency, Text("")) == Missing
    ensures CleanCell(Currency, Text("abc")) == Missing
    ensures CleanCell(Percent, Text("%")) == Missing
  {
    EmptyIsMissing();
    WordIsMissing();
    LoneSignIsMissing();
  }

  lemma EmptyIsMissing()
    ensures CleanCell(Currency, Text("")) == Missing
  {
    NoDigitIsMissing(Currency, "");
  }

  lemma WordIsMissing()
    ensures CleanCell(Currency, Text("abc")) == Missing
  {
    NoDigitIsMissing(Currency, "abc");
  }

  lemma LoneSignIsMissing()
    ensures CleanCell(Percent, Text("%")) == Missing
  {
    NoDigitIsMissing(Percent, "%");
  }

  /** A thousands separator is not stripped from a MoM % cell, so it does not parse. */
  lemma SeparatorInPercentIsMissing()
    ensures CleanCell(Percent, Text("1,234%")) == Missing
  {
    assert Remove("1,234%", {'%'}) == "1,234";
    StrayCharRejected("1,234", 1);
    CleanText(Percent, "1,234%");
  }
}
