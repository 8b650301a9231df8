/**
 * Cleaning of one cell of a currency or MoM % column (main.py:17-24).
 *
 * A cell holds what pandas holds after reading the sheet: text, a number, or
 * a missing value (NaN). Cleaning a currency cell removes every `$` and `,`,
 * turns a cell that is then exactly "-" into "0" and parses the rest as a
 * decimal number; text that does not parse becomes Missing instead of
 * raising. A MoM % cell is cleaned the same way with only `%` removed.
 */
module Cleaning {
  import opened Wrappers

  datatype Cell = Text(s: string) | Num(v: real) | Missing

  /** The two families of columns that load_data cleans. */
  datatype ColumnKind = Currency | Percent

  /** The characters each family strips (the regex `[\$,]`, and `%`). */
  function Stripped(kind: ColumnKind): set<char>
  {
    match kind
    case Currency => {'$', ','}
    case Percent => {'%'}
  }

  // ---------------------------------------------------------------------
  // Removing characters
  // ---------------------------------------------------------------------

  /** `s` with every character of `drop` removed, the rest kept in order. */
  function Remove(s: string, drop: set<char>): (r: string)
    ensures |r| <= |s|
    ensures forall i :: 0 <= i < |r| ==> r[i] !in drop
  {
    if s == [] then []
    else (if s[0] in drop then [] else [s[0]]) + Remove(s[1..], drop)
  }

  lemma {:induction false} RemoveAppend(a: string, b: string, drop: set<char>)
    ensures Remove(a + b, drop) == Remove(a, drop) + Remove(b, drop)
  {
    if a == [] {
      assert a + b == b;
    } else {
      assert (a + b)[1..] == a[1..] + b;
      RemoveAppend(a[1..], b, drop);
    }
  }

  /** Removal changes nothing in a string that holds none of the characters. */
  lemma {:induction false} RemoveNothing(s: string, drop: set<char>)
    requires forall i :: 0 <= i < |s| ==> s[i] !in drop
    ensures Remove(s, drop) == s
  {
    if s != [] {
      RemoveNothing(s[1..], drop);
    }
  }

  /** Removal keeps every other character: each one is counted as often as before. */
  lemma {:induction false} RemoveKeepsOthers(s: string, drop: set<char>, c: char)
    requires c !in drop
    ensures multiset(Remove(s, drop))[c] == multiset(s)[c]
  {
    if s != [] {
      RemoveKeepsOthers(s[1..], drop, c);
      assert s == [s[0]] + s[1..];
    }
  }

  /** Every character left after removal was in the original string. */
  lemma {:induction false} RemoveFrom(s: string, drop: set<char>, c: char)
    requires c in Remove(s, drop)
    ensures c in s
  {
    if s != [] && !(c in Remove(s[1..], drop)) {
      assert c == s[0];
    } else if s != [] {
      RemoveFrom(s[1..], drop, c);
    }
  }

  lemma RemoveIdempotent(s: string, drop: set<char>)
    ensures Remove(Remove(s, drop), drop) == Remove(s, drop)
  {
    RemoveNothing(Remove(s, drop), drop);
  }

  // ---------------------------------------------------------------------
  // Decimal numbers
  // ---------------------------------------------------------------------

  predicate IsDigit(c: char)
  {
    '0' <= c <= '9'
  }

  predicate AllDigits(s: string)
  {
    forall i :: 0 <= i < |s| ==> IsDigit(s[i])
  }

  function DigitValue(c: char): nat
    requires IsDigit(c)
  {
    c as int - '0' as int
  }

  /** The value of a string of decimal digits, most significant first. */
  function DigitsValue(s: string): nat
    requires AllDigits(s)
  {
    if s == [] then 0 else DigitsValue(s[..|s| - 1]) * 10 + DigitValue(s[|s| - 1])
  }

  /** The value of the digits after a decimal point: "5" is 0.5, "05" is 0.05. */
  function FracValue(s: string): (v: real)
    requires AllDigits(s)
    ensures 0.0 <= v <= 1.0
  {
    if s == [] then 0.0 else (DigitValue(s[0]) as real + FracValue(s[1..])) / 10.0
  }

  /** The index of the first `c` in `s`, or `|s|` when there is none. */
  function Find(s: string, c: char): (k: nat)
    ensures k <= |s|
    ensures k < |s| ==> s[k] == c
    ensures forall i :: 0 <= i < k ==> s[i] != c
  {
    if s == [] then 0 else if s[0] == c then 0 else 1 + Find(s[1..], c)
  }

  /** The value of the digits `whole`, a decimal point and the digits `frac`. */
  function DecimalValue(whole: string, frac: string): (v: real)
    requires AllDigits(whole) && AllDigits(frac)
    ensures v >= 0.0
  {
    DigitsValue(whole) as real + FracValue(frac)
  }

  /**
   * An unsigned decimal: digits, optionally a point and more digits, with at
   * least one digit in all ("5", "5.", ".5", "1234.50").
   */
  function ParseUnsigned(s: string): (r: Option<real>)
    ensures r.Some? ==> r.value >= 0.0
  {
    var k := Find(s, '.');
    var whole := s[..k];
    var frac := if k < |s| then s[k + 1..] else [];
    if AllDigits(whole) && AllDigits(frac) && |whole| + |frac| > 0 then
      assert |whole| > 0 ==> IsDigit(s[0]);
      assert |whole| == 0 ==> IsDigit(s[k + 1]);
      Some(DecimalValue(whole, frac))
    else
      None
  }

  /** A decimal number with an optional leading sign, as pandas' to_numeric reads it. */
  function ParseDecimal(s: string): (r: Option<real>)
    ensures r.Some? ==> exists i :: 0 <= i < |s| && IsDigit(s[i])
    ensures |s| > 0 && AllDigits(s) ==> r == Some(DigitsValue(s) as real)
  {
    if |s| > 0 && (s[0] == '-' || s[0] == '+') then
      match ParseUnsigned(s[1..])
      case Some(v) => Some(if s[0] == '-' then -v else v)
      case None => None
    else
      DigitsParse(s);
      ParseUnsigned(s)
  }

  /** A plain digit string parses as its integer value. */
  lemma DigitsParse(s: string)
    ensures |s| > 0 && AllDigits(s) ==> ParseUnsigned(s) == Some(DigitsValue(s) as real)
  {
    if |s| > 0 && AllDigits(s) {
      assert s[..|s|] == s;
      assert DecimalValue(s, []) == DigitsValue(s) as real;
    }
  }

  /** A character other than a digit or the point makes unsigned text unparseable. */
  lemma UnsignedRejects(s: string, j: nat)
    requires j < |s| && !IsDigit(s[j]) && s[j] != '.'
    ensures ParseUnsigned(s) == None
  {
    var k := Find(s, '.');
    if j < k {
      assert s[..k][j] == s[j];
    } else {
      assert j > k && k < |s|;
      assert s[k + 1..][j - k - 1] == s[j];
    }
  }

  /**
   * A character other than a digit or the point, anywhere after the first
   * position, makes the text unparseable: the number is then Missing.
   */
  lemma StrayCharRejected(s: string, i: nat)
    requires 0 < i < |s| && !IsDigit(s[i]) && s[i] != '.'
    ensures ParseDecimal(s) == None
  {
    if s[0] == '-' || s[0] == '+' {
      UnsignedRejects(s[1..], i - 1);
    } else {
      UnsignedRejects(s, i);
    }
  }

  /**
   * The text an unsigned decimal may be, stated character by character: only
   * digits and points, at most one point, and at least one digit.
   */
  predicate UnsignedText(s: string)
  {
    && (forall i :: 0 <= i < |s| ==> IsDigit(s[i]) || s[i] == '.')
    && (forall i, j :: 0 <= i < j < |s| && s[i] == '.' ==> s[j] != '.')
    && (exists i :: 0 <= i < |s| && IsDigit(s[i]))
  }

  lemma ParsedIsUnsignedText(s: string)
    requires ParseUnsigned(s).Some?
    ensures UnsignedText(s)
  {
    var k := Find(s, '.');
    var frac := if k < |s| then s[k + 1..] else [];
    assert AllDigits(s[..k]) && AllDigits(frac);
    forall i | 0 <= i < |s|
      ensures IsDigit(s[i]) || s[i] == '.'
      ensures i > k ==> IsDigit(s[i])
    {
      if i < k {
        assert s[..k][i] == s[i];
      } else if i > k {
        assert frac[i - k - 1] == s[i];
      }
    }
    if k > 0 {
      assert s[..k][0] == s[0];
    } else {
      assert frac[0] == s[k + 1];
    }
  }

  lemma UnsignedTextParses(s: string)
    requires UnsignedText(s)
    ensures ParseUnsigned(s).Some?
  {
    var k := Find(s, '.');
    var whole := s[..k];
    var frac := if k < |s| then s[k + 1..] else [];
    assert AllDigits(whole) by {
      forall i | 0 <= i < |whole| ensures IsDigit(whole[i]) {
        assert whole[i] == s[i];
      }
    }
    assert AllDigits(frac) by {
      forall i | 0 <= i < |frac| ensures IsDigit(frac[i]) {
        assert frac[i] == s[k + 1 + i];
        assert s[k] == '.';
      }
    }
    var d :| 0 <= d < |s| && IsDigit(s[d]);
    if d < k {
      assert |whole| > 0;
    } else {
      assert d > k && |frac| > 0;
    }
  }

  /** Exactly the unsigned decimal texts parse: "5", "5.", ".5", "1234.50", but not "1.2.3". */
  lemma UnsignedForm(s: string)
    ensures ParseUnsigned(s).Some? <==> UnsignedText(s)
  {
    if ParseUnsigned(s).Some? {
      ParsedIsUnsignedText(s);
    }
    if UnsignedText(s) {
      UnsignedTextParses(s);
    }
  }

  /** A signed decimal parses exactly when it is unsigned text, optionally after one sign. */
  lemma DecimalForm(s: string)
    ensures ParseDecimal(s).Some? <==>
      UnsignedText(s) || (|s| > 0 && (s[0] == '-' || s[0] == '+') && UnsignedText(s[1..]))
  {
    UnsignedForm(s);
    if |s| > 0 {
      UnsignedForm(s[1..]);
      if s[0] == '-' || s[0] == '+' {
        assert !UnsignedText(s);
      }
    }
  }

  /** A second point makes the text unparseable, signed or not ("1.2.3"). */
  lemma SecondPointRejected(s: string, i: nat, j: nat)
    requires i < j < |s| && s[i] == '.' && s[j] == '.'
    ensures ParseDecimal(s) == None
  {
    DecimalForm(s);
    if |s| > 0 && (s[0] == '-' || s[0] == '+') {
      assert s[1..][i - 1] == '.' && s[1..][j - 1] == '.';
    }
  }

  /** No digit is needed before the point: ".5" is a half. */
  lemma LeadingPoint(frac: string)
    requires |frac| > 0 && AllDigits(frac)
    ensures ParseUnsigned("." + frac) == Some(FracValue(frac))
  {
    var s := "." + frac;
    assert Find(s, '.') == 0;
    assert s[1..] == frac;
  }

  /** A leading minus negates the value of what follows it. */
  lemma MinusNegates(s: string)
    requires ParseUnsigned(s).Some?
    ensures ParseDecimal("-" + s) == Some(-ParseUnsigned(s).value)
  {
    assert ("-" + s)[1..] == s;
  }

  // ---------------------------------------------------------------------
  // The cleaning pipeline of one cell
  // ---------------------------------------------------------------------

  /** `replace(pattern, '', regex=True)`: only text cells are touched. */
  function StripCell(c: Cell, drop: set<char>): Cell
  {
    match c
    case Text(s) => Text(Remove(s, drop))
    case _ => c
  }

  /** `replace('-', '0')`: a whole-cell match, not a substring replacement. */
  function DashCell(c: Cell): Cell
  {
    if c == Text("-") then Text("0") else c
  }

  /** `to_numeric(errors='coerce')`: text that does not parse becomes Missing. */
  function ToNumeric(c: Cell): (r: Cell)
    ensures !r.Text?
    ensures !c.Text? ==> r == c
  {
    match c
    case Text(s) =>
      (match ParseDecimal(s)
       case Some(v) => Num(v)
       case None => Missing)
    case _ => c
  }

  /** One cell of a column of the given family after lines 18-19 or 23-24. */
  function CleanCell(kind: ColumnKind, c: Cell): (r: Cell)
    ensures !r.Text?
    ensures !c.Text? ==> r == c
  {
    ToNumeric(DashCell(StripCell(c, Stripped(kind))))
  }

  /** The whole column, cell by cell. */
  function CleanColumnCells(kind: ColumnKind, col: seq<Cell>): (r: seq<Cell>)
    ensures |r| == |col|
    ensures forall i :: 0 <= i < |col| ==> r[i] == CleanCell(kind, col[i])
  {
    seq(|col|, i requires 0 <= i < |col| => CleanCell(kind, col[i]))
  }

  // ---------------------------------------------------------------------
  // Properties of cleaning
  // ---------------------------------------------------------------------

  /**
   * What a text cell becomes: the dash rule applies exactly when the stripped
   * text is the whole string "-", and otherwise the stripped text is parsed.
   */
  lemma CleanText(kind: ColumnKind, s: string)
    ensures var t := Remove(s, Stripped(kind));
      CleanCell(kind, Text(s)) ==
        if t == "-" then Num(0.0)
        else match ParseDecimal(t) case Some(v) => Num(v) case None => Missing
  {
    var t := Remove(s, Stripped(kind));
    if t == "-" {
      assert ParseDecimal("0") == Some(0.0) by { assert AllDigits("0"); }
    }
  }

  /** Cleaning is idempotent: a cleaned cell is number or missing and stays as it is. */
  lemma CleanIdempotent(kind: ColumnKind, other: ColumnKind, c: Cell)
    ensures CleanCell(other, CleanCell(kind, c)) == CleanCell(kind, c)
  {
  }

  lemma CleanColumnIdempotent(kind: ColumnKind, other: ColumnKind, col: seq<Cell>)
    ensures CleanColumnCells(other, CleanColumnCells(kind, col)) == CleanColumnCells(kind, col)
  {
  }

  /** Removing the family's characters first changes nothing: stripping is absorbed. */
  lemma CleanAbsorbsStrip(kind: ColumnKind, s: string)
    ensures CleanCell(kind, Text(Remove(s, Stripped(kind)))) == CleanCell(kind, Text(s))
  {
    RemoveIdempotent(s, Stripped(kind));
  }

  /** A currency cell `-` or `$-` becomes zero; a percent cell `-` or `-%` too. */
  lemma DashIsZero()
    ensures CleanCell(Currency, Text("-")) == Num(0.0)
    ensures CleanCell(Currency, Text("$-")) == Num(0.0)
    ensures CleanCell(Percent, Text("-")) == Num(0.0)
    ensures CleanCell(Percent, Text("-%")) == Num(0.0)
  {
    CleanText(Currency, "-");
    CleanText(Currency, "$-");
    CleanText(Percent, "-");
    CleanText(Percent, "-%");
  }

  /** Text with no digit left after stripping is never a number, and never an error. */
  lemma NoDigitIsMissing(kind: ColumnKind, s: string)
    requires Remove(s, Stripped(kind)) != "-"
    requires forall i :: 0 <= i < |s| ==> !IsDigit(s[i])
    ensures CleanCell(kind, Text(s)) == Missing
  {
    var t := Remove(s, Stripped(kind));
    CleanText(kind, s);
    if ParseDecimal(t).Some? {
      var i :| 0 <= i < |t| && IsDigit(t[i]);
      RemoveFrom(s, Stripped(kind), t[i]);
    }
  }
}
