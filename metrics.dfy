/**
 * The values the dashboard derives from the loaded frame: the latest row
 * (main.py:29), total sales (main.py:37), the increase/decrease highlight
 * (main.py:42-44) and the month of peak MoM growth per channel
 * (main.py:81-82).
 *
 * The loaded frame is read as a sequence of records, one per row in row
 * order, with the month label and the six cleaned numbers (None for NaN).
 */
module Metrics {
  import opened Wrappers
  import opened Cleaning
  import opened Loading

  /** A cleaned numeric cell: a value, or None for NaN. */
  type Number = Option<real>

  datatype Record = Record(
    month: Cell,
    websiteNetSales: Number,
    websiteDelta: Number,
    amazonNetSales: Number,
    amazonDelta: Number,
    momWebsite: Number,
    momAmazon: Number)

  function AsNumber(c: Cell): (n: Number)
    requires !c.Text?
    ensures n.Some? <==> c.Num?
    ensures c.Num? ==> n.value == c.v
  {
    if c.Num? then Some(c.v) else None
  }

  /** Cell `i` of the column called `name` of a loaded frame, read as a number. */
  function NumberAt(t: Table, name: string, i: nat): Number
    requires WellFormed(t) && name in t.header && NumericColumn(t, name) && i < t.height
  {
    var j := IndexOf(t.header, name).value;
    AsNumber(t.columns[j][i])
  }

  /** The rows of a loaded frame. A frame without a Month column has no month labels to show. */
  function Records(t: Table): (r: Result<seq<Record>, LoadError>)
    requires WellFormed(t) && NumericColumns(t) && HasRequired(t.header)
    ensures r.Err? <==> MonthColumn !in t.header
    ensures r.Err? ==> r.error == MissingColumn(MonthColumn)
    ensures r.Ok? ==> |r.value| == t.height
  {
    match IndexOf(t.header, MonthColumn)
    case None => Err(MissingColumn(MonthColumn))
    case Some(m) =>
      Ok(seq(t.height, i requires 0 <= i < t.height =>
        Record(
          t.columns[m][i],
          NumberAt(t, WebsiteNetSales, i),
          NumberAt(t, WebsiteDelta, i),
          NumberAt(t, AmazonNetSales, i),
          NumberAt(t, AmazonDelta, i),
          NumberAt(t, MomWebsite, i),
          NumberAt(t, MomAmazon, i))))
  }

  /** The sheet, loaded and read as records: a row per record, in row order. */
  function Dataset(raw: Table): (r: Result<seq<Record>, LoadError>)
    requires WellFormed(raw)
    ensures r.Ok? ==> |r.value| == raw.height
    ensures r.Err? <==> Normalize(raw).Err? || MonthColumn !in TrimAll(raw.header)
  {
    match Normalize(raw)
    case Err(e) => Err(e)
    case Ok(t) =>
      NormalizeNumeric(raw);
      NormalizeHasRequired(raw);
      Records(t)
  }

  /** Loading fails exactly when one of the six names or Month heads no column once trimmed. */
  lemma DatasetFails(raw: Table)
    requires WellFormed(raw)
    ensures Dataset(raw).Err? <==>
      (exists k :: 0 <= k < |Required| && Required[k] !in TrimAll(raw.header))
      || MonthColumn !in TrimAll(raw.header)
  {
    NormalizeFails(raw);
  }

  /** Record `i` of a loaded frame, field by field. */
  lemma RecordsAt(t: Table, i: nat)
    requires WellFormed(t) && NumericColumns(t) && HasRequired(t.header)
    requires Records(t).Ok? && i < t.height
    ensures var r := Records(t).value[i];
      && r.month == t.columns[IndexOf(t.header, MonthColumn).value][i]
      && r.websiteNetSales == NumberAt(t, WebsiteNetSales, i)
      && r.websiteDelta == NumberAt(t, WebsiteDelta, i)
      && r.amazonNetSales == NumberAt(t, AmazonNetSales, i)
      && r.amazonDelta == NumberAt(t, AmazonDelta, i)
      && r.momWebsite == NumberAt(t, MomWebsite, i)
      && r.momAmazon == NumberAt(t, MomAmazon, i)
  {
  }

  /** Record `i` of the dataset is record `i` of the loaded frame. */
  lemma DatasetRecord(raw: Table, i: nat)
    requires WellFormed(raw) && Dataset(raw).Ok? && i < raw.height
    ensures var t := Normalize(raw).value;
      && WellFormed(t) && NumericColumns(t) && HasRequired(t.header) && t.height == raw.height
      && t.header == TrimAll(raw.header) && Records(t).Ok? && Dataset(raw).value[i] == Records(t).value[i]
  {
    NormalizeNumeric(raw);
    NormalizeHasRequired(raw);
  }

  /** The number a loaded frame holds at row `i` of a cleaned column is the sheet's cell, cleaned. */
  lemma LoadedNumber(raw: Table, name: string, kind: ColumnKind, i: nat)
    requires WellFormed(raw) && Normalize(raw).Ok? && name in Family(kind) && i < raw.height
    ensures name in TrimAll(raw.header)
    ensures var t := Normalize(raw).value;
      WellFormed(t) && name in t.header && NumericColumn(t, name) && i < t.height
    ensures NumberAt(Normalize(raw).value, name, i) == AsNumber(CleanCell(kind, SheetCell(raw, name, i)))
  {
    LoadedCell(raw, name, kind, i);
    NumericAfterLoad(raw, name, kind);
  }

  /** The sales of record `i`: its two net-sales and two delta columns, cleaned as currency. */
  lemma DatasetSalesAt(raw: Table, i: nat)
    requires WellFormed(raw) && Dataset(raw).Ok? && i < raw.height
    ensures HasRequired(TrimAll(raw.header))
    ensures var r := Dataset(raw).value[i];
      && r.websiteNetSales == AsNumber(CleanCell(Currency, SheetCell(raw, WebsiteNetSales, i)))
      && r.websiteDelta == AsNumber(CleanCell(Currency, SheetCell(raw, WebsiteDelta, i)))
      && r.amazonNetSales == AsNumber(CleanCell(Currency, SheetCell(raw, AmazonNetSales, i)))
      && r.amazonDelta == AsNumber(CleanCell(Currency, SheetCell(raw, AmazonDelta, i)))
  {
    LoadedNumber(raw, WebsiteNetSales, Currency, i);
    LoadedNumber(raw, WebsiteDelta, Currency, i);
    LoadedNumber(raw, AmazonNetSales, Currency, i);
    LoadedNumber(raw, AmazonDelta, Currency, i);
    DatasetRecord(raw, i);
    RecordsAt(Normalize(raw).value, i);
  }

  /** The month label of record `i`: the sheet's Month cell as it stands. */
  lemma DatasetMonthAt(raw: Table, i: nat)
    requires WellFormed(raw) && Dataset(raw).Ok? && i < raw.height
    ensures MonthColumn in TrimAll(raw.header)
    ensures Dataset(raw).value[i].month == SheetCell(raw, MonthColumn, i)
  {
    LoadedMonth(raw, i);
    DatasetRecord(raw, i);
    RecordsAt(Normalize(raw).value, i);
  }

  /** The MoM % of record `i`: the sheet's two percent cells, cleaned as percentages. */
  lemma DatasetMomAt(raw: Table, i: nat)
    requires WellFormed(raw) && Dataset(raw).Ok? && i < raw.height
    ensures HasRequired(TrimAll(raw.header))
    ensures var r := Dataset(raw).value[i];
      && r.momWebsite == AsNumber(CleanCell(Percent, SheetCell(raw, MomWebsite, i)))
      && r.momAmazon == AsNumber(CleanCell(Percent, SheetCell(raw, MomAmazon, i)))
  {
    LoadedNumber(raw, MomWebsite, Percent, i);
    LoadedNumber(raw, MomAmazon, Percent, i);
    DatasetRecord(raw, i);
    RecordsAt(Normalize(raw).value, i);
  }

  /**
   * Record `i` of the dataset is row `i` of the sheet: the Month cell as it
   * stands and each of the six cells cleaned by its column's rule.
   */
  lemma DatasetAt(raw: Table, i: nat)
    requires WellFormed(raw) && Dataset(raw).Ok? && i < raw.height
    ensures HasRequired(TrimAll(raw.header)) && MonthColumn in TrimAll(raw.header)
    ensures Dataset(raw).value[i] == Record(
      SheetCell(raw, MonthColumn, i),
      AsNumber(CleanCell(Currency, SheetCell(raw, WebsiteNetSales, i))),
      AsNumber(CleanCell(Currency, SheetCell(raw, WebsiteDelta, i))),
      AsNumber(CleanCell(Currency, SheetCell(raw, AmazonNetSales, i))),
      AsNumber(CleanCell(Currency, SheetCell(raw, AmazonDelta, i))),
      AsNumber(CleanCell(Percent, SheetCell(raw, MomWebsite, i))),
      AsNumber(CleanCell(Percent, SheetCell(raw, MomAmazon, i))))
  {
    DatasetSalesAt(raw, i);
    DatasetMonthAt(raw, i);
    DatasetMomAt(raw, i);
  }

  // ---------------------------------------------------------------------
  // The latest row and total sales
  // ---------------------------------------------------------------------

  /** `iloc[-1]` or `iloc[0]` on no rows raises IndexError. */
  datatype QueryError = NoRow

  /** main.py:29: `df.iloc[-1]`. */
  function Latest(ds: seq<Record>): (r: Result<Record, QueryError>)
    ensures r.Err? <==> ds == []
    ensures r.Ok? ==> r.value in ds
  {
    if ds == [] then Err(NoRow) else Ok(ds[|ds| - 1])
  }

  /** The row added last is the latest, whatever came before it. */
  lemma LatestIsLastAdded(ds: seq<Record>, x: Record)
    ensures Latest(ds + [x]) == Ok(x)
  {
  }

  /** Pandas addition: NaN on either side gives NaN. */
  function Add(a: Number, b: Number): (r: Number)
    ensures r.Some? <==> a.Some? && b.Some?
    ensures r.Some? ==> r.value == a.value + b.value
  {
    if a.Some? && b.Some? then Some(a.value + b.value) else None
  }

  /** main.py:37: website net sales plus Amazon net sales. */
  function TotalSales(r: Record): (n: Number)
    ensures n.Some? <==> r.websiteNetSales.Some? && r.amazonNetSales.Some?
    ensures n.Some? ==> n.value == r.websiteNetSales.value + r.amazonNetSales.value
  {
    Add(r.websiteNetSales, r.amazonNetSales)
  }

  /**
   * The total shown for the latest month is the sum of the sheet's last two
   * net-sales cells, cleaned; a sheet with no rows has no latest month.
   */
  lemma LatestTotal(raw: Table)
    requires WellFormed(raw) && Dataset(raw).Ok?
    ensures Latest(Dataset(raw).value).Err? <==> raw.height == 0
    ensures raw.height > 0 ==> HasRequired(TrimAll(raw.header))
    ensures raw.height > 0 ==> TotalSales(Latest(Dataset(raw).value).value) == Add(
      AsNumber(CleanCell(Currency, SheetCell(raw, WebsiteNetSales, raw.height - 1))),
      AsNumber(CleanCell(Currency, SheetCell(raw, AmazonNetSales, raw.height - 1))))
  {
    var ds := Dataset(raw).value;
    if raw.height > 0 {
      assert Latest(ds).value == ds[raw.height - 1];
      DatasetSalesAt(raw, raw.height - 1);
    }
  }

  /** A missing channel makes the total missing: it is not read as zero. */
  lemma MissingIsNotZero(r: Record)
    requires r.websiteNetSales.Some? && r.amazonNetSales.None?
    ensures TotalSales(r) != r.websiteNetSales
  {
  }

  // ---------------------------------------------------------------------
  // The highlight
  // ---------------------------------------------------------------------

  datatype Change = Increase | Decrease

  /** Python's `x > 0`; NaN compares false. */
  predicate Positive(n: Number)
  {
    n.Some? && n.value > 0.0
  }

  /** main.py:42. */
  function ChangeType(r: Record): Change
  {
    if Positive(r.momWebsite) || Positive(r.momAmazon) then Increase else Decrease
  }

  /**
   * The highlight is a decrease exactly when neither MoM % of the latest row is
   * above zero, a missing value counting as not above zero.
   */
  lemma ChangeTypeDecrease(r: Record)
    ensures ChangeType(r) == Decrease <==>
      (r.momWebsite.None? || r.momWebsite.value <= 0.0) && (r.momAmazon.None? || r.momAmazon.value <= 0.0)
  {
  }

  const Check: char := '\U{2705}'
  const WarningSign: string := "\U{26A0}\U{FE0F}"

  /** main.py:43, with the month label and the two signed percentages already formatted. */
  function HighlightText(month: string, web: string, amz: string): string
  {
    [Check] + HighlightBody(month, web, amz)
  }

  /** The words after the mark. */
  function HighlightBody(month: string, web: string, amz: string): string
  {
    " Website rebounded in " + month + " with " + web + "%, Amazon changed by " + amz + "%"
  }

  /** `str.replace("✅", "⚠️")`: every check mark becomes a warning sign. */
  function MarkWarning(s: string): (r: string)
    ensures Check !in r
    ensures Check !in s ==> r == s
  {
    if s == [] then []
    else (if s[0] == Check then WarningSign else [s[0]]) + MarkWarning(s[1..])
  }

  /** main.py:44: the text shown in the KPI box. */
  function Shown(text: string, change: Change): string
  {
    if change == Increase then text else MarkWarning(text)
  }

  /** Turns each warning sign back into a check mark. */
  function UnmarkWarning(s: string): string
  {
    if s == [] then []
    else if |s| >= 2 && s[..2] == WarningSign then [Check] + UnmarkWarning(s[2..])
    else [s[0]] + UnmarkWarning(s[1..])
  }

  lemma {:induction false} MarkWarningAppend(a: string, b: string)
    ensures MarkWarning(a + b) == MarkWarning(a) + MarkWarning(b)
  {
    if a == [] {
      assert a + b == b;
    } else {
      assert (a + b)[1..] == a[1..] + b;
      MarkWarningAppend(a[1..], b);
    }
  }

  /**
   * Replacing the check mark loses nothing: in a text that had no warning sign
   * of its own, every warning sign is a former check mark.
   */
  lemma UnmarkSign(rest: string)
    ensures UnmarkWarning(WarningSign + rest) == [Check] + UnmarkWarning(rest)
  {
    assert (WarningSign + rest)[..2] == WarningSign;
    assert (WarningSign + rest)[2..] == rest;
  }

  lemma UnmarkOther(c: char, rest: string)
    requires c != '\U{26A0}'
    ensures UnmarkWarning([c] + rest) == [c] + UnmarkWarning(rest)
  {
    assert ([c] + rest)[1..] == rest;
    if |[c] + rest| >= 2 {
      assert ([c] + rest)[..2][0] == c;
    }
  }

  /**
   * Replacing the check mark loses nothing: in a text that had no warning sign
   * of its own, every warning sign is a former check mark.
   */
  lemma {:induction false} MarkWarningUndone(s: string)
    requires '\U{26A0}' !in s
    ensures UnmarkWarning(MarkWarning(s)) == s
  {
    if s != [] {
      MarkWarningUndone(s[1..]);
      if s[0] == Check {
        UnmarkSign(MarkWarning(s[1..]));
      } else {
        UnmarkOther(s[0], MarkWarning(s[1..]));
      }
    }
  }

  lemma NoCheckInBody(month: string, web: string, amz: string)
    requires Check !in month && Check !in web && Check !in amz
    ensures Check !in HighlightBody(month, web, amz)
  {
    assert Check !in " Website rebounded in ";
    assert Check !in " with ";
    assert Check !in "%, Amazon changed by ";
    assert Check !in "%";
  }

  /** On a decrease the highlight starts with the warning sign and the words are unchanged. */
  lemma DecreaseHighlight(month: string, web: string, amz: string)
    requires Check !in month && Check !in web && Check !in amz
    ensures Shown(HighlightText(month, web, amz), Decrease) == WarningSign + HighlightBody(month, web, amz)
  {
    MarkWarningAppend([Check], HighlightBody(month, web, amz));
    NoCheckInBody(month, web, amz);
  }

  // ---------------------------------------------------------------------
  // Peak growth
  // ---------------------------------------------------------------------

  datatype Channel = Website | Amazon

  function Mom(r: Record, ch: Channel): Number
  {
    match ch
    case Website => r.momWebsite
    case Amazon => r.momAmazon
  }

  /** The channel's MoM % column, in row order. */
  function MomColumn(ds: seq<Record>, ch: Channel): (vs: seq<Number>)
    ensures |vs| == |ds| && forall i :: 0 <= i < |ds| ==> vs[i] == Mom(ds[i], ch)
  {
    seq(|ds|, i requires 0 <= i < |ds| => Mom(ds[i], ch))
  }

  /** `Series.max()`: the largest value, skipping NaN; NaN when there is none. */
  function Max(vs: seq<Number>): (m: Number)
    ensures m.Some? <==> exists i :: 0 <= i < |vs| && vs[i].Some?
    ensures m.Some? ==> m in vs
    ensures m.Some? ==> forall i :: 0 <= i < |vs| && vs[i].Some? ==> vs[i].value <= m.value
  {
    if vs == [] then None
    else
      var rest := Max(vs[1..]);
      if vs[0].None? then rest
      else if rest.Some? && rest.value > vs[0].value then rest
      else vs[0]
  }

  /** The first position holding `m`, or `|vs|`. */
  function FirstIndex(vs: seq<Number>, m: Number): (k: nat)
    ensures k <= |vs|
    ensures k < |vs| ==> vs[k] == m
    ensures forall i :: 0 <= i < k ==> vs[i] != m
    ensures m in vs ==> k < |vs|
  {
    if vs == [] then 0 else if vs[0] == m then 0 else 1 + FirstIndex(vs[1..], m)
  }

  /** main.py:81-82: `df[df[col] == df[col].max()].iloc[0]`, as a row position. */
  function PeakIndex(ds: seq<Record>, ch: Channel): (r: Result<nat, QueryError>)
    ensures r.Err? <==> forall i :: 0 <= i < |ds| ==> Mom(ds[i], ch).None?
    ensures r.Ok? ==> r.value < |ds| && Mom(ds[r.value], ch).Some?
    ensures r.Ok? ==> forall i :: 0 <= i < |ds| && Mom(ds[i], ch).Some? ==>
      Mom(ds[i], ch).value <= Mom(ds[r.value], ch).value
    ensures r.Ok? ==> forall i :: 0 <= i < r.value && Mom(ds[i], ch).Some? ==>
      Mom(ds[i], ch).value < Mom(ds[r.value], ch).value
  {
    var vs := MomColumn(ds, ch);
    var m := Max(vs);
    if m.None? then Err(NoRow) else Ok(FirstIndex(vs, m))
  }

  /** The row of peak growth for a channel. */
  function PeakGrowth(ds: seq<Record>, ch: Channel): (r: Result<Record, QueryError>)
    ensures r.Err? <==> forall i :: 0 <= i < |ds| ==> Mom(ds[i], ch).None?
    ensures r.Ok? ==> r.value == ds[PeakIndex(ds, ch).value]
  {
    match PeakIndex(ds, ch)
    case Err(e) => Err(e)
    case Ok(k) => Ok(ds[k])
  }

  /**
   * The peak is the only row that holds the largest value and comes before every
   * other row holding it: whatever row answers that description is the one chosen.
   */
  lemma PeakIsUnique(ds: seq<Record>, ch: Channel, k: nat)
    requires k < |ds| && Mom(ds[k], ch).Some?
    requires forall i :: 0 <= i < |ds| && Mom(ds[i], ch).Some? ==> Mom(ds[i], ch).value <= Mom(ds[k], ch).value
    requires forall i :: 0 <= i < k && Mom(ds[i], ch).Some? ==> Mom(ds[i], ch).value < Mom(ds[k], ch).value
    ensures PeakIndex(ds, ch) == Ok(k)
  {
    assert PeakIndex(ds, ch).Ok?;
    var j := PeakIndex(ds, ch).value;
    assert Mom(ds[k], ch).value <= Mom(ds[j], ch).value;
  }
}
