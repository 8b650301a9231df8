/**
 * The reshapes behind the charts and the table: the wide-to-long `melt` of
 * the delta and MoM % columns (main.py:58, main.py:65) and the month filter
 * (main.py:90).
 */
module Reshape {
  import opened Cleaning
  import opened Loading
  import opened Metrics

  /** The numeric columns that can be melted. */
  datatype Field = WebsiteDeltaField | AmazonDeltaField | MomWebsiteField | MomAmazonField

  /** The column name, which `melt` writes into the Channel column. */
  function FieldName(f: Field): string
  {
    match f
    case WebsiteDeltaField => WebsiteDelta
    case AmazonDeltaField => AmazonDelta
    case MomWebsiteField => MomWebsite
    case MomAmazonField => MomAmazon
  }

  function Get(r: Record, f: Field): Number
  {
    match f
    case WebsiteDeltaField => r.websiteDelta
    case AmazonDeltaField => r.amazonDelta
    case MomWebsiteField => r.momWebsite
    case MomAmazonField => r.momAmazon
  }

  /** A row of the long table: the id column Month, then Channel, then the value. */
  datatype LongRow = LongRow(month: Cell, channel: string, value: Number)

  /** One field's block of the long table: every row, in row order. */
  function Stack(ds: seq<Record>, f: Field): (r: seq<LongRow>)
    ensures |r| == |ds|
    ensures forall i :: 0 <= i < |ds| ==> r[i] == LongRow(ds[i].month, FieldName(f), Get(ds[i], f))
  {
    seq(|ds|, i requires 0 <= i < |ds| => LongRow(ds[i].month, FieldName(f), Get(ds[i], f)))
  }

  /** `melt(id_vars="Month")`: the blocks of the value columns, one after the other. */
  function Melt(ds: seq<Record>, fields: seq<Field>): seq<LongRow>
  {
    if fields == [] then []
    else Stack(ds, fields[0]) + Melt(ds, fields[1..])
  }

  /** Melting the columns of `a` and then of `b` is melting those of `a + b`. */
  lemma {:induction false} MeltAppend(ds: seq<Record>, a: seq<Field>, b: seq<Field>)
    ensures Melt(ds, a + b) == Melt(ds, a) + Melt(ds, b)
  {
    if a == [] {
      assert a + b == b;
    } else {
      assert (a + b)[1..] == a[1..] + b;
      MeltAppend(ds, a[1..], b);
    }
  }

  /** The long table has a row per value column and original row. */
  lemma {:induction false} MeltLength(ds: seq<Record>, fields: seq<Field>)
    ensures |Melt(ds, fields)| == |fields| * |ds|
  {
    if fields != [] {
      MeltLength(ds, fields[1..]);
      NextBlock(|fields|, |ds|);
    }
  }

  /** Row `i` of block `k` of the long table is row `i`'s value of the `k`-th field. */
  lemma MeltAt(ds: seq<Record>, fields: seq<Field>, k: nat, i: nat)
    requires k < |fields| && i < |ds|
    ensures k * |ds| + i < |Melt(ds, fields)|
    ensures Melt(ds, fields)[k * |ds| + i] == LongRow(ds[i].month, FieldName(fields[k]), Get(ds[i], fields[k]))
  {
    var before, after := fields[..k], fields[k..];
    assert fields == before + after;
    MeltAppend(ds, before, after);
    MeltLength(ds, before);
    assert after[0] == fields[k];
    var prefix, suffix := Melt(ds, before), Melt(ds, after);
    assert suffix == Stack(ds, fields[k]) + Melt(ds, after[1..]);
    assert suffix[i] == Stack(ds, fields[k])[i];
    IndexRight(prefix, suffix, i);
  }

  lemma IndexRight(a: seq<LongRow>, b: seq<LongRow>, p: nat)
    requires p < |b|
    ensures (a + b)[|a| + p] == b[p]
  {
  }

  lemma NextBlock(k: nat, n: nat)
    requires k > 0
    ensures k * n == n + (k - 1) * n
  {
  }

  /** main.py:58: the delta bars. */
  function DeltaBars(ds: seq<Record>): seq<LongRow>
  {
    Melt(ds, [WebsiteDeltaField, AmazonDeltaField])
  }

  /** main.py:65: the MoM % bars. */
  function MomBars(ds: seq<Record>): seq<LongRow>
  {
    Melt(ds, [MomWebsiteField, MomAmazonField])
  }

  /** Two value columns give twice as many rows: first every website row, then every Amazon row. */
  lemma DeltaBarsShape(ds: seq<Record>)
    ensures |DeltaBars(ds)| == 2 * |ds|
    ensures forall i :: 0 <= i < |ds| ==>
      DeltaBars(ds)[i] == LongRow(ds[i].month, WebsiteDelta, ds[i].websiteDelta)
    ensures forall i :: 0 <= i < |ds| ==>
      DeltaBars(ds)[|ds| + i] == LongRow(ds[i].month, AmazonDelta, ds[i].amazonDelta)
  {
    MeltLength(ds, [WebsiteDeltaField, AmazonDeltaField]);
    forall i | 0 <= i < |ds|
      ensures DeltaBars(ds)[i] == LongRow(ds[i].month, WebsiteDelta, ds[i].websiteDelta)
      ensures DeltaBars(ds)[|ds| + i] == LongRow(ds[i].month, AmazonDelta, ds[i].amazonDelta)
    {
      MeltAt(ds, [WebsiteDeltaField, AmazonDeltaField], 0, i);
      MeltAt(ds, [WebsiteDeltaField, AmazonDeltaField], 1, i);
    }
  }

  lemma MomBarsShape(ds: seq<Record>)
    ensures |MomBars(ds)| == 2 * |ds|
    ensures forall i :: 0 <= i < |ds| ==>
      MomBars(ds)[i] == LongRow(ds[i].month, MomWebsite, ds[i].momWebsite)
    ensures forall i :: 0 <= i < |ds| ==>
      MomBars(ds)[|ds| + i] == LongRow(ds[i].month, MomAmazon, ds[i].momAmazon)
  {
    MeltLength(ds, [MomWebsiteField, MomAmazonField]);
    forall i | 0 <= i < |ds|
      ensures MomBars(ds)[i] == LongRow(ds[i].month, MomWebsite, ds[i].momWebsite)
      ensures MomBars(ds)[|ds| + i] == LongRow(ds[i].month, MomAmazon, ds[i].momAmazon)
    {
      MeltAt(ds, [MomWebsiteField, MomAmazonField], 0, i);
      MeltAt(ds, [MomWebsiteField, MomAmazonField], 1, i);
    }
  }

  // ---------------------------------------------------------------------
  // The month filter
  // ---------------------------------------------------------------------

  /** main.py:90: `df[df['Month'].isin(selected)]`, rows kept in their order. */
  function FilterMonths(ds: seq<Record>, selected: set<Cell>): (r: seq<Record>)
    ensures |r| <= |ds|
    ensures forall i :: 0 <= i < |r| ==> r[i].month in selected
  {
    if ds == [] then []
    else (if ds[0].month in selected then [ds[0]] else []) + FilterMonths(ds[1..], selected)
  }

  /** The months offered, and selected by default (main.py:89). */
  function Months(ds: seq<Record>): set<Cell>
  {
    set i | 0 <= i < |ds| :: ds[i].month
  }

  /** Filtering a concatenation filters each part: the kept rows stay in order. */
  lemma {:induction false} FilterAppend(a: seq<Record>, b: seq<Record>, selected: set<Cell>)
    ensures FilterMonths(a + b, selected) == FilterMonths(a, selected) + FilterMonths(b, selected)
  {
    if a == [] {
      assert a + b == b;
    } else {
      assert (a + b)[1..] == a[1..] + b;
      FilterAppend(a[1..], b, selected);
    }
  }

  /** A row is kept exactly when it is in the frame and its month is selected. */
  lemma {:induction false} FilterMembers(ds: seq<Record>, selected: set<Cell>, x: Record)
    ensures x in FilterMonths(ds, selected) <==> x in ds && x.month in selected
  {
    if ds != [] {
      FilterMembers(ds[1..], selected, x);
      assert ds == [ds[0]] + ds[1..];
    }
  }

  /** Every row whose month is selected is kept: then nothing is dropped. */
  lemma {:induction false} FilterKeepsAll(ds: seq<Record>, selected: set<Cell>)
    requires forall i :: 0 <= i < |ds| ==> ds[i].month in selected
    ensures FilterMonths(ds, selected) == ds
  {
    if ds != [] {
      FilterKeepsAll(ds[1..], selected);
    }
  }

  /** With the default selection, every month, the filtered table is the whole frame. */
  lemma DefaultSelectionKeepsAll(ds: seq<Record>)
    ensures FilterMonths(ds, Months(ds)) == ds
  {
    FilterKeepsAll(ds, Months(ds));
  }

  /** Filtering twice is filtering once by the months both selections share. */
  lemma {:induction false} FilterTwice(ds: seq<Record>, a: set<Cell>, b: set<Cell>)
    ensures FilterMonths(FilterMonths(ds, a), b) == FilterMonths(ds, a * b)
  {
    if ds != [] {
      FilterTwice(ds[1..], a, b);
      var head := if ds[0].month in a then [ds[0]] else [];
      FilterAppend(head, FilterMonths(ds[1..], a), b);
    }
  }

  /** An empty selection shows no rows. */
  lemma FilterNone(ds: seq<Record>)
    ensures FilterMonths(ds, {}) == []
  {
  }
}
