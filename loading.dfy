/**
 * `load_data` (main.py:12-26): trim the header names, then clean the four
 * currency columns and the two MoM % columns in place.
 *
 * The sheet is modelled as it stands after `read_csv`: a header and one
 * sequence of cells per column. Reading the file is not modelled. The
 * function `Normalize` says what loading produces; the class `Frame` and
 * the method `LoadData` do it the way the source does, overwriting one
 * column of the frame at a time, and are proved to produce `Normalize`.
 */
module Loading {
  import opened Wrappers
  import opened Cleaning

  /** A data frame: column names, the columns (each a sequence of cells) and the row count. */
  datatype Table = Table(header: seq<string>, columns: seq<seq<Cell>>, height: nat)

  predicate WellFormed(t: Table)
  {
    && |t.columns| == |t.header|
    && forall j :: 0 <= j < |t.columns| ==> |t.columns[j]| == t.height
  }

  /** `df[col]` on a column that does not exist raises KeyError. */
  datatype LoadError = MissingColumn(name: string)

  const WebsiteNetSales: string := "Website Net Sales"
  const WebsiteDelta: string := "\U{394} Website"
  const AmazonNetSales: string := "Amazon Net Sales"
  const AmazonDelta: string := "\U{394} Amazon"
  const MomWebsite: string := "MoM % Website"
  const MomAmazon: string := "MoM % Amazon"
  const MonthColumn: string := "Month"

  /** The columns of the first loop (main.py:17) and of the second (main.py:22), in loop order. */
  const CurrencyColumns: seq<string> := [WebsiteNetSales, WebsiteDelta, AmazonNetSales, AmazonDelta]
  const PercentColumns: seq<string> := [MomWebsite, MomAmazon]
  const Required: seq<string> := CurrencyColumns + PercentColumns

  /** The names of the loop that cleans columns by the given rule. */
  function Family(kind: ColumnKind): seq<string>
  {
    match kind
    case Currency => CurrencyColumns
    case Percent => PercentColumns
  }

  // ---------------------------------------------------------------------
  // Header names
  // ---------------------------------------------------------------------

  /** Python's `str.isspace`. */
  predicate IsSpace(c: char)
  {
    || '\U{9}' <= c <= '\U{D}'
    || '\U{1C}' <= c <= ' '
    || c == '\U{85}' || c == '\U{A0}' || c == '\U{1680}'
    || '\U{2000}' <= c <= '\U{200A}'
    || c == '\U{2028}' || c == '\U{2029}' || c == '\U{202F}' || c == '\U{205F}' || c == '\U{3000}'
  }

  function TrimStart(s: string): (r: string)
    ensures |r| <= |s| && r == s[|s| - |r|..]
    ensures forall i :: 0 <= i < |s| - |r| ==> IsSpace(s[i])
    ensures r != [] ==> !IsSpace(r[0])
  {
    if s != [] && IsSpace(s[0]) then TrimStart(s[1..]) else s
  }

  function TrimEnd(s: string): (r: string)
    ensures |r| <= |s| && r == s[..|r|]
    ensures forall i :: |r| <= i < |s| ==> IsSpace(s[i])
    ensures r != [] ==> !IsSpace(r[|r| - 1])
  {
    if s != [] && IsSpace(s[|s| - 1]) then TrimEnd(s[..|s| - 1]) else s
  }

  /** `str.strip()`: whitespace removed from both ends. */
  function Trim(s: string): string
  {
    TrimEnd(TrimStart(s))
  }

  /** Trimming keeps a contiguous middle part and drops only whitespace. */
  lemma TrimSlice(s: string) returns (i: nat, j: nat)
    ensures i <= j <= |s| && Trim(s) == s[i..j]
    ensures forall k :: 0 <= k < i ==> IsSpace(s[k])
    ensures forall k :: j <= k < |s| ==> IsSpace(s[k])
  {
    var a := TrimStart(s);
    i := |s| - |a|;
    var r := TrimEnd(a);
    j := i + |r|;
    SliceOfSuffix(s, i, |r|);
    SpacesOfSuffix(s, i, |r|);
  }

  /** What trimming leaves has no whitespace at either end. */
  lemma TrimEnds(s: string)
    ensures var r := Trim(s); r != [] ==> !IsSpace(r[0]) && !IsSpace(r[|r| - 1])
  {
    var a := TrimStart(s);
    var r := TrimEnd(a);
    if r != [] {
      assert r[0] == a[0];
    }
  }

  lemma SliceOfSuffix(s: string, i: nat, n: nat)
    requires i + n <= |s|
    ensures s[i..][..n] == s[i..i + n]
  {
  }

  lemma SpacesOfSuffix(s: string, i: nat, n: nat)
    requires i + n <= |s|
    requires forall k :: n <= k < |s[i..]| ==> IsSpace(s[i..][k])
    ensures forall k :: i + n <= k < |s| ==> IsSpace(s[k])
  {
    forall k | i + n <= k < |s|
      ensures IsSpace(s[k])
    {
      assert s[k] == s[i..][k - i];
    }
  }

  lemma TrimIdempotent(s: string)
    ensures Trim(Trim(s)) == Trim(s)
  {
    var r := Trim(s);
    var i, j := TrimSlice(s);
    if r != [] {
      assert TrimStart(r) == r;
      assert TrimEnd(r) == r;
    }
  }

  function TrimAll(names: seq<string>): (r: seq<string>)
    ensures |r| == |names|
    ensures forall i :: 0 <= i < |names| ==> r[i] == Trim(names[i])
  {
    seq(|names|, i requires 0 <= i < |names| => Trim(names[i]))
  }

  /** main.py:14: the header after `df.columns.str.strip()`. */
  function TrimmedHeader(t: Table): (r: Table)
    ensures r.header == TrimAll(t.header) && r.columns == t.columns && r.height == t.height
  {
    t.(header := TrimAll(t.header))
  }

  // ---------------------------------------------------------------------
  // Cleaning a column by name
  // ---------------------------------------------------------------------

  /** The position of the first column called `name`. */
  function IndexOf(names: seq<string>, name: string): (r: Option<nat>)
    ensures r.None? <==> name !in names
    ensures r.Some? ==> r.value < |names| && names[r.value] == name
    ensures r.Some? ==> forall i :: 0 <= i < r.value ==> names[i] != name
  {
    if names == [] then None
    else if names[0] == name then Some(0)
    else match IndexOf(names[1..], name)
      case None => None
      case Some(k) => Some(k + 1)
  }

  /** Column `j` is the first one with its name. */
  predicate FirstOfName(header: seq<string>, j: nat)
    requires j < |header|
  {
    forall i :: 0 <= i < j ==> header[i] != header[j]
  }

  /** One iteration of either loop: `df[col] = ...` on the column called `name`. */
  function CleanColumnOf(t: Table, name: string, kind: ColumnKind): (r: Result<Table, LoadError>)
    requires WellFormed(t)
    ensures r.Err? <==> name !in t.header
    ensures r.Err? ==> r.error == MissingColumn(name)
    ensures r.Ok? ==> WellFormed(r.value) && r.value.header == t.header && r.value.height == t.height
  {
    match IndexOf(t.header, name)
    case None => Err(MissingColumn(name))
    case Some(j) => Ok(t.(columns := t.columns[j := CleanColumnCells(kind, t.columns[j])]))
  }

  /** One loop: the columns `names` cleaned in order, stopping at the first that is absent. */
  function CleanColumns(t: Table, names: seq<string>, kind: ColumnKind): (r: Result<Table, LoadError>)
    requires WellFormed(t)
    ensures r.Ok? ==> WellFormed(r.value) && r.value.header == t.header && r.value.height == t.height
    decreases |names|
  {
    if names == [] then Ok(t)
    else match CleanColumns(t, names[..|names| - 1], kind)
      case Err(e) => Err(e)
      case Ok(u) => CleanColumnOf(u, names[|names| - 1], kind)
  }

  /** What `load_data` returns for a sheet, or the KeyError it raises. */
  function Normalize(raw: Table): Result<Table, LoadError>
    requires WellFormed(raw)
  {
    match CleanColumns(TrimmedHeader(raw), CurrencyColumns, Currency)
    case Err(e) => Err(e)
    case Ok(t) => CleanColumns(t, PercentColumns, Percent)
  }

  // ---------------------------------------------------------------------
  // What loading does
  // ---------------------------------------------------------------------

  /** A loop fails exactly when one of its columns is absent, and names the first absent one. */
  lemma {:induction false} CleanColumnsFails(t: Table, names: seq<string>, kind: ColumnKind)
    requires WellFormed(t)
    ensures CleanColumns(t, names, kind).Err? <==> exists k :: 0 <= k < |names| && names[k] !in t.header
    ensures CleanColumns(t, names, kind).Err? ==>
      exists k :: && 0 <= k < |names| && names[k] !in t.header
                  && (forall i :: 0 <= i < k ==> names[i] in t.header)
                  && CleanColumns(t, names, kind).error == MissingColumn(names[k])
    decreases |names|
  {
    if names != [] {
      var init := names[..|names| - 1];
      CleanColumnsFails(t, init, kind);
      assert forall k :: 0 <= k < |init| ==> init[k] == names[k];
      if CleanColumns(t, init, kind).Ok? {
        var n := |names| - 1;
        assert forall k :: 0 <= k < n ==> names[k] in t.header;
        if names[n] !in t.header {
          assert CleanColumns(t, names, kind).error == MissingColumn(names[n]);
        }
      }
    }
  }

  /**
   * A loop that succeeds cleans exactly the first column of each of its names,
   * and leaves every other column as it was.
   */
  lemma {:induction false} CleanColumnsCells(t: Table, names: seq<string>, kind: ColumnKind)
    requires WellFormed(t)
    requires CleanColumns(t, names, kind).Ok?
    ensures forall j :: 0 <= j < |t.columns| ==>
      CleanColumns(t, names, kind).value.columns[j] ==
        if t.header[j] in names && FirstOfName(t.header, j) then CleanColumnCells(kind, t.columns[j])
        else t.columns[j]
    decreases |names|
  {
    if names != [] {
      var init := names[..|names| - 1];
      var name := names[|names| - 1];
      assert names == init + [name];
      CleanColumnsCells(t, init, kind);
      var u := CleanColumns(t, init, kind).value;
      var idx := IndexOf(u.header, name).value;
      var r := CleanColumns(t, names, kind).value;
      assert r.columns == u.columns[idx := CleanColumnCells(kind, u.columns[idx])];
      forall j | 0 <= j < |t.columns|
        ensures r.columns[j] ==
          if t.header[j] in names && FirstOfName(t.header, j) then CleanColumnCells(kind, t.columns[j])
          else t.columns[j]
      {
        if j == idx {
          CleanColumnIdempotent(kind, kind, t.columns[j]);
        }
      }
    }
  }

  /** Column `j` of the loaded frame, from column `j` of the sheet and the trimmed header. */
  function CleanedColumn(header: seq<string>, j: nat, col: seq<Cell>): seq<Cell>
    requires j < |header|
  {
    if FirstOfName(header, j) && header[j] in CurrencyColumns then CleanColumnCells(Currency, col)
    else if FirstOfName(header, j) && header[j] in PercentColumns then CleanColumnCells(Percent, col)
    else col
  }

  /**
   * Loading fails exactly when one of the six columns is absent after trimming
   * the header, and reports the first one in loop order.
   */
  lemma NormalizeFails(raw: Table)
    requires WellFormed(raw)
    ensures Normalize(raw).Err? <==> exists k :: 0 <= k < |Required| && Required[k] !in TrimAll(raw.header)
    ensures Normalize(raw).Err? ==>
      exists k :: && 0 <= k < |Required| && Required[k] !in TrimAll(raw.header)
                  && (forall i :: 0 <= i < k ==> Required[i] in TrimAll(raw.header))
                  && Normalize(raw).error == MissingColumn(Required[k])
  {
    var t0 := TrimmedHeader(raw);
    var c := |CurrencyColumns|;
    assert forall k :: 0 <= k < c ==> Required[k] == CurrencyColumns[k];
    assert forall k :: 0 <= k < |PercentColumns| ==> Required[c + k] == PercentColumns[k];
    CleanColumnsFails(t0, CurrencyColumns, Currency);
    if CleanColumns(t0, CurrencyColumns, Currency).Ok? {
      var t1 := CleanColumns(t0, CurrencyColumns, Currency).value;
      CleanColumnsFails(t1, PercentColumns, Percent);
      if Normalize(raw).Err? {
        var k :| && 0 <= k < |PercentColumns| && PercentColumns[k] !in t1.header
                 && (forall i :: 0 <= i < k ==> PercentColumns[i] in t1.header)
                 && Normalize(raw).error == MissingColumn(PercentColumns[k]);
        assert Required[c + k] == PercentColumns[k];
        assert forall i :: 0 <= i < c + k ==> Required[i] in t0.header by {
          forall i | 0 <= i < c + k ensures Required[i] in t0.header {
            if i >= c {
              assert Required[i] == PercentColumns[i - c];
            }
          }
        }
      } else {
        forall k | 0 <= k < |Required| ensures Required[k] in t0.header {
          if k >= c {
            assert Required[k] == PercentColumns[k - c];
          }
        }
      }
    }
  }

  /** No column is cleaned by both loops. */
  lemma FamiliesDisjoint(name: string)
    ensures name in PercentColumns ==> name !in CurrencyColumns
  {
  }

  /** One column after the currency loop over `cur` and then the percent loop over `pct`. */
  lemma TwoLoopsColumn(t0: Table, cur: seq<string>, pct: seq<string>, j: nat)
    requires WellFormed(t0) && j < |t0.columns|
    requires CleanColumns(t0, cur, Currency).Ok?
    requires CleanColumns(CleanColumns(t0, cur, Currency).value, pct, Percent).Ok?
    requires t0.header[j] in pct ==> t0.header[j] !in cur
    ensures CleanColumns(CleanColumns(t0, cur, Currency).value, pct, Percent).value.columns[j] ==
      if FirstOfName(t0.header, j) && t0.header[j] in cur then CleanColumnCells(Currency, t0.columns[j])
      else if FirstOfName(t0.header, j) && t0.header[j] in pct then CleanColumnCells(Percent, t0.columns[j])
      else t0.columns[j]
  {
    var t1 := CleanColumns(t0, cur, Currency).value;
    CleanColumnsCells(t0, cur, Currency);
    CleanColumnsCells(t1, pct, Percent);
  }

  /**
   * A successful load trims the header, keeps the row count, cleans the first
   * column of each of the six names with its family's rule and leaves every
   * other column untouched.
   */
  lemma NormalizeCleans(raw: Table)
    requires WellFormed(raw) && Normalize(raw).Ok?
    ensures var t := Normalize(raw).value;
      && t.header == TrimAll(raw.header) && t.height == raw.height && |t.columns| == |raw.columns|
      && forall j :: 0 <= j < |raw.columns| ==> t.columns[j] == CleanedColumn(t.header, j, raw.columns[j])
  {
    var t := Normalize(raw).value;
    forall j | 0 <= j < |raw.columns|
      ensures t.columns[j] == CleanedColumn(t.header, j, raw.columns[j])
    {
      FamiliesDisjoint(t.header[j]);
      TwoLoopsColumn(TrimmedHeader(raw), CurrencyColumns, PercentColumns, j);
    }
  }

  /** Each of the six names heads a column. */
  predicate HasRequired(header: seq<string>)
  {
    && WebsiteNetSales in header && WebsiteDelta in header
    && AmazonNetSales in header && AmazonDelta in header
    && MomWebsite in header && MomAmazon in header
  }

  /** After a successful load, the six columns hold only numbers and missing values. */
  predicate NumericColumns(t: Table)
    requires WellFormed(t)
  {
    && NumericColumn(t, WebsiteNetSales) && NumericColumn(t, WebsiteDelta)
    && NumericColumn(t, AmazonNetSales) && NumericColumn(t, AmazonDelta)
    && NumericColumn(t, MomWebsite) && NumericColumn(t, MomAmazon)
  }

  /** The first column called `name`, if any, holds no text. */
  predicate NumericColumn(t: Table, name: string)
    requires WellFormed(t)
  {
    match IndexOf(t.header, name)
    case None => true
    case Some(j) => forall i :: 0 <= i < t.height ==> !t.columns[j][i].Text?
  }

  lemma CleanedIsNumeric(header: seq<string>, j: nat, col: seq<Cell>)
    requires j < |header| && FirstOfName(header, j)
    requires header[j] in CurrencyColumns || header[j] in PercentColumns
    ensures forall i :: 0 <= i < |col| ==> !CleanedColumn(header, j, col)[i].Text?
  {
  }

  lemma NumericAfterLoad(raw: Table, name: string, kind: ColumnKind)
    requires WellFormed(raw) && Normalize(raw).Ok? && name in Family(kind)
    ensures WellFormed(Normalize(raw).value) && NumericColumn(Normalize(raw).value, name)
  {
    var t := Normalize(raw).value;
    match IndexOf(t.header, name)
    case None =>
    case Some(j) =>
      NormalizeCleans(raw);
      CleanedIsNumeric(t.header, j, raw.columns[j]);
  }

  lemma NormalizeNumeric(raw: Table)
    requires WellFormed(raw) && Normalize(raw).Ok?
    ensures WellFormed(Normalize(raw).value) && NumericColumns(Normalize(raw).value)
  {
    NumericPair(raw, WebsiteNetSales, WebsiteDelta, Currency);
    NumericPair(raw, AmazonNetSales, AmazonDelta, Currency);
    NumericPair(raw, MomWebsite, MomAmazon, Percent);
  }

  lemma NumericPair(raw: Table, a: string, b: string, kind: ColumnKind)
    requires WellFormed(raw) && Normalize(raw).Ok? && a in Family(kind) && b in Family(kind)
    ensures WellFormed(Normalize(raw).value)
    ensures NumericColumn(Normalize(raw).value, a) && NumericColumn(Normalize(raw).value, b)
  {
    NumericAfterLoad(raw, a, kind);
    NumericAfterLoad(raw, b, kind);
  }

  /** The six names in loop order. */
  lemma RequiredOrder()
    ensures |Required| == 6
    ensures Required[0] == WebsiteNetSales && Required[1] == WebsiteDelta && Required[2] == AmazonNetSales
    ensures Required[3] == AmazonDelta && Required[4] == MomWebsite && Required[5] == MomAmazon
  {
  }

  /** After a successful load the header is the trimmed one, and each of the six names heads a column. */
  lemma NormalizeHasRequired(raw: Table)
    requires WellFormed(raw) && Normalize(raw).Ok?
    ensures var t := Normalize(raw).value;
      t.header == TrimAll(raw.header) && t.height == raw.height && HasRequired(TrimAll(raw.header))
  {
    NormalizeFound(raw);
    RequiredOrder();
    var h := TrimAll(raw.header);
    assert Required[0] in h && Required[1] in h && Required[2] in h;
    assert Required[3] in h && Required[4] in h && Required[5] in h;
  }

  lemma NormalizeFound(raw: Table)
    requires WellFormed(raw) && Normalize(raw).Ok?
    ensures forall k :: 0 <= k < |Required| ==> Required[k] in TrimAll(raw.header)
  {
    NormalizeFails(raw);
  }

  /** Row `i` of the sheet's first column whose trimmed name is `name`. */
  function SheetCell(raw: Table, name: string, i: nat): Cell
    requires WellFormed(raw) && name in TrimAll(raw.header) && i < raw.height
  {
    raw.columns[IndexOf(TrimAll(raw.header), name).value][i]
  }

  /** A successful load has found every name of both loops in the trimmed header. */
  lemma FamilyLoaded(raw: Table, name: string, kind: ColumnKind)
    requires WellFormed(raw) && Normalize(raw).Ok? && name in Family(kind)
    ensures name in TrimAll(raw.header)
  {
    NormalizeHasRequired(raw);
  }

  lemma FamilyColumnCleaned(header: seq<string>, j: nat, col: seq<Cell>, kind: ColumnKind)
    requires j < |header| && FirstOfName(header, j) && header[j] in Family(kind)
    ensures CleanedColumn(header, j, col) == CleanColumnCells(kind, col)
  {
    FamiliesDisjoint(header[j]);
  }

  lemma OtherColumnKept(header: seq<string>, j: nat, col: seq<Cell>)
    requires j < |header| && header[j] !in CurrencyColumns && header[j] !in PercentColumns
    ensures CleanedColumn(header, j, col) == col
  {
  }

  /**
   * After a successful load, row `i` of the column called `name`, one of the
   * names of the loop for `kind`, is the sheet's cell cleaned by that rule.
   */
  lemma LoadedCell(raw: Table, name: string, kind: ColumnKind, i: nat)
    requires WellFormed(raw) && Normalize(raw).Ok? && name in Family(kind) && i < raw.height
    ensures name in TrimAll(raw.header)
    ensures var t := Normalize(raw).value;
      WellFormed(t) && t.height == raw.height && name in t.header
    ensures var t := Normalize(raw).value;
      t.columns[IndexOf(t.header, name).value][i] == CleanCell(kind, SheetCell(raw, name, i))
  {
    FamilyLoaded(raw, name, kind);
    var t := Normalize(raw).value;
    NormalizeCleans(raw);
    var j := IndexOf(t.header, name).value;
    FamilyColumnCleaned(t.header, j, raw.columns[j], kind);
  }

  /** The Month column is not cleaned: after a successful load it holds the sheet's cells. */
  lemma LoadedMonth(raw: Table, i: nat)
    requires WellFormed(raw) && Normalize(raw).Ok? && MonthColumn in TrimAll(raw.header) && i < raw.height
    ensures var t := Normalize(raw).value;
      WellFormed(t) && t.height == raw.height && MonthColumn in t.header
    ensures var t := Normalize(raw).value;
      t.columns[IndexOf(t.header, MonthColumn).value][i] == SheetCell(raw, MonthColumn, i)
  {
    var t := Normalize(raw).value;
    NormalizeCleans(raw);
    MonthNotCleaned();
    var j := IndexOf(t.header, MonthColumn).value;
    OtherColumnKept(t.header, j, raw.columns[j]);
  }

  lemma MonthNotCleaned()
    ensures MonthColumn !in CurrencyColumns && MonthColumn !in PercentColumns
  {
  }

  // ---------------------------------------------------------------------
  // The imperative frame
  // ---------------------------------------------------------------------

  /** The data frame `df` that `load_data` updates in place. */
  class Frame {
    var header: seq<string>
    var columns: seq<seq<Cell>>
    var height: nat

    function Snapshot(): Table
      reads this
    {
      Table(header, columns, height)
    }

    constructor (t: Table)
      ensures Snapshot() == t
    {
      header, columns, height := t.header, t.columns, t.height;
    }

    /** main.py:14: `df.columns = df.columns.str.strip()`. */
    method TrimHeader()
      modifies this
      ensures Snapshot() == TrimmedHeader(old(Snapshot()))
    {
      header := TrimAll(header);
    }

    /** main.py:18-19 or 23-24 for one column: overwrite `df[name]` with its cleaned cells. */
    method CleanColumn(name: string, kind: ColumnKind) returns (found: bool)
      requires WellFormed(Snapshot())
      modifies this
      ensures found <==> name in old(header)
      ensures found ==> CleanColumnOf(old(Snapshot()), name, kind) == Ok(Snapshot())
      ensures !found ==> Snapshot() == old(Snapshot())
    {
      var j := IndexOf(header, name);
      if j.None? {
        return false;
      }
      columns := columns[j.value := CleanColumnCells(kind, columns[j.value])];
      found := true;
    }
  }

  /** Once a loop has hit an absent column, the later columns do not matter. */
  lemma {:induction false} ErrorPersists(t: Table, names: seq<string>, n: nat, kind: ColumnKind)
    requires WellFormed(t)
    requires 0 < n <= |names|
    requires CleanColumns(t, names[..n], kind).Err?
    ensures CleanColumns(t, names, kind) == CleanColumns(t, names[..n], kind)
    decreases |names|
  {
    if n == |names| {
      assert names[..n] == names;
    } else {
      var init := names[..|names| - 1];
      assert init[..n] == names[..n];
      ErrorPersists(t, init, n, kind);
    }
  }

  /** The loop of `load_data` over `names`, run on the frame `df`; it stops at the first absent column. */
  method CleanLoop(df: Frame, names: seq<string>, kind: ColumnKind) returns (missing: Option<string>)
    requires WellFormed(df.Snapshot())
    modifies df
    ensures missing.None? ==> CleanColumns(old(df.Snapshot()), names, kind) == Ok(df.Snapshot())
    ensures missing.Some? ==> CleanColumns(old(df.Snapshot()), names, kind) == Err(MissingColumn(missing.value))
  {
    ghost var t0 := df.Snapshot();
    for i := 0 to |names|
      invariant WellFormed(df.Snapshot())
      invariant CleanColumns(t0, names[..i], kind) == Ok(df.Snapshot())
    {
      var found := df.CleanColumn(names[i], kind);
      assert names[..i + 1][..i] == names[..i];
      if !found {
        ErrorPersists(t0, names, i + 1, kind);
        return Some(names[i]);
      }
    }
    assert names[..|names|] == names;
    missing := None;
  }

  /** `load_data` on a sheet that has been read: a fresh frame, trimmed and cleaned. */
  method LoadData(raw: Table) returns (r: Result<Table, LoadError>)
    requires WellFormed(raw)
    ensures r == Normalize(raw)
  {
    var df := new Frame(raw);
    df.TrimHeader();
    var missing := CleanLoop(df, CurrencyColumns, Currency);
    if missing.Some? {
      return Err(MissingColumn(missing.value));
    }
    missing := CleanLoop(df, PercentColumns, Percent);
    if missing.Some? {
      return Err(MissingColumn(missing.value));
    }
    r := Ok(df.Snapshot());
  }
}
