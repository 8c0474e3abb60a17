/** `FoodPriceDataPreprocessor`: column grouping, missing-value handling
    (analyze, drop, per-market forward fill), the quarter and year-month
    features, and the default output path. */
module FoodPricesPreprocessor {
  import opened Text
  import opened Seqs
  import opened Tables
  import opened Paths
  import opened ColumnGroups

  /** Keys of `derived_cols`, in insertion order, matching `DerivedPrefixes`. */
  const Keys: seq<string> := ["original", "high", "low", "current", "inflation", "trust"]

  datatype Groups = Groups(geo: seq<string>, time: seq<string>, meta: seq<string>, food: seq<string>, derived: Dict)

  predicate HasPrefix(col: string, k: nat)
    requires k < |DerivedPrefixes|
  {
    StartsWith(col, DerivedPrefixes[k])
  }

  /** `identify_column_groups`: the fixed identifier lists, the food columns
      and, under each key, the columns that start with that key's prefix. */
  function IdentifyColumnGroups(cols: seq<string>): (g: Groups)
    ensures g.geo == GeoCols && g.time == TimeCols && g.meta == MetaCols
    ensures IsSubsequence(g.food, cols) && forall c :: c in g.food <==> c in cols && IsFoodColumn(c)
    ensures |g.derived| == |Keys| && forall k :: 0 <= k < |Keys| ==> g.derived[k].0 == Keys[k]
    ensures forall k :: 0 <= k < |Keys| ==> IsSubsequence(g.derived[k].1, cols)
    ensures forall k, c :: 0 <= k < |Keys| ==> (c in g.derived[k].1 <==> c in cols && HasPrefix(c, k))
  {
    Groups(GeoCols, TimeCols, MetaCols, FoodCols(cols),
           seq(|Keys|, k requires 0 <= k < |Keys| => (Keys[k], Filter(cols, c => HasPrefix(c, k)))))
  }

  /** The six derived lists are pairwise disjoint and disjoint from the food columns. */
  lemma GroupsDisjoint(cols: seq<string>, k1: nat, k2: nat, c: string)
    requires k1 < |Keys| && k2 < |Keys|
    ensures var g := IdentifyColumnGroups(cols);
      (c in g.derived[k1].1 && c in g.derived[k2].1 ==> k1 == k2) &&
      (c in g.derived[k1].1 ==> c !in g.food)
  {
    var g := IdentifyColumnGroups(cols);
    if c in g.derived[k1].1 && c in g.derived[k2].1 {
      PrefixesExclusive(c, k1, k2);
    }
  }

  /** Every column is a food column, in a derived list, or a fixed identifier. */
  lemma GroupsCover(cols: seq<string>, c: string)
    requires c in cols
    ensures var g := IdentifyColumnGroups(cols);
      c in g.food || IsIdentifier(c) || exists k :: 0 <= k < |Keys| && c in g.derived[k].1
  {
    var g := IdentifyColumnGroups(cols);
    if !(c in g.food) && !IsIdentifier(c) {
      var k :| 0 <= k < |DerivedPrefixes| && StartsWith(c, DerivedPrefixes[k]);
      assert c in g.derived[k].1;
    }
  }

  // ---------------------------------------------------------------------
  // Strategy 'drop'

  /** Identifiers a row may not miss. */
  const CriticalCols: seq<string> := ["ISO3", "country", "DATES", "year", "month"]

  /** The first of `wanted` that is not a column label, if any. */
  function FirstAbsent(cols: seq<string>, wanted: seq<string>): (r: Option<string>)
    ensures r.None? <==> forall c :: c in wanted ==> c in cols
    ensures r.Some? ==> r.value in wanted && r.value !in cols
  {
    if wanted == [] then None
    else if wanted[0] !in cols then Some(wanted[0])
    else FirstAbsent(cols, wanted[1..])
  }

  predicate HasCritical(cols: seq<string>, row: Row) {
    forall c :: c in CriticalCols ==> Get(cols, row, c) != Missing
  }

  /** `dropna(subset=critical_cols)` and the count it reports: the rows that
      have every critical identifier, in order, and how many rows went. */
  function DropIncomplete(t: Table): (r: Result<(Table, nat)>)
    ensures r.Err? <==> exists c :: c in CriticalCols && c !in t.columns
    ensures r.Err? ==> r.error.KeyError? && r.error.column in CriticalCols && r.error.column !in t.columns
    ensures r.Ok? ==> r.value.0.columns == t.columns && IsSubsequence(r.value.0.rows, t.rows)
    ensures r.Ok? ==> r.value.1 == |t.rows| - |r.value.0.rows|
    ensures r.Ok? && WellFormed(t) ==> WellFormed(r.value.0)
  {
    match FirstAbsent(t.columns, CriticalCols)
    case Some(c) => Err(KeyError(c))
    case None =>
      var kept := Filter(t.rows, row => HasCritical(t.columns, row));
      assert forall i :: 0 <= i < |kept| ==> kept[i] in t.rows;
      Ok((Table(t.columns, kept), |t.rows| - |kept|))
  }

  /** Dropping loses no complete row and duplicates none: each row with every
      critical identifier is kept as often as it occurs, every other row goes. */
  lemma DropKeepsComplete(t: Table)
    requires DropIncomplete(t).Ok?
    ensures forall row :: multiset(DropIncomplete(t).value.0.rows)[row] ==
                          if HasCritical(t.columns, row) then multiset(t.rows)[row] else 0
  {
    FilterCounts(t.rows, row => HasCritical(t.columns, row));
  }

  /** The reported count is the number of rows lacking a critical identifier. */
  lemma DroppedCount(t: Table)
    requires DropIncomplete(t).Ok?
    ensures DropIncomplete(t).value.1 == |Filter(t.rows, row => !HasCritical(t.columns, row))|
  {
    FilterSplit(t.rows, row => HasCritical(t.columns, row), row => !HasCritical(t.columns, row));
  }

  // ---------------------------------------------------------------------
  // Strategy 'impute': forward fill within each geo_id group

  /** Every row has one cell per column; `numeric[j]` says whether column `j` has a numeric dtype. */
  predicate Rectangular(rows: seq<Row>, numeric: seq<bool>) {
    forall i :: 0 <= i < |rows| ==> |rows[i]| == |numeric|
  }

  /** Value of column `j` in the nearest row before `i` whose group key is `key`
      and whose cell in `j` is present; Missing when there is none. */
  function LastSeen(rows: seq<Row>, numeric: seq<bool>, g: nat, j: nat, key: Value, i: nat): Value
    requires Rectangular(rows, numeric) && g < |numeric| && j < |numeric| && i <= |rows|
    decreases i
  {
    if i == 0 then Missing
    else if rows[i - 1][g] == key && rows[i - 1][j] != Missing then rows[i - 1][j]
    else LastSeen(rows, numeric, g, j, key, i - 1)
  }

  /** Cell (i, j) after `groupby(geo_id)[numeric].ffill()`: non-numeric cells
      are untouched; a row without a group key loses its numeric cells (pandas
      leaves rows with a missing key out of every group); a missing numeric cell
      takes the last value seen in its group. */
  function FilledCell(rows: seq<Row>, numeric: seq<bool>, g: nat, i: nat, j: nat): Value
    requires Rectangular(rows, numeric) && g < |numeric| && i < |rows| && j < |numeric|
  {
    if !numeric[j] then rows[i][j]
    else if rows[i][g] == Missing then Missing
    else if rows[i][j] != Missing then rows[i][j]
    else LastSeen(rows, numeric, g, j, rows[i][g], i)
  }

  function FilledRow(rows: seq<Row>, numeric: seq<bool>, g: nat, i: nat): (r: Row)
    requires Rectangular(rows, numeric) && g < |numeric| && i < |rows|
    ensures |r| == |numeric|
  {
    seq(|numeric|, j requires 0 <= j < |numeric| => FilledCell(rows, numeric, g, i, j))
  }

  /** The whole frame after the forward fill, rows in the order given. */
  function ForwardFilled(rows: seq<Row>, numeric: seq<bool>, g: nat): (r: seq<Row>)
    requires Rectangular(rows, numeric) && g < |numeric|
    ensures |r| == |rows| && Rectangular(r, numeric)
    ensures forall i, j ::
              0 <= i < |rows| && 0 <= j < |numeric| && (!numeric[j] || (rows[i][g] != Missing && rows[i][j] != Missing)) ==>
              r[i][j] == rows[i][j]
    ensures forall i :: 0 <= i < |rows| ==> r[i][g] == rows[i][g]
  {
    seq(|rows|, i requires 0 <= i < |rows| => FilledRow(rows, numeric, g, i))
  }

  /** LastSeen is the nearest earlier present value in the group, and it is
      Missing exactly when the group has no earlier present value (leading gaps stay). */
  lemma {:induction false} LastSeenNearest(rows: seq<Row>, numeric: seq<bool>, g: nat, j: nat, key: Value, i: nat)
    requires Rectangular(rows, numeric) && g < |numeric| && j < |numeric| && i <= |rows|
    ensures LastSeen(rows, numeric, g, j, key, i) == Missing <==>
      forall k :: 0 <= k < i && rows[k][g] == key ==> rows[k][j] == Missing
    ensures LastSeen(rows, numeric, g, j, key, i) != Missing ==>
      exists k :: 0 <= k < i && rows[k][g] == key && rows[k][j] == LastSeen(rows, numeric, g, j, key, i) &&
        forall m :: k < m < i && rows[m][g] == key ==> rows[m][j] == Missing
    decreases i
  {
    if i > 0 {
      LastSeenNearest(rows, numeric, g, j, key, i - 1);
      if rows[i - 1][g] == key && rows[i - 1][j] != Missing {
        assert rows[i - 1][j] == LastSeen(rows, numeric, g, j, key, i);
      } else if LastSeen(rows, numeric, g, j, key, i - 1) != Missing {
        var k :| 0 <= k < i - 1 && rows[k][g] == key && rows[k][j] == LastSeen(rows, numeric, g, j, key, i - 1) &&
          forall m :: k < m < i - 1 && rows[m][g] == key ==> rows[m][j] == Missing;
        assert forall m :: k < m < i && rows[m][g] == key ==> rows[m][j] == Missing;
      }
    }
  }

  /** The fill does not see its own effect: the last value seen in a group is
      the same before and after filling. */
  lemma {:induction false} LastSeenAfterFill(rows: seq<Row>, numeric: seq<bool>, g: nat, j: nat, key: Value, i: nat)
    requires Rectangular(rows, numeric) && g < |numeric| && j < |numeric| && i <= |rows|
    requires numeric[j] && key != Missing
    ensures LastSeen(ForwardFilled(rows, numeric, g), numeric, g, j, key, i) == LastSeen(rows, numeric, g, j, key, i)
    decreases i
  {
    if i > 0 {
      LastSeenAfterFill(rows, numeric, g, j, key, i - 1);
      var f := ForwardFilled(rows, numeric, g);
      assert f[i - 1][j] == FilledCell(rows, numeric, g, i - 1, j);
    }
  }

  /** Filling twice is filling once. */
  lemma ForwardFillIdempotent(rows: seq<Row>, numeric: seq<bool>, g: nat)
    requires Rectangular(rows, numeric) && g < |numeric|
    ensures ForwardFilled(ForwardFilled(rows, numeric, g), numeric, g) == ForwardFilled(rows, numeric, g)
  {
    var f := ForwardFilled(rows, numeric, g);
    var ff := ForwardFilled(f, numeric, g);
    forall i, j | 0 <= i < |rows| && 0 <= j < |numeric| ensures ff[i][j] == f[i][j] {
      assert ff[i][j] == FilledCell(f, numeric, g, i, j);
      assert f[i][j] == FilledCell(rows, numeric, g, i, j);
      if numeric[j] && f[i][g] != Missing && f[i][j] == Missing {
        LastSeenAfterFill(rows, numeric, g, j, f[i][g], i);
      }
    }
    forall i | 0 <= i < |rows| ensures ff[i] == f[i] {
      assert |ff[i]| == |f[i]|;
    }
  }

  /** The fill done row by row on an array, carrying for every group key the
      last present value of each column seen so far. */
  method ForwardFillRows(rows: array<Row>, numeric: seq<bool>, g: nat)
    requires Rectangular(rows[..], numeric) && g < |numeric|
    modifies rows
    ensures rows[..] == ForwardFilled(old(rows[..]), numeric, g)
  {
    ghost var orig := rows[..];
    var width := |numeric|;
    var last: map<Value, Row> := map[];
    var i := 0;
    while i < rows.Length
      invariant 0 <= i <= rows.Length
      invariant forall k :: 0 <= k < i ==> rows[k] == FilledRow(orig, numeric, g, k)
      invariant forall k :: i <= k < rows.Length ==> rows[k] == orig[k]
      invariant forall key :: key in last ==> |last[key]| == width
      invariant forall key, j :: 0 <= j < width ==>
        LastSeen(orig, numeric, g, j, key, i) == if key in last then last[key][j] else Missing
    {
      var row := rows[i];
      var key := row[g];
      var prev := if key in last then last[key] else seq(width, _ => Missing);
      if key == Missing {
        rows[i] := seq(width, j requires 0 <= j < width => if numeric[j] then Missing else row[j]);
      } else {
        rows[i] := seq(width, j requires 0 <= j < width => if numeric[j] && row[j] == Missing then prev[j] else row[j]);
      }
      last := last[key := seq(width, j requires 0 <= j < width => if row[j] != Missing then row[j] else prev[j])];
      i := i + 1;
    }
  }

  // ---------------------------------------------------------------------
  // Derived features

  /** `(month - 1) // 3 + 1`, missing for a missing month. Python's `//`
      floors; with the positive divisor 3 that is Dafny's `/`. */
  function Quarter(month: Option<int>): (q: Option<int>)
    ensures q.None? <==> month.None?
    ensures q.Some? ==> 3 * q.value - 2 <= month.value <= 3 * q.value
  {
    match month
    case None => None
    case Some(m) => Some((m - 1) / 3 + 1)
  }

  /** `astype(str)` of an Int64 cell: its decimal text, or "<NA>" when missing. */
  function Int64Text(v: Option<int>): string {
    match v
    case None => "<NA>"
    case Some(i) => IntToString(i)
  }

  /** `year.astype(str) + '-' + month.astype(str).str.zfill(2)` */
  function YearMonth(year: Option<int>, month: Option<int>): (s: string)
    ensures StartsWith(s, Int64Text(year) + "-")
    ensures month.Some? && 0 <= month.value < 100 ==> |s| == |Int64Text(year)| + 3
  {
    Int64Text(year) + "-" + ZFill(Int64Text(month), 2)
  }

  predicate AllDigits(s: string) {
    forall i :: 0 <= i < |s| ==> IsDigit(s[i])
  }

  /** Reads "<digits>-<digits>" back into a (year, month) pair. */
  function ParseYearMonth(s: string): Option<(nat, nat)> {
    var k := FindChar(s, '-');
    if k < |s| && AllDigits(s[..k]) && AllDigits(s[k + 1..]) then Some((ParseNat(s[..k]), ParseNat(s[k + 1..])))
    else None
  }

  /** The year-month text of a non-negative year and month determines both. */
  lemma YearMonthRoundTrip(year: nat, month: nat)
    ensures ParseYearMonth(YearMonth(Some(year), Some(month))) == Some((year, month))
  {
    var y := NatToString(year);
    var m := ZFill(NatToString(month), 2);
    var s := YearMonth(Some(year), Some(month));
    assert Int64Text(Some(year)) == y;
    assert Int64Text(Some(month)) == NatToString(month);
    assert s == y + ['-'] + m;
    NoDashInDigits(y);
    FindCharAfter(y, '-', m);
    assert FindChar(s, '-') == |y|;
    assert s[..|y|] == y;
    assert s[|y| + 1..] == m;
    ZFillNat(month, 2);
    assert AllDigits(y) && AllDigits(m);
    ParseNatToString(year);
  }

  lemma NoDashInDigits(s: string)
    requires AllDigits(s)
    ensures '-' !in s
  {
    forall i | 0 <= i < |s| ensures s[i] != '-' {
      assert IsDigit(s[i]);
    }
  }

  /** The Int64 view of a cell that holds an integer or nothing. */
  predicate IsInt64(v: Value) {
    v.Int? || v.Missing?
  }

  function AsInt64(v: Value): Option<int> {
    if v.Int? then Some(v.i) else None
  }

  function FromInt64(v: Option<int>): Value {
    match v
    case None => Missing
    case Some(i) => Int(i)
  }

  /** Every cell of the column holds an integer or nothing (the Int64 dtype). */
  predicate Int64Column(t: Table, name: string) {
    forall i :: 0 <= i < |t.rows| ==> IsInt64(Get(t.columns, t.rows[i], name))
  }

  function QuarterColumn(t: Table): (vs: seq<Value>)
    ensures |vs| == |t.rows|
  {
    seq(|t.rows|, i requires 0 <= i < |t.rows| => FromInt64(Quarter(AsInt64(Get(t.columns, t.rows[i], "month")))))
  }

  function YearMonthColumn(t: Table): (vs: seq<Value>)
    ensures |vs| == |t.rows|
  {
    seq(|t.rows|, i requires 0 <= i < |t.rows| =>
      Text(YearMonth(AsInt64(Get(t.columns, t.rows[i], "year")), AsInt64(Get(t.columns, t.rows[i], "month")))))
  }

  /** After `create_derived_features`, each row's quarter lies between one and
      four for a month between 1 and 12 and contains that month, and its
      year_month text reads back as its year and month. */
  lemma DerivedFeaturesOfRow(t: Table, i: nat, year: nat, month: nat)
    requires WellFormed(t) && i < |t.rows|
    requires Get(t.columns, t.rows[i], "year") == Int(year) && Get(t.columns, t.rows[i], "month") == Int(month)
    requires 1 <= month <= 12
    ensures var q := SetColumn(t, "quarter", QuarterColumn(t));
      var f := SetColumn(q, "year_month", YearMonthColumn(q));
      var qv := Get(f.columns, f.rows[i], "quarter");
      qv.Int? && 1 <= qv.i <= 4 && 3 * qv.i - 2 <= month <= 3 * qv.i &&
      Get(f.columns, f.rows[i], "year_month").Text? &&
      ParseYearMonth(Get(f.columns, f.rows[i], "year_month").s) == Some((year, month))
  {
    var qs := QuarterColumn(t);
    var q := SetColumn(t, "quarter", qs);
    SetColumnGet(t, "quarter", qs, i, "year");
    SetColumnGet(t, "quarter", qs, i, "month");
    SetColumnGet(t, "quarter", qs, i, "quarter");
    var ym := YearMonthColumn(q);
    SetColumnGet(q, "year_month", ym, i, "quarter");
    SetColumnGet(q, "year_month", ym, i, "year_month");
    YearMonthRoundTrip(year, month);
  }

  // ---------------------------------------------------------------------
  // The preprocessor object

  /** The frame after `create_derived_features` added `quarter` and then `year_month`. */
  function WithDerivedFeatures(t: Table): (r: Table)
    requires WellFormed(t)
    ensures WellFormed(r)
  {
    var q := SetColumn(t, "quarter", QuarterColumn(t));
    SetColumn(q, "year_month", YearMonthColumn(q))
  }

  datatype Report = Analyzed | Dropped(count: nat) | Imputed | Unchanged

  /** Strategy 'analyze' only reports; it reads the groups (absent before
      `identify_column_groups` ran) and the geo, time and food columns. */
  function Analyze(df: Table, groups: Option<Groups>): (r: Result<Report>)
    ensures r.Ok? <==> groups.Some? && forall c :: c in groups.value.geo + groups.value.time + groups.value.food ==> c in df.columns
    ensures r.Ok? ==> r.value == Analyzed
  {
    match groups
    case None => Err(AttributeError("geo_cols"))
    case Some(gs) =>
      match FirstAbsent(df.columns, gs.geo + gs.time + gs.food)
      case Some(c) => Err(KeyError(c))
      case None => Ok(Analyzed)
  }

  /** Strategy 'impute': a frame without `geo_id` or `DATES` fails; otherwise
      the numeric cells are forward-filled within each geo_id group. */
  function Impute(df: Table, numeric: seq<bool>): (r: Result<Table>)
    requires WellFormed(df) && |numeric| == |df.columns|
    ensures r.Err? <==> "geo_id" !in df.columns || "DATES" !in df.columns
    ensures r.Ok? ==> WellFormed(r.value) && r.value.columns == df.columns &&
                      r.value.rows == ForwardFilled(df.rows, numeric, IndexOf(df.columns, "geo_id"))
  {
    match FirstAbsent(df.columns, ["geo_id", "DATES"])
    case Some(c) => Err(KeyError(c))
    case None => Ok(Table(df.columns, ForwardFilled(df.rows, numeric, IndexOf(df.columns, "geo_id"))))
  }

  class Preprocessor {
    const filepath: FilePath
    var df: Table
    var groups: Option<Groups>

    /** `__init__` followed by `load_csv`; the frame read is given. */
    constructor (filepath: FilePath, loaded: Table)
      requires WellFormed(loaded)
      ensures this.filepath == filepath && df == loaded && groups == None
    {
      this.filepath := filepath;
      df := loaded;
      groups := None;
    }

    method IdentifyColumnGroupsOfFrame()
      modifies this`groups
      ensures groups == Some(IdentifyColumnGroups(df.columns)) && df == old(df)
    {
      groups := Some(IdentifyColumnGroups(df.columns));
    }

    /** `handle_missing_values(strategy)`. 'analyze' only reads (it fails on an
        absent column or before the groups exist), 'drop' keeps the rows with
        every critical identifier, 'impute' forward-fills numeric cells within
        each geo_id group, any other strategy does nothing. */
    method HandleMissingValues(strategy: string, numeric: seq<bool>) returns (outcome: Result<Report>)
      requires WellFormed(df) && |numeric| == |df.columns|
      modifies this`df
      ensures WellFormed(df) && df.columns == old(df.columns)
      ensures strategy == "analyze" ==> df == old(df) && outcome == Analyze(old(df), groups)
      ensures strategy == "drop" && DropIncomplete(old(df)).Err? ==>
                df == old(df) && outcome == Err(DropIncomplete(old(df)).error)
      ensures strategy == "drop" && DropIncomplete(old(df)).Ok? ==>
                df == DropIncomplete(old(df)).value.0 && outcome == Ok(Dropped(DropIncomplete(old(df)).value.1))
      ensures strategy == "impute" && Impute(old(df), numeric).Err? ==>
                df == old(df) && outcome == Err(Impute(old(df), numeric).error)
      ensures strategy == "impute" && Impute(old(df), numeric).Ok? ==>
                df == Impute(old(df), numeric).value && outcome == Ok(Imputed)
      ensures strategy !in {"analyze", "drop", "impute"} ==> df == old(df) && outcome == Ok(Unchanged)
    {
      if strategy == "analyze" {
        outcome := Analyze(df, groups);
      } else if strategy == "drop" {
        match DropIncomplete(df)
        case Err(e) =>
          outcome := Err(e);
        case Ok((kept, n)) =>
          df := kept;
          outcome := Ok(Dropped(n));
      } else if strategy == "impute" {
        match FirstAbsent(df.columns, ["geo_id", "DATES"])
        case Some(c) =>
          outcome := Err(KeyError(c));
        case None =>
          var g := IndexOf(df.columns, "geo_id");
          var current := df.rows;
          var rows := new Row[|current|](i requires 0 <= i < |current| => current[i]);
          assert rows[..] == current;
          ForwardFillRows(rows, numeric, g);
          df := Table(df.columns, rows[..]);
          outcome := Ok(Imputed);
      } else {
        outcome := Ok(Unchanged);
      }
    }

    /** `create_derived_features` for Int64 year and month columns: adds (or
        overwrites) `quarter`, then `year_month`; an absent `month` fails before
        any change, an absent `year` after `quarter` was added, and an absent
        `DATES` (read for `days_since_start`) after both were added. */
    method CreateDerivedFeatures() returns (outcome: Result<()>)
      requires WellFormed(df) && Int64Column(df, "month") && Int64Column(df, "year")
      modifies this`df
      ensures WellFormed(df)
      ensures "month" !in old(df.columns) ==> outcome == Err(KeyError("month")) && df == old(df)
      ensures "month" in old(df.columns) && "year" !in old(df.columns) ==>
        outcome == Err(KeyError("year")) && df == SetColumn(old(df), "quarter", QuarterColumn(old(df)))
      ensures "month" in old(df.columns) && "year" in old(df.columns) && "DATES" !in old(df.columns) ==>
        outcome == Err(KeyError("DATES")) && df == WithDerivedFeatures(old(df))
      ensures "month" in old(df.columns) && "year" in old(df.columns) && "DATES" in old(df.columns) ==>
        outcome == Ok(()) && df == WithDerivedFeatures(old(df))
    {
      if "month" !in df.columns {
        return Err(KeyError("month"));
      }
      df := SetColumn(df, "quarter", QuarterColumn(df));
      if "year" !in df.columns {
        return Err(KeyError("year"));
      }
      df := SetColumn(df, "year_month", YearMonthColumn(df));
      if "DATES" !in df.columns {
        return Err(KeyError("DATES"));
      }
      outcome := Ok(());
    }

    /** `save_processed_data(output_path)`: the path written to. */
    method SaveProcessedData(outputPath: Option<FilePath>) returns (written: FilePath)
      ensures outputPath.Some? ==> written == outputPath.value
      ensures outputPath.None? ==> written == BesideInput(filepath)
    {
      written := if outputPath.Some? then outputPath.value else BesideInput(filepath);
    }
  }
}
