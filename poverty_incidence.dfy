/** `PovertyIncidenceProcessor.reshape`: the wide poverty incidence table,
    one column per metric and year ("Poverty Incidence (2018)"), becomes a
    long table with one block of rows per year and a `year` column. */
module PovertyIncidence {
  import opened Text
  import opened Seqs
  import opened Tables
  import opened Paths

  /** The years, in the order their blocks are stacked. */
  const Years: seq<nat> := [2018, 2021, 2023]

  const IdColumns: seq<string> := ["Region", "Province"]

  const YearColumn := "year"

  /** `f'({year})'`, the token that marks a column as belonging to a year. */
  function YearToken(y: nat): (t: string)
    ensures |t| >= 3 && t[0] == '('
  {
    "(" + NatToString(y) + ")"
  }

  /** `f' ({year})'`, the part of a column name that the rename removes. */
  function YearSuffix(y: nat): (t: string)
    ensures |t| >= 4 && t[0] == ' ' && t[1] == '('
  {
    " " + YearToken(y)
  }

  /** `'(2018)' in col or '(2021)' in col or '(2023)' in col` */
  predicate IsYearColumn(col: string) {
    Contains(col, YearToken(2018)) || Contains(col, YearToken(2021)) || Contains(col, YearToken(2023))
  }

  /** `year_columns`: the columns carrying one of the year tokens, in frame order. */
  function YearColumns(cols: seq<string>): (yc: seq<string>)
    ensures IsSubsequence(yc, cols)
    ensures forall c :: c in yc <==> c in cols && IsYearColumn(c)
  {
    Filter(cols, IsYearColumn)
  }

  /** `year_cols` for one year: the year columns that carry that year's token. */
  function ColumnsForYear(yearColumns: seq<string>, y: nat): (yc: seq<string>)
    ensures IsSubsequence(yc, yearColumns)
    ensures forall c :: c in yc <==> c in yearColumns && Contains(c, YearToken(y))
  {
    Filter(yearColumns, c => Contains(c, YearToken(y)))
  }

  /** `col.replace(f' ({year})', '')` */
  function StripYear(col: string, y: nat): string {
    RemoveAll(col, YearSuffix(y))
  }

  /** The year suffix has its only space in front: the token is '(', digits, ')'. */
  lemma YearSuffixOneSpace(y: nat)
    ensures ' ' !in YearSuffix(y)[1..]
  {
    var t := YearSuffix(y);
    var d := NatToString(y);
    assert t[1..] == ['('] + d + [')'];
    forall i | 0 <= i < |d| ensures d[i] != ' ' {
      assert IsDigit(d[i]);
    }
  }

  /** A metric tagged with a year loses exactly the tag again, whatever else
      it holds ("Poverty Incidence (%) (2018)" becomes "Poverty Incidence (%)"),
      as long as it does not itself contain the suffix. */
  lemma StripYearOfTagged(metric: string, y: nat)
    requires !Contains(metric, YearSuffix(y))
    ensures StripYear(metric + YearSuffix(y), y) == metric
  {
    YearSuffixOneSpace(y);
    RemoveAllTrailing(metric, YearSuffix(y));
  }

  /** A name is left as it is exactly when it lacks " (YEAR)"; "(YEAR)" with
      no space before it is therefore kept. */
  lemma StripYearUnchangedIff(col: string, y: nat)
    ensures StripYear(col, y) == col <==> !Contains(col, YearSuffix(y))
  {
    RemoveAllUnchangedIff(col, YearSuffix(y));
  }

  function Renamed(yc: seq<string>, y: nat): (r: seq<string>)
    ensures |r| == |yc|
  {
    seq(|yc|, j requires 0 <= j < |yc| => StripYear(yc[j], y))
  }

  /** Labels of the block for year `y`: the identifiers, the year's columns
      without the suffix, and `year`. */
  function BlockColumns(df: Table, y: nat): seq<string> {
    IdColumns + Renamed(ColumnsForYear(YearColumns(df.columns), y), y) + [YearColumn]
  }

  /** The block for year `y`: `df[id_columns + year_cols]` with every row
      tagged by `y` and the labels of `BlockColumns`. */
  function Block(df: Table, y: nat): (b: Table)
    ensures b.columns == BlockColumns(df, y) && |b.rows| == |df.rows|
    ensures forall i :: 0 <= i < |df.rows| ==> |b.rows[i]| == |b.columns|
  {
    var yc := ColumnsForYear(YearColumns(df.columns), y);
    var sel := Select(df, IdColumns + yc);
    Table(BlockColumns(df, y), seq(|df.rows|, i requires 0 <= i < |df.rows| => sel.rows[i] + [Int(y)]))
  }

  // ---------------------------------------------------------------------
  // `pd.concat(blocks, ignore_index=True)` with the default outer join

  predicate InSomeBlock(blocks: seq<Table>, c: string) {
    exists k :: 0 <= k < |blocks| && c in blocks[k].columns
  }

  lemma InSomeBlockCons(blocks: seq<Table>, c: string)
    requires blocks != []
    ensures InSomeBlock(blocks, c) <==> c in blocks[0].columns || InSomeBlock(blocks[1..], c)
  {
    if InSomeBlock(blocks, c) && c !in blocks[0].columns {
      var k :| 0 <= k < |blocks| && c in blocks[k].columns;
      assert blocks[1..][k - 1] == blocks[k];
    }
    if InSomeBlock(blocks[1..], c) {
      var k :| 0 <= k < |blocks[1..]| && c in blocks[1..][k].columns;
      assert blocks[k + 1] == blocks[1..][k];
    }
  }

  /** `acc` extended by the labels of the blocks, block by block. */
  function UnionFrom(acc: seq<string>, blocks: seq<Table>): (r: seq<string>)
    ensures |acc| <= |r| && r[..|acc|] == acc
    ensures Distinct(acc) ==> Distinct(r)
    ensures forall c :: c in r <==> c in acc || InSomeBlock(blocks, c)
    decreases |blocks|
  {
    if blocks == [] then acc
    else
      var next := AppendNew(acc, blocks[0].columns);
      var r := UnionFrom(next, blocks[1..]);
      AppendNewDistinct(acc, blocks[0].columns);
      assert r[..|acc|] == r[..|next|][..|acc|];
      forall c ensures InSomeBlock(blocks, c) <==> c in blocks[0].columns || InSomeBlock(blocks[1..], c) {
        InSomeBlockCons(blocks, c);
      }
      r
  }

  /** Labels of the stacked frame: every label of every block, each once, in
      the order of first appearance. */
  function UnionColumns(blocks: seq<Table>): (r: seq<string>)
    ensures Distinct(r)
    ensures forall c :: c in r <==> InSomeBlock(blocks, c)
  {
    UnionFrom([], blocks)
  }

  /** The stacked labels begin with the first block's labels, in their order. */
  lemma UnionColumnsStartsWithFirst(blocks: seq<Table>)
    requires blocks != [] && Distinct(blocks[0].columns)
    ensures |blocks[0].columns| <= |UnionColumns(blocks)|
    ensures UnionColumns(blocks)[..|blocks[0].columns|] == blocks[0].columns
  {
    AppendNewFresh([], blocks[0].columns);
  }

  /** A block row laid out under the stacked labels, NaN where the block lacks a label. */
  function Reindex(b: Table, row: Row, cols: seq<string>): (r: Row)
    ensures |r| == |cols|
  {
    seq(|cols|, j requires 0 <= j < |cols| => Get(b.columns, row, cols[j]))
  }

  lemma GetReindexed(b: Table, row: Row, cols: seq<string>, name: string)
    requires Distinct(cols) && name in cols
    ensures Get(cols, Reindex(b, row, cols), name) == Get(b.columns, row, name)
  {
  }

  function StackRows(blocks: seq<Table>, cols: seq<string>): (rows: seq<Row>)
    ensures forall i :: 0 <= i < |rows| ==> |rows[i]| == |cols|
  {
    if blocks == [] then []
    else
      seq(|blocks[0].rows|, i requires 0 <= i < |blocks[0].rows| => Reindex(blocks[0], blocks[0].rows[i], cols))
      + StackRows(blocks[1..], cols)
  }

  /** The stacked frame with `ignore_index=True`: rows of block 0, then of block 1, ... */
  function Concat(blocks: seq<Table>): (t: Table)
    ensures Distinct(t.columns) && forall i :: 0 <= i < |t.rows| ==> |t.rows[i]| == |t.columns|
  {
    var cols := UnionColumns(blocks);
    Table(cols, StackRows(blocks, cols))
  }

  /** Position of the first row of block `k` when every block has `n` rows. */
  function Offset(k: nat, n: nat): nat {
    if k == 0 then 0 else Offset(k - 1, n) + n
  }

  lemma {:induction false} OffsetIsProduct(k: nat, n: nat)
    ensures Offset(k, n) == k * n
  {
    if k > 0 {
      OffsetIsProduct(k - 1, n);
    }
  }

  predicate SameHeight(blocks: seq<Table>, n: nat) {
    forall m :: 0 <= m < |blocks| ==> |blocks[m].rows| == n
  }

  lemma {:induction false} StackRowsAt(blocks: seq<Table>, cols: seq<string>, n: nat, k: nat, i: nat)
    requires SameHeight(blocks, n) && k < |blocks| && i < n
    ensures |StackRows(blocks, cols)| == Offset(|blocks|, n)
    ensures Offset(k, n) + i < |StackRows(blocks, cols)|
    ensures StackRows(blocks, cols)[Offset(k, n) + i] == Reindex(blocks[k], blocks[k].rows[i], cols)
    decreases k
  {
    StackRowsLength(blocks, cols, n);
    if k > 0 {
      assert blocks[1..][k - 1] == blocks[k];
      StackRowsAt(blocks[1..], cols, n, k - 1, i);
    }
  }

  lemma {:induction false} StackRowsLength(blocks: seq<Table>, cols: seq<string>, n: nat)
    requires SameHeight(blocks, n)
    ensures |StackRows(blocks, cols)| == Offset(|blocks|, n)
  {
    if blocks != [] {
      StackRowsLength(blocks[1..], cols, n);
      OffsetShift(|blocks| - 1, n);
    }
  }

  /** `Offset` peels a block off either end. */
  lemma {:induction false} OffsetShift(k: nat, n: nat)
    ensures Offset(k + 1, n) == n + Offset(k, n)
  {
  }

  /** Outer concatenation: row `i` of block `k` reappears at `Offset(k, n) + i`
      with every label reading as it did in the block, NaN for a label the block lacks. */
  lemma ConcatRowAt(blocks: seq<Table>, n: nat, k: nat, i: nat, name: string)
    requires SameHeight(blocks, n) && k < |blocks| && i < n
    ensures |Concat(blocks).rows| == Offset(|blocks|, n) && Offset(k, n) + i < |Concat(blocks).rows|
    ensures Get(Concat(blocks).columns, Concat(blocks).rows[Offset(k, n) + i], name) ==
            Get(blocks[k].columns, blocks[k].rows[i], name)
  {
    var cols := UnionColumns(blocks);
    StackRowsAt(blocks, cols, n, k, i);
    if name in cols {
      GetReindexed(blocks[k], blocks[k].rows[i], cols, name);
    } else {
      assert !InSomeBlock(blocks, name);
      assert name !in blocks[k].columns;
    }
  }

  // ---------------------------------------------------------------------
  // One year's block

  /** No year token can occur in Region, Province or year: none has a '('. */
  lemma IdentifierCarriesNoToken(c: string, y: nat)
    requires c in IdColumns + [YearColumn]
    ensures !Contains(c, YearToken(y))
  {
    assert '(' !in c;
    NotContainsFirstChar(c, YearToken(y));
  }

  /** Hence none of them is among the columns of a year. */
  lemma IdentifiersNotTagged(yc: seq<string>, y: nat)
    requires forall c :: c in yc ==> Contains(c, YearToken(y))
    ensures forall c :: c in IdColumns + [YearColumn] ==> c !in yc
  {
    forall c | c in IdColumns + [YearColumn] ensures c !in yc {
      IdentifierCarriesNoToken(c, y);
    }
  }

  /** A column carrying the token of one of the three years is a year column. */
  lemma TokenMakesYearColumn(c: string, y: nat)
    requires y in Years && Contains(c, YearToken(y))
    ensures IsYearColumn(c)
  {
  }

  /** Where each label of a block sits. */
  lemma BlockColumnsShape(df: Table, y: nat)
    ensures var yc := ColumnsForYear(YearColumns(df.columns), y); var bc := BlockColumns(df, y);
      |bc| == |yc| + 3 && bc[0] == "Region" && bc[1] == "Province" && bc[|yc| + 2] == YearColumn &&
      forall j :: 0 <= j < |yc| ==> bc[2 + j] == StripYear(yc[j], y)
  {
  }

  /** A row of `df[id_columns + yc]` with the year appended. */
  lemma SelectedRow(df: Table, yc: seq<string>, y: nat, i: nat)
    requires i < |df.rows|
    ensures var row := Select(df, IdColumns + yc).rows[i] + [Int(y)];
      |row| == |yc| + 3 && row[|yc| + 2] == Int(y) &&
      row[0] == Get(df.columns, df.rows[i], "Region") && row[1] == Get(df.columns, df.rows[i], "Province") &&
      forall j :: 0 <= j < |yc| ==> row[2 + j] == Get(df.columns, df.rows[i], yc[j])
  {
    var cols := IdColumns + yc;
    assert cols[0] == "Region" && cols[1] == "Province";
    forall j | 0 <= j < |yc| ensures Select(df, cols).rows[i][2 + j] == Get(df.columns, df.rows[i], yc[j]) {
      assert cols[2 + j] == yc[j];
    }
  }

  /** Where each value of a block row comes from. */
  lemma BlockRowShape(df: Table, y: nat, i: nat)
    requires i < |df.rows|
    ensures var yc := ColumnsForYear(YearColumns(df.columns), y); var row := Block(df, y).rows[i];
      |row| == |yc| + 3 && row[|yc| + 2] == Int(y) &&
      row[0] == Get(df.columns, df.rows[i], "Region") && row[1] == Get(df.columns, df.rows[i], "Province") &&
      forall j :: 0 <= j < |yc| ==> row[2 + j] == Get(df.columns, df.rows[i], yc[j])
  {
    var yc := ColumnsForYear(YearColumns(df.columns), y);
    SelectedRow(df, yc, y, i);
  }

  /** The labels `id_columns + [renamed yc] + ['year']`, member by member. */
  lemma LabelsMembers(yc: seq<string>, y: nat, name: string)
    ensures name in IdColumns + Renamed(yc, y) + [YearColumn] <==>
      name in IdColumns || name == YearColumn || exists c :: c in yc && name == StripYear(c, y)
  {
    var labels := IdColumns + Renamed(yc, y) + [YearColumn];
    if name in labels && !(name in IdColumns || name == YearColumn) {
      var j :| 0 <= j < |labels| && labels[j] == name;
      assert name == Renamed(yc, y)[j - 2] && yc[j - 2] in yc;
    }
    if exists c :: c in yc && name == StripYear(c, y) {
      var c :| c in yc && name == StripYear(c, y);
      var j :| 0 <= j < |yc| && yc[j] == c;
      assert labels[2 + j] == name;
    }
    if name == YearColumn {
      assert labels[|labels| - 1] == name;
    }
  }

  /** Labels of a block: Region, Province, year, and the year's columns without
      their " (YEAR)" suffix. */
  lemma BlockColumnsMembers(df: Table, y: nat, name: string)
    requires y in Years
    ensures name in BlockColumns(df, y) <==>
      name in IdColumns || name == YearColumn ||
      exists c :: c in df.columns && Contains(c, YearToken(y)) && name == StripYear(c, y)
  {
    var yc := ColumnsForYear(YearColumns(df.columns), y);
    LabelsMembers(yc, y, name);
    if exists c :: c in df.columns && Contains(c, YearToken(y)) && name == StripYear(c, y) {
      var c :| c in df.columns && Contains(c, YearToken(y)) && name == StripYear(c, y);
      TokenMakesYearColumn(c, y);
      assert c in yc;
    }
  }

  /** A label that is neither an identifier, `year`, nor a stripped column of the year reads as NaN. */
  lemma BlockLacks(df: Table, y: nat, i: nat, name: string)
    requires y in Years && i < |df.rows|
    requires name !in IdColumns && name != YearColumn
    requires forall c :: c in df.columns && Contains(c, YearToken(y)) ==> StripYear(c, y) != name
    ensures Get(Block(df, y).columns, Block(df, y).rows[i], name) == Missing
  {
    BlockColumnsMembers(df, y, name);
  }

  /** Every row of the block carries the year and the identifiers of the input row. */
  lemma BlockIdentity(df: Table, y: nat, i: nat)
    requires Distinct(BlockColumns(df, y)) && i < |df.rows|
    ensures var b := Block(df, y);
      Get(b.columns, b.rows[i], YearColumn) == Int(y) &&
      Get(b.columns, b.rows[i], "Region") == Get(df.columns, df.rows[i], "Region") &&
      Get(b.columns, b.rows[i], "Province") == Get(df.columns, df.rows[i], "Province")
  {
    var yc := ColumnsForYear(YearColumns(df.columns), y);
    var cols := BlockColumns(df, y);
    var row := Block(df, y).rows[i];
    BlockColumnsShape(df, y);
    BlockRowShape(df, y, i);
    GetAt(cols, row, 0);
    GetAt(cols, row, 1);
    GetAt(cols, row, |yc| + 2);
  }

  /** A column tagged with the year holds, under its stripped name, the input row's value. */
  lemma BlockMetric(df: Table, y: nat, i: nat, c: string)
    requires y in Years && Distinct(BlockColumns(df, y)) && i < |df.rows|
    requires c in df.columns && Contains(c, YearToken(y))
    ensures StripYear(c, y) in BlockColumns(df, y)
    ensures var b := Block(df, y); Get(b.columns, b.rows[i], StripYear(c, y)) == Get(df.columns, df.rows[i], c)
  {
    var yc := ColumnsForYear(YearColumns(df.columns), y);
    var cols := BlockColumns(df, y);
    TokenMakesYearColumn(c, y);
    assert c in yc;
    var j :| 0 <= j < |yc| && yc[j] == c;
    BlockColumnsShape(df, y);
    BlockRowShape(df, y, i);
    GetAt(cols, Block(df, y).rows[i], 2 + j);
  }

  // ---------------------------------------------------------------------
  // The reshape

  predicate AllLabelsDistinct(blocks: seq<Table>) {
    forall k :: 0 <= k < |blocks| ==> Distinct(blocks[k].columns)
  }

  /** The blocks of `Years[j..]`, in order. */
  function BlocksFrom(df: Table, j: nat): (bs: seq<Table>)
    requires j <= |Years|
    ensures |bs| == |Years| - j && SameHeight(bs, |df.rows|)
    decreases |Years| - j
  {
    if j == |Years| then [] else [Block(df, Years[j])] + BlocksFrom(df, j + 1)
  }

  lemma {:induction false} BlocksFromAt(df: Table, j: nat, k: nat)
    requires j <= k < |Years|
    ensures BlocksFrom(df, j)[k - j] == Block(df, Years[k])
    decreases k - j
  {
    var rest := BlocksFrom(df, j + 1);
    assert BlocksFrom(df, j) == [Block(df, Years[j])] + rest;
    if j < k {
      BlocksFromAt(df, j + 1, k);
      assert rest[k - (j + 1)] == Block(df, Years[k]);
    }
  }

  /** One block per year of `Years`, in that order. */
  function Blocks(df: Table): (bs: seq<Table>)
    ensures |bs| == |Years| && SameHeight(bs, |df.rows|)
  {
    BlocksFrom(df, 0)
  }

  lemma BlocksAt(df: Table, k: nat)
    requires k < |Years|
    ensures Blocks(df)[k] == Block(df, Years[k])
  {
    BlocksFromAt(df, 0, k);
  }

  /** The reshaped table, or the error pandas raises: KeyError for a missing
      identifier column; a block with a repeated label is refused. */
  function ReshapeSpec(df: Table): Result<Table> {
    if "Region" !in df.columns then Err(KeyError("Region"))
    else if "Province" !in df.columns then Err(KeyError("Province"))
    else if !AllLabelsDistinct(Blocks(df)) then Err(DuplicateLabels)
    else Ok(Reshaped(df))
  }

  /** The long table: the year blocks stacked with an outer join of their labels. */
  function Reshaped(df: Table): Table {
    Concat(Blocks(df))
  }

  /** `rename(columns=dict)`: every label found in `dict` replaced. */
  function Rename(cols: seq<string>, dict: map<string, string>): (r: seq<string>)
    ensures |r| == |cols|
  {
    seq(|cols|, j requires 0 <= j < |cols| => if cols[j] in dict then dict[cols[j]] else cols[j])
  }

  /** `subset['year'] = year` on a selection that has no `year` label. */
  function AppendConstant(t: Table, name: string, v: Value): (r: Table)
    ensures r.columns == t.columns + [name] && |r.rows| == |t.rows|
  {
    Table(t.columns + [name], seq(|t.rows|, i requires 0 <= i < |t.rows| => t.rows[i] + [v]))
  }

  /** The rename dictionary of a year maps each of its columns to the name
      without " (YEAR)"; the identifiers and `year` carry no token, so they stay. */
  lemma RenameLabels(yc: seq<string>, y: nat, dict: map<string, string>)
    requires forall c :: c in yc ==> Contains(c, YearToken(y))
    requires forall c :: c in dict <==> c in yc
    requires forall c :: c in dict ==> dict[c] == StripYear(c, y)
    ensures Rename(IdColumns + yc + [YearColumn], dict) == IdColumns + Renamed(yc, y) + [YearColumn]
  {
    var cols := IdColumns + yc + [YearColumn];
    var want := IdColumns + Renamed(yc, y) + [YearColumn];
    IdentifiersNotTagged(yc, y);
    forall j | 0 <= j < |cols| ensures Rename(cols, dict)[j] == want[j] {
      if 2 <= j < 2 + |yc| {
        assert cols[j] == yc[j - 2] && want[j] == Renamed(yc, y)[j - 2];
      } else {
        assert cols[j] in IdColumns + [YearColumn] && cols[j] == want[j];
      }
    }
  }

  /** Renaming the tagged selection with the dictionary built for year `y` gives that year's block. */
  lemma RenamedSelection(df: Table, y: nat, yc: seq<string>, dict: map<string, string>)
    requires yc == ColumnsForYear(YearColumns(df.columns), y)
    requires forall c :: c in dict <==> c in yc
    requires forall c :: c in dict ==> dict[c] == StripYear(c, y)
    ensures var sub := AppendConstant(Select(df, IdColumns + yc), YearColumn, Int(y));
      Table(Rename(sub.columns, dict), sub.rows) == Block(df, y)
  {
    RenameLabels(yc, y, dict);
  }

  /** One pass of the loop body of `reshape`: select the identifiers and the
      year's columns, add `year`, build `rename_dict` and rename. */
  method BuildBlock(df: Table, yearColumns: seq<string>, year: nat) returns (block: Table)
    requires yearColumns == YearColumns(df.columns)
    ensures block == Block(df, year)
  {
    var yearCols := ColumnsForYear(yearColumns, year);
    var subset := AppendConstant(Select(df, IdColumns + yearCols), YearColumn, Int(year));
    var renameDict: map<string, string> := map[];
    var j := 0;
    while j < |yearCols|
      invariant 0 <= j <= |yearCols|
      invariant forall c :: c in renameDict <==> c in yearCols[..j]
      invariant forall c :: c in renameDict ==> renameDict[c] == StripYear(c, year)
    {
      var col := yearCols[j];
      assert yearCols[..j + 1] == yearCols[..j] + [col];
      renameDict := renameDict[col := RemoveAll(col, YearSuffix(year))];
      j := j + 1;
    }
    assert yearCols[..j] == yearCols;
    RenamedSelection(df, year, yearCols, renameDict);
    block := Table(Rename(subset.columns, renameDict), subset.rows);
  }

  /** The loop of `reshape` over the years: one block per year, in order. */
  method BuildBlocks(df: Table) returns (reshapedData: seq<Table>)
    ensures reshapedData == Blocks(df)
  {
    var yearColumns := YearColumns(df.columns);
    reshapedData := [];
    var k := 0;
    while k < |Years|
      invariant 0 <= k <= |Years| && |reshapedData| == k
      invariant forall m :: 0 <= m < k ==> reshapedData[m] == Blocks(df)[m]
    {
      var block := BuildBlock(df, yearColumns, Years[k]);
      BlocksAt(df, k);
      reshapedData := reshapedData + [block];
      k := k + 1;
    }
  }

  /** `reshape` without the object: the blocks, then the concatenation. */
  method Reshape(df: Table) returns (result: Result<Table>)
    ensures result == ReshapeSpec(df)
  {
    if "Region" !in df.columns {
      return Err(KeyError("Region"));
    }
    if "Province" !in df.columns {
      return Err(KeyError("Province"));
    }
    var reshapedData := BuildBlocks(df);
    if !AllLabelsDistinct(reshapedData) {
      return Err(DuplicateLabels);
    }
    result := Ok(Concat(reshapedData));
  }

  // ---------------------------------------------------------------------
  // What the reshape guarantees

  /** The reshape fails only for a missing identifier or a repeated label, and
      otherwise gives a well-formed table with one block of input rows per year. */
  lemma ReshapeShape(df: Table)
    ensures ReshapeSpec(df).Err? <==>
      "Region" !in df.columns || "Province" !in df.columns || !AllLabelsDistinct(Blocks(df))
    ensures ReshapeSpec(df).Ok? ==>
      WellFormed(ReshapeSpec(df).value) && |ReshapeSpec(df).value.rows| == |Years| * |df.rows|
  {
    if ReshapeSpec(df).Ok? {
      StackRowsLength(Blocks(df), UnionColumns(Blocks(df)), |df.rows|);
      OffsetIsProduct(|Years|, |df.rows|);
    }
  }

  /** The labels start with those of the first (2018) block: Region, Province,
      the 2018 metrics without their suffix, year. */
  lemma ReshapeColumnOrder(df: Table)
    requires ReshapeSpec(df).Ok?
    ensures |BlockColumns(df, Years[0])| <= |ReshapeSpec(df).value.columns|
    ensures ReshapeSpec(df).value.columns[..|BlockColumns(df, Years[0])|] == BlockColumns(df, Years[0])
  {
    BlocksAt(df, 0);
    UnionColumnsStartsWithFirst(Blocks(df));
  }

  /** Row `Offset(k, n) + i` of the long table is input row `i` as block `k` has it. */
  lemma ReshapeRow(df: Table, k: nat, i: nat, name: string)
    requires k < |Years| && i < |df.rows|
    ensures Offset(k, |df.rows|) + i < |Reshaped(df).rows|
    ensures var out := Reshaped(df); var b := Blocks(df)[k];
      Get(out.columns, out.rows[Offset(k, |df.rows|) + i], name) == Get(b.columns, b.rows[i], name)
  {
    ConcatRowAt(Blocks(df), |df.rows|, k, i, name);
  }

  /** Every row of block `k` carries year `Years[k]` and the Region and
      Province of the input row it was copied from. */
  lemma ReshapeBlockIdentity(df: Table, k: nat, i: nat)
    requires ReshapeSpec(df).Ok? && k < |Years| && i < |df.rows|
    ensures Offset(k, |df.rows|) + i < |ReshapeSpec(df).value.rows|
    ensures var out := ReshapeSpec(df).value; var row := out.rows[Offset(k, |df.rows|) + i];
      Get(out.columns, row, YearColumn) == Int(Years[k]) &&
      Get(out.columns, row, "Region") == Get(df.columns, df.rows[i], "Region") &&
      Get(out.columns, row, "Province") == Get(df.columns, df.rows[i], "Province")
  {
    BlocksAt(df, k);
    assert Distinct(BlockColumns(df, Years[k])) by {
      assert Blocks(df)[k].columns == BlockColumns(df, Years[k]);
    }
    BlockIdentity(df, Years[k], i);
    ReshapeRow(df, k, i, YearColumn);
    ReshapeRow(df, k, i, "Region");
    ReshapeRow(df, k, i, "Province");
  }

  /** A column carrying year `Years[k]`'s token reappears, under its name
      without " (YEAR)", in block `k`, holding the input row's value. */
  lemma ReshapeMetricValue(df: Table, k: nat, i: nat, c: string)
    requires ReshapeSpec(df).Ok? && k < |Years| && i < |df.rows|
    requires c in df.columns && Contains(c, YearToken(Years[k]))
    ensures Offset(k, |df.rows|) + i < |ReshapeSpec(df).value.rows|
    ensures var out := ReshapeSpec(df).value;
      StripYear(c, Years[k]) in out.columns &&
      Get(out.columns, out.rows[Offset(k, |df.rows|) + i], StripYear(c, Years[k])) == Get(df.columns, df.rows[i], c)
  {
    BlocksAt(df, k);
    assert Distinct(BlockColumns(df, Years[k])) by {
      assert Blocks(df)[k].columns == BlockColumns(df, Years[k]);
    }
    BlockMetric(df, Years[k], i, c);
    ReshapeRow(df, k, i, StripYear(c, Years[k]));
    assert InSomeBlock(Blocks(df), StripYear(c, Years[k])) by {
      assert StripYear(c, Years[k]) in Blocks(df)[k].columns;
    }
  }

  /** The output labels are exactly Region, Province, year and the stripped
      names of the year-tagged input columns; any other input column is gone. */
  lemma ReshapeColumns(df: Table, name: string)
    requires ReshapeSpec(df).Ok?
    ensures name in ReshapeSpec(df).value.columns <==>
      name in IdColumns || name == YearColumn ||
      exists k, c :: 0 <= k < |Years| && c in df.columns && Contains(c, YearToken(Years[k])) && name == StripYear(c, Years[k])
  {
    var bs := Blocks(df);
    if name in ReshapeSpec(df).value.columns {
      var k :| 0 <= k < |bs| && name in bs[k].columns;
      BlocksAt(df, k);
      BlockColumnsMembers(df, Years[k], name);
    }
    if name in IdColumns || name == YearColumn {
      BlocksAt(df, 0);
      BlockColumnsMembers(df, Years[0], name);
      assert name in bs[0].columns;
    }
    if exists k, c :: 0 <= k < |Years| && c in df.columns && Contains(c, YearToken(Years[k])) && name == StripYear(c, Years[k]) {
      var k, c :| 0 <= k < |Years| && c in df.columns && Contains(c, YearToken(Years[k])) && name == StripYear(c, Years[k]);
      BlocksAt(df, k);
      BlockColumnsMembers(df, Years[k], name);
      assert name in bs[k].columns;
    }
  }

  /** Outer alignment: a label that block `k` lacks is NaN in all of block `k`'s rows. */
  lemma ReshapeMissingInBlock(df: Table, k: nat, i: nat, name: string)
    requires ReshapeSpec(df).Ok? && k < |Years| && i < |df.rows|
    requires name !in IdColumns && name != YearColumn
    requires forall c :: c in df.columns && Contains(c, YearToken(Years[k])) ==> StripYear(c, Years[k]) != name
    ensures Offset(k, |df.rows|) + i < |ReshapeSpec(df).value.rows|
    ensures var out := ReshapeSpec(df).value;
      Get(out.columns, out.rows[Offset(k, |df.rows|) + i], name) == Missing
  {
    BlocksAt(df, k);
    BlockLacks(df, Years[k], i, name);
    ReshapeRow(df, k, i, name);
  }

  // ---------------------------------------------------------------------
  // The processor object

  class Processor {
    const filepath: FilePath
    var df: Table
    var dfProcessed: Option<Table>

    /** `__init__` followed by `load_csv`; the frame read is given. */
    constructor (filepath: FilePath, loaded: Table)
      ensures this.filepath == filepath && df == loaded && dfProcessed == None
    {
      this.filepath := filepath;
      df := loaded;
      dfProcessed := None;
    }

    /** `reshape`: sets `df_processed` to the long table, leaving `df` as it was;
        on an error nothing is assigned. */
    method ReshapeFrame() returns (error: Option<Error>)
      modifies this`dfProcessed
      ensures df == old(df)
      ensures ReshapeSpec(df).Ok? ==> error == None && dfProcessed == Some(ReshapeSpec(df).value)
      ensures ReshapeSpec(df).Err? ==> error == Some(ReshapeSpec(df).error) && dfProcessed == old(dfProcessed)
    {
      var result := Reshape(df);
      match result
      case Ok(t) =>
        dfProcessed := Some(t);
        error := None;
      case Err(e) =>
        error := Some(e);
    }

    /** `save_csv`: the path the long table is written to; before a successful
        `reshape` there is no long table and `to_csv` fails on None. */
    method SaveCsv() returns (written: Result<FilePath>)
      ensures dfProcessed.None? ==> written == Err(AttributeError("to_csv"))
      ensures dfProcessed.Some? ==> written == Ok(InProcessedData(filepath))
    {
      if dfProcessed.None? {
        return Err(AttributeError("to_csv"));
      }
      written := Ok(InProcessedData(filepath));
    }
  }
}
