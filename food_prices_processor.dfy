/** `FoodPricesProcessor`: column grouping of the food price frame, where each
    derived prefix group is split on the `_index` ending, and the output path. */
module FoodPricesProcessor {
  import opened Text
  import opened Seqs
  import opened Tables
  import opened Paths
  import opened ColumnGroups

  /** Keys of both dictionaries, in insertion order, matching `DerivedPrefixes`. */
  const Keys: seq<string> := ["open", "high", "low", "close", "inflation", "trust"]

  const IndexTag := "_index"

  datatype Groups = Groups(geo: seq<string>, time: seq<string>, meta: seq<string>, food: seq<string>,
                           derivedIndex: Dict, derived: Dict)

  predicate IsIndexColumn(col: string, k: nat)
    requires k < |DerivedPrefixes|
  {
    StartsWith(col, DerivedPrefixes[k]) && EndsWith(col, IndexTag)
  }

  predicate IsPlainColumn(col: string, k: nat)
    requires k < |DerivedPrefixes|
  {
    StartsWith(col, DerivedPrefixes[k]) && !EndsWith(col, IndexTag)
  }

  /** `identify_column_groups`: the fixed identifier lists, the food columns
      and, for each key, its prefix's columns split into those ending in
      `_index` (`derived_index_cols`) and the rest (`derived_cols`). */
  function IdentifyColumnGroups(cols: seq<string>): (g: Groups)
    ensures g.geo == GeoCols && g.time == TimeCols && g.meta == MetaCols
    ensures IsSubsequence(g.food, cols) && forall c :: c in g.food <==> c in cols && IsFoodColumn(c)
    ensures |g.derivedIndex| == |Keys| && |g.derived| == |Keys|
    ensures forall k :: 0 <= k < |Keys| ==> g.derivedIndex[k].0 == Keys[k] && g.derived[k].0 == Keys[k]
    ensures forall k :: 0 <= k < |Keys| ==>
      IsSubsequence(g.derivedIndex[k].1, cols) && IsSubsequence(g.derived[k].1, cols)
    ensures forall k, c :: 0 <= k < |Keys| ==>
      (c in g.derivedIndex[k].1 <==> c in cols && IsIndexColumn(c, k))
    ensures forall k, c :: 0 <= k < |Keys| ==>
      (c in g.derived[k].1 <==> c in cols && IsPlainColumn(c, k))
  {
    Groups(GeoCols, TimeCols, MetaCols, FoodCols(cols),
           seq(|Keys|, k requires 0 <= k < |Keys| => (Keys[k], Filter(cols, c => IsIndexColumn(c, k)))),
           seq(|Keys|, k requires 0 <= k < |Keys| => (Keys[k], Filter(cols, c => IsPlainColumn(c, k)))))
  }

  /** For every key the two lists together hold each column with that key's
      prefix exactly as often as the frame does: they partition the prefix group. */
  lemma IndexSplitPartitions(cols: seq<string>, k: nat)
    requires k < |Keys|
    ensures var g := IdentifyColumnGroups(cols);
      multiset(g.derivedIndex[k].1) + multiset(g.derived[k].1) ==
      multiset(Filter(cols, c => StartsWith(c, DerivedPrefixes[k])))
  {
    var g := IdentifyColumnGroups(cols);
    var all := Filter(cols, c => StartsWith(c, DerivedPrefixes[k]));
    assert g.derivedIndex[k].1 == Filter(cols, c => IsIndexColumn(c, k));
    assert g.derived[k].1 == Filter(cols, c => IsPlainColumn(c, k));
    FilterCounts(cols, c => IsIndexColumn(c, k));
    FilterCounts(cols, c => IsPlainColumn(c, k));
    FilterCounts(cols, c => StartsWith(c, DerivedPrefixes[k]));
    assert forall x :: (multiset(g.derivedIndex[k].1) + multiset(g.derived[k].1))[x] == multiset(all)[x];
  }

  /** Lists under different keys, index or not, share no column, and none of
      them shares a column with the food columns. */
  lemma GroupsDisjoint(cols: seq<string>, k1: nat, k2: nat, c: string)
    requires k1 < |Keys| && k2 < |Keys|
    ensures var g := IdentifyColumnGroups(cols);
      var inK1 := c in g.derivedIndex[k1].1 || c in g.derived[k1].1;
      var inK2 := c in g.derivedIndex[k2].1 || c in g.derived[k2].1;
      (inK1 && inK2 ==> k1 == k2) && (inK1 ==> c !in g.food) &&
      !(c in g.derivedIndex[k1].1 && c in g.derived[k1].1)
  {
    var g := IdentifyColumnGroups(cols);
    if (c in g.derivedIndex[k1].1 || c in g.derived[k1].1) && (c in g.derivedIndex[k2].1 || c in g.derived[k2].1) {
      PrefixesExclusive(c, k1, k2);
    }
  }

  /** Every column of the frame lands in the food columns, in some derived
      list, or is one of the fixed identifier columns. */
  lemma GroupsCover(cols: seq<string>, c: string)
    requires c in cols
    ensures var g := IdentifyColumnGroups(cols);
      c in g.food || IsIdentifier(c) ||
      exists k :: 0 <= k < |Keys| && (c in g.derivedIndex[k].1 || c in g.derived[k].1)
  {
    var g := IdentifyColumnGroups(cols);
    if !(c in g.food) && !IsIdentifier(c) {
      var k :| 0 <= k < |DerivedPrefixes| && StartsWith(c, DerivedPrefixes[k]);
      assert c in g.derivedIndex[k].1 || c in g.derived[k].1;
    }
  }

  /** `save_csv`: the output file goes to `processed-data` beside the input's directory. */
  function SaveCsvPath(input: FilePath): (out: FilePath)
    ensures out != input
    ensures Name(out) == input.stem + ProcessedTag + input.suffix
    ensures Parent(out.dir) == Parent(input.dir) && out.dir.parts == Parent(input.dir).parts + [ProcessedDir]
  {
    InProcessedData(input)
  }

  /** The processor object: the loaded frame and the groups once identified. */
  class Processor {
    const filepath: FilePath
    var df: Table
    var groups: Option<Groups>

    /** `__init__` followed by `load_csv`; the frame read is given. */
    constructor (filepath: FilePath, loaded: Table)
      ensures this.filepath == filepath && df == loaded && groups == None
    {
      this.filepath := filepath;
      df := loaded;
      groups := None;
    }

    method IdentifyColumnGroupsOfFrame()
      modifies this`groups
      ensures groups == Some(IdentifyColumnGroups(df.columns)) && df == old(df)
    {
      groups := Some(IdentifyColumnGroups(df.columns));
    }

    /** The three stubs have empty bodies: frame and groups stay as they were. */
    method HandleMissingValues()
      ensures df == old(df) && groups == old(groups)
    {
    }

    method ConvertDataTypes()
      ensures df == old(df) && groups == old(groups)
    {
    }

    method DetectOutliers(columns: Option<seq<string>>, outlierMethod: string, threshold: int)
      ensures df == old(df) && groups == old(groups)
    {
    }

    method SaveCsv() returns (written: FilePath)
      ensures written == SaveCsvPath(filepath) && df == old(df)
    {
      written := SaveCsvPath(filepath);
    }
  }
}
