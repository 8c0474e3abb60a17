/** The naming convention both food-price classes use to sort the columns of
    the food price frame into groups. */
module ColumnGroups {
  import opened Text
  import opened Seqs

  /** A Python dictionary from group key to column list, in insertion order. */
  type Dict = seq<(string, seq<string>)>

  /** Geographic identifiers. */
  const GeoCols: seq<string> := ["ISO3", "country", "adm1_name", "adm2_name", "mkt_name", "lat", "lon", "geo_id"]

  /** Temporal identifiers. */
  const TimeCols: seq<string> := ["DATES", "year", "month"]

  /** Metadata and quality indicators. */
  const MetaCols: seq<string> := ["currency", "components", "start_dense_data", "last_survey_point",
                                  "data_coverage", "data_coverage_recent", "index_confidence_score",
                                  "spatially_interpolated"]

  /** Prefixes of the derived metric columns. */
  const DerivedPrefixes: seq<string> := ["o_", "h_", "l_", "c_", "inflation_", "trust_"]

  predicate HasDerivedPrefix(col: string) {
    exists k :: 0 <= k < |DerivedPrefixes| && StartsWith(col, DerivedPrefixes[k])
  }

  predicate IsIdentifier(col: string) {
    col in GeoCols + TimeCols + MetaCols
  }

  /** A base food item price column: no derived prefix and not an identifier. */
  predicate IsFoodColumn(col: string) {
    !HasDerivedPrefix(col) && !IsIdentifier(col)
  }

  /** `food_cols`: the base food item columns, in frame order. */
  function FoodCols(cols: seq<string>): (food: seq<string>)
    ensures IsSubsequence(food, cols)
    ensures forall c :: c in food <==> c in cols && IsFoodColumn(c)
  {
    Filter(cols, IsFoodColumn)
  }

  /** The six prefixes start with six different characters, so a column name
      starts with at most one of them. */
  lemma PrefixesExclusive(col: string, k1: nat, k2: nat)
    requires k1 < |DerivedPrefixes| && k2 < |DerivedPrefixes|
    requires StartsWith(col, DerivedPrefixes[k1]) && StartsWith(col, DerivedPrefixes[k2])
    ensures k1 == k2
  {
    assert col[0] == DerivedPrefixes[k1][0] by {
      assert col[..|DerivedPrefixes[k1]|][0] == col[0];
    }
    assert col[0] == DerivedPrefixes[k2][0] by {
      assert col[..|DerivedPrefixes[k2]|][0] == col[0];
    }
  }
}
