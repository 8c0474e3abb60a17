/** In-memory tables as the transforms see them: a list of column labels and
    rows of optional cells, plus the errors pandas raises on them. */
module Tables {
  import opened Seqs

  datatype Option<+T> = None | Some(value: T)

  /** A cell: missing (NaN, None or pandas' NA), or an integer, float or text value. */
  datatype Value = Missing | Int(i: int) | Real(r: real) | Text(s: string)

  type Row = seq<Value>

  datatype Table = Table(columns: seq<string>, rows: seq<Row>)

  /** The exceptions of the modelled operations. */
  datatype Error =
    | KeyError(column: string)   // a selected column label is not in the frame
    | DuplicateLabels            // a reshape block ends up with a repeated column label
    | AttributeError(name: string)  // a field read before the method that sets it ran

  datatype Result<+T> = Ok(value: T) | Err(error: Error)

  /** Shape of a frame read from a CSV file: distinct labels, one cell per label in every row. */
  predicate WellFormed(t: Table) {
    Distinct(t.columns) && forall i :: 0 <= i < |t.rows| ==> |t.rows[i]| == |t.columns|
  }

  /** Position of the first column labelled `name`. */
  function IndexOf(cols: seq<string>, name: string): (k: nat)
    requires name in cols
    ensures k < |cols| && cols[k] == name && name !in cols[..k]
  {
    if cols[0] == name then 0
    else
      assert cols == [cols[0]] + cols[1..];
      1 + IndexOf(cols[1..], name)
  }

  lemma IndexOfDistinct(cols: seq<string>, k: nat)
    requires Distinct(cols) && k < |cols|
    ensures IndexOf(cols, cols[k]) == k
  {
  }

  /** The cell of `row` under label `name` of a frame with labels `cols`;
      Missing when there is no such column (the NaN that outer alignment gives). */
  function Get(cols: seq<string>, row: Row, name: string): Value {
    if name in cols && IndexOf(cols, name) < |row| then row[IndexOf(cols, name)] else Missing
  }

  /** In a frame without repeated labels, the cell under label `cols[k]` is `row[k]`. */
  lemma GetAt(cols: seq<string>, row: Row, k: nat)
    requires Distinct(cols) && k < |cols| && |row| == |cols|
    ensures Get(cols, row, cols[k]) == row[k]
  {
    IndexOfDistinct(cols, k);
  }

  /** `frame[cols]`: the named columns of every row, in the order given. */
  function Select(t: Table, cols: seq<string>): (r: Table)
    ensures r.columns == cols && |r.rows| == |t.rows|
    ensures forall i, j :: 0 <= i < |t.rows| && 0 <= j < |cols| ==>
      |r.rows[i]| == |cols| && r.rows[i][j] == Get(t.columns, t.rows[i], cols[j])
  {
    Table(cols, seq(|t.rows|, i requires 0 <= i < |t.rows| => seq(|cols|, j requires 0 <= j < |cols| => Get(t.columns, t.rows[i], cols[j]))))
  }

  lemma GetUpdated(cols: seq<string>, row: Row, k: nat, v: Value, c: string)
    requires Distinct(cols) && |row| == |cols| && k < |cols|
    ensures Get(cols, row[k := v], c) == if c == cols[k] then v else Get(cols, row, c)
  {
    IndexOfDistinct(cols, k);
  }

  lemma AppendDistinct(cols: seq<string>, name: string)
    requires Distinct(cols) && name !in cols
    ensures Distinct(cols + [name])
  {
    assert forall i :: 0 <= i < |cols| ==> (cols + [name])[i] == cols[i];
  }

  lemma GetAppended(cols: seq<string>, row: Row, name: string, v: Value, c: string)
    requires Distinct(cols) && |row| == |cols| && name !in cols
    ensures Get(cols + [name], row + [v], c) == if c == name then v else Get(cols, row, c)
  {
    var all := cols + [name];
    AppendDistinct(cols, name);
    assert all[|cols|] == name;
    if c in cols {
      var k := IndexOf(cols, c);
      assert all[k] == c;
      IndexOfDistinct(all, k);
    } else if c == name {
      IndexOfDistinct(all, |cols|);
    }
  }

  /** `frame[name] = values` for a new or an existing column: an existing
      column is overwritten where it stands, a new one is appended. */
  function SetColumn(t: Table, name: string, values: seq<Value>): (r: Table)
    requires WellFormed(t) && |values| == |t.rows|
    ensures WellFormed(r) && |r.rows| == |t.rows|
    ensures name in t.columns ==> r.columns == t.columns
    ensures name !in t.columns ==> r.columns == t.columns + [name]
  {
    if name in t.columns then
      var k := IndexOf(t.columns, name);
      Table(t.columns, seq(|t.rows|, i requires 0 <= i < |t.rows| => t.rows[i][k := values[i]]))
    else
      AppendDistinct(t.columns, name);
      Table(t.columns + [name], seq(|t.rows|, i requires 0 <= i < |t.rows| => t.rows[i] + [values[i]]))
  }

  /** After `frame[name] = values` row `i` holds `values[i]` under `name` and
      every other column keeps its cell. */
  lemma SetColumnGet(t: Table, name: string, values: seq<Value>, i: nat, c: string)
    requires WellFormed(t) && |values| == |t.rows| && i < |t.rows|
    ensures Get(SetColumn(t, name, values).columns, SetColumn(t, name, values).rows[i], c) ==
      if c == name then values[i] else Get(t.columns, t.rows[i], c)
  {
    if name in t.columns {
      GetUpdated(t.columns, t.rows[i], IndexOf(t.columns, name), values[i], c);
    } else {
      GetAppended(t.columns, t.rows[i], name, values[i], c);
    }
  }
}
