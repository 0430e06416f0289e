/** Building the model's input frame from JSON records: missing features
    become all-NaN columns and the columns are put in feature order
    (backend/app/utils.py). */
module Utils {
  import opened Common

  /** The cell of record i for column `name`: absent keys read as NaN, as in
      `pd.DataFrame(records)`. */
  function CellOf(rec: map<string, Cell>, name: string): Cell
  {
    if name in rec then rec[name] else NaN
  }

  /** Keys present in at least one record. */
  function Keys(records: seq<map<string, Cell>>): (k: set<string>)
    ensures forall name :: name in k <==> exists i :: 0 <= i < |records| && name in records[i]
  {
    if |records| == 0 then {}
    else
      var rest := Keys(records[1..]);
      forall name | name in rest
        ensures exists i :: 0 <= i < |records| && name in records[i]
      {
        var i :| 0 <= i < |records[1..]| && name in records[1..][i];
        assert records[i + 1] == records[1..][i];
      }
      records[0].Keys + rest
  }

  /** Every column holds one cell per record, the record's value or NaN. */
  predicate ColumnsOf(cols: map<string, seq<Cell>>, records: seq<map<string, Cell>>)
  {
    forall name :: name in cols ==>
      |cols[name]| == |records| &&
      forall i :: 0 <= i < |records| ==> cols[name][i] == CellOf(records[i], name)
  }

  /** `pd.DataFrame(records)` as a map from column name to cells. */
  function FromRecords(records: seq<map<string, Cell>>): (cols: map<string, seq<Cell>>)
    ensures cols.Keys == Keys(records)
    ensures ColumnsOf(cols, records)
  {
    map name | name in Keys(records) ::
      seq(|records|, i requires 0 <= i < |records| => CellOf(records[i], name))
  }

  /** Adding an all-NaN column for a key no record has keeps the frame
      consistent with the records. */
  lemma AddNaNColumn(cols: map<string, seq<Cell>>, records: seq<map<string, Cell>>, name: string)
    requires ColumnsOf(cols, records)
    requires forall i :: 0 <= i < |records| ==> name !in records[i]
    ensures ColumnsOf(cols[name := seq(|records|, _ => NaN)], records)
  {
  }

  /** Aligns records to `order`: one column per feature, in feature order,
      one row per record; keys outside `order` are dropped. */
  method EnsureDataframe(records: seq<map<string, Cell>>, order: seq<string>)
    returns (df: seq<Column>)
    ensures Names(df) == order
    ensures Rectangular(df, |records|)
    ensures forall j, i :: 0 <= j < |order| && 0 <= i < |records| ==>
      df[j].cells[i] == CellOf(records[i], order[j])
  {
    var cols := FromRecords(records);
    var missing := Filter(order, (c: string) => c !in cols);
    ghost var original := cols;
    for k := 0 to |missing|
      invariant forall name :: name in original ==> name in cols
      invariant ColumnsOf(cols, records)
      invariant forall j :: 0 <= j < k ==> missing[j] in cols
    {
      assert missing[k] in missing && missing[k] !in original;
      AddNaNColumn(cols, records, missing[k]);
      cols := cols[missing[k] := seq(|records|, _ => NaN)];
    }
    assert forall c :: c in order ==> c in cols;
    df := Assemble(cols, records, order);
  }

  /** The frame's columns picked in `order`. */
  function Assemble(cols: map<string, seq<Cell>>, records: seq<map<string, Cell>>, order: seq<string>)
    : (df: seq<Column>)
    requires ColumnsOf(cols, records) && forall c :: c in order ==> c in cols
    ensures Names(df) == order
    ensures Rectangular(df, |records|)
    ensures forall j, i :: 0 <= j < |order| && 0 <= i < |records| ==>
      df[j].cells[i] == CellOf(records[i], order[j])
  {
    var df := seq(|order|, j requires 0 <= j < |order| => Column(order[j], true, cols[order[j]]));
    assert Names(df) == order;
    df
  }

  /** A feature absent from every record becomes an all-NaN column. */
  lemma AbsentFeatureIsAllNaN(records: seq<map<string, Cell>>, order: seq<string>, df: seq<Column>, j: nat)
    requires Names(df) == order && Rectangular(df, |records|)
    requires forall j', i :: 0 <= j' < |order| && 0 <= i < |records| ==>
      df[j'].cells[i] == CellOf(records[i], order[j'])
    requires j < |order| && forall i :: 0 <= i < |records| ==> order[j] !in records[i]
    ensures forall i :: 0 <= i < |records| ==> df[j].cells[i] == NaN
  {
    assert |df| == |order|;
    forall i | 0 <= i < |records|
      ensures df[j].cells[i] == NaN
    {
      assert df[j].cells[i] == CellOf(records[i], order[j]);
    }
  }
}
