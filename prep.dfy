/** Feature selection, chronological split, median imputation, the normal-row
    mask of the scaler and the sliding windows of the autoencoder
    (backend/modelo/prep.py). */
module Prep {
  import opened Common

  /** Label, text and future-derived columns never used as features. */
  const LeakOrTextCols: seq<string> := [
    "estado_futuro", "falla_30d", "rul_dias", "severidad_futura",
    "dias_proximo_evento", "proximidad_evento", "riesgo_acumulativo",
    "estado_operacional", "nivel_severidad", "variables_anomalas", "descripcion_anomalia"
  ]

  /** Distinct non-NaN values of a column (pandas `nunique` skips NaN). */
  function Distinct(cells: seq<Cell>): set<Cell>
  {
    set c | c in cells && !c.NaN?
  }

  /** A column survives selection when it is numeric, not a label or text
      column, not constant, and at most 30% NaN. */
  predicate Keep(c: Column)
  {
    && c.numeric
    && c.name !in LeakOrTextCols
    && |Distinct(c.cells)| > 1
    && 10 * CountNaN(c.cells) <= 3 * |c.cells|
  }

  function SelectColumns(df: seq<Column>): (r: seq<Column>)
    ensures IsSubsequence(r, df)
    ensures forall c :: c in r ==> c.numeric && c.name !in LeakOrTextCols
    ensures forall c :: c in r ==> |Distinct(c.cells)| > 1
    ensures forall c :: c in r ==> 10 * CountNaN(c.cells) <= 3 * |c.cells|
    ensures forall c :: (c in df && c.numeric && c.name !in LeakOrTextCols &&
                         |Distinct(c.cells)| > 1 && 10 * CountNaN(c.cells) <= 3 * |c.cells|) ==> c in r
  {
    Filter(df, Keep)
  }

  /** A column with a single repeated value is dropped, whatever else holds. */
  lemma ConstantColumnDropped(df: seq<Column>, name: string, v: real, n: nat)
    requires n >= 1
    ensures Column(name, true, seq(n, _ => Fin(v))) !in SelectColumns(df)
  {
    var c := Column(name, true, seq(n, _ => Fin(v)));
    assert Distinct(c.cells) == {Fin(v)} by {
      assert c.cells[0] == Fin(v);
    }
  }

  datatype Split<T, U> = Split(xTrain: seq<T>, xValid: seq<T>, yTrain: seq<U>, yValid: seq<U>)

  /** Both tables are cut at int(0.8 * len(X)); Python slicing clamps the cut
      to the length of y. */
  function TemporalSplit<T, U>(x: seq<T>, y: seq<U>): (s: Split<T, U>)
    ensures s.xTrain + s.xValid == x && s.yTrain + s.yValid == y
    ensures |s.xTrain| == Cut80(|x|)
    ensures |y| == |x| ==> |s.yTrain| == |s.xTrain| && |s.yValid| == |s.xValid|
  {
    var cut := Cut80(|x|);
    var cy := Min(cut, |y|);
    Split(x[..cut], x[cut..], y[..cy], y[cy..])
  }

  /** Infinities become NaN and NaN is filled with the column's training
      median; a column without a median keeps its NaN. */
  function ImputeCell(c: Cell, median: Option<Cell>): Cell
  {
    if c.Fin? then c
    else if median.Some? then median.value
    else NaN
  }

  function MedianOf(medians: map<string, Cell>, name: string): Option<Cell>
  {
    if name in medians then Some(medians[name]) else None
  }

  function ApplyImpute(x: seq<Column>, medians: map<string, Cell>): (r: seq<Column>)
    ensures |r| == |x|
    ensures forall j :: 0 <= j < |x| ==>
      r[j].name == x[j].name && r[j].numeric == x[j].numeric && |r[j].cells| == |x[j].cells|
    ensures forall j, i :: 0 <= j < |x| && 0 <= i < |x[j].cells| && x[j].cells[i].Fin? ==>
      r[j].cells[i] == x[j].cells[i]
    ensures forall j, i :: 0 <= j < |x| && 0 <= i < |x[j].cells| && !x[j].cells[i].Fin? ==>
      r[j].cells[i] == (if x[j].name in medians then medians[x[j].name] else NaN)
  {
    seq(|x|, j requires 0 <= j < |x| =>
      Column(x[j].name, x[j].numeric,
             seq(|x[j].cells|, i requires 0 <= i < |x[j].cells| =>
               ImputeCell(x[j].cells[i], MedianOf(medians, x[j].name)))))
  }

  /** Imputation is idempotent. */
  lemma ImputeIdempotent(x: seq<Column>, medians: map<string, Cell>)
    ensures ApplyImpute(ApplyImpute(x, medians), medians) == ApplyImpute(x, medians)
  {
    var once := ApplyImpute(x, medians);
    var twice := ApplyImpute(once, medians);
    forall j | 0 <= j < |x|
      ensures twice[j] == once[j]
    {
      assert twice[j].cells == once[j].cells;
    }
  }

  /** A column with a finite median has no gap left after imputation. */
  lemma ImputeFillsGaps(x: seq<Column>, medians: map<string, Cell>, j: nat)
    requires j < |x| && x[j].name in medians && medians[x[j].name].Fin?
    ensures forall i :: 0 <= i < |x[j].cells| ==> ApplyImpute(x, medians)[j].cells[i].Fin?
  {
  }

  /** Positions i, in increasing order, whose encoded label is normalId: the
      rows the autoencoder scaler is fitted on. */
  function NormalRows(yEnc: seq<int>, normalId: int): (rows: seq<nat>)
    ensures |rows| == Count(yEnc, normalId)
    ensures Picks(rows, yEnc, normalId)
  {
    if |yEnc| == 0 then []
    else
      var n := |yEnc| - 1;
      var rest := NormalRows(yEnc[..n], normalId);
      PicksSnoc(rest, yEnc, normalId);
      if yEnc[n] == normalId then rest + [n] else rest
  }

  /** `rows` lists, in increasing order, exactly the positions of y holding v. */
  predicate Picks(rows: seq<nat>, y: seq<int>, v: int)
  {
    && (forall k :: 0 <= k < |rows| ==> rows[k] < |y| && y[rows[k]] == v)
    && (forall k, l :: 0 <= k < l < |rows| ==> rows[k] < rows[l])
    && (forall i :: 0 <= i < |y| && y[i] == v ==> i in rows)
  }

  /** Extending a selection over a prefix by the last position. */
  lemma PicksSnoc(rest: seq<nat>, y: seq<int>, v: int)
    requires |y| > 0 && Picks(rest, y[..|y| - 1], v)
    ensures Picks(if y[|y| - 1] == v then rest + [|y| - 1] else rest, y, v)
  {
    var n := |y| - 1;
    assert forall i :: 0 <= i < n ==> y[..n][i] == y[i];
  }

  /** The training rows selected by the mask, in their original order. */
  function Rows<T>(x: seq<T>, rows: seq<nat>): (r: seq<T>)
    requires forall k :: 0 <= k < |rows| ==> rows[k] < |x|
    ensures |r| == |rows|
    ensures forall k :: 0 <= k < |rows| ==> r[k] == x[rows[k]]
  {
    seq(|rows|, k requires 0 <= k < |rows| => x[rows[k]])
  }

  /** Sliding windows of L consecutive rows, each tagged with the index of its
      last row; windows whose end falls in the last H rows are not produced. */
  method MakeSequences<T>(x: seq<T>, index: seq<int>, lookback: nat, horizon: nat)
    returns (seqs: seq<seq<T>>, idx: seq<int>)
    requires lookback >= 1 && |index| == |x|
    ensures |seqs| == |idx| == Max(0, |x| - horizon - lookback + 1)
    ensures forall j :: 0 <= j < |seqs| ==>
      seqs[j] == x[j..j + lookback] && idx[j] == index[j + lookback - 1]
    ensures forall j :: 0 <= j < |seqs| ==>
      |seqs[j]| == lookback && j + lookback - 1 < |x| - horizon
  {
    seqs, idx := [], [];
    var t := lookback - 1;
    while t < |x| - horizon
      invariant lookback - 1 <= t
      invariant |seqs| == |idx| == t - (lookback - 1)
      invariant t <= Max(lookback - 1, |x| - horizon)
      invariant forall j :: 0 <= j < |seqs| ==>
        seqs[j] == x[j..j + lookback] && idx[j] == index[j + lookback - 1]
      decreases |x| - horizon - t
    {
      seqs := seqs + [x[t - (lookback - 1)..t + 1]];
      idx := idx + [index[t]];
      t := t + 1;
    }
  }
}
