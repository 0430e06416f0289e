/** Online inference on the most recent hours of data: feature selection,
    median imputation, the window tail, the autoencoder reconstruction score
    and the strict threshold decision (backend/modelo/infer.py). The fitted
    scaler and the autoencoder are parameters. */
module Infer {
  import opened Common
  import opened Ensemble
  import opened Prep

  const Lookback: nat := 24

  datatype InferError =
    | MissingFeature(name: string)      // KeyError on df[feature_cols]
    | NonNumericFeature(name: string)   // astype(float) on a text column
    | EmptyInput                        // the scaler refuses zero rows or zero features
    | MissingMeta(key: string)          // KeyError on meta[...]
    | ShapeMismatch                     // reconstruction of another shape

  /** `df[feature_cols].astype(float)`: exactly the feature columns, in
      feature order. */
  function SelectFeatures(df: seq<Column>, features: seq<string>): (r: Result<seq<Column>, InferError>)
    ensures r.Ok? ==> Names(r.value) == features
    ensures r.Ok? ==> forall k :: 0 <= k < |features| ==>
      r.value[k] in df && r.value[k].numeric && FindColumn(df, features[k]) == Some(r.value[k])
    ensures r.Err? ==> exists k :: (0 <= k < |features| &&
      (FindColumn(df, features[k]).None? || !FindColumn(df, features[k]).value.numeric))
  {
    if |features| == 0 then Ok([])
    else
      match FindColumn(df, features[0])
      case None => Err(MissingFeature(features[0]))
      case Some(c) =>
        if !c.numeric then Err(NonNumericFeature(features[0]))
        else
          match SelectFeatures(df, features[1..])
          case Err(e) =>
            assert exists k :: (1 <= k < |features| &&
              (FindColumn(df, features[k]).None? || !FindColumn(df, features[k]).value.numeric)) by {
              var k' :| (0 <= k' < |features[1..]| &&
                (FindColumn(df, features[1..][k']).None? || !FindColumn(df, features[1..][k']).value.numeric));
              assert features[1..][k'] == features[k' + 1];
            }
            Err(e)
          case Ok(rest) =>
            var r := [c] + rest;
            assert Names(r) == [c.name] + Names(rest);
            Ok(r)
  }

  /** Row i of a table, one cell per column. */
  function RowAt(t: seq<Column>, n: nat, i: nat): (row: seq<Cell>)
    requires Rectangular(t, n) && i < n
    ensures |row| == |t|
    ensures forall k :: 0 <= k < |t| ==> row[k] == t[k].cells[i]
  {
    seq(|t|, k requires 0 <= k < |t| => t[k].cells[i])
  }

  /** `make_sequence_from_window`: the rows of the window over the feature
      columns, in feature order. */
  function MakeSequenceFromWindow(df: seq<Column>, n: nat, features: seq<string>)
    : (r: Result<seq<seq<Cell>>, InferError>)
    requires Rectangular(df, n)
    ensures r.Ok? <==> SelectFeatures(df, features).Ok?
    ensures r.Ok? ==> |r.value| == n && forall i :: 0 <= i < n ==>
      |r.value[i]| == |features| &&
      forall k :: 0 <= k < |features| ==> r.value[i][k] == FindColumn(df, features[k]).value.cells[i]
  {
    match SelectFeatures(df, features)
    case Err(e) => Err(e)
    case Ok(x) =>
      assert Rectangular(x, n);
      Ok(seq(n, i requires 0 <= i < n => RowAt(x, n, i)))
  }

  // -------------------------------------------------------- reconstruction

  predicate SameShape(x: seq<seq<real>>, y: seq<seq<real>>)
  {
    |x| == |y| && forall i :: 0 <= i < |x| ==> |x[i]| == |y[i]|
  }

  function SumSqRow(x: seq<real>, y: seq<real>): (s: real)
    requires |x| == |y|
    ensures s >= 0.0
    ensures s == 0.0 <== x == y
  {
    if |x| == 0 then 0.0
    else
      var d := x[|x| - 1] - y[|x| - 1];
      MulNonNeg(if d >= 0.0 then d else -d, if d >= 0.0 then d else -d);
      SumSqRow(x[..|x| - 1], y[..|x| - 1]) + d * d
  }

  function SumSq(x: seq<seq<real>>, y: seq<seq<real>>): (s: real)
    requires SameShape(x, y)
    ensures s >= 0.0
    ensures s == 0.0 <== x == y
  {
    if |x| == 0 then 0.0
    else SumSq(x[..|x| - 1], y[..|x| - 1]) + SumSqRow(x[|x| - 1], y[|x| - 1])
  }

  function Cells(x: seq<seq<real>>): nat
  {
    if |x| == 0 then 0 else Cells(x[..|x| - 1]) + |x[|x| - 1]|
  }

  /** Mean squared reconstruction error over all cells of the window. */
  function Mse(x: seq<seq<real>>, y: seq<seq<real>>): (e: real)
    requires SameShape(x, y) && Cells(x) > 0
    ensures e >= 0.0
    ensures x == y ==> e == 0.0
  {
    DivSign(SumSq(x, y), Cells(x) as real);
    SumSq(x, y) / (Cells(x) as real)
  }

  /** `ae_score_from_window`: the window's reconstruction error, min-max
      normalised with the bounds stored at training time. */
  function AeScoreFromWindow(ae: seq<seq<real>> -> seq<seq<real>>, window: seq<seq<real>>,
                             aeMin: real, aeMax: real): (r: Result<real, InferError>)
    ensures r.Err? <==> !SameShape(window, ae(window)) || Cells(window) == 0
    ensures r.Ok? ==> r.value == MinMax(Mse(window, ae(window)), aeMin, aeMax)
    ensures r.Ok? ==> r.value >= MinMax(0.0, aeMin, aeMax)
  {
    var rec := ae(window);
    if !SameShape(window, rec) || Cells(window) == 0 then Err(ShapeMismatch)
    else
      MinMaxMonotone(0.0, Mse(window, rec), aeMin, aeMax);
      Ok(MinMax(Mse(window, rec), aeMin, aeMax))
  }

  /** A perfect reconstruction scores exactly the normalised zero error. */
  lemma PerfectReconstruction(ae: seq<seq<real>> -> seq<seq<real>>, window: seq<seq<real>>,
                              aeMin: real, aeMax: real)
    requires ae(window) == window && Cells(window) > 0
    ensures AeScoreFromWindow(ae, window, aeMin, aeMax) == Ok(MinMax(0.0, aeMin, aeMax))
  {
  }

  // ---------------------------------------------------------------- decision

  datatype Inference = Inference(score: Cell, pred: int, operateThr: real)

  predicate AllFinite(rows: seq<seq<Cell>>)
  {
    forall i, k :: 0 <= i < |rows| && 0 <= k < |rows[i]| ==> rows[i][k].Fin?
  }

  function Values(rows: seq<seq<Cell>>): (r: seq<seq<real>>)
    requires AllFinite(rows)
    ensures |r| == |rows|
    ensures forall i :: 0 <= i < |rows| ==> |r[i]| == |rows[i]|
  {
    seq(|rows|, i requires 0 <= i < |rows| =>
      seq(|rows[i]|, k requires 0 <= k < |rows[i]| => rows[i][k].v))
  }

  /** `X[-L:]`: the last min(L, n) rows. */
  function Tail<T>(rows: seq<T>, lookback: nat): (t: seq<T>)
    ensures |t| == Min(lookback, |rows|)
    ensures t == rows[|rows| - |t|..]
  {
    rows[Max(0, |rows| - lookback)..]
  }

  function MetaValue(meta: map<string, real>, key: string): Result<real, InferError>
  {
    if key in meta then Ok(meta[key]) else Err(MissingMeta(key))
  }

  /** The scaled window of the tail rows: each row through the fitted scaler. */
  function ScaledWindow(tail: seq<seq<Cell>>, scale: seq<real> -> seq<real>): (w: seq<seq<real>>)
    requires AllFinite(tail)
    ensures |w| == |tail|
  {
    seq(|tail|, i requires 0 <= i < |tail| => scale(Values(tail)[i]))
  }

  /** The score of the tail rows: NaN when a cell is still not finite after
      imputation, else the autoencoder score of the scaled window. */
  function TailScore(tail: seq<seq<Cell>>, scale: seq<real> -> seq<real>,
                     ae: seq<seq<real>> -> seq<seq<real>>, aeMin: real, aeMax: real): (r: Result<Cell, InferError>)
    ensures !AllFinite(tail) ==> r == Ok(NaN)
    ensures AllFinite(tail) ==>
      var w := ScaledWindow(tail, scale);
      && (r.Err? <==> !SameShape(w, ae(w)) || Cells(w) == 0)
      && (r.Ok? ==> SameShape(w, ae(w)) && Cells(w) > 0 && r.value == Fin(MinMax(Mse(w, ae(w)), aeMin, aeMax)))
  {
    if !AllFinite(tail) then Ok(NaN)
    else
      match AeScoreFromWindow(ae, ScaledWindow(tail, scale), aeMin, aeMax)
      case Err(e) => Err(e)
      case Ok(score) => Ok(Fin(score))
  }

  /** The feature rows after imputation, for a table whose features are all present. */
  function FeatureTail(df: seq<Column>, n: nat, features: seq<string>, medians: map<string, Cell>): seq<seq<Cell>>
    requires Rectangular(df, n) && SelectFeatures(df, features).Ok?
  {
    var x := SelectFeatures(df, features).value;
    assert Rectangular(x, n);
    Tail(ImputedRows(x, n, medians), Lookback)
  }

  /** The whole decision for the last 24 hours: feature selection, median
      imputation, the last LOOKBACK rows, row-wise scaling, the autoencoder
      score with the stored bounds, then `score > operate_thr`. The meta keys
      are read in the source's order: the two bounds as the score's
      arguments, operate_thr only after the score. */
  function InferFromLast24h(df: seq<Column>, n: nat, features: seq<string>,
                            medians: map<string, Cell>, meta: map<string, real>,
                            scale: seq<real> -> seq<real>,
                            ae: seq<seq<real>> -> seq<seq<real>>): (r: Result<Inference, InferError>)
    requires Rectangular(df, n)
    ensures SelectFeatures(df, features).Err? ==> r == Err(SelectFeatures(df, features).error)
    ensures SelectFeatures(df, features).Ok? && (n == 0 || |features| == 0) ==> r == Err(EmptyInput)
    ensures SelectFeatures(df, features).Ok? && n > 0 && |features| > 0 ==>
      && ("ae_score_min" !in meta ==> r == Err(MissingMeta("ae_score_min")))
      && ("ae_score_min" in meta && "ae_score_max" !in meta ==> r == Err(MissingMeta("ae_score_max")))
    ensures SelectFeatures(df, features).Ok? && n > 0 && |features| > 0
            && "ae_score_min" in meta && "ae_score_max" in meta ==>
      match TailScore(FeatureTail(df, n, features, medians), scale, ae, meta["ae_score_min"], meta["ae_score_max"])
      case Err(e) => r == Err(e)
      case Ok(score) => r == if "operate_thr" in meta then Ok(Inference(score, Decision(score, meta["operate_thr"]), meta["operate_thr"]))
                             else Err(MissingMeta("operate_thr"))
    ensures r.Ok? ==> SelectFeatures(df, features).Ok? && "ae_score_min" in meta && "ae_score_max" in meta
    ensures r.Ok? && SelectFeatures(df, features).Ok? && "ae_score_min" in meta && "ae_score_max" in meta ==>
      var tail := FeatureTail(df, n, features, medians);
      && (!AllFinite(tail) ==> r.value.score == NaN && r.value.pred == 0)
      && (AllFinite(tail) ==>
            var w := ScaledWindow(tail, scale);
            SameShape(w, ae(w)) && Cells(w) > 0
            && r.value.score == Fin(MinMax(Mse(w, ae(w)), meta["ae_score_min"], meta["ae_score_max"])))
    ensures r.Ok? ==> "operate_thr" in meta && r.value.operateThr == meta["operate_thr"]
    ensures r.Ok? ==> (r.value.pred == 1 <==> r.value.score.Fin? && r.value.score.v > r.value.operateThr)
    ensures r.Ok? ==> r.value.pred == 0 || r.value.pred == 1
  {
    match SelectFeatures(df, features)
    case Err(e) => Err(e)
    case Ok(x) => InferOnRows(ImputedRows(x, n, medians), n, |features|, meta, scale, ae)
  }

  /** `int(score > operate_thr)`: a NaN score is never above the threshold. */
  function Decision(score: Cell, thr: real): (pred: int)
    ensures pred == 1 <==> score.Fin? && score.v > thr
    ensures pred == 0 || pred == 1
  {
    if score.Fin? && score.v > thr then 1 else 0
  }

  /** The decision on the imputed feature rows. */
  function InferOnRows(rows: seq<seq<Cell>>, n: nat, width: nat, meta: map<string, real>,
                       scale: seq<real> -> seq<real>,
                       ae: seq<seq<real>> -> seq<seq<real>>): (r: Result<Inference, InferError>)
  {
    if n == 0 || width == 0 then Err(EmptyInput)
    else
      var tail := Tail(rows, Lookback);
      match MetaValue(meta, "ae_score_min")
      case Err(e) => Err(e)
      case Ok(aeMin) =>
        match MetaValue(meta, "ae_score_max")
        case Err(e) => Err(e)
        case Ok(aeMax) =>
          match TailScore(tail, scale, ae, aeMin, aeMax)
          case Err(e) => Err(e)
          case Ok(score) =>
            match MetaValue(meta, "operate_thr")
            case Err(e) => Err(e)
            case Ok(thr) => Ok(Inference(score, Decision(score, thr), thr))
  }

  /** The decision is strict: pred is 1 exactly when the score is finite and
      above operate_thr, and the returned threshold is the stored one. */
  lemma InferDecisionIsStrict(df: seq<Column>, n: nat, features: seq<string>,
                              medians: map<string, Cell>, meta: map<string, real>,
                              scale: seq<real> -> seq<real>, ae: seq<seq<real>> -> seq<seq<real>>)
    requires Rectangular(df, n)
    requires InferFromLast24h(df, n, features, medians, meta, scale, ae).Ok?
    ensures var inf := InferFromLast24h(df, n, features, medians, meta, scale, ae).value;
            && "operate_thr" in meta && inf.operateThr == meta["operate_thr"]
            && (inf.pred == 1 <==> inf.score.Fin? && inf.score.v > inf.operateThr)
            && (inf.pred == 0 || inf.pred == 1)
  {
  }

  /** The table's rows after imputation: a non-finite cell takes the stored
      training median of its column, whatever the other rows hold. */
  function ImputedRows(x: seq<Column>, n: nat, medians: map<string, Cell>): (rows: seq<seq<Cell>>)
    requires Rectangular(x, n)
    ensures |rows| == n
    ensures forall i, k :: 0 <= i < n && 0 <= k < |x| ==>
      |rows[i]| == |x| &&
      rows[i][k] == (if x[k].cells[i].Fin? then x[k].cells[i]
                     else if x[k].name in medians then medians[x[k].name] else NaN)
  {
    var xi := ApplyImpute(x, medians);
    seq(n, i requires 0 <= i < n => RowAt(xi, n, i))
  }

  /** Rows older than the last LOOKBACK do not influence the decision, and a
      history shorter than LOOKBACK is accepted as it is. */
  lemma InferUsesOnlyTail(df: seq<Column>, n: nat, drop: nat, features: seq<string>,
                          medians: map<string, Cell>, meta: map<string, real>,
                          scale: seq<real> -> seq<real>, ae: seq<seq<real>> -> seq<seq<real>>)
    requires Rectangular(df, n) && drop + Lookback <= n
    ensures Rectangular(DropRows(df, drop), n - drop)
    ensures InferFromLast24h(df, n, features, medians, meta, scale, ae)
            == InferFromLast24h(DropRows(df, drop), n - drop, features, medians, meta, scale, ae)
  {
    SelectDropCommute(df, drop, features);
    match SelectFeatures(df, features)
    case Err(_) =>
    case Ok(x) =>
      assert Rectangular(x, n);
      TailAfterDrop(x, n, drop, medians);
      InferOnSameTail(ImputedRows(x, n, medians), ImputedRows(DropRows(x, drop), n - drop, medians),
                      n, n - drop, |features|, meta, scale, ae);
  }

  /** The decision on rows depends on them only through their last LOOKBACK
      rows, once neither history is empty. */
  lemma InferOnSameTail(rows: seq<seq<Cell>>, rows': seq<seq<Cell>>, n: nat, n': nat, width: nat,
                        meta: map<string, real>, scale: seq<real> -> seq<real>,
                        ae: seq<seq<real>> -> seq<seq<real>>)
    requires n > 0 && n' > 0 && Tail(rows, Lookback) == Tail(rows', Lookback)
    ensures InferOnRows(rows, n, width, meta, scale, ae) == InferOnRows(rows', n', width, meta, scale, ae)
  {
  }

  lemma TailAfterDrop(x: seq<Column>, n: nat, drop: nat, medians: map<string, Cell>)
    requires Rectangular(x, n) && drop + Lookback <= n
    ensures Rectangular(DropRows(x, drop), n - drop)
    ensures Tail(ImputedRows(x, n, medians), Lookback)
            == Tail(ImputedRows(DropRows(x, drop), n - drop, medians), Lookback)
  {
    var rows := ImputedRows(x, n, medians);
    var rows' := ImputedRows(DropRows(x, drop), n - drop, medians);
    forall i | 0 <= i < Lookback
      ensures Tail(rows, Lookback)[i] == Tail(rows', Lookback)[i]
    {
      ImputedRowAfterDrop(x, n, drop, medians, n - drop - Lookback + i);
    }
  }

  /** Dropping the first rows shifts the imputed rows and changes none. */
  lemma ImputedRowAfterDrop(x: seq<Column>, n: nat, drop: nat, medians: map<string, Cell>, j: nat)
    requires Rectangular(x, n) && drop + j < n
    ensures Rectangular(DropRows(x, drop), n - drop)
    ensures ImputedRows(DropRows(x, drop), n - drop, medians)[j] == ImputedRows(x, n, medians)[drop + j]
  {
    var d := DropRows(x, drop);
    assert Rectangular(d, n - drop);
    var row, row' := ImputedRows(x, n, medians)[drop + j], ImputedRows(d, n - drop, medians)[j];
    forall k | 0 <= k < |x|
      ensures row'[k] == row[k]
    {
      assert d[k].cells[j] == x[k].cells[drop + j];
    }
  }

  lemma {:induction false} FindDropCommute(df: seq<Column>, drop: nat, name: string)
    ensures FindColumn(DropRows(df, drop), name) ==
      match FindColumn(df, name)
      case None => None
      case Some(c) => Some(DropColumnRows(c, drop))
  {
    if |df| > 0 {
      assert DropRows(df, drop)[1..] == DropRows(df[1..], drop);
      FindDropCommute(df[1..], drop, name);
    }
  }

  lemma {:induction false} SelectDropCommute(df: seq<Column>, drop: nat, features: seq<string>)
    ensures SelectFeatures(DropRows(df, drop), features) ==
      match SelectFeatures(df, features)
      case Err(e) => Err(e)
      case Ok(x) => Ok(DropRows(x, drop))
  {
    if |features| > 0 {
      FindDropCommute(df, drop, features[0]);
      SelectDropCommute(df, drop, features[1..]);
      match SelectFeatures(df, features)
      case Err(_) =>
      case Ok(x) =>
        var c := FindColumn(df, features[0]).value;
        var rest := SelectFeatures(df, features[1..]).value;
        assert x == [c] + rest;
        assert FindColumn(DropRows(df, drop), features[0]) == Some(DropColumnRows(c, drop));
        assert SelectFeatures(DropRows(df, drop), features[1..]) == Ok(DropRows(rest, drop));
        assert SelectFeatures(DropRows(df, drop), features)
            == Ok([DropColumnRows(c, drop)] + DropRows(rest, drop));
        assert DropRows(x, drop) == [DropColumnRows(c, drop)] + DropRows(rest, drop);
    }
  }
}
