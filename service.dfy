/** The serving side of the anomaly detector: the health rule, batch
    scoring with per-batch normalisation, the averaged final score, the
    labelling threshold and the row/column selection of parquet input
    (backend/app/service.py). The detectors' raw scores are inputs. */
module Service {
  import opened Common
  import opened Train

  /** What was loaded at start-up: which detectors and scalers are present,
      the feature columns and the numeric entries of the metadata file. */
  datatype Bundle = Bundle(
    iforestLoaded: bool, scalerIfLoaded: bool,
    aeLoaded: bool, scalerAeLoaded: bool,
    featureColumns: seq<string>, meta: map<string, real>)

  datatype Details = Details(
    featureColumns: nat, iforestLoaded: bool, scalerIfLoaded: bool,
    aeLoaded: bool, scalerAeLoaded: bool)

  function Healthcheck(b: Bundle): (r: (bool, Details))
    ensures r.0 <==> b.iforestLoaded && b.scalerIfLoaded
    ensures r.1 == Details(|b.featureColumns|, b.iforestLoaded, b.scalerIfLoaded, b.aeLoaded, b.scalerAeLoaded)
  {
    var d := Details(|b.featureColumns|, b.iforestLoaded, b.scalerIfLoaded, b.aeLoaded, b.scalerAeLoaded);
    (true && d.iforestLoaded && d.scalerIfLoaded, d)
  }

  /** The autoencoder is optional: its presence never changes health. */
  lemma HealthIgnoresAutoencoder(b: Bundle, ae: bool, scalerAe: bool)
    ensures Healthcheck(b.(aeLoaded := ae, scalerAeLoaded := scalerAe)).0 == Healthcheck(b).0
  {
  }

  // ----------------------------------------------------------------- scoring

  /** Gap added to the batch range before dividing (1e-8). */
  const PtpGuard: real := 0.00000001

  function Zeros(n: nat): (z: seq<real>)
    ensures |z| == n && forall i :: 0 <= i < n ==> z[i] == 0.0
  {
    seq(n, _ => 0.0)
  }

  /** IF anomaly scores (the negated decision function, an input here), or
      zeros when no isolation forest is loaded. */
  function IfScores(b: Bundle, forest: seq<real>, n: nat): (s: seq<real>)
    requires |forest| == n
    ensures |s| == n
    ensures b.iforestLoaded ==> s == forest
    ensures !b.iforestLoaded ==> s == Zeros(n)
  {
    if b.iforestLoaded then forest else Zeros(n)
  }

  /** AE reconstruction errors (an input here), used only when both the
      model and its scaler are loaded; zeros otherwise. */
  function AeScores(b: Bundle, errors: seq<real>, n: nat): (s: seq<real>)
    requires |errors| == n
    ensures |s| == n
    ensures b.aeLoaded && b.scalerAeLoaded ==> s == errors
    ensures !(b.aeLoaded && b.scalerAeLoaded) ==> s == Zeros(n)
  {
    if b.aeLoaded && b.scalerAeLoaded then errors else Zeros(n)
  }

  /** `(x - x.min()) / (x.ptp() + 1e-8)` over the batch. */
  function BatchNormalize(x: seq<real>): (r: seq<real>)
    requires |x| > 0
    ensures |r| == |x|
  {
    seq(|x|, i requires 0 <= i < |x| => Shifted(x[i], SeqMin(x), Spread(x)))
  }

  /** `x.ptp() + 1e-8`: the batch's spread, guarded away from zero. */
  function Spread(x: seq<real>): (d: real)
    requires |x| > 0
    ensures d > SeqMax(x) - SeqMin(x) >= 0.0
  {
    SeqMax(x) - SeqMin(x) + PtpGuard
  }

  /** One normalised score: `(v - lo) / d`. */
  function Shifted(v: real, lo: real, d: real): (r: real)
    requires d > 0.0
    ensures lo <= v < lo + d ==> 0.0 <= r < 1.0
    ensures v == lo ==> r == 0.0
  {
    DivSign(v - lo, d);
    (v - lo) / d
  }

  /** Batch-normalised scores lie in [0, 1) and the batch minimum maps to 0. */
  lemma BatchNormalizeRange(x: seq<real>)
    requires |x| > 0
    ensures forall i :: 0 <= i < |x| ==> 0.0 <= BatchNormalize(x)[i] < 1.0
    ensures exists i :: 0 <= i < |x| && BatchNormalize(x)[i] == 0.0
    ensures forall i :: 0 <= i < |x| && x[i] == SeqMin(x) ==> BatchNormalize(x)[i] == 0.0
  {
    forall i | 0 <= i < |x|
      ensures 0.0 <= BatchNormalize(x)[i] < 1.0
      ensures x[i] == SeqMin(x) ==> BatchNormalize(x)[i] == 0.0
    {
      BatchNormalizeAt(x, i);
    }
    var k :| 0 <= k < |x| && x[k] == SeqMin(x);
    BatchNormalizeAt(x, k);
  }

  lemma BatchNormalizeAt(x: seq<real>, i: nat)
    requires i < |x|
    ensures 0.0 <= BatchNormalize(x)[i] < 1.0
    ensures x[i] == SeqMin(x) ==> BatchNormalize(x)[i] == 0.0
  {
    assert SeqMin(x) <= x[i] <= SeqMax(x);
    assert BatchNormalize(x)[i] == Shifted(x[i], SeqMin(x), Spread(x));
  }

  /** Batch normalisation preserves the order of the scores. */
  lemma BatchNormalizeMonotone(x: seq<real>, i: nat, j: nat)
    requires i < |x| && j < |x| && x[i] <= x[j]
    ensures BatchNormalize(x)[i] <= BatchNormalize(x)[j]
  {
    var lo, hi := SeqMin(x), SeqMax(x);
    var d := hi - lo + PtpGuard;
    DivSign(x[j] - x[i], d);
    DivSub(x[j] - lo, x[i] - lo, d);
  }

  /** The final score: the mean of the normalised IF score and the AE score,
      the latter normalised only when the batch has more than one row. */
  function FinalScores(ifs: seq<real>, aes: seq<real>): (f: seq<real>)
    requires |ifs| == |aes| > 0
    ensures |f| == |ifs|
  {
    var sIf := BatchNormalize(ifs);
    var sAe := if |aes| > 1 then BatchNormalize(aes) else aes;
    seq(|ifs|, i requires 0 <= i < |ifs| => 0.5 * sIf[i] + 0.5 * sAe[i])
  }

  /** For two or more rows the final score lies in [0, 1). */
  lemma FinalScoresRange(ifs: seq<real>, aes: seq<real>)
    requires |ifs| == |aes| > 1
    ensures forall i :: 0 <= i < |ifs| ==> 0.0 <= FinalScores(ifs, aes)[i] < 1.0
  {
    BatchNormalizeRange(ifs);
    BatchNormalizeRange(aes);
  }

  /** A one-row batch: the IF part normalises to 0 while the AE error enters
      raw, so the final score is half the raw AE error. */
  lemma OneRowAsymmetry(ifs: seq<real>, aes: seq<real>)
    requires |ifs| == |aes| == 1
    ensures FinalScores(ifs, aes) == [0.5 * aes[0]]
  {
    assert SeqMin(ifs) == ifs[0];
    assert BatchNormalize(ifs)[0] == 0.0;
  }

  /** The labelling threshold: metadata "threshold", else 0.6. */
  function Threshold(meta: map<string, real>): (t: real)
    ensures "threshold" in meta ==> t == meta["threshold"]
    ensures "threshold" !in meta ==> t == 0.6
  {
    if "threshold" in meta then meta["threshold"] else 0.6
  }

  /** The training run writes "operate_thr" but no "threshold", so the
      service labels with 0.6 regardless of the tuned operating threshold. */
  lemma TrainedThresholdIgnored(meta: map<string, real>)
    requires meta.Keys <= TrainingMetaKeys
    ensures Threshold(meta) == 0.6
  {
    assert "threshold" !in TrainingMetaKeys;
  }

  datatype Label = Anomaly | Normal

  datatype Prediction = Prediction(index: int, score: real, decision: Label)

  datatype ServiceError = EmptyBatch   // min()/ptp() of an empty array

  /** Scores a batch and returns one prediction per row, in row order. */
  method PredictDf(b: Bundle, index: seq<int>, forest: seq<real>, errors: seq<real>)
    returns (r: Result<seq<Prediction>, ServiceError>)
    requires |forest| == |index| && |errors| == |index|
    ensures r.Err? <==> |index| == 0
    ensures r.Ok? ==>
      var f := FinalScores(IfScores(b, forest, |index|), AeScores(b, errors, |index|));
      && |r.value| == |index|
      && forall i :: 0 <= i < |index| ==>
           && r.value[i].index == index[i]
           && r.value[i].score == f[i]
           && (r.value[i].decision == Anomaly <==> f[i] >= Threshold(b.meta))
  {
    var n := |index|;
    if n == 0 {
      return Err(EmptyBatch);
    }
    var finalScore := FinalScores(IfScores(b, forest, n), AeScores(b, errors, n));
    var thr := Threshold(b.meta);
    var results: seq<Prediction> := [];
    for i := 0 to n
      invariant |results| == i
      invariant forall j :: 0 <= j < i ==>
        results[j] == Prediction(index[j], finalScore[j], if finalScore[j] >= thr then Anomaly else Normal)
    {
      var decision := if finalScore[i] >= thr then Anomaly else Normal;
      results := results + [Prediction(index[i], finalScore[i], decision)];
    }
    return Ok(results);
  }

  /** Without an autoencoder and with the default threshold, a one-row batch
      is always labelled NORMAL: its IF part is 0. */
  lemma OneRowWithoutAutoencoderIsNormal(b: Bundle, forest: seq<real>, errors: seq<real>)
    requires |forest| == |errors| == 1
    requires !(b.aeLoaded && b.scalerAeLoaded) && "threshold" !in b.meta
    ensures FinalScores(IfScores(b, forest, 1), AeScores(b, errors, 1))[0] < Threshold(b.meta)
  {
    OneRowAsymmetry(IfScores(b, forest, 1), AeScores(b, errors, 1));
  }

  // -------------------------------------------------------- parquet selection

  /** The feature columns present in the file, in feature order. */
  function PresentFeatures(features: seq<string>, df: seq<Column>): (r: seq<string>)
    ensures IsSubsequence(r, features)
    ensures forall c :: c in r <==> c in features && FindColumn(df, c).Some?
  {
    Filter(features, (c: string) => FindColumn(df, c).Some?)
  }

  /** `predict_from_parquet` before scoring: the last `limit` rows when
      limit > 0 (all rows otherwise), restricted to the feature columns
      present, in feature order. */
  function SelectFromParquet(features: seq<string>, df: seq<Column>, n: nat, index: seq<int>, limit: int)
    : (r: (seq<Column>, seq<int>))
    requires Rectangular(df, n) && |index| == n
    ensures var keep := if limit > 0 then Min(limit, n) else n;
            && |r.1| == keep && r.1 == index[n - keep..]
            && Names(r.0) == PresentFeatures(features, df)
            && Rectangular(r.0, keep)
            && forall j :: 0 <= j < |r.0| ==>
                 r.0[j].cells == FindColumn(df, r.0[j].name).value.cells[n - keep..]
  {
    var keep := if limit > 0 then Min(limit, n) else n;
    var cols := PresentFeatures(features, df);
    (TailColumns(df, n, cols, n - keep), index[n - keep..])
  }

  /** The named columns of df, each without its first `drop` rows. */
  function TailColumns(df: seq<Column>, n: nat, cols: seq<string>, drop: nat): (picked: seq<Column>)
    requires Rectangular(df, n) && drop <= n
    requires forall c :: c in cols ==> FindColumn(df, c).Some?
    ensures Names(picked) == cols
    ensures Rectangular(picked, n - drop)
    ensures forall j :: 0 <= j < |picked| ==>
      picked[j].cells == FindColumn(df, picked[j].name).value.cells[drop..]
  {
    var picked := seq(|cols|, j requires 0 <= j < |cols| => DropColumnRows(FindColumn(df, cols[j]).value, drop));
    assert Names(picked) == cols;
    picked
  }
}
