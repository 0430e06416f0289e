/** The decision-relevant slice of the training run: the choice of the
    normal class, the binary validation labels, the alignment of labels and
    scores with the autoencoder windows, the normalisation bounds and the
    operating-threshold policy (backend/modelo/train.py). */
module Train {
  import opened Common
  import opened Ensemble

  /** The modelling constants (backend/modelo/config.py). */
  datatype Config = Config(
    lookback: nat, horizon: nat, aeOnly: bool, alpha: real,
    betaF: real, precisionTarget: real, smoothK: int, smoothM: nat)

  const Default := Config(24, 12, true, 0.9, 1.0, 0.60, 4, 7)

  /** Number of thresholds tried by the F-beta search. */
  const Grid: nat := 400

  datatype TrainError =
    | NoTrainingLabels     // Counter(...).most_common(1)[0] on an empty list
    | EmptyTrainingScores  // min()/max() of an empty array
    | EmptyValidation      // no validation window to search a threshold on
    | LengthMismatch       // the assert on aligned lengths
    | NoFbetaThreshold     // max(None, thr_prec) when the search found nothing

  // --------------------------------------------------------------- normal_id

  function FirstIndex<T(==)>(s: seq<T>, x: T): (i: nat)
    requires x in s
    ensures i < |s| && s[i] == x
    ensures forall j :: 0 <= j < i ==> s[j] != x
  {
    if s[0] == x then 0 else 1 + FirstIndex(s[1..], x)
  }

  /** v is a most frequent element of s[..k] measured over the whole of s,
      and the earliest to appear among those as frequent. */
  ghost predicate LeadsUpTo(s: seq<int>, v: int, k: nat)
    requires k <= |s|
  {
    && v in s[..k]
    && forall j :: 0 <= j < k ==>
         Count(s, s[j]) <= Count(s, v) &&
         (Count(s, s[j]) == Count(s, v) ==> FirstIndex(s, v) <= FirstIndex(s, s[j]))
  }

  function MostCommonFrom(s: seq<int>, i: nat, best: int): (v: int)
    requires 0 < i <= |s| && LeadsUpTo(s, best, i)
    ensures LeadsUpTo(s, v, |s|)
    decreases |s| - i
  {
    if i == |s| then best
    else
      var next := if Count(s, s[i]) > Count(s, best) then s[i] else best;
      LeadsStep(s, i, best);
      MostCommonFrom(s, i + 1, next)
  }

  /** Only a strictly more frequent value replaces the current leader, so
      among equally frequent values the first to appear stays ahead. */
  lemma LeadsStep(s: seq<int>, i: nat, best: int)
    requires 0 < i < |s| && LeadsUpTo(s, best, i)
    ensures LeadsUpTo(s, if Count(s, s[i]) > Count(s, best) then s[i] else best, i + 1)
  {
    var prefix := s[..i + 1];
    assert prefix == s[..i] + [s[i]];
    var x := s[i];
    if Count(s, x) > Count(s, best) {
      assert x in prefix;
      forall j | 0 <= j < i + 1
        ensures Count(s, s[j]) <= Count(s, x)
        ensures Count(s, s[j]) == Count(s, x) ==> FirstIndex(s, x) <= FirstIndex(s, s[j])
      {
      }
    } else {
      assert best in prefix;
      forall j | 0 <= j < i + 1
        ensures Count(s, s[j]) <= Count(s, best)
        ensures Count(s, s[j]) == Count(s, best) ==> FirstIndex(s, best) <= FirstIndex(s, s[j])
      {
        if j == i && x != best && Count(s, x) == Count(s, best) {
          LeaderFirst(s, i, best);
        }
      }
    }
  }

  /** A leader of s[..i] appears no later than any value s[i] that is not
      already in s[..i]; one that is inherits the leader's lead. */
  lemma LeaderFirst(s: seq<int>, i: nat, best: int)
    requires 0 < i < |s| && LeadsUpTo(s, best, i) && s[i] != best
    requires Count(s, s[i]) == Count(s, best)
    ensures FirstIndex(s, best) <= FirstIndex(s, s[i])
  {
    var f := FirstIndex(s, s[i]);
    if f < i {
      assert s[f] == s[i];
    } else {
      assert best in s[..i];
      var k :| 0 <= k < i && s[..i][k] == best;
      assert s[k] == best;
    }
  }

  /** `Counter(s).most_common(1)[0][0]`: the most frequent value, ties going
      to the value that appears first. */
  function MostCommon(s: seq<int>): (v: int)
    requires |s| > 0
    ensures v in s
    ensures forall x :: x in s ==> Count(s, x) <= Count(s, v)
    ensures forall x :: x in s && Count(s, x) == Count(s, v) ==> FirstIndex(s, v) <= FirstIndex(s, x)
  {
    assert s[..1] == [s[0]];
    var v := MostCommonFrom(s, 1, s[0]);
    assert s[..|s|] == s;
    forall x | x in s
      ensures Count(s, x) <= Count(s, v)
      ensures Count(s, x) == Count(s, v) ==> FirstIndex(s, v) <= FirstIndex(s, x)
    {
      assert s[FirstIndex(s, x)] == x;
    }
    v
  }

  /** The code of "NORMAL" among the label classes, else the most common
      training code. */
  function NormalId(classes: seq<string>, yTrainEnc: seq<int>): (r: Result<int, TrainError>)
    ensures r.Err? <==> "NORMAL" !in classes && |yTrainEnc| == 0
    ensures r.Ok? && "NORMAL" in classes ==> 0 <= r.value < |classes| && classes[r.value] == "NORMAL"
    ensures r.Ok? && "NORMAL" !in classes ==>
      r.value in yTrainEnc && forall x :: x in yTrainEnc ==> Count(yTrainEnc, x) <= Count(yTrainEnc, r.value)
    ensures r.Ok? && "NORMAL" !in classes ==>
      forall x :: x in yTrainEnc && Count(yTrainEnc, x) == Count(yTrainEnc, r.value) ==>
        FirstIndex(yTrainEnc, r.value) <= FirstIndex(yTrainEnc, x)
  {
    if "NORMAL" in classes then Ok(FirstIndex(classes, "NORMAL"))
    else if |yTrainEnc| == 0 then Err(NoTrainingLabels)
    else Ok(MostCommon(yTrainEnc))
  }

  /** Validation label 1 (anomalous) for every code other than normalId. */
  function YValidBin(yValidEnc: seq<int>, normalId: int): (b: seq<int>)
    ensures |b| == |yValidEnc|
    ensures forall i :: 0 <= i < |b| ==> (b[i] == 1 <==> yValidEnc[i] != normalId) && (b[i] == 0 || b[i] == 1)
  {
    seq(|yValidEnc|, i requires 0 <= i < |yValidEnc| => if yValidEnc[i] != normalId then 1 else 0)
  }

  /** The binary labels hold a 0 for every normal code and a 1 for every
      other. */
  lemma {:induction false} YValidBinCounts(yValidEnc: seq<int>, normalId: int)
    ensures Count(YValidBin(yValidEnc, normalId), 0) == Count(yValidEnc, normalId)
    ensures Count(YValidBin(yValidEnc, normalId), 1) == |yValidEnc| - Count(yValidEnc, normalId)
  {
    if |yValidEnc| > 0 {
      var n := |yValidEnc| - 1;
      YValidBinCounts(yValidEnc[..n], normalId);
      BinLast(yValidEnc, normalId);
    }
  }

  lemma BinLast(yValidEnc: seq<int>, normalId: int)
    requires |yValidEnc| > 0
    ensures var n := |yValidEnc| - 1; var b := YValidBin(yValidEnc, normalId);
      && b[..n] == YValidBin(yValidEnc[..n], normalId)
      && (b[n] == 1 <==> yValidEnc[n] != normalId) && (b[n] == 0 <==> yValidEnc[n] == normalId)
  {
  }

  // ---------------------------------------------------------------- alignment

  /** A Python slice bound: negative bounds count from the end; both clamp
      to [0, n]. */
  function PyBound(i: int, n: nat): (b: nat)
    ensures b <= n
  {
    if i < 0 then Max(0, n + i) else Min(i, n)
  }

  /** `s[start:stop]` with Python's slicing rules. */
  function PySlice<T>(s: seq<T>, start: int, stop: int): (r: seq<T>)
    ensures |r| <= |s|
    ensures var a := PyBound(start, |s|); var b := PyBound(stop, |s|);
            r == if a <= b then s[a..b] else []
  {
    var a := PyBound(start, |s|);
    var b := PyBound(stop, |s|);
    if a <= b then s[a..b] else []
  }

  /** The labels `y[L-1 : n-H]`. */
  function Aligned<T>(s: seq<T>, lookback: nat, horizon: nat): seq<T>
    requires lookback >= 1
  {
    PySlice(s, lookback - 1, |s| - horizon)
  }

  /** The aligned labels have one entry per autoencoder window, with the
      label of the window's last row, exactly when the horizon fits in the
      validation part or the validation part is short enough for Python's
      negative stop index to leave the slice empty. */
  lemma AlignedMatchesWindows<T>(s: seq<T>, lookback: nat, horizon: nat)
    requires lookback >= 1
    ensures |Aligned(s, lookback, horizon)| == Max(0, |s| - horizon - lookback + 1)
            <==> horizon <= |s| || 2 * |s| - horizon <= lookback - 1
    ensures horizon <= |s| ==> forall j :: 0 <= j < |Aligned(s, lookback, horizon)| ==>
              Aligned(s, lookback, horizon)[j] == s[j + lookback - 1]
  {
  }

  /** With the configured LOOKBACK = 24 and HORIZON_SHIFT = 12 the aligned
      labels always match the windows. */
  lemma AlignedMatchesWindowsByDefault<T>(s: seq<T>)
    ensures |Aligned(s, Default.lookback, Default.horizon)|
            == Max(0, |s| - Default.horizon - Default.lookback + 1)
  {
    AlignedMatchesWindows(s, Default.lookback, Default.horizon);
  }

  /** With LOOKBACK = 1 and HORIZON_SHIFT = 12, ten validation rows give no
      window but eight aligned labels: the negative stop -2 counts from the
      end. The length assert of the training run then fails. */
  lemma AlignedMismatchExample(s: seq<int>)
    requires |s| == 10
    ensures |Aligned(s, 1, 12)| == 8
    ensures Max(0, |s| - 12 - 1 + 1) == 0
  {
  }

  // ------------------------------------------------------------ normalisation

  /** Min-max with bounds taken from the training scores themselves maps
      every training score into [0, 1]. */
  lemma TrainingScoresNormalised(train: seq<real>)
    requires |train| > 0
    ensures forall i :: 0 <= i < |train| ==>
      0.0 <= MinMax(train[i], SeqMin(train), SeqMax(train)) <= 1.0
  {
    forall i | 0 <= i < |train|
      ensures 0.0 <= MinMax(train[i], SeqMin(train), SeqMax(train)) <= 1.0
    {
      MinMaxInUnitInterval(train[i], SeqMin(train), SeqMax(train));
    }
  }

  function Normalise(s: seq<real>, lo: real, hi: real): (r: seq<real>)
    ensures |r| == |s|
    ensures forall i :: 0 <= i < |s| ==> r[i] == MinMax(s[i], lo, hi)
  {
    seq(|s|, i requires 0 <= i < |s| => MinMax(s[i], lo, hi))
  }

  // -------------------------------------------------------- operating policy

  datatype Policy = Policy(
    operateScore: seq<real>, yAligned: seq<int>, fbeta: Best,
    thrFbeta: real, thrPrec: real, operateThr: real,
    raw: seq<int>, alerts: seq<int>)

  /** The score the operating decision is taken on: the normalised AE error,
      or the alpha-blend with the normalised IF score. */
  function OperateScore(aeNorm: seq<real>, ifNorm: seq<real>, cfg: Config): (r: seq<real>)
    requires |aeNorm| == |ifNorm|
    ensures |r| == |aeNorm|
    ensures cfg.aeOnly ==> r == aeNorm
    ensures !cfg.aeOnly ==> forall i :: 0 <= i < |r| ==>
      r[i] == cfg.alpha * aeNorm[i] + (1.0 - cfg.alpha) * ifNorm[i]
  {
    if cfg.aeOnly then aeNorm else EnsembleScores(aeNorm, ifNorm, cfg.alpha)
  }

  /** The IF scores and the labels, aligned with the AE windows, have one
      entry per AE validation score: the assert before the ensemble. */
  predicate Aligns(errValid: seq<real>, ifValid: seq<real>, yValidBin: seq<int>, cfg: Config)
    requires cfg.lookback >= 1
  {
    |Aligned(ifValid, cfg.lookback, cfg.horizon)| == |errValid|
    && |Aligned(yValidBin, cfg.lookback, cfg.horizon)| == |errValid|
  }

  /** The operate score on validation: AE errors normalised with the training
      error bounds, aligned IF scores normalised with the bounds of the
      normal training rows, then OperateScore. */
  function ValidationScore(errTrain: seq<real>, errValid: seq<real>,
                           ifTrainNormal: seq<real>, ifValid: seq<real>, cfg: Config): (r: seq<real>)
    requires cfg.lookback >= 1 && |errTrain| > 0 && |ifTrainNormal| > 0
    requires |Aligned(ifValid, cfg.lookback, cfg.horizon)| == |errValid|
    ensures |r| == |errValid|
  {
    OperateScore(Normalise(errValid, SeqMin(errTrain), SeqMax(errTrain)),
                 Normalise(Aligned(ifValid, cfg.lookback, cfg.horizon), SeqMin(ifTrainNormal), SeqMax(ifTrainNormal)),
                 cfg)
  }

  /** No grid point of the F-beta search has a positive F-beta. */
  ghost predicate NoPositiveF(scores: seq<real>, y: seq<int>, b2: real)
    requires |scores| == |y| > 0 && b2 >= 0.0
  {
    forall i :: 0 <= i < Grid ==> FAt(scores, y, b2, Grid, i) == 0.0
  }

  /** Normalises the validation scores with training bounds, aligns them with
      the labels, and derives the operating threshold as the larger of the
      F-beta threshold and the minimum-precision threshold, then the raw and
      smoothed alerts. `prec`/`ths` is the precision/threshold curve of the
      operate score. Each error is returned exactly when its cause holds. */
  method OperatingPolicy(errTrain: seq<real>, errValid: seq<real>,
                         ifTrainNormal: seq<real>, ifValid: seq<real>,
                         yValidBin: seq<int>, cfg: Config,
                         prec: seq<real>, ths: seq<real>)
    returns (r: Result<Policy, TrainError>)
    requires cfg.lookback >= 1 && cfg.smoothM >= 1
    requires |prec| == |ths| + 1 && |ths| > 0
    ensures r.Err? ==> r.error != NoTrainingLabels
    ensures r.Err? && r.error == EmptyTrainingScores <==> |errTrain| == 0 || |ifTrainNormal| == 0
    ensures r.Err? && r.error == LengthMismatch <==>
      |errTrain| > 0 && |ifTrainNormal| > 0 && !Aligns(errValid, ifValid, yValidBin, cfg)
    ensures r.Err? && r.error == EmptyValidation <==>
      |errTrain| > 0 && |ifTrainNormal| > 0 && Aligns(errValid, ifValid, yValidBin, cfg) && |errValid| == 0
    ensures r.Err? && r.error == NoFbetaThreshold <==>
      |errTrain| > 0 && |ifTrainNormal| > 0 && Aligns(errValid, ifValid, yValidBin, cfg) && |errValid| > 0
      && NoPositiveF(ValidationScore(errTrain, errValid, ifTrainNormal, ifValid, cfg),
                     Aligned(yValidBin, cfg.lookback, cfg.horizon), Squared(cfg.betaF))
    ensures r.Ok? ==>
      var p := r.value;
      && |errTrain| > 0 && |ifTrainNormal| > 0 && Aligns(errValid, ifValid, yValidBin, cfg)
      && p.yAligned == Aligned(yValidBin, cfg.lookback, cfg.horizon)
      && |p.operateScore| == |p.yAligned| == |errValid| > 0
      && p.operateScore == ValidationScore(errTrain, errValid, ifTrainNormal, ifValid, cfg)
      && IsBestOnGrid(p.operateScore, p.yAligned, Squared(cfg.betaF), Grid, p.fbeta)
      && p.fbeta.thr == Some(p.thrFbeta)
      && p.thrPrec == ThresholdForMinPrecision(prec, ths, cfg.precisionTarget)
      && p.operateThr >= p.thrFbeta && p.operateThr >= p.thrPrec
      && (p.operateThr == p.thrFbeta || p.operateThr == p.thrPrec)
      && |p.raw| == |p.operateScore|
      && (forall i :: 0 <= i < |p.raw| ==>
            (p.raw[i] == 1 <==> p.operateScore[i] > p.operateThr) && (p.raw[i] == 0 || p.raw[i] == 1))
      && p.alerts == Smoothed(p.raw, cfg.smoothK, cfg.smoothM)
  {
    if |errTrain| == 0 || |ifTrainNormal| == 0 {
      return Err(EmptyTrainingScores);
    }
    var aeNorm := Normalise(errValid, SeqMin(errTrain), SeqMax(errTrain));
    var ifAligned := Aligned(ifValid, cfg.lookback, cfg.horizon);
    var yAligned := Aligned(yValidBin, cfg.lookback, cfg.horizon);
    if !(|ifAligned| == |aeNorm| == |yAligned|) {
      return Err(LengthMismatch);
    }
    var ifNorm := Normalise(ifAligned, SeqMin(ifTrainNormal), SeqMax(ifTrainNormal));
    var score := OperateScore(aeNorm, ifNorm, cfg);
    var search := BestThrFbeta(score, yAligned, cfg.betaF, Grid);
    if search.Err? {
      return Err(EmptyValidation);
    }
    var best := search.value;
    if best.thr.None? {
      return Err(NoFbetaThreshold);
    }
    var thrFbeta := best.thr.value;
    var thrPrec := ThresholdForMinPrecision(prec, ths, cfg.precisionTarget);
    // Python's max(a, b) keeps a unless b is strictly larger.
    var thr := if thrPrec > thrFbeta then thrPrec else thrFbeta;
    var raw := seq(|score|, i requires 0 <= i < |score| => if score[i] > thr then 1 else 0);
    var alerts := SmoothAlerts(raw, cfg.smoothK, cfg.smoothM);
    return Ok(Policy(score, yAligned, best, thrFbeta, thrPrec, thr, raw, alerts));
  }

  /** A validation score exactly at the operating threshold raises no alert:
      the comparison is strict. */
  lemma ScoreAtThresholdIsNotRaised(p: Policy, i: nat)
    requires i < |p.raw| == |p.operateScore|
    requires forall j :: 0 <= j < |p.raw| ==>
      (p.raw[j] == 1 <==> p.operateScore[j] > p.operateThr) && (p.raw[j] == 0 || p.raw[j] == 1)
    requires p.operateScore[i] == p.operateThr
    ensures p.raw[i] == 0
  {
  }

  /** The keys of the metadata file written by the training run. */
  const TrainingMetaKeys: set<string> := {
    "lookback", "horizon_shift", "classes", "normal_id",
    "ae_thr_p95", "ae_thr_f2", "ae_roc_auc", "ae_pr_auc",
    "if_thr_p95", "if_thr_f2", "if_roc_auc", "if_pr_auc",
    "alpha", "ens_thr_f2", "ens_roc_auc", "ens_pr_auc",
    "ae_score_min", "ae_score_max", "if_score_min", "if_score_max",
    "operate_with_ae_only", "operate_thr", "operate_f_beta",
    "operate_precision_target", "smoothing_k", "smoothing_m"
  }
}
