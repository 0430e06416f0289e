/** The technical coherence checks on the gold dataset: thermal coherence
    and gradient, operating ranges, time continuity and the overall status
    (etl/capa_gold/validate_gold.py). Timestamps are whole seconds. */
module ValidateGold {
  import opened Common

  datatype Alert =
    | LowCoherence(percent: real)
    | ExcessGradient(maxGradient: Cell)
    | OutOfRange(variable: string, outsidePercent: real)
    | ManyGaps(gaps: nat)

  datatype Status = EXITOSO | ADVERTENCIAS

  // -------------------------------------------------------- thermal coherence

  /** The rows where both values are present, in increasing order: the
      index intersection of the two `dropna` results. */
  function BothPresent(hot: seq<Cell>, oil: seq<Cell>): (idx: seq<nat>)
    requires |hot| == |oil|
    ensures |idx| <= |hot|
    ensures forall k :: 0 <= k < |idx| ==> idx[k] < |hot|
    ensures forall k, l :: 0 <= k < l < |idx| ==> idx[k] < idx[l]
    ensures forall i :: 0 <= i < |hot| ==> (i in idx <==> !hot[i].NaN? && !oil[i].NaN?)
  {
    if |hot| == 0 then []
    else
      var last := |hot| - 1;
      var rest := BothPresent(hot[..last], oil[..last]);
      assert forall i :: 0 <= i < last ==> hot[..last][i] == hot[i] && oil[..last][i] == oil[i];
      if !hot[last].NaN? && !oil[last].NaN? then rest + [last] else rest
  }

  /** The (hot spot, oil) pairs of the rows where both are present, one per
      such row, in row order. */
  function Paired(hot: seq<Cell>, oil: seq<Cell>): (p: seq<(Cell, Cell)>)
    requires |hot| == |oil|
    ensures |p| == |BothPresent(hot, oil)| <= |hot|
    ensures forall k :: 0 <= k < |p| ==>
      p[k] == (hot[BothPresent(hot, oil)[k]], oil[BothPresent(hot, oil)[k]])
    ensures forall k :: 0 <= k < |p| ==> !p[k].0.NaN? && !p[k].1.NaN?
    ensures forall i :: 0 <= i < |hot| && !hot[i].NaN? && !oil[i].NaN? ==> (hot[i], oil[i]) in p
  {
    var idx := BothPresent(hot, oil);
    var p := seq(|idx|, k requires 0 <= k < |idx| => (hot[idx[k]], oil[idx[k]]));
    assert forall i :: 0 <= i < |hot| && i in idx ==> (hot[i], oil[i]) in p by {
      forall i | 0 <= i < |hot| && i in idx
        ensures (hot[i], oil[i]) in p
      {
        var k :| 0 <= k < |idx| && idx[k] == i;
        assert p[k] == (hot[i], oil[i]);
      }
    }
    p
  }

  function HotAtLeastOil(p: (Cell, Cell)): bool { Ge(p.0, p.1) }

  /** The share of paired rows with hot spot >= oil temperature, in
      percent (`coh * 100`; `coh < 0.95` is the same as this being below 95). */
  function Coherence(pairs: seq<(Cell, Cell)>): (c: real)
    requires |pairs| > 0
    ensures 0.0 <= c <= 100.0
    ensures c == 100.0 <==> CountWhere(pairs, HotAtLeastOil) == |pairs|
  {
    var k := CountWhere(pairs, HotAtLeastOil);
    PercentExtremes(k, |pairs|);
    Percent(k, |pairs|)
  }

  function Gradients(pairs: seq<(Cell, Cell)>): (g: seq<Cell>)
    ensures |g| == |pairs|
    ensures forall k :: 0 <= k < |pairs| ==> g[k] == Sub(pairs[k].0, pairs[k].1)
  {
    seq(|pairs|, k requires 0 <= k < |pairs| => Sub(pairs[k].0, pairs[k].1))
  }

  /** `grad.max() > umbral`: the NaN-skipping maximum exceeds the threshold. */
  predicate GradientExceeds(grads: seq<Cell>, umbral: real)
  {
    NanMax(grads).Some? && Gt(NanMax(grads).value, Fin(umbral))
  }

  /** The gradient alert fires exactly when some paired row's gradient
      exceeds the threshold. */
  lemma GradientExceedsIff(grads: seq<Cell>, umbral: real)
    ensures GradientExceeds(grads, umbral) <==> exists k :: 0 <= k < |grads| && Gt(grads[k], Fin(umbral))
  {
    var m := NanMax(grads);
    if exists k :: 0 <= k < |grads| && Gt(grads[k], Fin(umbral)) {
      var k :| 0 <= k < |grads| && Gt(grads[k], Fin(umbral));
      assert !grads[k].NaN?;
      assert Le(grads[k], m.value);
    }
  }

  /** Result of the thermal block: coherence, maximum gradient and alerts;
      None when a column is missing or no row has both values. */
  datatype Thermal = Thermal(coherence: Option<real>, gradientMax: Option<Cell>, alerts: seq<Alert>)

  /** The hot-spot/oil pairs, or None when either column is missing. */
  function ThermalPairs(df: seq<Column>, n: nat): (p: Option<seq<(Cell, Cell)>>)
    requires Rectangular(df, n)
    ensures p.None? <==> FindColumn(df, "temp_spot_hot_value").None? || FindColumn(df, "temp_oil_value").None?
    ensures p.Some? ==> p.value == Paired(FindColumn(df, "temp_spot_hot_value").value.cells,
                                          FindColumn(df, "temp_oil_value").value.cells)
  {
    var hot := FindColumn(df, "temp_spot_hot_value");
    var oil := FindColumn(df, "temp_oil_value");
    if hot.None? || oil.None? then None
    else
      assert hot.value.cells == df[IndexOf(df, hot.value)].cells;
      assert oil.value.cells == df[IndexOf(df, oil.value)].cells;
      Some(Paired(hot.value.cells, oil.value.cells))
  }

  predicate HasLowCoherence(alerts: seq<Alert>) { exists a :: a in alerts && a.LowCoherence? }

  predicate HasExcessGradient(alerts: seq<Alert>) { exists a :: a in alerts && a.ExcessGradient? }

  /** Some pair's hot-spot minus oil exceeds the threshold. */
  predicate SomeGradientAbove(pairs: seq<(Cell, Cell)>, umbral: real)
  {
    exists k :: 0 <= k < |pairs| && Gt(Sub(pairs[k].0, pairs[k].1), Fin(umbral))
  }

  /** The thermal figures of a set of pairs: empty when there is none;
      otherwise their coherence and largest gradient, a low-coherence alert
      exactly when coherence is below 95% and a gradient alert exactly when
      some pair's gradient exceeds the threshold. */
  function ThermalOf(pairs: seq<(Cell, Cell)>, umbral: real): (t: Thermal)
    ensures |pairs| == 0 ==> t == Thermal(None, None, [])
    ensures |t.alerts| <= 2
    ensures |pairs| > 0 ==>
      && t.coherence == Some(Coherence(pairs))
      && t.gradientMax == NanMax(Gradients(pairs))
      && (HasLowCoherence(t.alerts) <==> Coherence(pairs) < 95.0)
      && (HasExcessGradient(t.alerts) <==> SomeGradientAbove(pairs, umbral))
      && (forall a :: a in t.alerts ==>
            a == LowCoherence(Coherence(pairs))
            || (a.ExcessGradient? && NanMax(Gradients(pairs)) == Some(a.maxGradient)))
  {
    if |pairs| == 0 then Thermal(None, None, [])
    else
      var coh := Coherence(pairs);
      var grads := Gradients(pairs);
      GradientExceedsIff(grads, umbral);
      assert GradientExceeds(grads, umbral) <==> SomeGradientAbove(pairs, umbral);
      var a1 := if coh < 95.0 then [LowCoherence(coh)] else [];
      var a2 := if GradientExceeds(grads, umbral) then [ExcessGradient(NanMax(grads).value)] else [];
      assert coh < 95.0 ==> LowCoherence(coh) in a1 + a2;
      assert GradientExceeds(grads, umbral) ==> ExcessGradient(NanMax(grads).value) in a1 + a2;
      Thermal(Some(coh), NanMax(grads), a1 + a2)
  }

  /** The thermal block: skipped when either column is missing, otherwise
      the figures of the paired rows. */
  function ThermalCheck(df: seq<Column>, n: nat, umbral: real): (t: Thermal)
    requires Rectangular(df, n)
    ensures FindColumn(df, "temp_spot_hot_value").None? || FindColumn(df, "temp_oil_value").None? ==>
      t == Thermal(None, None, [])
    ensures ThermalPairs(df, n).Some? ==> t == ThermalOf(ThermalPairs(df, n).value, umbral)
    ensures t.coherence.Some? ==> 0.0 <= t.coherence.value <= 100.0
  {
    match ThermalPairs(df, n)
    case None => Thermal(None, None, [])
    case Some(pairs) => ThermalOf(pairs, umbral)
  }

  /** The position of a column known to be in the table. */
  function IndexOf(df: seq<Column>, c: Column): (j: nat)
    requires c in df
    ensures j < |df| && df[j] == c
  {
    if df[0] == c then 0 else 1 + IndexOf(df[1..], c)
  }

  /** When every paired row has hot spot >= oil, the coherence is 100% and
      no coherence alert is raised. */
  lemma FullCoherenceNoAlert(df: seq<Column>, n: nat, umbral: real)
    requires Rectangular(df, n)
    requires ThermalPairs(df, n).Some?
    requires var pairs := ThermalPairs(df, n).value;
      |pairs| > 0 && CountWhere(pairs, HotAtLeastOil) == |pairs|
    ensures ThermalCheck(df, n, umbral).coherence == Some(100.0)
    ensures forall a :: a in ThermalCheck(df, n, umbral).alerts ==> !a.LowCoherence?
  {
    var t := ThermalCheck(df, n, umbral);
    assert Coherence(ThermalPairs(df, n).value) == 100.0;
    assert !HasLowCoherence(t.alerts);
  }

  // ------------------------------------------------------- operating ranges

  /** Operating ranges per variable, in check order. */
  const Ranges: seq<(string, (real, real))> := [
    ("temp_oil_value", (0.0, 120.0)),
    ("temp_spot_hot_value", (0.0, 150.0)),
    ("temp_ambient_value", (-40.0, 60.0)),
    ("current_load_value", (0.0, 5000.0)),
    ("power_apparent_value", (0.0, 200.0)),
    ("voltage_value", (100.0, 150.0)),
    ("tap_position_value", (0.0, 20.0))
  ]

  /** A present value outside the inclusive range. */
  predicate Outside(c: Cell, mn: real, mx: real) { Lt(c, Fin(mn)) || Gt(c, Fin(mx)) }

  function Present(cells: seq<Cell>): (s: seq<Cell>)
    ensures forall c :: c in s <==> c in cells && !c.NaN?
  {
    Filter(cells, (c: Cell) => !c.NaN?)
  }

  /** The share of present values inside [mn, mx], in percent, or None when
      no value is present. */
  function Validity(cells: seq<Cell>, mn: real, mx: real): (p: Option<real>)
    ensures p.None? <==> |Present(cells)| == 0
    ensures p.Some? ==> 0.0 <= p.value <= 100.0
  {
    var s := Present(cells);
    if |s| == 0 then None
    else Some(Percent(|s| - CountWhere(s, (c: Cell) => Outside(c, mn, mx)), |s|))
  }

  /** A column is fully valid exactly when none of its present values lies
      outside the range. */
  lemma ValidityFull(cells: seq<Cell>, mn: real, mx: real)
    requires Validity(cells, mn, mx).Some?
    ensures Validity(cells, mn, mx).value == 100.0 <==> forall c :: c in cells && !c.NaN? ==> !Outside(c, mn, mx)
  {
    var s := Present(cells);
    var outside := CountWhere(s, (c: Cell) => Outside(c, mn, mx));
    PercentExtremes(|s| - outside, |s|);
    CountWhereZero(s, (c: Cell) => Outside(c, mn, mx));
  }

  /** No element satisfies p exactly when the count is 0. */
  lemma {:induction false} CountWhereZero<T>(s: seq<T>, p: T -> bool)
    ensures CountWhere(s, p) == 0 <==> forall x :: x in s ==> !p(x)
  {
    if |s| > 0 {
      CountWhereZero(s[..|s| - 1], p);
      assert forall x :: x in s ==> x in s[..|s| - 1] || x == s[|s| - 1];
    }
  }

  /** The validity for one range, or None when its column is missing or
      holds no value. */
  function RangeResult(df: seq<Column>, range: (string, (real, real))): Option<real>
  {
    var col := FindColumn(df, range.0);
    if col.None? then None else Validity(col.value.cells, range.1.0, range.1.1)
  }

  /** The validities and alerts of the first k ranges. */
  function RangeChecks(df: seq<Column>, ranges: seq<(string, (real, real))>, k: nat)
    : (r: (seq<(string, real)>, seq<Alert>))
    requires k <= |ranges|
    ensures |r.0| <= k && |r.1| <= |r.0|
  {
    if k == 0 then ([], []) else AddRange(RangeChecks(df, ranges, k - 1), ranges[k - 1].0, RangeResult(df, ranges[k - 1]))
  }

  /** One range's contribution: its validity figure, and an alert below 90%. */
  function AddRange(prev: (seq<(string, real)>, seq<Alert>), name: string, pct: Option<real>)
    : (r: (seq<(string, real)>, seq<Alert>))
    ensures |r.0| <= |prev.0| + 1 && |r.1| - |prev.1| <= |r.0| - |prev.0|
  {
    match pct
    case None => prev
    case Some(p) =>
      (prev.0 + [(name, p)], prev.1 + if p < 90.0 then [OutOfRange(name, 100.0 - p)] else [])
  }

  /** Every alert is an out-of-range alert with more than 10% outside. */
  predicate OutOfRangeAlerts(alerts: seq<Alert>)
  {
    forall a :: a in alerts ==> a.OutOfRange? && a.outsidePercent > 10.0
  }

  /** Every range alert names a variable whose validity is below 90%, that
      is, more than 10% of its present values lie outside the range. */
  lemma {:induction false} RangeAlertsAreOutOfRange(df: seq<Column>, ranges: seq<(string, (real, real))>, k: nat)
    requires k <= |ranges|
    ensures OutOfRangeAlerts(RangeChecks(df, ranges, k).1)
  {
    if k > 0 {
      RangeAlertsAreOutOfRange(df, ranges, k - 1);
      AddRangeAlerts(RangeChecks(df, ranges, k - 1), ranges[k - 1].0, RangeResult(df, ranges[k - 1]));
    }
  }

  lemma AddRangeAlerts(prev: (seq<(string, real)>, seq<Alert>), name: string, pct: Option<real>)
    requires OutOfRangeAlerts(prev.1)
    ensures OutOfRangeAlerts(AddRange(prev, name, pct).1)
  {
  }

  /** A table holding none of the ranged columns gives no validity figures
      and no range alerts. */
  lemma {:induction false} RangesSkippedWhenMissing(df: seq<Column>, ranges: seq<(string, (real, real))>, k: nat)
    requires k <= |ranges|
    requires forall i :: 0 <= i < |ranges| ==> FindColumn(df, ranges[i].0).None?
    ensures RangeChecks(df, ranges, k) == ([], [])
  {
    if k > 0 {
      RangesSkippedWhenMissing(df, ranges, k - 1);
    }
  }

  // ------------------------------------------------------- time continuity

  /** 1.5 hours in seconds. */
  const GapSeconds: int := 5400

  function CountGaps(index: seq<int>): (g: nat)
    ensures |index| > 0 ==> g < |index|
    ensures |index| == 0 ==> g == 0
  {
    if |index| <= 1 then 0
    else CountGaps(index[..|index| - 1]) + if index[|index| - 1] - index[|index| - 2] > GapSeconds then 1 else 0
  }

  /** A gap-free sequence of timestamps has no gaps counted. */
  lemma {:induction false} NoGapsCounted(index: seq<int>)
    requires forall i :: 0 < i < |index| ==> index[i] - index[i - 1] <= GapSeconds
    ensures CountGaps(index) == 0
  {
    if |index| > 1 {
      NoGapsCounted(index[..|index| - 1]);
    }
  }

  /** Continuity in percent, the gap count and the alert, or nothing when
      the index is not a datetime index. */
  datatype Continuity = Continuity(percent: real, gaps: nat, alerts: seq<Alert>)

  function ContinuityCheck(index: Option<seq<int>>): (r: Option<Continuity>)
    ensures index.None? <==> r.None?
    ensures r.Some? ==> 0.0 <= r.value.percent <= 100.0
    ensures r.Some? && |index.value| == 0 ==> r.value.percent == 100.0 && r.value.alerts == []
    ensures r.Some? ==> (r.value.alerts != [] <==> 20 * r.value.gaps > |index.value|)
  {
    if index.None? then None
    else
      var ix := index.value;
      var g := CountGaps(ix);
      var pct := if |ix| == 0 then 100.0 else Percent(|ix| - g, |ix|);
      Some(Continuity(pct, g, if (g as real) > |ix| as real * 0.05 then [ManyGaps(g)] else []))
  }

  // ----------------------------------------------------------------- status

  datatype Validation = Validation(
    coherence: Option<real>, gradientMax: Option<Cell>,
    validity: seq<(string, real)>, continuity: Option<Continuity>,
    status: Status, alerts: seq<Alert>)

  /** The alerts of all checks, in check order. */
  function AllAlerts(df: seq<Column>, n: nat, index: Option<seq<int>>, umbral: real): seq<Alert>
    requires Rectangular(df, n)
  {
    var c := ContinuityCheck(index);
    ThermalCheck(df, n, umbral).alerts + RangeChecks(df, Ranges, |Ranges|).1 + (if c.Some? then c.value.alerts else [])
  }

  /** The loop over the operating ranges, collecting the validity figures
      and the out-of-range alerts. */
  method CheckRanges(df: seq<Column>, ranges: seq<(string, (real, real))>)
    returns (validity: seq<(string, real)>, alerts: seq<Alert>)
    ensures validity == RangeChecks(df, ranges, |ranges|).0 && alerts == RangeChecks(df, ranges, |ranges|).1
  {
    validity, alerts := [], [];
    for k := 0 to |ranges|
      invariant validity == RangeChecks(df, ranges, k).0 && alerts == RangeChecks(df, ranges, k).1
    {
      var name, pct := ranges[k].0, RangeResult(df, ranges[k]);
      assert RangeChecks(df, ranges, k + 1) == AddRange((validity, alerts), name, pct);
      if pct.Some? {
        var p := pct.value;
        AddRangeSome((validity, alerts), name, p);
        validity := validity + [(name, p)];
        if p < 90.0 {
          alerts := alerts + [OutOfRange(name, 100.0 - p)];
        }
      }
    }
  }

  /** A present validity figure is appended, with an alert below 90%. */
  lemma AddRangeSome(prev: (seq<(string, real)>, seq<Alert>), name: string, p: real)
    ensures AddRange(prev, name, Some(p)).0 == prev.0 + [(name, p)]
    ensures AddRange(prev, name, Some(p)).1 == if p < 90.0 then prev.1 + [OutOfRange(name, 100.0 - p)] else prev.1
  {
  }

  /** `validar_coherencia_tecnica_transformador`: the checks run in turn,
      each appending its alerts; the status is set from the alert list. */
  method Validate(df: seq<Column>, n: nat, index: Option<seq<int>>, umbral: real) returns (v: Validation)
    requires Rectangular(df, n)
    ensures v.alerts == AllAlerts(df, n, index, umbral)
    ensures v.status == EXITOSO <==> v.alerts == []
    ensures v.coherence == ThermalCheck(df, n, umbral).coherence
    ensures v.gradientMax == ThermalCheck(df, n, umbral).gradientMax
    ensures v.validity == RangeChecks(df, Ranges, |Ranges|).0
    ensures v.continuity == ContinuityCheck(index)
  {
    var thermal := ThermalCheck(df, n, umbral);
    var alerts := thermal.alerts;
    var validity, rangeAlerts := CheckRanges(df, Ranges);
    alerts := alerts + rangeAlerts;
    var continuity := ContinuityCheck(index);
    if continuity.Some? {
      alerts := alerts + continuity.value.alerts;
    } else {
      assert alerts == alerts + [];
    }
    var status := if alerts == [] then EXITOSO else ADVERTENCIAS;
    v := Validation(thermal.coherence, thermal.gradientMax, validity, continuity, status, alerts);
  }

  /** A table with none of the checked columns and no datetime index passes. */
  lemma NothingToCheckPasses(df: seq<Column>, n: nat, umbral: real)
    requires Rectangular(df, n)
    requires forall i :: 0 <= i < |Ranges| ==> FindColumn(df, Ranges[i].0).None?
    ensures AllAlerts(df, n, None, umbral) == []
  {
    assert Ranges[1].0 == "temp_spot_hot_value";
    RangesSkippedWhenMissing(df, Ranges, |Ranges|);
  }
}
