/** Rule-based operational-state classification of the silver table: every
    row starts NORMAL and is escalated by per-variable threshold bands and
    by two combined rules (etl/capa_silver/classify_silver.py, with the
    thresholds of etl/capa_silver/rules_silver.py). */
module ClassifySilver {
  import opened Common

  datatype Estado = NORMAL | ALERTA | CRITICO

  /** A half-open band [min, max); the bounds may be infinite. */
  datatype Band = Band(min: Cell, max: Cell)

  datatype Criterion = Criterion(name: string, normal: Band, alerta: Band, critico: Band, descripcion: string)

  /** The four columns the classification writes, for one row. */
  datatype Row = Row(estado: Estado, severity: nat, variables: string, description: string)

  const Initial: Row := Row(NORMAL, 0, "", "")

  function SeverityOf(e: Estado): nat
  {
    match e
    case NORMAL => 0
    case ALERTA => 1
    case CRITICO => 2
  }

  /** State and severity agree: NORMAL-0, ALERTA-1, CRITICO-2. */
  predicate Consistent(r: Row)
  {
    r.severity == SeverityOf(r.estado)
  }

  /** A consistent row stays consistent and loses no severity. */
  predicate Escalates(r: Row, r': Row)
  {
    Consistent(r) ==> Consistent(r') && r'.severity >= r.severity
  }

  /** `(v >= min) & (v < max)` with IEEE comparisons: NaN is in no band. */
  predicate InBand(v: Cell, b: Band)
  {
    Ge(v, b.min) && Lt(v, b.max)
  }

  /** Appends x, preceded by the separator when s is not empty. */
  function Append(s: string, sep: string, x: string): string
  {
    (if s != "" then s + sep else "") + x
  }

  /** A criterion applies to a column when every "_"-token of its name
      occurs in the lower-cased column name; non-numeric columns are
      skipped. */
  predicate Matches(crit: Criterion, c: Column)
  {
    && (forall t :: t in Split(crit.name, '_') ==> Contains(Lower(c.name), t))
    && c.numeric
  }

  // ------------------------------------------------------------ row steps

  function CritStep(r: Row, v: Cell, crit: Criterion, col: string): (r': Row)
    ensures Escalates(r, r')
    ensures InBand(v, crit.critico) ==>
      r'.estado == CRITICO && r'.severity == 2 && r'.variables == Append(r.variables, ", ", col)
    ensures !InBand(v, crit.critico) ==> r' == r
  {
    if InBand(v, crit.critico) then
      Row(CRITICO, 2, Append(r.variables, ", ", col), Append(r.description, "; ", crit.descripcion + " CRÍTICO"))
    else r
  }

  /** A value in the alert band raises ALERTA on a row below CRITICO and
      names the column; any other row is left as it is. */
  function AlertStep(r: Row, v: Cell, crit: Criterion, col: string): (r': Row)
    ensures Escalates(r, r')
    ensures InBand(v, crit.alerta) && r.severity < 2 ==>
      r'.estado == ALERTA && r'.severity == 1 && r'.variables == Append(r.variables, ", ", col)
    ensures !(InBand(v, crit.alerta) && r.severity < 2) ==> r' == r
  {
    if InBand(v, crit.alerta) && r.severity < 2 then
      Row(ALERTA, 1, Append(r.variables, ", ", col), Append(r.description, "; ", crit.descripcion + " ALERTA"))
    else r
  }

  const OverloadText: string := "SOBRECARGA TÉRMICA COMBINADA"

  /** Current above 2000 with oil temperature above 70 forces CRITICO; the
      description is added only when not already present. */
  function OverloadStep(r: Row, current: Cell, oil: Cell): (r': Row)
    ensures Escalates(r, r')
    ensures Gt(current, Fin(2000.0)) && Gt(oil, Fin(70.0)) ==>
      r'.estado == CRITICO && r'.severity == 2 && r'.variables == r.variables
    ensures !(Gt(current, Fin(2000.0)) && Gt(oil, Fin(70.0))) ==> r' == r
  {
    if Gt(current, Fin(2000.0)) && Gt(oil, Fin(70.0)) then
      Row(CRITICO, 2, r.variables,
          if Contains(r.description, OverloadText) then r.description
          else Append(r.description, "; ", OverloadText))
    else r
  }

  /** Hot-spot minus oil above 25 raises ALERTA on rows below CRITICO; one
      "GRADIENTE" description at most. `render` stands for the one-decimal
      rendering of the gradient. */
  function GradientStep(r: Row, hot: Cell, oil: Cell, render: Cell -> string): (r': Row)
    ensures Escalates(r, r')
    ensures Gt(Sub(hot, oil), Fin(25.0)) && r.severity < 2 ==>
      r'.estado == ALERTA && r'.severity == 1 && r'.variables == r.variables
      && Contains(r'.description, "GRADIENTE")
    ensures !(Gt(Sub(hot, oil), Fin(25.0)) && r.severity < 2) ==> r' == r
  {
    var diff := Sub(hot, oil);
    if Gt(diff, Fin(25.0)) && r.severity < 2 then
      GradientTextMentions(if r.description != "" then r.description + "; " else "", render(diff));
      Row(ALERTA, 1, r.variables,
          if Contains(r.description, "GRADIENTE") then r.description
          else Append(r.description, "; ", GradientText(render(diff))))
    else r
  }

  /** The gradient description, around the rendered gradient. */
  function GradientText(shown: string): string
  {
    "GRADIENTE TÉRMICO EXCESIVO (" + shown + "°C)"
  }

  lemma GradientTextMentions(head: string, shown: string)
    ensures Contains(head + GradientText(shown), "GRADIENTE")
  {
    var rest := " TÉRMICO EXCESIVO (" + shown + "°C)";
    assert head + GradientText(shown) == head + "GRADIENTE" + rest;
    ContainsInfix(head, "GRADIENTE", rest);
  }

  // ------------------------------------------------------- column passes

  function CritAll(rows: seq<Row>, c: Column, crit: Criterion): (out: seq<Row>)
    requires |c.cells| == |rows|
    ensures |out| == |rows|
  {
    seq(|rows|, i requires 0 <= i < |rows| => CritStep(rows[i], c.cells[i], crit, c.name))
  }

  function AlertAll(rows: seq<Row>, c: Column, crit: Criterion): (out: seq<Row>)
    requires |c.cells| == |rows|
    ensures |out| == |rows|
  {
    seq(|rows|, i requires 0 <= i < |rows| => AlertStep(rows[i], c.cells[i], crit, c.name))
  }

  /** One (criterion, column) pass: critical rows first, then alert rows
      among those still below CRITICO. */
  function ColumnPass(rows: seq<Row>, crit: Criterion, c: Column): (out: seq<Row>)
    requires |c.cells| == |rows|
    ensures |out| == |rows|
    ensures forall i :: 0 <= i < |rows| ==> Escalates(rows[i], out[i])
    ensures Matches(crit, c) ==> forall i :: 0 <= i < |rows| && InBand(c.cells[i], crit.critico) ==>
      out[i].estado == CRITICO && out[i].severity == 2
  {
    if Matches(crit, c) then AlertAll(CritAll(rows, c, crit), c, crit) else rows
  }

  /** The columns df[..j] passed through one criterion, in column order. */
  function CriterionPass(rows: seq<Row>, crit: Criterion, df: seq<Column>, j: nat): (out: seq<Row>)
    requires j <= |df| && Rectangular(df, |rows|)
    ensures |out| == |rows|
    decreases j
  {
    if j == 0 then rows else ColumnPass(CriterionPass(rows, crit, df, j - 1), crit, df[j - 1])
  }

  /** The first k criteria, in table order. */
  function IndividualPass(rows: seq<Row>, criteria: seq<Criterion>, df: seq<Column>, k: nat): (out: seq<Row>)
    requires k <= |criteria| && Rectangular(df, |rows|)
    ensures |out| == |rows|
    decreases k
  {
    if k == 0 then rows
    else CriterionPass(IndividualPass(rows, criteria, df, k - 1), criteria[k - 1], df, |df|)
  }

  /** The two combined rules. */
  datatype Combined = Overload | Gradient(render: Cell -> string)

  function CombinedStep(kind: Combined, r: Row, a: Cell, b: Cell): (r': Row)
    ensures Escalates(r, r')
  {
    match kind
    case Overload => OverloadStep(r, a, b)
    case Gradient(render) => GradientStep(r, a, b, render)
  }

  function CombinedAll(rows: seq<Row>, kind: Combined, x: Column, y: Column): (out: seq<Row>)
    requires |x.cells| == |rows| && |y.cells| == |rows|
    ensures |out| == |rows|
  {
    seq(|rows|, i requires 0 <= i < |rows| => CombinedStep(kind, rows[i], x.cells[i], y.cells[i]))
  }

  /** Column x against ys[..b]. */
  function PairInner(rows: seq<Row>, kind: Combined, x: Column, ys: seq<Column>, b: nat): (out: seq<Row>)
    requires b <= |ys| && |x.cells| == |rows| && Rectangular(ys, |rows|)
    ensures |out| == |rows|
    decreases b
  {
    if b == 0 then rows else CombinedAll(PairInner(rows, kind, x, ys, b - 1), kind, x, ys[b - 1])
  }

  /** Every column of xs[..a] against every column of ys, nested as in the
      source's two loops. */
  function PairPass(rows: seq<Row>, kind: Combined, xs: seq<Column>, ys: seq<Column>, a: nat): (out: seq<Row>)
    requires a <= |xs| && Rectangular(xs, |rows|) && Rectangular(ys, |rows|)
    ensures |out| == |rows|
    decreases a
  {
    if a == 0 then rows else PairInner(PairPass(rows, kind, xs, ys, a - 1), kind, xs[a - 1], ys, |ys|)
  }

  predicate IsCurrent(c: Column) { Contains(Lower(c.name), "current") }

  predicate IsOilTemp(c: Column) { Contains(Lower(c.name), "oil") && Contains(Lower(c.name), "temp") }

  predicate IsHot(c: Column) { Contains(Lower(c.name), "hot") }

  lemma RectangularFilter(df: seq<Column>, n: nat, p: Column -> bool)
    requires Rectangular(df, n)
    ensures Rectangular(Filter(df, p), n)
  {
    var r := Filter(df, p);
    forall j | 0 <= j < |r|
      ensures |r[j].cells| == n
    {
      assert r[j] in r;
      var k :| 0 <= k < |df| && df[k] == r[j];
    }
  }

  function Initials(n: nat): (rows: seq<Row>)
    ensures |rows| == n && forall i :: 0 <= i < n ==> rows[i] == Initial
  {
    seq(n, _ => Initial)
  }

  /** The rows after the individual criteria and both combined rules. */
  function Classification(df: seq<Column>, n: nat, criteria: seq<Criterion>, render: Cell -> string): (rows: seq<Row>)
    requires Rectangular(df, n)
    ensures |rows| == n
  {
    RectangularFilter(df, n, IsCurrent);
    RectangularFilter(df, n, IsOilTemp);
    RectangularFilter(df, n, IsHot);
    var afterIndividual := IndividualPass(Initials(n), criteria, df, |criteria|);
    var colsI, colsO, colsH := Filter(df, IsCurrent), Filter(df, IsOilTemp), Filter(df, IsHot);
    var afterOverload := PairPass(afterIndividual, Overload, colsI, colsO, |colsI|);
    PairPass(afterOverload, Gradient(render), colsH, colsO, |colsH|)
  }

  // ------------------------------------------------------------- counting

  function CountState(rows: seq<Row>, e: Estado): (k: nat)
    ensures k <= |rows|
  {
    if |rows| == 0 then 0
    else CountState(rows[..|rows| - 1], e) + (if rows[|rows| - 1].estado == e then 1 else 0)
  }

  /** `value_counts().to_dict()`: only states that occur are keys. */
  function StateCounts(rows: seq<Row>): (m: map<Estado, nat>)
    ensures forall e :: e in m <==> CountState(rows, e) > 0
    ensures forall e :: e in m ==> m[e] == CountState(rows, e)
  {
    map e | e in {NORMAL, ALERTA, CRITICO} && CountState(rows, e) > 0 :: CountState(rows, e)
  }

  /** The three counts add up to the number of rows. */
  lemma {:induction false} CountsSumToRows(rows: seq<Row>)
    ensures CountState(rows, NORMAL) + CountState(rows, ALERTA) + CountState(rows, CRITICO) == |rows|
  {
    if |rows| > 0 {
      CountsSumToRows(rows[..|rows| - 1]);
    }
  }

  // -------------------------------------------------------------- methods

  /** `out.loc[idx_c, ...] = ...` and its loop over idx_c. */
  method MarkCritical(rows: seq<Row>, c: Column, crit: Criterion) returns (out: seq<Row>)
    requires |c.cells| == |rows|
    ensures out == CritAll(rows, c, crit)
  {
    out := rows;
    for i := 0 to |rows|
      invariant |out| == |rows|
      invariant forall r :: 0 <= r < |rows| ==>
        out[r] == (if r < i then CritStep(rows[r], c.cells[r], crit, c.name) else rows[r])
    {
      if InBand(c.cells[i], crit.critico) {
        out := out[i := Row(CRITICO, 2, Append(out[i].variables, ", ", c.name),
                            Append(out[i].description, "; ", crit.descripcion + " CRÍTICO"))];
      }
    }
  }

  /** The alert mask, which reads the severities just written. */
  method MarkAlert(rows: seq<Row>, c: Column, crit: Criterion) returns (out: seq<Row>)
    requires |c.cells| == |rows|
    ensures out == AlertAll(rows, c, crit)
  {
    out := rows;
    for i := 0 to |rows|
      invariant |out| == |rows|
      invariant forall r :: 0 <= r < |rows| ==>
        out[r] == (if r < i then AlertStep(rows[r], c.cells[r], crit, c.name) else rows[r])
    {
      if InBand(c.cells[i], crit.alerta) && out[i].severity < 2 {
        out := out[i := Row(ALERTA, 1, Append(out[i].variables, ", ", c.name),
                            Append(out[i].description, "; ", crit.descripcion + " ALERTA"))];
      }
    }
  }

  /** One (x, y) pair of a combined rule over all rows. */
  method MarkCombined(rows: seq<Row>, kind: Combined, x: Column, y: Column) returns (out: seq<Row>)
    requires |x.cells| == |rows| && |y.cells| == |rows|
    ensures out == CombinedAll(rows, kind, x, y)
  {
    out := rows;
    for i := 0 to |rows|
      invariant |out| == |rows|
      invariant forall r :: 0 <= r < |rows| ==>
        out[r] == (if r < i then CombinedStep(kind, rows[r], x.cells[r], y.cells[r]) else rows[r])
    {
      out := out[i := CombinedStep(kind, out[i], x.cells[i], y.cells[i])];
    }
  }

  /** The nested loops of one combined rule. */
  method MarkPairs(rows: seq<Row>, kind: Combined, xs: seq<Column>, ys: seq<Column>) returns (out: seq<Row>)
    requires Rectangular(xs, |rows|) && Rectangular(ys, |rows|)
    ensures out == PairPass(rows, kind, xs, ys, |xs|)
  {
    out := rows;
    for a := 0 to |xs|
      invariant out == PairPass(rows, kind, xs, ys, a)
    {
      ghost var start := out;
      for b := 0 to |ys|
        invariant out == PairInner(start, kind, xs[a], ys, b)
      {
        out := MarkCombined(out, kind, xs[a], ys[b]);
      }
    }
  }

  /** `clasificar_estados_operacionales` on a table of n rows: the written
      columns, row by row, and the count of each state. */
  method Classify(df: seq<Column>, n: nat, criteria: seq<Criterion>, render: Cell -> string)
    returns (rows: seq<Row>, counts: map<Estado, nat>)
    requires Rectangular(df, n)
    ensures rows == Classification(df, n, criteria, render)
    ensures counts == StateCounts(rows)
  {
    rows := Initials(n);
    for k := 0 to |criteria|
      invariant rows == IndividualPass(Initials(n), criteria, df, k)
    {
      ghost var start := rows;
      for j := 0 to |df|
        invariant rows == CriterionPass(start, criteria[k], df, j)
      {
        if Matches(criteria[k], df[j]) {
          rows := MarkCritical(rows, df[j], criteria[k]);
          rows := MarkAlert(rows, df[j], criteria[k]);
        }
      }
    }
    RectangularFilter(df, n, IsCurrent);
    RectangularFilter(df, n, IsOilTemp);
    RectangularFilter(df, n, IsHot);
    var colsI := Filter(df, IsCurrent);
    var colsO := Filter(df, IsOilTemp);
    var colsH := Filter(df, IsHot);
    rows := MarkPairs(rows, Overload, colsI, colsO);
    rows := MarkPairs(rows, Gradient(render), colsH, colsO);
    counts := StateCounts(rows);
  }

  // ------------------------------------------------------------ properties

  /** Every pass escalates each row. */
  lemma {:induction false} CriterionPassEscalates(rows: seq<Row>, crit: Criterion, df: seq<Column>, j: nat)
    requires j <= |df| && Rectangular(df, |rows|)
    ensures forall i :: 0 <= i < |rows| ==> Escalates(rows[i], CriterionPass(rows, crit, df, j)[i])
    decreases j
  {
    if j > 0 {
      CriterionPassEscalates(rows, crit, df, j - 1);
    }
  }

  lemma {:induction false} IndividualPassEscalates(rows: seq<Row>, criteria: seq<Criterion>, df: seq<Column>, k: nat)
    requires k <= |criteria| && Rectangular(df, |rows|)
    ensures forall i :: 0 <= i < |rows| ==> Escalates(rows[i], IndividualPass(rows, criteria, df, k)[i])
    decreases k
  {
    if k > 0 {
      var mid := IndividualPass(rows, criteria, df, k - 1);
      IndividualPassEscalates(rows, criteria, df, k - 1);
      CriterionPassEscalates(mid, criteria[k - 1], df, |df|);
    }
  }

  lemma {:induction false} PairInnerEscalates(rows: seq<Row>, kind: Combined, x: Column, ys: seq<Column>, b: nat)
    requires b <= |ys| && |x.cells| == |rows| && Rectangular(ys, |rows|)
    ensures forall i :: 0 <= i < |rows| ==> Escalates(rows[i], PairInner(rows, kind, x, ys, b)[i])
    decreases b
  {
    if b > 0 {
      PairInnerEscalates(rows, kind, x, ys, b - 1);
    }
  }

  lemma {:induction false} PairPassEscalates(rows: seq<Row>, kind: Combined, xs: seq<Column>, ys: seq<Column>, a: nat)
    requires a <= |xs| && Rectangular(xs, |rows|) && Rectangular(ys, |rows|)
    ensures forall i :: 0 <= i < |rows| ==> Escalates(rows[i], PairPass(rows, kind, xs, ys, a)[i])
    decreases a
  {
    if a > 0 {
      var mid := PairPass(rows, kind, xs, ys, a - 1);
      PairPassEscalates(rows, kind, xs, ys, a - 1);
      PairInnerEscalates(mid, kind, xs[a - 1], ys, |ys|);
    }
  }

  /** Every classified row has matching state and severity. */
  lemma ClassificationConsistent(df: seq<Column>, n: nat, criteria: seq<Criterion>, render: Cell -> string)
    requires Rectangular(df, n)
    ensures forall i :: 0 <= i < n ==> Consistent(Classification(df, n, criteria, render)[i])
  {
    RectangularFilter(df, n, IsCurrent);
    RectangularFilter(df, n, IsOilTemp);
    RectangularFilter(df, n, IsHot);
    var afterIndividual := IndividualPass(Initials(n), criteria, df, |criteria|);
    var colsI, colsO, colsH := Filter(df, IsCurrent), Filter(df, IsOilTemp), Filter(df, IsHot);
    var afterOverload := PairPass(afterIndividual, Overload, colsI, colsO, |colsI|);
    IndividualPassEscalates(Initials(n), criteria, df, |criteria|);
    PairPassEscalates(afterIndividual, Overload, colsI, colsO, |colsI|);
    PairPassEscalates(afterOverload, Gradient(render), colsH, colsO, |colsH|);
  }

  /** A consistent row with severity 2 is CRITICO. */
  lemma TopSeverityIsCritico(r: Row)
    requires Consistent(r) && r.severity >= 2
    ensures r.estado == CRITICO && r.severity == 2
  {
  }

  /** Once a matching column puts a row in its critical band, the row is
      CRITICO after the criterion's pass. */
  lemma {:induction false} CriterionPassCritical(rows: seq<Row>, crit: Criterion, df: seq<Column>, j: nat, c: nat, i: nat)
    requires j <= |df| && Rectangular(df, |rows|) && c < j && i < |rows|
    requires Consistent(rows[i])
    requires Matches(crit, df[c]) && InBand(df[c].cells[i], crit.critico)
    ensures CriterionPass(rows, crit, df, j)[i].severity == 2
    ensures CriterionPass(rows, crit, df, j)[i].estado == CRITICO
    decreases j
  {
    var prev := CriterionPass(rows, crit, df, j - 1);
    CriterionPassEscalates(rows, crit, df, j - 1);
    if c < j - 1 {
      CriterionPassCritical(rows, crit, df, j - 1, c, i);
    }
    TopSeverityIsCritico(CriterionPass(rows, crit, df, j)[i]);
  }

  lemma {:induction false} IndividualPassCritical(
    rows: seq<Row>, criteria: seq<Criterion>, df: seq<Column>, k: nat, q: nat, c: nat, i: nat)
    requires k <= |criteria| && Rectangular(df, |rows|) && q < k && c < |df| && i < |rows|
    requires Consistent(rows[i])
    requires Matches(criteria[q], df[c]) && InBand(df[c].cells[i], criteria[q].critico)
    ensures IndividualPass(rows, criteria, df, k)[i].severity == 2
    decreases k
  {
    var prev := IndividualPass(rows, criteria, df, k - 1);
    IndividualPassEscalates(rows, criteria, df, k - 1);
    if q < k - 1 {
      IndividualPassCritical(rows, criteria, df, k - 1, q, c, i);
      CriterionPassEscalates(prev, criteria[k - 1], df, |df|);
    } else {
      CriterionPassCritical(prev, criteria[k - 1], df, |df|, c, i);
    }
  }

  lemma {:induction false} PairInnerCritical(
    rows: seq<Row>, x: Column, ys: seq<Column>, b: nat, q: nat, i: nat)
    requires b <= |ys| && |x.cells| == |rows| && Rectangular(ys, |rows|) && q < b && i < |rows|
    requires Consistent(rows[i])
    requires Gt(x.cells[i], Fin(2000.0)) && Gt(ys[q].cells[i], Fin(70.0))
    ensures PairInner(rows, Overload, x, ys, b)[i].severity == 2
    decreases b
  {
    PairInnerEscalates(rows, Overload, x, ys, b - 1);
    if q < b - 1 {
      PairInnerCritical(rows, x, ys, b - 1, q, i);
    }
    TopSeverityIsCritico(PairInner(rows, Overload, x, ys, b)[i]);
  }

  lemma {:induction false} PairPassCritical(
    rows: seq<Row>, xs: seq<Column>, ys: seq<Column>, a: nat, p: nat, q: nat, i: nat)
    requires a <= |xs| && Rectangular(xs, |rows|) && Rectangular(ys, |rows|)
    requires p < a && q < |ys| && i < |rows| && Consistent(rows[i])
    requires Gt(xs[p].cells[i], Fin(2000.0)) && Gt(ys[q].cells[i], Fin(70.0))
    ensures PairPass(rows, Overload, xs, ys, a)[i].severity == 2
    decreases a
  {
    var prev := PairPass(rows, Overload, xs, ys, a - 1);
    PairPassEscalates(rows, Overload, xs, ys, a - 1);
    if p < a - 1 {
      PairPassCritical(rows, xs, ys, a - 1, p, q, i);
      PairInnerEscalates(prev, Overload, xs[a - 1], ys, |ys|);
    } else {
      PairInnerCritical(prev, xs[a - 1], ys, |ys|, q, i);
    }
  }

  /** Current above 2000 A together with an oil temperature above 70 on the
      same row ends CRITICO, whatever the individual criteria said. */
  lemma OverloadEndsCritico(
    df: seq<Column>, n: nat, criteria: seq<Criterion>, render: Cell -> string, ci: nat, co: nat, i: nat)
    requires Rectangular(df, n) && ci < |df| && co < |df| && i < n
    requires IsCurrent(df[ci]) && IsOilTemp(df[co])
    requires Gt(df[ci].cells[i], Fin(2000.0)) && Gt(df[co].cells[i], Fin(70.0))
    ensures Classification(df, n, criteria, render)[i].estado == CRITICO
  {
    RectangularFilter(df, n, IsCurrent);
    RectangularFilter(df, n, IsOilTemp);
    RectangularFilter(df, n, IsHot);
    var afterIndividual := IndividualPass(Initials(n), criteria, df, |criteria|);
    var colsI, colsO, colsH := Filter(df, IsCurrent), Filter(df, IsOilTemp), Filter(df, IsHot);
    assert df[ci] in colsI && df[co] in colsO;
    var p :| 0 <= p < |colsI| && colsI[p] == df[ci];
    var q :| 0 <= q < |colsO| && colsO[q] == df[co];
    var afterOverload := PairPass(afterIndividual, Overload, colsI, colsO, |colsI|);
    IndividualPassEscalates(Initials(n), criteria, df, |criteria|);
    assert Consistent(afterIndividual[i]);
    PairPassCritical(afterIndividual, colsI, colsO, |colsI|, p, q, i);
    PairPassEscalates(afterIndividual, Overload, colsI, colsO, |colsI|);
    assert Consistent(afterOverload[i]) && afterOverload[i].severity == 2;
    PairPassEscalates(afterOverload, Gradient(render), colsH, colsO, |colsH|);
    TopSeverityIsCritico(Classification(df, n, criteria, render)[i]);
  }

  lemma {:induction false} PairInnerGradient(
    rows: seq<Row>, render: Cell -> string, x: Column, ys: seq<Column>, b: nat, q: nat, i: nat)
    requires b <= |ys| && |x.cells| == |rows| && Rectangular(ys, |rows|) && q < b && i < |rows|
    requires Consistent(rows[i])
    requires Gt(Sub(x.cells[i], ys[q].cells[i]), Fin(25.0))
    ensures PairInner(rows, Gradient(render), x, ys, b)[i].severity >= 1
    decreases b
  {
    PairInnerEscalates(rows, Gradient(render), x, ys, b - 1);
    if q < b - 1 {
      PairInnerGradient(rows, render, x, ys, b - 1, q, i);
    }
  }

  lemma {:induction false} PairPassGradient(
    rows: seq<Row>, render: Cell -> string, xs: seq<Column>, ys: seq<Column>, a: nat, p: nat, q: nat, i: nat)
    requires a <= |xs| && Rectangular(xs, |rows|) && Rectangular(ys, |rows|)
    requires p < a && q < |ys| && i < |rows| && Consistent(rows[i])
    requires Gt(Sub(xs[p].cells[i], ys[q].cells[i]), Fin(25.0))
    ensures PairPass(rows, Gradient(render), xs, ys, a)[i].severity >= 1
    decreases a
  {
    var prev := PairPass(rows, Gradient(render), xs, ys, a - 1);
    PairPassEscalates(rows, Gradient(render), xs, ys, a - 1);
    if p < a - 1 {
      PairPassGradient(rows, render, xs, ys, a - 1, p, q, i);
      PairInnerEscalates(prev, Gradient(render), xs[a - 1], ys, |ys|);
    } else {
      PairInnerGradient(prev, render, xs[a - 1], ys, |ys|, q, i);
    }
  }

  /** A hot-spot reading more than 25 above an oil temperature on the same
      row leaves the row at ALERTA or above, whatever came before. */
  lemma GradientEndsAtLeastAlerta(
    df: seq<Column>, n: nat, criteria: seq<Criterion>, render: Cell -> string, ch: nat, co: nat, i: nat)
    requires Rectangular(df, n) && ch < |df| && co < |df| && i < n
    requires IsHot(df[ch]) && IsOilTemp(df[co])
    requires Gt(Sub(df[ch].cells[i], df[co].cells[i]), Fin(25.0))
    ensures Classification(df, n, criteria, render)[i].severity >= 1
    ensures Classification(df, n, criteria, render)[i].estado != NORMAL
  {
    RectangularFilter(df, n, IsCurrent);
    RectangularFilter(df, n, IsOilTemp);
    RectangularFilter(df, n, IsHot);
    var afterIndividual := IndividualPass(Initials(n), criteria, df, |criteria|);
    var colsI, colsO, colsH := Filter(df, IsCurrent), Filter(df, IsOilTemp), Filter(df, IsHot);
    assert df[ch] in colsH && df[co] in colsO;
    var p :| 0 <= p < |colsH| && colsH[p] == df[ch];
    var q :| 0 <= q < |colsO| && colsO[q] == df[co];
    var afterOverload := PairPass(afterIndividual, Overload, colsI, colsO, |colsI|);
    IndividualPassEscalates(Initials(n), criteria, df, |criteria|);
    PairPassEscalates(afterIndividual, Overload, colsI, colsO, |colsI|);
    assert Consistent(afterOverload[i]);
    PairPassGradient(afterOverload, render, colsH, colsO, |colsH|, p, q, i);
    PairPassEscalates(afterOverload, Gradient(render), colsH, colsO, |colsH|);
  }

  /** The thresholds shipped with the pipeline, in table order. */
  const Criteria: seq<Criterion> := [
    Criterion("temp_oil_value", Band(Fin(35.8), Fin(65.3)), Band(Fin(65.3), Fin(75.0)),
              Band(Fin(75.0), PosInf), "Temperatura del aceite dieléctrico"),
    Criterion("temp_spot_hot_value", Band(Fin(38.7), Fin(76.2)), Band(Fin(76.2), Fin(100.0)),
              Band(Fin(100.0), PosInf), "Temperatura del punto caliente (hot-spot)"),
    Criterion("temp_ambient_value", Band(Fin(-10.0), Fin(40.0)), Band(Fin(40.0), Fin(50.0)),
              Band(Fin(50.0), PosInf), "Temperatura ambiente (criterio estacional)"),
    Criterion("current_load_value", Band(Fin(0.0), Fin(1508.1)), Band(Fin(1508.1), Fin(1809.7)),
              Band(Fin(1809.7), PosInf), "Corriente de carga (A) en lado BT"),
    Criterion("factor_carga", Band(Fin(0.0), Fin(1.0)), Band(Fin(1.0), Fin(1.2)),
              Band(Fin(1.2), PosInf), "Factor de carga (p.u.)"),
    Criterion("tap_position_value", Band(Fin(6.0), Fin(12.0)), Band(Fin(3.0), Fin(15.0)),
              Band(Fin(0.0), Fin(17.0)), "Posición del tap OLTC (0–17)")
  ]

  /** With the shipped table the critical tap band [0, 17) covers the normal
      and alert bands, so every tap reading in [0, 17) on a matching column
      ends CRITICO. */
  lemma TapReadingEndsCritico(df: seq<Column>, n: nat, render: Cell -> string, c: nat, i: nat, v: real)
    requires Rectangular(df, n) && c < |df| && i < n
    requires Matches(Criteria[5], df[c]) && df[c].cells[i] == Fin(v) && 0.0 <= v < 17.0
    ensures Classification(df, n, Criteria, render)[i].estado == CRITICO
  {
    assert Criteria[5].critico == Band(Fin(0.0), Fin(17.0));
    assert InBand(df[c].cells[i], Criteria[5].critico);
    IndividualPassCritical(Initials(n), Criteria, df, |Criteria|, 5, c, i);
    RectangularFilter(df, n, IsCurrent);
    RectangularFilter(df, n, IsOilTemp);
    RectangularFilter(df, n, IsHot);
    var afterIndividual := IndividualPass(Initials(n), Criteria, df, |Criteria|);
    var colsI, colsO, colsH := Filter(df, IsCurrent), Filter(df, IsOilTemp), Filter(df, IsHot);
    var afterOverload := PairPass(afterIndividual, Overload, colsI, colsO, |colsI|);
    IndividualPassEscalates(Initials(n), Criteria, df, |Criteria|);
    PairPassEscalates(afterIndividual, Overload, colsI, colsO, |colsI|);
    PairPassEscalates(afterOverload, Gradient(render), colsH, colsO, |colsH|);
    TopSeverityIsCritico(Classification(df, n, Criteria, render)[i]);
  }

  /** The tap bands nest: [3, 15) and [6, 12) lie inside [0, 17). */
  lemma TapBandsNest(v: Cell)
    ensures InBand(v, Criteria[5].alerta) ==> InBand(v, Criteria[5].critico)
    ensures InBand(v, Criteria[5].normal) ==> InBand(v, Criteria[5].critico)
  {
  }

  /** The overload description is added once: a row already carrying it
      keeps its description. */
  lemma OverloadDescribedOnce(r: Row, current: Cell, oil: Cell)
    ensures Contains(r.description, OverloadText) ==> OverloadStep(r, current, oil).description == r.description
    ensures Gt(current, Fin(2000.0)) && Gt(oil, Fin(70.0)) ==>
      Contains(OverloadStep(r, current, oil).description, OverloadText)
  {
    if Gt(current, Fin(2000.0)) && Gt(oil, Fin(70.0)) && !Contains(r.description, OverloadText) {
      ContainsSuffix(if r.description != "" then r.description + "; " else "", OverloadText);
    }
  }

  /** The gradient rule never lowers a CRITICO row and adds no second
      "GRADIENTE" description. */
  lemma GradientDescribedOnce(r: Row, hot: Cell, oil: Cell, render: Cell -> string)
    ensures r.estado == CRITICO && Consistent(r) ==> GradientStep(r, hot, oil, render) == r
    ensures Contains(r.description, "GRADIENTE") ==> GradientStep(r, hot, oil, render).description == r.description
  {
  }

  /** The appended fields never start with the separator's first character
      when the appended parts do not. */
  lemma AppendKeepsHead(s: string, sep: string, x: string)
    requires |sep| > 0
    requires s == "" || s[0] != sep[0]
    requires x == "" || x[0] != sep[0]
    ensures var r := Append(s, sep, x); r == "" || r[0] != sep[0]
    ensures s != "" ==> Append(s, sep, x) == s + sep + x
  {
  }
}
