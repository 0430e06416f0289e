/** The gold-layer prediction labels: the 30-day failure flag, the
    remaining useful life, the future state, the progressive severity and
    the days to the next critical event (etl/capa_gold/labels_gold.py).
    Timestamps are whole seconds; the horizon H is in days. */
module LabelsGold {
  import opened Common
  import opened ClassifySilver

  const SecondsPerDay: int := 86400

  // ------------------------------------------------------------ critical events

  /** The anomaly table: timestamps (ascending) and the optional
      `estado_operacional` and `nivel_severidad` columns. */
  datatype Anomalies = Anomalies(times: seq<int>, estado: Option<seq<string>>, severity: Option<seq<Cell>>)

  predicate Shaped(an: Anomalies)
  {
    (an.estado.Some? ==> |an.estado.value| == |an.times|) &&
    (an.severity.Some? ==> |an.severity.value| == |an.times|)
  }

  /** The timestamps whose flag is set, in table order. */
  function SelectWhere(times: seq<int>, keep: seq<bool>): (r: seq<int>)
    requires |keep| == |times|
    ensures |r| <= |times|
    ensures forall t :: t in r <==> exists i :: 0 <= i < |times| && keep[i] && times[i] == t
  {
    if |times| == 0 then []
    else
      var rest := SelectWhere(times[..|times| - 1], keep[..|keep| - 1]);
      var last := |times| - 1;
      assert forall i :: 0 <= i < last ==> times[..last][i] == times[i] && keep[..last][i] == keep[i];
      if keep[last] then rest + [times[last]] else rest
  }

  function IsCritico(s: string): bool { s == "CRITICO" }

  /** The critical events: rows whose state is "CRITICO" when that column
      exists, otherwise rows with severity >= 2 when that column exists,
      otherwise none; no anomaly table (or an empty one) gives none. */
  function Events(an: Option<Anomalies>): (es: seq<int>)
    requires an.Some? ==> Shaped(an.value)
    ensures an.None? || |an.value.times| == 0 ==> es == []
    ensures an.Some? && an.value.estado.Some? ==>
      forall t :: t in es <==>
        exists i :: 0 <= i < |an.value.times| && an.value.estado.value[i] == "CRITICO" && an.value.times[i] == t
    ensures an.Some? && an.value.estado.None? && an.value.severity.Some? ==>
      forall t :: t in es <==>
        exists i :: 0 <= i < |an.value.times| && Ge(an.value.severity.value[i], Fin(2.0)) && an.value.times[i] == t
    ensures an.Some? && an.value.estado.None? && an.value.severity.None? ==> es == []
  {
    if an.None? || |an.value.times| == 0 then []
    else
      var a := an.value;
      if a.estado.Some? then
        SelectWhere(a.times, seq(|a.times|, i requires 0 <= i < |a.times| => IsCritico(a.estado.value[i])))
      else if a.severity.Some? then
        SelectWhere(a.times, seq(|a.times|, i requires 0 <= i < |a.times| => Ge(a.severity.value[i], Fin(2.0))))
      else []
  }

  // ---------------------------------------------------------- failure and RUL

  /** Event ev marks row t positive: ev - 24*H hours <= t < ev. */
  predicate Covers(ev: int, t: int, H: nat)
  {
    ev - H * SecondsPerDay <= t < ev
  }

  /** The last event in processing order that covers t: its window is the
      one whose RUL survives in the row. */
  function LastCovering(events: seq<int>, t: int, H: nat): Option<int>
  {
    if |events| == 0 then None
    else if Covers(events[|events| - 1], t, H) then Some(events[|events| - 1])
    else LastCovering(events[..|events| - 1], t, H)
  }

  lemma {:induction false} LastCoveringSpec(events: seq<int>, t: int, H: nat)
    ensures LastCovering(events, t, H).None? <==> forall k :: 0 <= k < |events| ==> !Covers(events[k], t, H)
    ensures LastCovering(events, t, H).Some? ==>
      exists k :: 0 <= k < |events| && events[k] == LastCovering(events, t, H).value &&
        Covers(events[k], t, H) && (forall k' :: k < k' < |events| ==> !Covers(events[k'], t, H))
  {
    if |events| > 0 {
      var last := |events| - 1;
      var pre := events[..last];
      assert forall k :: 0 <= k < last ==> pre[k] == events[k];
      if Covers(events[last], t, H) {
        assert events[last] == LastCovering(events, t, H).value;
      } else {
        assert LastCovering(events, t, H) == LastCovering(pre, t, H);
        LastCoveringSpec(pre, t, H);
        if LastCovering(pre, t, H).Some? {
          var k :| 0 <= k < last && pre[k] == LastCovering(pre, t, H).value &&
            Covers(pre[k], t, H) && (forall k' :: k < k' < last ==> !Covers(pre[k'], t, H));
          assert events[k] == pre[k];
        }
      }
    }
  }

  lemma LastCoveringSnoc(events: seq<int>, k: nat, t: int, H: nat)
    requires k < |events|
    ensures LastCovering(events[..k + 1], t, H) ==
      if Covers(events[k], t, H) then Some(events[k]) else LastCovering(events[..k], t, H)
  {
    assert events[..k + 1][..k] == events[..k];
  }

  function RealMax(x: real, y: real): real { if x >= y then x else y }

  function RealMin(x: real, y: real): real { if x <= y then x else y }

  /** `max(0, (ev - t) / 24 h)` in days. */
  function RulDays(ev: int, t: int): real
  {
    RealMax(0.0, (ev - t) as real / SecondsPerDay as real)
  }

  /** A covered row's RUL lies in (0, H]. */
  lemma RulDaysBounds(ev: int, t: int, H: nat)
    requires Covers(ev, t, H)
    ensures 0.0 < RulDays(ev, t) <= H as real
  {
    var d := SecondsPerDay as real;
    DivSign((ev - t) as real, d);
    assert ((ev - t) as real) <= H as real * d;
    assert (ev - t) as real / d <= H as real;
  }

  /** The (`falla_30d`, `rul_dias`) pair a row gets from its last covering
      event, or the defaults (0, H). */
  function Outcome(c: Option<int>, t: int, H: nat): (int, real)
  {
    match c
    case None => (0, H as real)
    case Some(ev) => (1, RulDays(ev, t))
  }

  /** `falla_30d` of a row at time t after all events are processed. */
  function Falla(events: seq<int>, t: int, H: nat): (f: int)
    ensures f == 1 <==> exists k :: 0 <= k < |events| && Covers(events[k], t, H)
    ensures f == 0 <==> forall k :: 0 <= k < |events| ==> !Covers(events[k], t, H)
  {
    LastCoveringSpec(events, t, H);
    Outcome(LastCovering(events, t, H), t, H).0
  }

  /** `rul_dias` of a row at time t: H when no event covers it, otherwise the
      days to the last processed covering event, which is positive. */
  function Rul(events: seq<int>, t: int, H: nat): (r: real)
    ensures 0.0 <= r <= H as real
    ensures Falla(events, t, H) == 0 ==> r == H as real
    ensures Falla(events, t, H) == 1 ==> r > 0.0
  {
    LastCoveringSpec(events, t, H);
    var c := LastCovering(events, t, H);
    if c.Some? then RulDaysBounds(c.value, t, H); Outcome(c, t, H).1
    else Outcome(c, t, H).1
  }

  /** With events in ascending order, the RUL that survives is the one to the
      latest covering event, not the nearest. */
  lemma LatestCoveringEventWins(events: seq<int>, t: int, H: nat)
    requires forall i, j :: 0 <= i < j < |events| ==> events[i] <= events[j]
    ensures LastCovering(events, t, H).Some? ==>
      forall e :: e in events && Covers(e, t, H) ==> e <= LastCovering(events, t, H).value
  {
    LastCoveringSpec(events, t, H);
    var r := LastCovering(events, t, H);
    if r.Some? {
      var k :| 0 <= k < |events| && events[k] == r.value &&
        Covers(events[k], t, H) && (forall k' :: k < k' < |events| ==> !Covers(events[k'], t, H));
      forall e | e in events && Covers(e, t, H)
        ensures e <= r.value
      {
        var i :| 0 <= i < |events| && events[i] == e;
        if i > k {
          assert !Covers(events[i], t, H);
        }
      }
    }
  }

  /** Two overlapping events: with H = 30 a row one day before the first
      and thirty days before the second gets RUL 30, not 1. */
  lemma RulToFarthestEvent()
    ensures Rul([SecondsPerDay, 30 * SecondsPerDay], 0, 30) == 30.0
  {
    var events := [SecondsPerDay, 30 * SecondsPerDay];
    assert Covers(events[1], 0, 30);
    assert LastCovering(events, 0, 30) == Some(30 * SecondsPerDay);
    assert RulDays(30 * SecondsPerDay, 0) == 30.0;
  }

  /** The binary and RUL update of one event: every row in its window gets
      `falla_30d` = 1 and the event's RUL; other rows keep their values. */
  method MarkEvent(index: seq<int>, ev: int, H: nat, falla0: seq<int>, rul0: seq<real>)
    returns (falla: seq<int>, rul: seq<real>)
    requires |falla0| == |index| && |rul0| == |index|
    ensures |falla| == |index| && |rul| == |index|
    ensures forall i :: 0 <= i < |index| ==>
      (falla[i], rul[i]) == if Covers(ev, index[i], H) then (1, RulDays(ev, index[i])) else (falla0[i], rul0[i])
  {
    falla, rul := falla0, rul0;
    for i := 0 to |index|
      invariant |falla| == |index| && |rul| == |index|
      invariant forall j :: 0 <= j < i ==>
        (falla[j], rul[j]) == if Covers(ev, index[j], H) then (1, RulDays(ev, index[j])) else (falla0[j], rul0[j])
      invariant forall j :: i <= j < |index| ==> falla[j] == falla0[j] && rul[j] == rul0[j]
    {
      if Covers(ev, index[i], H) {
        falla := falla[i := 1];
        rul := rul[i := RulDays(ev, index[i])];
      }
    }
  }

  /** The binary and RUL pass over all events in order. */
  method MarkEvents(index: seq<int>, events: seq<int>, H: nat) returns (falla: seq<int>, rul: seq<real>)
    ensures |falla| == |index| && |rul| == |index|
    ensures forall i :: 0 <= i < |index| ==>
      falla[i] == Falla(events, index[i], H) && rul[i] == Rul(events, index[i], H)
  {
    var n := |index|;
    falla := seq(n, _ => 0);
    rul := seq(n, _ => H as real);
    for k := 0 to |events|
      invariant |falla| == n && |rul| == n
      invariant forall i :: 0 <= i < n ==> (falla[i], rul[i]) == Outcome(LastCovering(events[..k], index[i], H), index[i], H)
    {
      forall i | 0 <= i < n
        ensures LastCovering(events[..k + 1], index[i], H) ==
          if Covers(events[k], index[i], H) then Some(events[k]) else LastCovering(events[..k], index[i], H)
      {
        LastCoveringSnoc(events, k, index[i], H);
      }
      falla, rul := MarkEvent(index, events[k], H, falla, rul);
    }
    assert events[..|events|] == events;
  }

  /** The window is half-open: a row at the instant of its only event is
      not positive for it. */
  lemma EventInstantNotPositive(ev: int, H: nat)
    ensures Falla([ev], ev, H) == 0 && Rul([ev], ev, H) == H as real
  {
    assert !Covers([ev][0], ev, H);
  }

  /** A row exactly H days before an event is positive, yet its RUL is H and
      its severity 0, the same as a negative row's. */
  lemma WindowStartIsPositive(ev: int, H: nat)
    requires H > 0
    ensures Falla([ev], ev - H * SecondsPerDay, H) == 1
    ensures Rul([ev], ev - H * SecondsPerDay, H) == H as real
  {
    var t := ev - H * SecondsPerDay;
    assert Covers(ev, t, H);
    assert LastCovering([ev], t, H) == Some(ev);
    assert (ev - t) as real == H as real * SecondsPerDay as real;
  }

  // ------------------------------------------------- future state and severity

  /** `estado_futuro` from the RUL: CRITICO up to 7 days, ALERTA up to 15,
      NORMAL beyond. */
  function FutureState(rul: real): Estado
  {
    if rul <= 7.0 then CRITICO else if rul <= 15.0 then ALERTA else NORMAL
  }

  function Rank(e: Estado): nat
  {
    match e
    case NORMAL => 0
    case ALERTA => 1
    case CRITICO => 2
  }

  /** A shorter RUL never gives a milder future state. */
  lemma FutureStateMonotone(r1: real, r2: real)
    requires r1 <= r2
    ensures Rank(FutureState(r1)) >= Rank(FutureState(r2))
  {
  }

  /** Rows no event covers have RUL H, so they are NORMAL only when the
      horizon exceeds 15 days; with a horizon of at most 7 days every such
      row is CRITICO. */
  lemma UncoveredRowState(events: seq<int>, t: int, H: nat)
    requires Falla(events, t, H) == 0
    ensures FutureState(Rul(events, t, H)) == NORMAL <==> H > 15
    ensures H <= 7 ==> FutureState(Rul(events, t, H)) == CRITICO
  {
  }

  /** `severidad_futura` = clip(100 (1 - rul / H), 0, 100). */
  function Severity(rul: real, H: nat): (s: real)
    requires H > 0
    ensures 0.0 <= s <= 100.0
  {
    var raw := 100.0 * (1.0 - rul / H as real);
    if raw < 0.0 then 0.0 else if raw > 100.0 then 100.0 else raw
  }

  /** On a RUL in [0, H] the clip never acts: severity is 0 exactly at
      RUL = H, below 100 for positive RUL, and falls as the RUL grows. */
  lemma SeverityOnValidRul(rul: real, rul2: real, H: nat)
    requires H > 0 && 0.0 <= rul <= H as real && rul <= rul2 <= H as real
    ensures Severity(rul, H) == 100.0 * (1.0 - rul / H as real)
    ensures Severity(rul, H) == 0.0 <==> rul == H as real
    ensures rul > 0.0 ==> Severity(rul, H) < 100.0
    ensures Severity(rul2, H) <= Severity(rul, H)
  {
    var h := H as real;
    DivSign(rul, h);
    DivSign(rul2, h);
    DivSub(rul2, rul, h);
    DivSign(rul2 - rul, h);
    if rul / h == 1.0 {
      assert rul == h * (rul / h);
    }
  }

  // ------------------------------------------------------ days to next event

  /** The earliest event strictly after t (`sorted(eventos)` then the first
      future one). */
  function FirstAfter(events: seq<int>, t: int): (r: Option<int>)
    ensures r.None? <==> forall k :: 0 <= k < |events| ==> events[k] <= t
    ensures r.Some? ==> r.value in events && r.value > t
    ensures r.Some? ==> forall k :: 0 <= k < |events| && events[k] > t ==> r.value <= events[k]
  {
    if |events| == 0 then None
    else
      var rest := FirstAfter(events[1..], t);
      assert forall k :: 1 <= k < |events| ==> events[k] == events[1..][k - 1];
      if events[0] <= t then rest
      else if rest.Some? && rest.value < events[0] then rest
      else Some(events[0])
  }

  /** `dias_proximo_evento` of a row at time t: min(days to the next event, H),
      or H when no event lies after t. */
  function DaysToNext(events: seq<int>, t: int, H: nat): (d: real)
    requires H > 0
    ensures 0.0 < d <= H as real
    ensures FirstAfter(events, t).None? ==> d == H as real
  {
    match FirstAfter(events, t)
    case None => H as real
    case Some(e) =>
      DivSign((t - e) as real, SecondsPerDay as real);
      RealMin((e - t) as real / SecondsPerDay as real, H as real)
  }

  /** The per-row pass that fills `dias_proximo_evento`. */
  method NextEventDays(index: seq<int>, events: seq<int>, H: nat) returns (days: seq<real>)
    requires H > 0
    ensures |days| == |index|
    ensures forall i :: 0 <= i < |index| ==> days[i] == DaysToNext(events, index[i], H)
  {
    days := seq(|index|, _ => H as real);
    if |events| > 0 {
      for i := 0 to |index|
        invariant |days| == |index|
        invariant forall j :: 0 <= j < i ==> days[j] == DaysToNext(events, index[j], H)
        invariant forall j :: i <= j < |index| ==> days[j] == H as real
      {
        var fut := FirstAfter(events, index[i]);
        if fut.Some? {
          var d := (fut.value - index[i]) as real / SecondsPerDay as real;
          days := days[i := RealMin(d, H as real)];
        }
      }
    } else {
      assert forall j :: 0 <= j < |index| ==> FirstAfter(events, index[j]).None?;
    }
  }

  /** A positive row's next event comes no later than the event its RUL
      counts down to, so its days-to-next-event never exceed its RUL. */
  lemma NextEventNoLaterThanRul(events: seq<int>, t: int, H: nat)
    requires H > 0 && Falla(events, t, H) == 1
    ensures DaysToNext(events, t, H) <= Rul(events, t, H)
  {
    LastCoveringSpec(events, t, H);
    var ev := LastCovering(events, t, H).value;
    var k :| 0 <= k < |events| && events[k] == ev && Covers(ev, t, H);
    var e := FirstAfter(events, t).value;
    assert e <= ev;
    var d := SecondsPerDay as real;
    DivSub((ev - t) as real, (e - t) as real, d);
    DivSign((ev - e) as real, d);
    DivSign((ev - t) as real, d);
  }

  // -------------------------------------------------------------- all labels

  datatype LabelRow = LabelRow(falla: int, estado: Estado, rul: real, severity: real, daysToNext: real)

  /** The labels of the row at time t. */
  function LabelOf(events: seq<int>, t: int, H: nat): (l: LabelRow)
    requires H > 0
    ensures l.falla == 1 <==> exists k :: 0 <= k < |events| && Covers(events[k], t, H)
    ensures 0.0 <= l.rul <= H as real && 0.0 < l.daysToNext <= H as real
    ensures 0.0 <= l.severity <= 100.0
    ensures l.falla == 0 ==> l.rul == H as real && l.severity == 0.0
    ensures l.falla == 1 ==> l.daysToNext <= l.rul && l.severity < 100.0
  {
    var r := Rul(events, t, H);
    SeverityOnValidRul(r, r, H);
    assert Falla(events, t, H) == 1 ==> DaysToNext(events, t, H) <= r by {
      if Falla(events, t, H) == 1 {
        NextEventNoLaterThanRul(events, t, H);
      }
    }
    LabelRow(Falla(events, t, H), FutureState(r), r, Severity(r, H), DaysToNext(events, t, H))
  }

  /** `crear_etiquetas_prediccion_transformador` on the row timestamps. */
  method CreateLabels(index: seq<int>, an: Option<Anomalies>, H: nat) returns (labels: seq<LabelRow>)
    requires H > 0
    requires an.Some? ==> Shaped(an.value)
    ensures |labels| == |index|
    ensures forall i :: 0 <= i < |index| ==> labels[i] == LabelOf(Events(an), index[i], H)
  {
    var events := Events(an);
    var falla, rul := MarkEvents(index, events, H);
    var days := NextEventDays(index, events, H);
    labels := [];
    for i := 0 to |index|
      invariant |labels| == i
      invariant forall j :: 0 <= j < i ==> labels[j] == LabelOf(events, index[j], H)
    {
      labels := labels + [LabelRow(falla[i], FutureState(rul[i]), rul[i], Severity(rul[i], H), days[i])];
    }
  }
}
