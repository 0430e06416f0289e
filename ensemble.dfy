/** Score normalisation, threshold selection, alert smoothing and score
    blending of the anomaly-detection ensemble (backend/modelo/ensemble.py). */
module Ensemble {
  import opened Common

  /** Floor applied to the width of the normalisation range (1e-12). */
  const Eps: real := 0.000000000001

  /** `max(hi - lo, eps)`: the divisor of the min-max transform. */
  function Span(lo: real, hi: real): (d: real)
    ensures d > 0.0 && d >= Eps && d >= hi - lo
    ensures d == hi - lo || d == Eps
  {
    if hi - lo >= Eps then hi - lo else Eps
  }

  /** Min-max transform with bounds fixed at training time; values outside
      [lo, hi] are not clipped. */
  function MinMax(x: real, lo: real, hi: real): real
  {
    (x - lo) / Span(lo, hi)
  }

  lemma MinMaxMonotone(x1: real, x2: real, lo: real, hi: real)
    requires x1 <= x2
    ensures MinMax(x1, lo, hi) <= MinMax(x2, lo, hi)
  {
    var d := Span(lo, hi);
    DivSign(x2 - x1, d);
    assert MinMax(x2, lo, hi) - MinMax(x1, lo, hi) == (x2 - x1) / d;
  }

  /** The lower bound maps to 0; the upper bound maps to 1 exactly when the
      range is wider than the epsilon floor. */
  lemma MinMaxAtBounds(lo: real, hi: real)
    ensures MinMax(lo, lo, hi) == 0.0
    ensures hi - lo >= Eps ==> MinMax(hi, lo, hi) == 1.0
    ensures lo <= hi < lo + Eps ==> MinMax(hi, lo, hi) < 1.0
  {
    DivSign(0.0, Span(lo, hi));
    if hi - lo >= Eps {
      var d := hi - lo;
      assert MinMax(hi, lo, hi) == d / d;
    } else if lo <= hi {
      DivSign(hi - lo, Eps);
    }
  }

  lemma MinMaxInUnitInterval(x: real, lo: real, hi: real)
    requires lo <= x <= hi
    ensures 0.0 <= MinMax(x, lo, hi) <= 1.0
  {
    DivSign(x - lo, Span(lo, hi));
  }

  /** Scores outside the training range leave [0, 1]: no clipping happens. */
  lemma MinMaxNotClipped(x: real, lo: real, hi: real)
    ensures x < lo ==> MinMax(x, lo, hi) < 0.0
    ensures x > hi && hi - lo >= Eps ==> MinMax(x, lo, hi) > 1.0
  {
    DivSign(x - lo, Span(lo, hi));
  }

  // ------------------------------------------------------------ F-beta search

  /** True positives, false positives and false negatives of the prediction
      `score > th` against labels, where 1 is positive and 0 negative; labels
      other than 0 and 1 count in neither class. */
  datatype Confusion = Confusion(tp: nat, fp: nat, fn: nat)

  function Confuse(scores: seq<real>, y: seq<int>, th: real): (c: Confusion)
    requires |scores| == |y|
    ensures c.tp + c.fn == Count(y, 1)
    ensures c.tp + c.fp <= |y|
  {
    if |y| == 0 then Confusion(0, 0, 0)
    else
      var n := |y| - 1;
      var c := Confuse(scores[..n], y[..n], th);
      assert y[..n] + [y[n]] == y;
      CountAppend(y[..n], [y[n]], 1);
      var pos := scores[n] > th;
      Confusion(c.tp + (if y[n] == 1 && pos then 1 else 0),
                c.fp + (if y[n] == 0 && pos then 1 else 0),
                c.fn + (if y[n] == 1 && !pos then 1 else 0))
  }

  function Ratio(num: nat, den: nat): (r: real)
    requires num <= den
    ensures 0.0 <= r <= 1.0
    ensures den == 0 ==> r == 0.0
    ensures den > 0 && num == den ==> r == 1.0
  {
    if den > 0 then num as real / den as real else 0.0
  }

  function Precision(c: Confusion): (p: real)
    ensures 0.0 <= p <= 1.0
    ensures c.tp + c.fp == 0 ==> p == 0.0
    ensures c.tp > 0 && c.fp == 0 ==> p == 1.0
  {
    Ratio(c.tp, c.tp + c.fp)
  }

  function Recall(c: Confusion): (r: real)
    ensures 0.0 <= r <= 1.0
    ensures c.tp + c.fn == 0 ==> r == 0.0
    ensures c.tp > 0 && c.fn == 0 ==> r == 1.0
  {
    Ratio(c.tp, c.tp + c.fn)
  }

  /** The F-beta score from precision p, recall r and b2 = beta squared, 0 when
      both weighted terms vanish. */
  function FBeta(p: real, r: real, b2: real): (f: real)
    requires 0.0 <= p <= 1.0 && 0.0 <= r <= 1.0 && b2 >= 0.0
    ensures 0.0 <= f <= 1.0
    ensures p == 1.0 && r == 1.0 ==> f == 1.0
    ensures f == 0.0 <==> p == 0.0 || r == 0.0
  {
    var den := b2 * p + r;
    FBetaTerms(p, r, b2);
    if den > 0.0 then
      var num := (1.0 + b2) * p * r;
      DivSign(num, den);
      num / den
    else
      0.0
  }

  lemma FBetaTerms(p: real, r: real, b2: real)
    requires 0.0 <= p <= 1.0 && 0.0 <= r <= 1.0 && b2 >= 0.0
    ensures 0.0 <= (1.0 + b2) * p * r <= b2 * p + r
    ensures (1.0 + b2) * p * r == 0.0 <==> p == 0.0 || r == 0.0
    ensures b2 * p + r == 0.0 ==> r == 0.0
  {
    MulNonNeg(b2, p);
    MulNonNeg(b2 * p, 1.0 - r);
    MulNonNeg(r, 1.0 - p);
    MulNonNeg(p, r);
    assert b2 * p + r - (1.0 + b2) * p * r == b2 * p * (1.0 - r) + r * (1.0 - p);
    if p > 0.0 && r > 0.0 {
      assert p * r > 0.0;
      assert (1.0 + b2) * (p * r) > 0.0;
    }
  }

  /** The quality of one candidate threshold. */
  datatype Scored = Scored(prec: real, rec: real, f: real)

  function ScoreAt(scores: seq<real>, y: seq<int>, th: real, b2: real): (s: Scored)
    requires |scores| == |y| && b2 >= 0.0
    ensures 0.0 <= s.f <= 1.0
  {
    var c := Confuse(scores, y, th);
    var p := Precision(c);
    var r := Recall(c);
    Scored(p, r, FBeta(p, r, b2))
  }

  /** Point i of `numpy.linspace(lo, hi, grid)`. */
  function GridPoint(lo: real, hi: real, grid: nat, i: nat): (t: real)
    requires i < grid
    ensures i == 0 ==> t == lo
    ensures lo <= hi ==> lo <= t <= hi
  {
    if grid == 1 then lo
    else
      var step := (hi - lo) / ((grid - 1) as real);
      GridStep(lo, hi, grid, i);
      lo + (i as real) * step
  }

  lemma GridStep(lo: real, hi: real, grid: nat, i: nat)
    requires i < grid && grid > 1
    ensures lo <= hi ==> 0.0 <= (i as real) * ((hi - lo) / ((grid - 1) as real)) <= hi - lo
  {
    if lo <= hi {
      var step := (hi - lo) / ((grid - 1) as real);
      DivSign(hi - lo, (grid - 1) as real);
      MulNonNeg(i as real, step);
      MulNonNeg(((grid - 1 - i) as real), step);
      assert ((grid - 1) as real) * step == hi - lo;
      assert ((grid - 1 - i) as real) * step == ((grid - 1) as real) * step - (i as real) * step;
    }
  }

  /** F-beta of grid point i, the range being that of the scores. */
  function FAt(scores: seq<real>, y: seq<int>, b2: real, grid: nat, i: nat): real
    requires |scores| == |y| > 0 && b2 >= 0.0 && i < grid
  {
    ScoreAt(scores, y, GridPoint(SeqMin(scores), SeqMax(scores), grid, i), b2).f
  }

  /** beta squared, the weight of recall against precision. */
  function Squared(beta: real): (b2: real)
    ensures b2 >= 0.0
  {
    if beta >= 0.0 then MulNonNeg(beta, beta); beta * beta
    else MulNonNeg(-beta, -beta); beta * beta
  }

  /** Result of the search: best F-beta, its threshold (None when no grid point
      scores above 0), and precision, recall and F1 at that threshold. */
  datatype Best = Best(f: real, thr: Option<real>, prec: real, rec: real, f1: real)

  const NoBest := Best(0.0, None, 0.0, 0.0, 0.0)

  /** b is the first grid point of maximal F-beta, or NoBest when every grid
      point has F-beta 0. */
  ghost predicate IsBestOnGrid(scores: seq<real>, y: seq<int>, b2: real, grid: nat, b: Best)
    requires |scores| == |y| > 0 && b2 >= 0.0
  {
    && (forall i :: 0 <= i < grid ==> FAt(scores, y, b2, grid, i) <= b.f)
    && (b.thr.None? <==> forall i :: 0 <= i < grid ==> FAt(scores, y, b2, grid, i) == 0.0)
    && (b.thr.None? ==> b == NoBest)
    && (b.thr.Some? ==>
          exists j :: 0 <= j < grid && IsFirstBest(scores, y, b2, grid, j, b))
  }

  ghost predicate IsFirstBest(scores: seq<real>, y: seq<int>, b2: real, grid: nat, j: nat, b: Best)
    requires |scores| == |y| > 0 && b2 >= 0.0 && j < grid
  {
    var t := GridPoint(SeqMin(scores), SeqMax(scores), grid, j);
    var s := ScoreAt(scores, y, t, b2);
    && b == Best(s.f, Some(t), s.prec, s.rec, FBeta(s.prec, s.rec, 1.0))
    && (forall i :: 0 <= i < j ==> FAt(scores, y, b2, grid, i) < b.f)
  }

  datatype SearchError = EmptyScores

  /** Scans `grid` evenly spaced thresholds between the smallest and largest
      score and keeps the first one with the strictly largest F-beta. */
  method BestThrFbeta(scores: seq<real>, y: seq<int>, beta: real, grid: nat)
    returns (r: Result<Best, SearchError>)
    requires |scores| == |y|
    ensures r.Err? <==> |scores| == 0
    ensures r.Ok? ==> IsBestOnGrid(scores, y, Squared(beta), grid, r.value)
  {
    if |scores| == 0 {
      return Err(EmptyScores);
    }
    var lo, hi := SeqMin(scores), SeqMax(scores);
    var b2 := Squared(beta);
    var best := NoBest;
    ghost var at: int := -1;
    for i := 0 to grid
      invariant forall j :: 0 <= j < i ==> FAt(scores, y, b2, grid, j) <= best.f
      invariant at == -1 <==> best.thr.None?
      invariant at == -1 ==> best == NoBest
      invariant at != -1 ==> 0 <= at < i && best.f > 0.0 && IsFirstBest(scores, y, b2, grid, at, best)
    {
      var th := GridPoint(lo, hi, grid, i);
      var s := ScoreAt(scores, y, th, b2);
      assert FAt(scores, y, b2, grid, i) == s.f;
      if s.f > best.f {
        best := Best(s.f, Some(th), s.prec, s.rec, FBeta(s.prec, s.rec, 1.0));
        at := i;
        assert IsFirstBest(scores, y, b2, grid, at, best);
      }
    }
    if at == -1 {
      forall i | 0 <= i < grid
        ensures FAt(scores, y, b2, grid, i) == 0.0
      {
        assert FAt(scores, y, b2, grid, i) >= 0.0;
      }
    } else {
      assert FAt(scores, y, b2, grid, at) == best.f > 0.0;
    }
    r := Ok(best);
    assert IsBestOnGrid(scores, y, b2, grid, best);
  }

  /** A threshold that puts exactly the positives strictly above it has no
      false positive and no false negative. */
  lemma {:induction false} SeparatingConfusion(scores: seq<real>, y: seq<int>, th: real)
    requires |scores| == |y|
    requires forall i :: 0 <= i < |y| ==> y[i] == 0 || y[i] == 1
    requires forall i :: 0 <= i < |y| ==> (y[i] == 1 <==> scores[i] > th)
    ensures Confuse(scores, y, th) == Confusion(Count(y, 1), 0, 0)
  {
    if |y| > 0 {
      var n := |y| - 1;
      SeparatingConfusion(scores[..n], y[..n], th);
    }
  }

  lemma SeparatedFirstPoint(scores: seq<real>, y: seq<int>, b2: real, grid: nat)
    requires |scores| == |y| > 0 && b2 >= 0.0 && grid >= 1
    requires forall i :: 0 <= i < |y| ==> y[i] == 0 || y[i] == 1
    requires forall i :: 0 <= i < |y| ==> (y[i] == 1 <==> scores[i] > SeqMin(scores))
    requires 1 in y
    ensures ScoreAt(scores, y, SeqMin(scores), b2) == Scored(1.0, 1.0, 1.0)
    ensures FAt(scores, y, b2, grid, 0) == 1.0
  {
    SeparatingConfusion(scores, y, SeqMin(scores));
  }

  /** On perfectly separated 0/1 data, where the negatives all sit at the
      smallest score and the positives strictly above it, the search returns
      the smallest score as threshold, with F-beta, precision, recall and F1
      all equal to 1. */
  lemma PerfectSeparation(scores: seq<real>, y: seq<int>, b2: real, grid: nat, b: Best)
    requires |scores| == |y| > 0 && b2 >= 0.0 && grid >= 1
    requires forall i :: 0 <= i < |y| ==> y[i] == 0 || y[i] == 1
    requires forall i :: 0 <= i < |y| ==> (y[i] == 1 <==> scores[i] > SeqMin(scores))
    requires 1 in y
    requires IsBestOnGrid(scores, y, b2, grid, b)
    ensures b == Best(1.0, Some(SeqMin(scores)), 1.0, 1.0, 1.0)
  {
    SeparatedFirstPoint(scores, y, b2, grid);
    PerfectAtFirstPoint(scores, y, b2, grid, b);
    assert FBeta(1.0, 1.0, 1.0) == 1.0;
  }

  /** When the first grid point already reaches F-beta 1, the search returns
      that point. */
  lemma PerfectAtFirstPoint(scores: seq<real>, y: seq<int>, b2: real, grid: nat, b: Best)
    requires |scores| == |y| > 0 && b2 >= 0.0 && grid >= 1
    requires FAt(scores, y, b2, grid, 0) == 1.0
    requires IsBestOnGrid(scores, y, b2, grid, b)
    ensures IsFirstBest(scores, y, b2, grid, 0, b)
  {
    var j :| 0 <= j < grid && IsFirstBest(scores, y, b2, grid, j, b);
    assert FAt(scores, y, b2, grid, j) <= 1.0;
  }

  // ---------------------------------------------- threshold for a precision

  /** First index in [i, n) whose precision reaches minP, or n if none does. */
  function FirstReaching(prec: seq<real>, minP: real, i: nat, n: nat): (k: nat)
    requires i <= n <= |prec|
    ensures i <= k <= n
    ensures k < n ==> prec[k] >= minP
    ensures forall j :: i <= j < k ==> prec[j] < minP
    decreases n - i
  {
    if i == n then n
    else if prec[i] >= minP then i
    else FirstReaching(prec, minP, i + 1, n)
  }

  /** Given a precision-recall curve (precisions one longer than thresholds,
      the last precision having no threshold), the first threshold whose
      precision reaches minP, else the last threshold. */
  function ThresholdForMinPrecision(prec: seq<real>, ths: seq<real>, minP: real): (t: real)
    requires |prec| == |ths| + 1 && |ths| > 0
    ensures forall k :: (0 <= k < |ths| && prec[k] >= minP &&
                         (forall j :: 0 <= j < k ==> prec[j] < minP)) ==> t == ths[k]
    ensures (forall j :: 0 <= j < |ths| ==> prec[j] < minP) ==> t == ths[|ths| - 1]
  {
    var k := FirstReaching(prec, minP, 0, |ths|);
    if k < |ths| then ths[k] else ths[|ths| - 1]
  }

  /** When some threshold meets the floor, the chosen one does. */
  lemma MinPrecisionMet(prec: seq<real>, ths: seq<real>, minP: real)
    requires |prec| == |ths| + 1 && |ths| > 0
    requires exists j :: 0 <= j < |ths| && prec[j] >= minP
    ensures exists k :: 0 <= k < |ths| && prec[k] >= minP
                        && ThresholdForMinPrecision(prec, ths, minP) == ths[k]
  {
    var k := FirstReaching(prec, minP, 0, |ths|);
    assert k < |ths|;
  }

  /** The fallback is the highest threshold of an ascending curve. */
  lemma MinPrecisionFallbackIsHighest(prec: seq<real>, ths: seq<real>, minP: real)
    requires |prec| == |ths| + 1 && |ths| > 0
    requires forall i, j :: 0 <= i < j < |ths| ==> ths[i] <= ths[j]
    requires forall j :: 0 <= j < |ths| ==> prec[j] < minP
    ensures forall j :: 0 <= j < |ths| ==> ths[j] <= ThresholdForMinPrecision(prec, ths, minP)
  {
  }

  // ---------------------------------------------------------- alert smoothing

  /** First index of the window of length m that ends at i. */
  function WindowStart(i: nat, m: nat): nat
  {
    Max(0, i - m + 1)
  }

  /** k-of-m smoothing: output i is 1 when the inputs of the last m positions
      up to i (fewer at the start) sum to at least k. */
  function Smoothed(s: seq<int>, k: int, m: nat): (out: seq<int>)
    ensures |out| == |s|
  {
    seq(|s|, i requires 0 <= i < |s| => Fires(s, k, m, i))
  }

  /** Output i of the smoothing. */
  function Fires(s: seq<int>, k: int, m: nat, i: nat): int
    requires i < |s|
  {
    if SumInt(s[WindowStart(i, m)..i + 1]) >= k then 1 else 0
  }

  lemma ModStep(i: nat, m: nat)
    requires 1 <= m <= i
    ensures (i - m) % m == i % m
  {
    assert i == (i / m) * m + i % m;
    ModUnique(i - m, m, i / m - 1, i % m);
  }

  lemma ModDistinct(t: nat, i: nat, m: nat)
    requires t < i < t + m
    ensures t % m != i % m
  {
    var q, r := t / m, t % m;
    var q', r' := i / m, i % m;
    assert t == q * m + r && i == q' * m + r';
    MulSign(q' - q, m);
    assert (q' - q) * m == q' * m - q * m;
  }

  lemma SumIntSnoc(s: seq<int>, a: nat, b: nat)
    requires a <= b < |s|
    ensures SumInt(s[a..b + 1]) == SumInt(s[a..b]) + s[b]
  {
    assert s[a..b + 1][..b - a] == s[a..b];
  }

  /** Sliding the window one position drops its oldest input once the window
      is full and adds the new one. */
  lemma WindowSumStep(s: seq<int>, i: nat, m: nat)
    requires 1 <= m && i < |s|
    ensures SumInt(s[WindowStart(i, m)..i + 1])
            == SumInt(s[Max(0, i - m)..i]) - (if i >= m then s[i - m] else 0) + s[i]
  {
    if i >= m {
      SumIntDropFirst(s[i - m..i]);
      assert s[i - m..i][1..] == s[i - m + 1..i];
    }
    SumIntSnoc(s, WindowStart(i, m), i);
  }

  /** The ring buffer holds input t at slot t mod m for every t in [lo, hi). */
  predicate RingHolds(win: seq<int>, s: seq<int>, lo: nat, hi: nat, m: nat)
    requires m >= 1 && |win| == m && hi <= |s|
  {
    forall t :: lo <= t < hi ==> win[t % m] == s[t]
  }

  /** Storing input i at slot i mod m overwrites only input i - m. */
  lemma RingPush(win: seq<int>, s: seq<int>, i: nat, m: nat)
    requires m >= 1 && |win| == m && i < |s|
    requires RingHolds(win, s, Max(0, i - m), i, m)
    ensures RingHolds(win[i % m := s[i]], s, Max(0, i + 1 - m), i + 1, m)
    ensures i >= m ==> win[i % m] == s[i - m]
  {
    if i >= m {
      ModStep(i, m);
    }
    forall t | Max(0, i + 1 - m) <= t < i
      ensures t % m != i % m
    {
      ModDistinct(t, i, m);
    }
  }

  /** Ring-buffer implementation: `count` keeps the sum of the last m inputs,
      each stored in `win` at its position modulo m. */
  method SmoothAlerts(s: seq<int>, k: int, m: nat) returns (out: seq<int>)
    requires m >= 1
    ensures out == Smoothed(s, k, m)
  {
    var res := new int[|s|](_ => 0);
    var win := new int[m](_ => 0);
    var count := 0;
    for i := 0 to |s|
      invariant count == SumInt(s[Max(0, i - m)..i])
      invariant RingHolds(win[..], s, Max(0, i - m), i, m)
      invariant forall j :: 0 <= j < i ==> res[j] == Fires(s, k, m, j)
    {
      WindowSumStep(s, i, m);
      ghost var before := win[..];
      RingPush(before, s, i, m);
      if i >= m {
        count := count - win[i % m];
      }
      win[i % m] := s[i];
      assert win[..] == before[i % m := s[i]];
      count := count + s[i];
      assert count == SumInt(s[WindowStart(i, m)..i + 1]);
      res[i] := if count >= k then 1 else 0;
    }
    out := res[..];
    assert forall j :: 0 <= j < |s| ==> out[j] == Smoothed(s, k, m)[j];
  }

  lemma SmoothedExample()
    ensures Smoothed([0, 0, 1, 1, 0, 1, 0], 2, 3) == [0, 0, 0, 1, 1, 1, 0]
  {
    var s := [0, 0, 1, 1, 0, 1, 0];
    SumIntOfThree(0, 0, 1);
    SumIntOfThree(0, 1, 1);
    SumIntOfThree(1, 1, 0);
    SumIntOfThree(1, 0, 1);
    SumIntOfThree(0, 1, 0);
    assert s[0..1] == [0] && s[0..2] == [0, 0] && s[0..3] == [0, 0, 1];
    assert s[1..4] == [0, 1, 1] && s[2..5] == [1, 1, 0];
    assert s[3..6] == [1, 0, 1] && s[4..7] == [0, 1, 0];
  }

  lemma SumIntOfThree(a: int, b: int, c: int)
    ensures SumInt([a]) == a && SumInt([a, b]) == a + b && SumInt([a, b, c]) == a + b + c
  {
    assert [a, b, c][..2] == [a, b];
    assert [a, b][..1] == [a];
    assert [a][..0] == [];
  }

  predicate IsBinary(s: seq<int>)
  {
    forall i :: 0 <= i < |s| ==> s[i] == 0 || s[i] == 1
  }

  lemma {:induction false} SumBinaryBounds(s: seq<int>)
    requires IsBinary(s)
    ensures 0 <= SumInt(s) <= |s|
  {
    if |s| > 0 {
      SumBinaryBounds(s[..|s| - 1]);
    }
  }

  /** On 0/1 input the smoothing is silent when k exceeds the window. */
  lemma NeverFiresWhenKExceedsM(s: seq<int>, k: int, m: nat)
    requires IsBinary(s) && k > m
    ensures forall i :: 0 <= i < |s| ==> Smoothed(s, k, m)[i] == 0
  {
    forall i | 0 <= i < |s|
      ensures Smoothed(s, k, m)[i] == 0
    {
      var w := s[WindowStart(i, m)..i + 1];
      assert IsBinary(w) by {
        forall j | 0 <= j < |w| ensures w[j] == 0 || w[j] == 1 {
          assert w[j] == s[WindowStart(i, m) + j];
        }
      }
      SumBinaryBounds(w);
    }
  }

  /** With k = 1 every raw alert on 0/1 input survives smoothing. */
  lemma FiresOnEveryAlertWhenKIsOne(s: seq<int>, m: nat)
    requires IsBinary(s) && m >= 1
    ensures forall i :: 0 <= i < |s| && s[i] == 1 ==> Smoothed(s, 1, m)[i] == 1
  {
    forall i | 0 <= i < |s| && s[i] == 1
      ensures Smoothed(s, 1, m)[i] == 1
    {
      var a := WindowStart(i, m);
      var w := s[a..i];
      assert IsBinary(w) by {
        forall j | 0 <= j < |w| ensures w[j] == 0 || w[j] == 1 {
          assert w[j] == s[a + j];
        }
      }
      SumBinaryBounds(w);
      SumIntSnoc(s, a, i);
    }
  }

  // ------------------------------------------------------------ score blending

  /** alpha * ae + (1 - alpha) * if, elementwise. */
  function EnsembleScores(ae: seq<real>, iso: seq<real>, alpha: real): (r: seq<real>)
    requires |ae| == |iso|
    ensures |r| == |ae|
  {
    seq(|ae|, i requires 0 <= i < |ae| => alpha * ae[i] + (1.0 - alpha) * iso[i])
  }

  lemma EnsembleEndpoints(ae: seq<real>, iso: seq<real>)
    requires |ae| == |iso|
    ensures EnsembleScores(ae, iso, 1.0) == ae
    ensures EnsembleScores(ae, iso, 0.0) == iso
  {
  }

  /** With alpha in [0, 1] each blended score lies between its two inputs. */
  lemma EnsembleBetween(ae: seq<real>, iso: seq<real>, alpha: real)
    requires |ae| == |iso| && 0.0 <= alpha <= 1.0
    ensures forall i :: 0 <= i < |ae| ==>
      var r := EnsembleScores(ae, iso, alpha)[i];
      (ae[i] <= r <= iso[i]) || (iso[i] <= r <= ae[i])
  {
    forall i | 0 <= i < |ae|
      ensures var r := EnsembleScores(ae, iso, alpha)[i];
              (ae[i] <= r <= iso[i]) || (iso[i] <= r <= ae[i])
    {
      var r := EnsembleScores(ae, iso, alpha)[i];
      assert r - ae[i] == (1.0 - alpha) * (iso[i] - ae[i]);
      assert r - iso[i] == alpha * (ae[i] - iso[i]);
      if ae[i] <= iso[i] {
        MulNonNeg(1.0 - alpha, iso[i] - ae[i]);
        MulNonNeg(alpha, iso[i] - ae[i]);
      } else {
        MulNonNeg(1.0 - alpha, ae[i] - iso[i]);
        MulNonNeg(alpha, ae[i] - iso[i]);
      }
    }
  }
}
