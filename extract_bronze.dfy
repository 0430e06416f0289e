/** Chunking a date range into consecutive request windows for the PI Web
    API (etl/capa_bronze/extract_bronze.py). Instants are whole seconds. */
module ExtractBronze {
  import opened Common

  const SecondsPerDay: int := 86400

  /** The windows `generar_rangos_fechas` produces, as (start, end) pairs of
      instants: each window spans `deltaDays` days, is cut at `end`, and the
      next one starts one second after it. */
  function Ranges(start: int, end: int, deltaDays: nat): seq<(int, int)>
    decreases end - start
  {
    if start >= end then []
    else
      var stop := Min(start + deltaDays * SecondsPerDay, end);
      [(start, stop)] + Ranges(stop + 1, end, deltaDays)
  }

  /** `generar_rangos_fechas`: the while loop that advances the cursor. */
  method DateRanges(start: int, end: int, deltaDays: nat) returns (ranges: seq<(int, int)>)
    ensures ranges == Ranges(start, end, deltaDays)
  {
    ranges := [];
    var current := start;
    while current < end
      invariant ranges + Ranges(current, end, deltaDays) == Ranges(start, end, deltaDays)
      decreases end - current
    {
      var stop := Min(current + deltaDays * SecondsPerDay, end);
      assert Ranges(current, end, deltaDays) == [(current, stop)] + Ranges(stop + 1, end, deltaDays);
      ranges := ranges + [(current, stop)];
      current := stop + 1;
    }
  }

  /** No windows iff the start is not before the end; otherwise the first
      window opens at the start and the last one closes at the end or one
      second before it. */
  lemma {:induction false} RangesEnds(start: int, end: int, deltaDays: nat)
    ensures var r := Ranges(start, end, deltaDays);
      && (|r| == 0 <==> start >= end)
      && (|r| > 0 ==> r[0].0 == start && end - 1 <= r[|r| - 1].1 <= end)
    decreases end - start
  {
    if start < end {
      var stop := Min(start + deltaDays * SecondsPerDay, end);
      RangesEnds(stop + 1, end, deltaDays);
    }
  }

  /** Every window lies within [lo, hi], is at most `deltaDays` days wide,
      and is non-empty (start < stop) once `deltaDays` is at least one. */
  predicate WindowsWithin(r: seq<(int, int)>, lo: int, hi: int, deltaDays: nat)
  {
    forall i :: 0 <= i < |r| ==>
      && lo <= r[i].0 <= r[i].1 <= hi
      && r[i].1 - r[i].0 <= deltaDays * SecondsPerDay
      && (deltaDays >= 1 ==> r[i].0 < r[i].1)
  }

  lemma {:induction false} RangesBounded(start: int, end: int, deltaDays: nat)
    ensures WindowsWithin(Ranges(start, end, deltaDays), start, end, deltaDays)
    decreases end - start
  {
    if start < end {
      var stop := Min(start + deltaDays * SecondsPerDay, end);
      var r, rest := Ranges(start, end, deltaDays), Ranges(stop + 1, end, deltaDays);
      assert r == [(start, stop)] + rest;
      assert start <= stop <= end;
      RangesBounded(stop + 1, end, deltaDays);
      forall i | 1 <= i < |r|
        ensures start <= r[i].0
      {
        assert r[i] == rest[i - 1];
      }
    }
  }

  /** Each window starts one second after the previous one ends, so windows
      are disjoint closed intervals in increasing order. */
  predicate Consecutive(r: seq<(int, int)>)
  {
    forall i :: 0 <= i < |r| - 1 ==> r[i + 1].0 == r[i].1 + 1
  }

  lemma {:induction false} RangesConsecutive(start: int, end: int, deltaDays: nat)
    ensures Consecutive(Ranges(start, end, deltaDays))
    decreases end - start
  {
    if start < end {
      var stop := Min(start + deltaDays * SecondsPerDay, end);
      var r, rest := Ranges(start, end, deltaDays), Ranges(stop + 1, end, deltaDays);
      assert r == [(start, stop)] + rest;
      RangesConsecutive(stop + 1, end, deltaDays);
      RangesEnds(stop + 1, end, deltaDays);
      forall i | 0 <= i < |r| - 1
        ensures r[i + 1].0 == r[i].1 + 1
      {
        if i > 0 {
          assert r[i] == rest[i - 1] && r[i + 1] == rest[i];
        }
      }
    }
  }

  predicate Covered(r: seq<(int, int)>, t: int)
  {
    exists i :: 0 <= i < |r| && r[i].0 <= t <= r[i].1
  }

  /** Every second before the end falls in a window. */
  lemma {:induction false} RangesCover(start: int, end: int, deltaDays: nat, t: int)
    requires start <= t < end
    ensures Covered(Ranges(start, end, deltaDays), t)
    decreases end - start
  {
    var stop := Min(start + deltaDays * SecondsPerDay, end);
    var r, rest := Ranges(start, end, deltaDays), Ranges(stop + 1, end, deltaDays);
    assert r == [(start, stop)] + rest;
    if t <= stop {
      assert 0 < |r| && r[0].0 <= t <= r[0].1;
    } else {
      RangesCover(stop + 1, end, deltaDays, t);
      var i :| 0 <= i < |rest| && rest[i].0 <= t <= rest[i].1;
      assert r[i + 1] == rest[i];
    }
  }

  /** The closing second can be left out: a span of one day and one second
      in one-day windows yields the single window [start, start + 1 day],
      and the instant `end` itself is in no window. */
  lemma LastSecondUncovered(start: int)
    ensures Ranges(start, start + SecondsPerDay + 1, 1) == [(start, start + SecondsPerDay)]
  {
    var end := start + SecondsPerDay + 1;
    assert Ranges(start + SecondsPerDay + 1, end, 1) == [];
  }
}
