/** Finishing the gold dataset: the feature categories, the dtype downcast
    and the chronological 80/20 split (etl/capa_gold/finalize_gold.py). */
module FinalizeGold {
  import opened Common

  // ------------------------------------------------------------- categories

  /** The fixed list of original variables. */
  const OriginalVariables: seq<string> := [
    "current_load_value", "power_apparent_value", "tap_position_value",
    "temp_oil_value", "temp_oil_oltc_value", "temp_ambient_value",
    "temp_bubbling_value", "temp_spot_hot_value", "voltage_value",
    "estado_operacional", "nivel_severidad", "variables_anomalas", "descripcion_anomalia"
  ]

  datatype Categories = Categories(
    originals: seq<string>, thermal: seq<string>, electrical: seq<string>,
    labels: seq<string>, others: seq<string>)

  function InOriginals(c: string): bool { c in OriginalVariables }

  /** The category summary: the table's columns found in the fixed list, the
      three given lists as they are, and the table's remaining columns. */
  function Categorize(columns: seq<string>, thermal: seq<string>, electrical: seq<string>,
                      labels: seq<string>): (cat: Categories)
    ensures IsSubsequence(cat.originals, columns)
    ensures forall c :: c in cat.originals <==> c in columns && c in OriginalVariables
    ensures cat.thermal == thermal && cat.electrical == electrical && cat.labels == labels
    ensures IsSubsequence(cat.others, columns)
    ensures forall c :: c in cat.others <==>
      c in columns && c !in cat.originals && c !in thermal && c !in electrical && c !in labels
  {
    var originals := Filter(columns, InOriginals);
    var listed := originals + thermal + electrical + labels;
    var others := Filter(columns, (c: string) => c !in listed);
    Categories(originals, thermal, electrical, labels, others)
  }

  /** Every column of the table lands in at least one category. */
  lemma EveryColumnCategorized(columns: seq<string>, thermal: seq<string>, electrical: seq<string>,
                               labels: seq<string>, c: string)
    requires c in columns
    ensures var cat := Categorize(columns, thermal, electrical, labels);
      c in cat.originals || c in cat.thermal || c in cat.electrical || c in cat.labels || c in cat.others
  {
  }

  // --------------------------------------------------------------- downcast

  datatype IntType = Int64 | UInt8 | Int8 | UInt16 | Int16 | Int32

  /** Smallest and largest value of each integer dtype. */
  function Lo(t: IntType): int
  {
    match t
    case Int64 => -0x8000_0000_0000_0000
    case UInt8 => 0
    case Int8 => -128
    case UInt16 => 0
    case Int16 => -32768
    case Int32 => -0x8000_0000
  }

  function Hi(t: IntType): int
  {
    match t
    case Int64 => 0x7FFF_FFFF_FFFF_FFFF
    case UInt8 => 255
    case Int8 => 127
    case UInt16 => 65535
    case Int16 => 32767
    case Int32 => 0x7FFF_FFFF
  }

  /** The candidate dtypes, in the order they are tried. */
  const Candidates: seq<IntType> := [UInt8, Int8, UInt16, Int16]

  predicate FitsIn(t: IntType, mn: int, mx: int) { Lo(t) <= mn && mx <= Hi(t) }

  /** The dtype an int64 column with values in [mn, mx] is cast to: the first
      candidate whose range holds them, otherwise int32 without a check. */
  function IntTarget(mn: int, mx: int): (t: IntType)
    ensures t != Int64
    ensures t != Int32 ==> FitsIn(t, mn, mx)
    ensures t != Int32 ==>
      exists p :: 0 <= p < |Candidates| && Candidates[p] == t && forall k :: 0 <= k < p ==> !FitsIn(Candidates[k], mn, mx)
    ensures t == Int32 <==> forall k :: 0 <= k < |Candidates| ==> !FitsIn(Candidates[k], mn, mx)
  {
    assert Candidates[0] == UInt8 && Candidates[1] == Int8 && Candidates[2] == UInt16 && Candidates[3] == Int16;
    if mn >= 0 && mx <= 255 then UInt8
    else if mn >= -128 && mx <= 127 then Int8
    else if mn >= 0 && mx <= 65535 then UInt16
    else if mn >= -32768 && mx <= 32767 then Int16
    else Int32
  }

  /** numpy's `astype("int32")`: two's-complement wrap-around. */
  function Wrap32(x: int): (w: int)
    ensures Lo(Int32) <= w <= Hi(Int32)
    ensures w == x <==> Lo(Int32) <= x <= Hi(Int32)
  {
    (x + 0x8000_0000) % 0x1_0000_0000 - 0x8000_0000
  }

  function IntMin(s: seq<int>): (m: int)
    requires |s| > 0
    ensures m in s && forall i :: 0 <= i < |s| ==> m <= s[i]
  {
    if |s| == 1 then s[0]
    else
      var m := IntMin(s[..|s| - 1]);
      assert forall i :: 0 <= i < |s| - 1 ==> s[..|s| - 1][i] == s[i];
      if s[|s| - 1] < m then s[|s| - 1] else m
  }

  function IntMax(s: seq<int>): (m: int)
    requires |s| > 0
    ensures m in s && forall i :: 0 <= i < |s| ==> s[i] <= m
  {
    if |s| == 1 then s[0]
    else
      var m := IntMax(s[..|s| - 1]);
      assert forall i :: 0 <= i < |s| - 1 ==> s[..|s| - 1][i] == s[i];
      if s[|s| - 1] > m then s[|s| - 1] else m
  }

  /** 1e37, the magnitude bound for float32. */
  const Float32Limit: real := 10000000000000000000000000000000000000.0

  predicate Small(c: Cell) { c.Fin? && -Float32Limit < c.v < Float32Limit }

  /** The float64 test: some value is present, and the minimum and maximum
      are finite with magnitude below 1e37. */
  predicate FloatFits(cells: seq<Cell>)
  {
    NanMin(cells).Some? && NanMax(cells).Some? && Small(NanMin(cells).value) && Small(NanMax(cells).value)
  }

  /** The min/max test is the same as every present value being a finite
      number of magnitude below 1e37, with at least one present. */
  lemma FloatFitsIff(cells: seq<Cell>)
    ensures FloatFits(cells) <==>
      (exists i :: 0 <= i < |cells| && !cells[i].NaN?) &&
      forall i :: 0 <= i < |cells| && !cells[i].NaN? ==> Small(cells[i])
  {
    if FloatFits(cells) {
      var lo, hi := NanMin(cells).value, NanMax(cells).value;
      forall i | 0 <= i < |cells| && !cells[i].NaN?
        ensures Small(cells[i])
      {
        assert Le(lo, cells[i]) && Le(cells[i], hi);
      }
    }
  }

  datatype Data = Floats(cells: seq<Cell>, single: bool) | Ints(values: seq<int>, ty: IntType) | Other

  /** The downcast of one column: float64 to float32 when it fits, int64 to
      the chosen integer dtype (values wrap when that is int32); all-NaN
      float columns, empty int columns and other dtypes are kept. */
  function Downcast(d: Data): (r: Data)
    ensures d.Floats? && !d.single ==> r.Floats? && r.cells == d.cells && (r.single <==> FloatFits(d.cells))
    ensures d.Ints? && d.ty == Int64 && |d.values| > 0 ==>
      r.Ints? && r.ty == IntTarget(IntMin(d.values), IntMax(d.values)) && |r.values| == |d.values|
    ensures d.Ints? && d.ty == Int64 && |d.values| > 0 && r.ty != Int32 ==> r.values == d.values
    ensures !(d.Floats? && !d.single) && !(d.Ints? && d.ty == Int64 && |d.values| > 0) ==> r == d
  {
    match d
    case Floats(cells, single) =>
      if !single && FloatFits(cells) then Floats(cells, true) else d
    case Ints(values, ty) =>
      if ty == Int64 && |values| > 0 then
        var t := IntTarget(IntMin(values), IntMax(values));
        if t == Int32 then Ints(seq(|values|, i requires 0 <= i < |values| => Wrap32(values[i])), Int32)
        else Ints(values, t)
      else d
    case Other => d
  }

  /** An int64 column keeps its values through the downcast exactly when they
      all lie in the int32 range. */
  lemma IntDowncastLossless(values: seq<int>)
    requires |values| > 0
    ensures Downcast(Ints(values, Int64)).values == values <==>
      forall i :: 0 <= i < |values| ==> Lo(Int32) <= values[i] <= Hi(Int32)
  {
    var r := Downcast(Ints(values, Int64));
    var mn, mx := IntMin(values), IntMax(values);
    if r.ty != Int32 {
      assert FitsIn(r.ty, mn, mx);
      assert Lo(Int32) <= Lo(r.ty) && Hi(r.ty) <= Hi(Int32);
    } else if r.values == values {
      forall i | 0 <= i < |values|
        ensures Lo(Int32) <= values[i] <= Hi(Int32)
      {
        assert r.values[i] == Wrap32(values[i]);
      }
    }
  }

  /** 2^31 does not fit int32: the column [0, 2^31] becomes [0, -2^31]. */
  lemma Int32Overflow()
    ensures Downcast(Ints([0, 0x8000_0000], Int64)) == Ints([0, -0x8000_0000], Int32)
  {
    var values := [0, 0x8000_0000];
    assert IntMin(values) == 0;
    assert IntMax(values) == 0x8000_0000;
    assert Wrap32(0x8000_0000) == -0x8000_0000;
  }

  datatype TypedColumn = TypedColumn(name: string, data: Data)

  /** The downcast loop over the columns, each column replaced in turn. */
  method DowncastAll(df: seq<TypedColumn>) returns (out: seq<TypedColumn>)
    ensures |out| == |df|
    ensures forall j :: 0 <= j < |df| ==> out[j] == TypedColumn(df[j].name, Downcast(df[j].data))
  {
    out := df;
    for j := 0 to |df|
      invariant |out| == |df|
      invariant forall k :: 0 <= k < j ==> out[k] == TypedColumn(df[k].name, Downcast(df[k].data))
      invariant forall k :: j <= k < |df| ==> out[k] == df[k]
    {
      out := out[j := TypedColumn(df[j].name, Downcast(df[j].data))];
    }
  }

  // ------------------------------------------------------------------ split

  datatype FinalizeError = ZeroDivision   // the percentage print on an empty table

  /** The chronological split of the (timestamp-sorted) rows: the first
      int(0.8 n) rows train, the rest validate, and the split date is the
      timestamp of the first validation row. */
  function Split<T>(rows: seq<T>, index: seq<int>): (r: (seq<T>, seq<T>, Option<int>))
    requires |index| == |rows|
    ensures r.0 + r.1 == rows
    ensures |r.0| == Cut80(|rows|)
    ensures |rows| == 0 <==> r.2.None?
    ensures r.2.Some? ==> |r.1| > 0 && r.2.value == index[|r.0|]
  {
    var cut := Cut80(|rows|);
    assert rows[..cut] + rows[cut..] == rows;
    (rows[..cut], rows[cut..], if |rows| > 0 then Some(index[cut]) else None)
  }

  /** With ascending timestamps, every training row is no later than the
      split date and every validation row no earlier. */
  lemma SplitIsChronological(index: seq<int>)
    requires |index| > 0
    requires forall i, j :: 0 <= i < j < |index| ==> index[i] <= index[j]
    ensures var r := Split(index, index);
      (forall t :: t in r.0 ==> t <= r.2.value) && (forall t :: t in r.1 ==> r.2.value <= t)
  {
  }

  /** The train and validation shares in percent, or the division error the
      print raises on an empty table. */
  function SplitShares(n: nat): (r: Result<(real, real), FinalizeError>)
    ensures r.Err? <==> n == 0
    ensures r.Ok? ==> r.value.0 + r.value.1 == 100.0 && 0.0 <= r.value.0 < 100.0
  {
    if n == 0 then Err(ZeroDivision)
    else
      var cut := Cut80(n);
      DivSign(cut as real, n as real);
      DivSub(n as real, cut as real, n as real);
      Ok((cut as real / n as real * 100.0, (n - cut) as real / n as real * 100.0))
  }
}
