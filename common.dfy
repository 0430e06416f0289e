/** Shared vocabulary of the model: optional values and results, table cells
    that may hold NaN or an infinity, and small sequence and string helpers
    used by several modules. */
module Common {

  datatype Option<+T> = None | Some(value: T)

  datatype Result<+T, +E> = Ok(value: T) | Err(error: E)

  /** A floating-point cell of a table: a finite value, NaN, or an infinity.
      Finite values are modelled as exact reals. */
  datatype Cell = Fin(v: real) | NaN | PosInf | NegInf {
    predicate IsFinite() { Fin? }
  }

  /** A named table column. `numeric` is true for columns whose dtype is a
      number (select_dtypes(include=number)); other columns carry no cells
      the model needs and hold NaN. */
  datatype Column = Column(name: string, numeric: bool, cells: seq<Cell>)

  function Names(df: seq<Column>): (names: seq<string>)
    ensures |names| == |df|
    ensures forall j :: 0 <= j < |df| ==> names[j] == df[j].name
  {
    if |df| == 0 then [] else [df[0].name] + Names(df[1..])
  }

  /** The first column named `name`. */
  function FindColumn(df: seq<Column>, name: string): (r: Option<Column>)
    ensures r.Some? ==> r.value in df && r.value.name == name
    ensures r.None? ==> forall c :: c in df ==> c.name != name
  {
    if |df| == 0 then None
    else if df[0].name == name then Some(df[0])
    else FindColumn(df[1..], name)
  }

  function DropColumnRows(c: Column, drop: nat): Column
  {
    Column(c.name, c.numeric, if drop <= |c.cells| then c.cells[drop..] else [])
  }

  /** Removes the first `drop` rows of every column. */
  function DropRows(df: seq<Column>, drop: nat): (r: seq<Column>)
    ensures |r| == |df|
    ensures forall j :: 0 <= j < |df| ==> r[j] == DropColumnRows(df[j], drop)
  {
    seq(|df|, j requires 0 <= j < |df| => DropColumnRows(df[j], drop))
  }

  /** Every column has n rows. */
  predicate Rectangular(df: seq<Column>, n: nat)
  {
    forall j :: 0 <= j < |df| ==> |df[j].cells| == n
  }

  /** Number of NaN cells (pandas `isna`; infinities are not NA). */
  function CountNaN(cells: seq<Cell>): (n: nat)
    ensures n <= |cells|
  {
    CountWhere(cells, (c: Cell) => c.NaN?)
  }

  /** IEEE-754 ordering: every comparison involving NaN is false. */
  predicate Lt(a: Cell, b: Cell)
  {
    match (a, b)
    case (Fin(x), Fin(y)) => x < y
    case (NegInf, Fin(_)) => true
    case (NegInf, PosInf) => true
    case (Fin(_), PosInf) => true
    case _ => false
  }

  predicate Gt(a: Cell, b: Cell) { Lt(b, a) }

  predicate Le(a: Cell, b: Cell) { !a.NaN? && !b.NaN? && !Lt(b, a) }

  predicate Ge(a: Cell, b: Cell) { Le(b, a) }

  /** IEEE-754 subtraction. */
  function Sub(a: Cell, b: Cell): (r: Cell)
    ensures a.Fin? && b.Fin? ==> r == Fin(a.v - b.v)
    ensures a.NaN? || b.NaN? ==> r.NaN?
  {
    match (a, b)
    case (Fin(x), Fin(y)) => Fin(x - y)
    case (PosInf, PosInf) => NaN
    case (NegInf, NegInf) => NaN
    case (PosInf, Fin(_)) => PosInf
    case (PosInf, NegInf) => PosInf
    case (NegInf, Fin(_)) => NegInf
    case (NegInf, PosInf) => NegInf
    case (Fin(_), PosInf) => NegInf
    case (Fin(_), NegInf) => PosInf
    case _ => NaN
  }

  lemma {:induction false} ComparisonsWithNaNAreFalse(a: Cell, b: Cell)
    requires a.NaN? || b.NaN?
    ensures !Lt(a, b) && !Gt(a, b) && !Le(a, b) && !Ge(a, b)
  {
    match (a, b)
    case (NaN, _) =>
    case (_, NaN) =>
  }

  function Min(x: int, y: int): int { if x <= y then x else y }

  function Max(x: int, y: int): int { if x >= y then x else y }

  /** Number of occurrences of x in s. */
  function Count<T(==)>(s: seq<T>, x: T): (n: nat)
    ensures n <= |s|
    ensures n == 0 <==> x !in s
  {
    if |s| == 0 then 0 else Count(s[..|s| - 1], x) + (if s[|s| - 1] == x then 1 else 0)
  }

  lemma {:induction false} CountAppend<T>(s: seq<T>, t: seq<T>, x: T)
    ensures Count(s + t, x) == Count(s, x) + Count(t, x)
  {
    if |t| == 0 {
      assert s + t == s;
    } else {
      assert (s + t)[..|s + t| - 1] == s + t[..|t| - 1];
      CountAppend(s, t[..|t| - 1], x);
    }
  }

  /** Number of elements of s satisfying p. */
  function CountWhere<T>(s: seq<T>, p: T -> bool): (n: nat)
    ensures n <= |s|
  {
    if |s| == 0 then 0 else CountWhere(s[..|s| - 1], p) + (if p(s[|s| - 1]) then 1 else 0)
  }

  lemma {:induction false} CountWhereAppend<T>(s: seq<T>, t: seq<T>, p: T -> bool)
    ensures CountWhere(s + t, p) == CountWhere(s, p) + CountWhere(t, p)
  {
    if |t| == 0 {
      assert s + t == s;
    } else {
      assert (s + t)[..|s + t| - 1] == s + t[..|t| - 1];
      CountWhereAppend(s, t[..|t| - 1], p);
    }
  }

  function Sum(s: seq<real>): real
  {
    if |s| == 0 then 0.0 else Sum(s[..|s| - 1]) + s[|s| - 1]
  }

  function SumInt(s: seq<int>): int
  {
    if |s| == 0 then 0 else SumInt(s[..|s| - 1]) + s[|s| - 1]
  }

  /** Removing the first element of a slice subtracts it from the sum. */
  lemma {:induction false} SumIntDropFirst(s: seq<int>)
    requires |s| > 0
    ensures SumInt(s) == s[0] + SumInt(s[1..])
  {
    if |s| > 1 {
      assert s[..|s| - 1][1..] == s[1..][..|s[1..]| - 1];
      SumIntDropFirst(s[..|s| - 1]);
    }
  }

  // ------------------------------------------------------ arithmetic helpers

  lemma MulNonNeg(a: real, b: real)
    requires a >= 0.0 && b >= 0.0
    ensures a * b >= 0.0
  {
  }

  lemma DivSign(a: real, d: real)
    requires d > 0.0
    ensures a == 0.0 ==> a / d == 0.0
    ensures a >= 0.0 ==> a / d >= 0.0
    ensures a < 0.0 ==> a / d < 0.0
    ensures a <= d ==> a / d <= 1.0
    ensures a < d ==> a / d < 1.0
    ensures a > d ==> a / d > 1.0
  {
  }

  lemma DivSub(a: real, b: real, d: real)
    requires d > 0.0
    ensures a / d - b / d == (a - b) / d
  {
  }

  lemma MulSign(x: int, m: int)
    requires m > 0
    ensures x >= 1 ==> x * m >= m
    ensures x <= -1 ==> x * m <= -m
  {
  }

  /** Euclidean division is determined by quotient and remainder. */
  lemma ModUnique(a: int, m: int, q: int, r: int)
    requires m > 0 && 0 <= r < m && a == q * m + r
    ensures a % m == r && a / m == q
  {
    var q0, r0 := a / m, a % m;
    assert a == q0 * m + r0;
    MulSign(q - q0, m);
    assert (q - q0) * m == q * m - q0 * m;
  }

  /** Smallest element of a non-empty sequence (numpy's `min`). */
  function SeqMin(s: seq<real>): (m: real)
    requires |s| > 0
    ensures m in s
    ensures forall i :: 0 <= i < |s| ==> m <= s[i]
  {
    if |s| == 1 then s[0]
    else
      var rest := SeqMin(s[..|s| - 1]);
      assert forall i :: 0 <= i < |s| - 1 ==> s[..|s| - 1][i] == s[i];
      if s[|s| - 1] < rest then s[|s| - 1] else rest
  }

  /** Largest element of a non-empty sequence (numpy's `max`). */
  function SeqMax(s: seq<real>): (m: real)
    requires |s| > 0
    ensures m in s
    ensures forall i :: 0 <= i < |s| ==> s[i] <= m
  {
    if |s| == 1 then s[0]
    else
      var rest := SeqMax(s[..|s| - 1]);
      assert forall i :: 0 <= i < |s| - 1 ==> s[..|s| - 1][i] == s[i];
      if s[|s| - 1] > rest then s[|s| - 1] else rest
  }

  /** The elements of s that satisfy p, in their original order. */
  function Filter<T>(s: seq<T>, p: T -> bool): (r: seq<T>)
    ensures |r| <= |s|
    ensures forall x :: x in r ==> x in s && p(x)
    ensures forall x :: x in s && p(x) ==> x in r
    ensures IsSubsequence(r, s)
  {
    if |s| == 0 then []
    else
      var rest := Filter(s[1..], p);
      SubsequenceCons(rest, s);
      if p(s[0]) then [s[0]] + rest else rest
  }

  /** a can be obtained from b by deleting elements, keeping the order. */
  predicate IsSubsequence<T(==)>(a: seq<T>, b: seq<T>)
    decreases |b|
  {
    if |a| == 0 then true
    else if |b| == 0 then false
    else if a[0] == b[0] then IsSubsequence(a[1..], b[1..])
    else IsSubsequence(a, b[1..])
  }

  lemma {:induction false} SubsequenceCons<T>(a: seq<T>, b: seq<T>)
    requires |b| > 0 && IsSubsequence(a, b[1..])
    ensures IsSubsequence([b[0]] + a, b) && IsSubsequence(a, b)
  {
    assert ([b[0]] + a)[1..] == a;
    SubsequencePrepend(a, b);
  }

  lemma {:induction false} SubsequencePrepend<T>(a: seq<T>, b: seq<T>)
    requires |b| > 0 && IsSubsequence(a, b[1..])
    ensures IsSubsequence(a, b)
    decreases |b|, 0
  {
    if |a| > 0 && a[0] == b[0] {
      SubsequenceTail(a, b[1..]);
    }
  }

  lemma {:induction false} SubsequenceTail<T>(a: seq<T>, b: seq<T>)
    requires |a| > 0 && IsSubsequence(a, b)
    ensures IsSubsequence(a[1..], b)
    decreases |b|, 1
  {
    if a[0] == b[0] {
      SubsequencePrepend(a[1..], b);
    } else {
      SubsequenceTail(a, b[1..]);
      SubsequencePrepend(a[1..], b);
    }
  }

  // ---------------------------------------------------------------- strings

  function DigitChar(d: nat): char
    requires d < 10
  {
    "0123456789"[d]
  }

  /** Decimal rendering of a natural number, as Python's str() writes it. */
  function NatToString(n: nat): (s: string)
    ensures |s| > 0
    ensures forall i :: 0 <= i < |s| ==> '0' <= s[i] <= '9'
    decreases n
  {
    if n < 10 then [DigitChar(n)] else NatToString(n / 10) + [DigitChar(n % 10)]
  }

  function IntToString(i: int): string
  {
    if i < 0 then "-" + NatToString(-i) else NatToString(i)
  }

  /** Lower-casing of ASCII letters and of the Spanish accented capitals. */
  function LowerChar(c: char): char
  {
    if 'A' <= c <= 'Z' then (c as int + 32) as char
    else if c == 'Á' then 'á'
    else if c == 'É' then 'é'
    else if c == 'Í' then 'í'
    else if c == 'Ó' then 'ó'
    else if c == 'Ú' then 'ú'
    else if c == 'Ñ' then 'ñ'
    else c
  }

  function Lower(s: string): (r: string)
    ensures |r| == |s|
    ensures forall i :: 0 <= i < |s| ==> r[i] == LowerChar(s[i])
  {
    if |s| == 0 then [] else [LowerChar(s[0])] + Lower(s[1..])
  }

  /** Python's `t in s` on strings: t occurs as a contiguous block of s. */
  predicate Contains(s: string, t: string)
    decreases |s|
  {
    (|t| <= |s| && s[..|t|] == t) || (|s| > 0 && Contains(s[1..], t))
  }

  lemma {:induction false} ContainsSuffix(s: string, t: string)
    ensures Contains(s + t, t)
    decreases |s|
  {
    if |s| == 0 {
      assert (s + t)[..|t|] == t;
    } else {
      assert (s + t)[1..] == s[1..] + t;
      ContainsSuffix(s[1..], t);
    }
  }

  /** A string occurs in any text that has it right after some prefix. */
  lemma {:induction false} ContainsInfix(s: string, t: string, u: string)
    ensures Contains(s + t + u, t)
    decreases |s|
  {
    if |s| == 0 {
      assert (s + t + u)[..|t|] == t;
    } else {
      assert (s + t + u)[1..] == s[1..] + t + u;
      ContainsInfix(s[1..], t, u);
    }
  }

  /** Python's `str.split(sep)` with a one-character separator. */
  function Split(s: string, sep: char): (parts: seq<string>)
    ensures |parts| > 0
  {
    if |s| == 0 then [""]
    else
      var rest := Split(s[1..], sep);
      if s[0] == sep then [""] + rest else [[s[0]] + rest[0]] + rest[1..]
  }

  /** Python's `str.isspace()` on the ASCII characters: space, tab, newline,
      vertical tab, form feed, carriage return and the separators 0x1C-0x1F. */
  predicate IsSpace(c: char)
  {
    c == ' ' || c == '\t' || c == '\n' || c == '\r' || c == '\U{000B}' || c == '\U{000C}'
    || ('\U{001C}' <= c <= '\U{001F}')
  }

  function StripLeft(s: string, drop: char -> bool): (r: string)
    ensures |r| <= |s| && r == s[|s| - |r|..]
    ensures |r| > 0 ==> !drop(r[0])
  {
    if |s| > 0 && drop(s[0]) then StripLeft(s[1..], drop) else s
  }

  function StripRight(s: string, drop: char -> bool): (r: string)
    ensures |r| <= |s| && r == s[..|r|]
    ensures |r| > 0 ==> !drop(r[|r| - 1])
  {
    if |s| > 0 && drop(s[|s| - 1]) then StripRight(s[..|s| - 1], drop) else s
  }

  function Strip(s: string, drop: char -> bool): (r: string)
    ensures |r| > 0 ==> !drop(r[0]) && !drop(r[|r| - 1])
    ensures exists i, j :: 0 <= i <= j <= |s| && r == s[i..j]
  {
    var l := StripLeft(s, drop);
    var r := StripRight(l, drop);
    assert r == s[|s| - |l|..|s| - |l| + |r|];
    r
  }

  /** Some term occurs in the lower-cased name (`any(t in c.lower() for t in terms)`). */
  predicate MatchesAny(name: string, terms: seq<string>)
  {
    exists t :: t in terms && Contains(Lower(name), t)
  }

  /** Lower-casing leaves a name of lower-case letters and "_" unchanged. */
  lemma LowerOfLowercase(s: string)
    requires forall i :: 0 <= i < |s| ==> ('a' <= s[i] <= 'z') || s[i] == '_'
    ensures Lower(s) == s
  {
    var r := Lower(s);
    forall i | 0 <= i < |s|
      ensures r[i] == s[i]
    {
      LowerCharOfLowercase(s[i]);
    }
  }

  lemma LowerCharOfLowercase(c: char)
    requires ('a' <= c <= 'z') || c == '_'
    ensures LowerChar(c) == c
  {
  }

  // ---------------------------------------------------------------- tables

  /** Minimum of the non-NaN cells in IEEE order (pandas `min`, skipping NaN). */
  function NanMin(cells: seq<Cell>): (m: Option<Cell>)
    ensures m.None? <==> forall i :: 0 <= i < |cells| ==> cells[i].NaN?
    ensures m.Some? ==> m.value in cells && !m.value.NaN?
    ensures m.Some? ==> forall i :: 0 <= i < |cells| && !cells[i].NaN? ==> Le(m.value, cells[i])
  {
    if |cells| == 0 then None
    else
      var last := cells[|cells| - 1];
      var m := NanMin(cells[..|cells| - 1]);
      assert forall i :: 0 <= i < |cells| - 1 ==> cells[..|cells| - 1][i] == cells[i];
      if last.NaN? then m
      else if m.None? || Lt(last, m.value) then Some(last)
      else m
  }

  /** Maximum of the non-NaN cells (pandas `max`, skipping NaN). */
  function NanMax(cells: seq<Cell>): (m: Option<Cell>)
    ensures m.None? <==> forall i :: 0 <= i < |cells| ==> cells[i].NaN?
    ensures m.Some? ==> m.value in cells && !m.value.NaN?
    ensures m.Some? ==> forall i :: 0 <= i < |cells| && !cells[i].NaN? ==> Le(cells[i], m.value)
  {
    if |cells| == 0 then None
    else
      var last := cells[|cells| - 1];
      var m := NanMax(cells[..|cells| - 1]);
      assert forall i :: 0 <= i < |cells| - 1 ==> cells[..|cells| - 1][i] == cells[i];
      if last.NaN? then m
      else if m.None? || Lt(m.value, last) then Some(last)
      else m
  }


  /** Number of NaN cells in a table. */
  function TotalNaN(df: seq<Column>): nat
  {
    if |df| == 0 then 0 else TotalNaN(df[..|df| - 1]) + CountNaN(df[|df| - 1].cells)
  }

  lemma {:induction false} TotalNaNBound(df: seq<Column>, n: nat)
    requires Rectangular(df, n)
    ensures TotalNaN(df) <= |df| * n
  {
    if |df| > 0 {
      TotalNaNBound(df[..|df| - 1], n);
      assert |df| * n == (|df| - 1) * n + n;
    }
  }

  /** `missing / total * 100`, or 0 for an empty selection. */
  function Percent(part: nat, total: nat): (p: real)
    requires part <= total
    ensures 0.0 <= p <= 100.0
    ensures total == 0 ==> p == 0.0
  {
    if total == 0 then 0.0
    else
      DivSign(part as real, total as real);
      part as real / total as real * 100.0
  }

  /** For a non-empty total, the percentage is 100 exactly when the part is
      the whole and 0 exactly when the part is empty. */
  lemma PercentExtremes(part: nat, total: nat)
    requires part <= total && total > 0
    ensures Percent(part, total) == 100.0 <==> part == total
    ensures Percent(part, total) == 0.0 <==> part == 0
  {
    var q := part as real / total as real;
    assert q * total as real == part as real;
  }

  /** Python's `int(n * 0.8)`: the index at which the 80/20 chronological
      splits cut a table of n rows. */
  function Cut80(n: nat): (cut: nat)
    ensures cut <= n
    ensures n > 0 ==> cut < n
    ensures 5 * cut <= 4 * n < 5 * cut + 5
  {
    n * 4 / 5
  }
}
