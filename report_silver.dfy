/** The silver-layer quality report: overall completeness of the final
    table, variables per category and the figures carried over from the
    earlier steps (etl/capa_silver/report_silver.py). */
module ReportSilver {
  import opened Common
  import opened ClassifySilver

  /** The report's categories and their name terms, in report order. */
  const ReportCategories: seq<(string, seq<string>)> := [
    ("Térmica", ["temp", "oil", "hot", "ambient"]),
    ("Eléctrica", ["current", "voltage", "power", "apparent"]),
    ("Mecánica", ["position", "tap"])
  ]

  datatype QualityReport = QualityReport(
    completeness: real,
    states: map<Estado, nat>,
    perCategory: seq<(string, nat)>,
    missingOriginal: int,
    interpolated: int,
    missingFinal: nat,
    totalValues: nat)

  /** Number of columns whose lower-cased name contains one of `terms`. */
  function CategoryCount(df: seq<Column>, terms: seq<string>): (k: nat)
    ensures k <= |df|
  {
    CountMatching(Names(df), terms)
  }

  /** Number of names whose lower-cased form contains one of `terms`. */
  function CountMatching(names: seq<string>, terms: seq<string>): (k: nat)
    ensures k <= |names|
  {
    CountWhere(names, (c: string) => MatchesAny(c, terms))
  }

  /** Number of report categories a column name is counted in. */
  function Memberships(name: string): (k: nat)
    ensures k <= |ReportCategories|
    ensures k == 0 <==> forall j :: 0 <= j < |ReportCategories| ==> !MatchesAny(name, ReportCategories[j].1)
  {
    (if MatchesAny(name, ReportCategories[0].1) then 1 else 0)
    + (if MatchesAny(name, ReportCategories[1].1) then 1 else 0)
    + (if MatchesAny(name, ReportCategories[2].1) then 1 else 0)
  }

  /** Sum of the memberships of the names. */
  function MembershipTotal(names: seq<string>): nat
  {
    if |names| == 0 then 0
    else MembershipTotal(names[..|names| - 1]) + Memberships(names[|names| - 1])
  }

  /** The per-category counts of the report do not partition the columns: they
      add up to the number of (column, category) matches, so a column matching
      several categories is counted in each of them. */
  lemma CategoryCountsSum(df: seq<Column>)
    ensures CategoryCount(df, ReportCategories[0].1) + CategoryCount(df, ReportCategories[1].1)
            + CategoryCount(df, ReportCategories[2].1) == MembershipTotal(Names(df))
  {
    CountsSumNames(Names(df));
  }

  lemma {:induction false} CountsSumNames(names: seq<string>)
    ensures CountMatching(names, ReportCategories[0].1) + CountMatching(names, ReportCategories[1].1)
            + CountMatching(names, ReportCategories[2].1) == MembershipTotal(names)
  {
    if |names| > 0 {
      CountsSumNames(names[..|names| - 1]);
    }
  }

  /** Any column whose name matches both a thermal and an electrical term is
      counted once in each of the two categories, so the category counts of a
      one-column table add up to more than one. */
  lemma MatchingBothCountsTwice(col: Column)
    requires MatchesAny(col.name, ReportCategories[0].1) && MatchesAny(col.name, ReportCategories[1].1)
    ensures CategoryCount([col], ReportCategories[0].1) == 1
    ensures CategoryCount([col], ReportCategories[1].1) == 1
    ensures CategoryCount([col], ReportCategories[0].1) + CategoryCount([col], ReportCategories[1].1)
            + CategoryCount([col], ReportCategories[2].1) > |[col]|
  {
    CategoryCountOne(col, ReportCategories[0].1);
    CategoryCountOne(col, ReportCategories[1].1);
  }

  /** `(total - missing) / total * 100` over all cells, or 0 for an empty
      table. */
  function Completeness(df: seq<Column>, n: nat): (c: real)
    requires Rectangular(df, n)
    ensures 0.0 <= c <= 100.0
    ensures |df| * n == 0 ==> c == 0.0
    ensures |df| * n > 0 ==>
      c == (|df| * n - TotalNaN(df)) as real / (|df| * n) as real * 100.0
  {
    TotalNaNBound(df, n);
    Percent(|df| * n - TotalNaN(df), |df| * n)
  }

  /** `generar_reporte_calidad_transformador` on a table of n rows. */
  function Report(df: seq<Column>, n: nat, missingOriginal: int, interpolated: int,
                  states: map<Estado, nat>): (r: QualityReport)
    requires Rectangular(df, n)
    ensures r.totalValues == |df| * n
    ensures r.missingFinal == TotalNaN(df) <= r.totalValues
    ensures r.completeness == Completeness(df, n)
    ensures |r.perCategory| == |ReportCategories|
    ensures forall k :: 0 <= k < |ReportCategories| ==>
      r.perCategory[k].0 == ReportCategories[k].0 &&
      r.perCategory[k].1 == CategoryCount(df, ReportCategories[k].1)
    ensures r.states == states && r.missingOriginal == missingOriginal && r.interpolated == interpolated
  {
    var total := |df| * n;
    TotalNaNBound(df, n);
    var missing := TotalNaN(df);
    var perCategory := seq(|ReportCategories|, k requires 0 <= k < |ReportCategories| =>
      (ReportCategories[k].0, CategoryCount(df, ReportCategories[k].1)));
    QualityReport(Completeness(df, n), states, perCategory,
                  missingOriginal, interpolated, missing, total)
  }

  /** A non-empty table is 100% complete exactly when it holds no NaN, and
      0% complete exactly when every cell is NaN. */
  lemma CompletenessExtremes(df: seq<Column>, n: nat)
    requires Rectangular(df, n) && |df| * n > 0
    ensures Completeness(df, n) == 100.0 <==> TotalNaN(df) == 0
    ensures Completeness(df, n) == 0.0 <==> TotalNaN(df) == |df| * n
  {
    TotalNaNBound(df, n);
    PercentExtremes(|df| * n - TotalNaN(df), |df| * n);
  }

  /** A one-column table counts 1 in a category iff its name matches. */
  lemma CategoryCountOne(col: Column, terms: seq<string>)
    ensures CategoryCount([col], terms) == if MatchesAny(col.name, terms) then 1 else 0
  {
    assert Names([col]) == [col.name];
    assert Names([col])[..0] == [];
  }

  lemma TempCurrentLower(name: string)
    requires name == "temp_current"
    ensures Contains(Lower(name), "temp")
    ensures Contains(Lower(name), "current")
  {
    LowerOfLowercase(name);
    ContainsTempPrefix(name);
    ContainsCurrentSuffix(name);
  }

  lemma ContainsTempPrefix(name: string)
    requires name == "temp_current"
    ensures Contains(name, "temp")
  {
    assert name[..4] == "temp";
  }

  lemma ContainsCurrentSuffix(name: string)
    requires name == "temp_current"
    ensures Contains(name, "current")
  {
    assert "temp_" + "current" == name;
    ContainsSuffix("temp_", "current");
  }

  /** Categories overlap: a column named "temp_current" counts as both a
      thermal and an electrical variable, so the category counts of one
      column add up to more than one. */
  lemma CategoriesOverlap(col: Column)
    requires col.name == "temp_current"
    ensures CategoryCount([col], ReportCategories[0].1) == 1
    ensures CategoryCount([col], ReportCategories[1].1) == 1
    ensures CategoryCount([col], ReportCategories[0].1) + CategoryCount([col], ReportCategories[1].1)
            + CategoryCount([col], ReportCategories[2].1) > |[col]|
  {
    TempCurrentLower(col.name);
    assert "temp" in ReportCategories[0].1;
    assert "current" in ReportCategories[1].1;
    MatchingBothCountsTwice(col);
  }
}
