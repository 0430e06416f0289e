/** Silver-layer transformations of the consolidated transformer table:
    column-name cleaning and de-duplication, range masking of physical
    variables and the missing-value analysis by variable family
    (etl/capa_silver/transform_silver.py). */
module TransformSilver {
  import opened Common

  // ------------------------------------------------------- name cleaning

  /** Names of the consolidated tags and their direct renaming (the keys
      are distinct, so this association list is the source's dictionary). */
  const NameMapping: seq<(string, string)> := [
    ("corriente_carga_value", "current_load_value"),
    ("potencia_aparente_value", "power_apparent_value"),
    ("tap_position_value", "tap_position_value"),
    ("temperatura_aceite_value", "temp_oil_value"),
    ("temperatura_aceite_OLTC_value", "temp_oil_oltc_value"),
    ("temperatura_ambiente_value", "temp_ambient_value"),
    ("temperatura_burbujeo_value", "temp_bubbling_value"),
    ("temperatura_punto_caliente_value", "temp_spot_hot_value"),
    ("voltaje_value", "voltage_value")
  ]

  /** Spanish terms and their English replacements, applied in this order. */
  const Replacements: seq<(string, string)> := [
    ("temperatura", "temp"), ("corriente", "current"), ("voltaje", "voltage"),
    ("potencia", "power"), ("aparente", "apparent"), ("aceite", "oil"),
    ("ambiente", "ambient"), ("caliente", "hot"), ("punto", "spot"),
    ("burbujeo", "bubbling"), ("posicion", "position"), ("carga", "load")
  ]

  /** Python's `s.replace(k, v)`: non-overlapping occurrences of k, scanned
      from the left, are replaced by v. */
  function ReplaceAll(s: string, k: string, v: string): string
    requires |k| > 0
    decreases |s|
  {
    if |s| < |k| then s
    else if s[..|k|] == k then v + ReplaceAll(s[|k|..], k, v)
    else [s[0]] + ReplaceAll(s[1..], k, v)
  }

  /** The first `|reps|` replacements applied one after the other. */
  function ApplyReplacements(s: string, reps: seq<(string, string)>): string
    requires forall k :: 0 <= k < |reps| ==> |reps[k].0| > 0
  {
    if |reps| == 0 then s
    else
      var last := reps[|reps| - 1];
      ReplaceAll(ApplyReplacements(s, reps[..|reps| - 1]), last.0, last.1)
  }

  lemma ReplacementKeysNonEmpty()
    ensures forall k :: 0 <= k < |Replacements| ==> |Replacements[k].0| > 0
  {
  }

  /** Accented lower-case vowels and ñ become their ASCII letter. */
  function Unaccent(c: char): char
  {
    match c
    case 'á' => 'a'
    case 'é' => 'e'
    case 'í' => 'i'
    case 'ó' => 'o'
    case 'ú' => 'u'
    case 'ñ' => 'n'
    case _ => c
  }

  function UnaccentAll(s: string): (r: string)
    ensures |r| == |s| && forall i :: 0 <= i < |s| ==> r[i] == Unaccent(s[i])
  {
    seq(|s|, i requires 0 <= i < |s| => Unaccent(s[i]))
  }

  /** `re.sub(r"\s+", "_", s)`: every run of whitespace becomes one "_". */
  function SpacesToUnderscore(s: string): string
    decreases |s|
  {
    if |s| == 0 then ""
    else if IsSpace(s[0]) then "_" + SpacesToUnderscore(StripLeft(s[1..], IsSpace))
    else [s[0]] + SpacesToUnderscore(s[1..])
  }

  predicate IsNameChar(c: char)
  {
    ('a' <= c <= 'z') || ('0' <= c <= '9') || c == '_'
  }

  predicate IsUnderscore(c: char) { c == '_' }

  /** No two consecutive underscores. */
  predicate NoDoubleUnderscore(s: string)
  {
    forall i :: 0 <= i < |s| - 1 ==> !(s[i] == '_' && s[i + 1] == '_')
  }

  /** `re.sub(r"_+", "_", s)`: every run of underscores becomes one. */
  function CollapseUnderscores(s: string): (r: string)
    ensures |r| > 0 <==> |s| > 0
    ensures |s| > 0 ==> r[0] == s[0]
    ensures forall i :: 0 <= i < |r| ==> r[i] in s
    ensures NoDoubleUnderscore(r)
    decreases |s|
  {
    if |s| == 0 then ""
    else if s[0] == '_' then
      var tail := StripLeft(s[1..], IsUnderscore);
      var rest := CollapseUnderscores(tail);
      CollapseStep(s, tail, rest);
      "_" + rest
    else
      var rest := CollapseUnderscores(s[1..]);
      CollapseStep(s, s[1..], rest);
      [s[0]] + rest
  }

  /** One step of the collapse: the head of s in front of the collapsed
      tail keeps the characters of s and creates no "__". */
  lemma CollapseStep(s: string, tail: string, rest: string)
    requires |s| > 0 && |tail| < |s| && tail == s[|s| - |tail|..]
    requires forall i :: 0 <= i < |rest| ==> rest[i] in tail
    requires NoDoubleUnderscore(rest)
    requires |rest| > 0 ==> |tail| > 0 && rest[0] == tail[0]
    requires s[0] == '_' ==> |tail| == 0 || tail[0] != '_'
    ensures forall i :: 0 <= i < |rest| + 1 ==> ([s[0]] + rest)[i] in s
    ensures NoDoubleUnderscore([s[0]] + rest)
  {
    var r := [s[0]] + rest;
    forall i | 0 <= i < |r|
      ensures r[i] in s
    {
      if i > 0 {
        var k :| 0 <= k < |tail| && tail[k] == rest[i - 1];
        assert tail[k] == s[|s| - |tail| + k];
      }
    }
    forall i | 0 <= i < |r| - 1
      ensures !(r[i] == '_' && r[i + 1] == '_')
    {
      if i > 0 {
        assert r[i] == rest[i - 1] && r[i + 1] == rest[i];
      }
    }
  }

  /** A cleaned name: non-empty, over [a-z0-9_], with no leading, trailing
      or doubled underscore. */
  predicate WellFormedName(s: string)
  {
    && |s| > 0
    && (forall i :: 0 <= i < |s| ==> IsNameChar(s[i]))
    && s[0] != '_' && s[|s| - 1] != '_'
    && NoDoubleUnderscore(s)
  }

  /** The last three regular-expression steps: drop characters outside
      [a-z0-9_], collapse and strip underscores, fall back to
      "var_transformador" when nothing is left. */
  function Tidy(s: string): (r: string)
    ensures WellFormedName(r)
  {
    var kept := Filter(s, IsNameChar);
    var collapsed := CollapseUnderscores(kept);
    var stripped := Strip(collapsed, IsUnderscore);
    StrippedWellFormed(collapsed, stripped);
    FallbackWellFormed(FallbackName);
    if |stripped| == 0 then FallbackName else stripped
  }

  const FallbackName: string := "var_transformador"

  lemma FallbackWellFormed(name: string)
    requires name == FallbackName
    ensures WellFormedName(name)
  {
  }

  /** Stripping underscores off a collapsed name of name characters leaves a
      well-formed name or nothing. */
  lemma StrippedWellFormed(collapsed: string, stripped: string)
    requires forall c :: c in collapsed ==> IsNameChar(c)
    requires NoDoubleUnderscore(collapsed)
    requires stripped == Strip(collapsed, IsUnderscore)
    ensures |stripped| > 0 ==> WellFormedName(stripped)
  {
    SliceKeepsShape(collapsed, stripped);
  }

  /** A contiguous slice keeps the characters and the absence of "__". */
  lemma SliceKeepsShape(s: string, r: string)
    requires (forall i :: 0 <= i < |s| ==> IsNameChar(s[i])) || (forall c :: c in s ==> IsNameChar(c))
    requires NoDoubleUnderscore(s)
    requires exists i, j :: 0 <= i <= j <= |s| && r == s[i..j]
    ensures forall i :: 0 <= i < |r| ==> IsNameChar(r[i])
    ensures NoDoubleUnderscore(r)
  {
    var i, j :| 0 <= i <= j <= |s| && r == s[i..j];
    forall k | 0 <= k < |r|
      ensures IsNameChar(r[k])
    {
      assert r[k] == s[i + k] && s[i + k] in s;
    }
    forall k | 0 <= k < |r| - 1
      ensures !(r[k] == '_' && r[k + 1] == '_')
    {
      assert r[k] == s[i + k] && r[k + 1] == s[i + k + 1];
    }
  }

  /** The name-normalisation pipeline for a name outside the mapping. */
  function Normalise(c: string): string
  {
    ReplacementKeysNonEmpty();
    var replaced := ApplyReplacements(Lower(c), Replacements);
    Tidy(SpacesToUnderscore(UnaccentAll(replaced)))
  }

  /** The mapping's target for a consolidated tag name, if it has one,
      looked up from entry `from` on. */
  function Lookup(c: string, from: nat): (m: Option<string>)
    requires from <= |NameMapping|
    ensures m.Some? <==> exists k :: from <= k < |NameMapping| && NameMapping[k].0 == c
    ensures m.Some? ==> exists k :: from <= k < |NameMapping| && NameMapping[k] == (c, m.value)
    decreases |NameMapping| - from
  {
    if from == |NameMapping| then None
    else if NameMapping[from].0 == c then Some(NameMapping[from].1)
    else Lookup(c, from + 1)
  }

  function Mapped(c: string): Option<string>
  {
    Lookup(c, 0)
  }

  /** The cleaned name of one column, before de-duplication. */
  function Rename(c: string): string
  {
    match Mapped(c)
    case Some(target) => target
    case None => Normalise(c)
  }

  /** Names outside the mapping come out as cleaned names. */
  lemma RenameWellFormed(c: string)
    requires Mapped(c).None?
    ensures WellFormedName(Rename(c))
  {
    NormaliseWellFormed(c);
  }

  lemma NormaliseWellFormed(c: string)
    ensures WellFormedName(Normalise(c))
  {
  }

  // ----------------------------------------------------------- de-duplication

  /** `f"{n}_{k}"` for a repeat, n itself for k = 0. */
  function Suffixed(n: string, k: nat): string
  {
    if k == 0 then n else n + "_" + NatToString(k)
  }

  /** Reference definition of `_dedupe` at position j: the k-th repeat (k
      earlier occurrences of the same input name) gets suffix "_k". */
  function DedupeAt(names: seq<string>, j: nat): string
    requires j < |names|
  {
    Suffixed(names[j], Count(names[..j], names[j]))
  }

  /** `seen` holds exactly the names of `prefix`, each with its number of
      repeats (occurrences after the first). */
  ghost predicate SeenCounts(seen: map<string, nat>, prefix: seq<string>)
  {
    forall n :: (n in seen <==> n in prefix) && (n in seen ==> seen[n] + 1 == Count(prefix, n))
  }

  /** Processing names[i] keeps `seen` up to date and emits the reference
      definition's name. */
  lemma SeenStep(seen: map<string, nat>, names: seq<string>, i: nat)
    requires i < |names| && SeenCounts(seen, names[..i])
    ensures names[i] in seen ==>
      && SeenCounts(seen[names[i] := seen[names[i]] + 1], names[..i + 1])
      && names[i] + "_" + NatToString(seen[names[i]] + 1) == DedupeAt(names, i)
    ensures names[i] !in seen ==>
      SeenCounts(seen[names[i] := 0], names[..i + 1]) && names[i] == DedupeAt(names, i)
  {
    assert names[..i + 1] == names[..i] + [names[i]];
    assert names[..i + 1][..i] == names[..i];
  }

  /** `_dedupe`: `seen` maps each input name to its number of repeats so far. */
  method Dedupe(names: seq<string>) returns (out: seq<string>)
    ensures |out| == |names|
    ensures forall j :: 0 <= j < |names| ==> out[j] == DedupeAt(names, j)
  {
    var seen: map<string, nat> := map[];
    out := [];
    for i := 0 to |names|
      invariant |out| == i
      invariant forall j :: 0 <= j < i ==> out[j] == DedupeAt(names, j)
      invariant SeenCounts(seen, names[..i])
    {
      var n := names[i];
      SeenStep(seen, names, i);
      var x;
      if n in seen {
        seen := seen[n := seen[n] + 1];
        x := n + "_" + NatToString(seen[n]);
      } else {
        seen := seen[n := 0];
        x := n;
      }
      out := out + [x];
    }
  }

  /** A name's first occurrence is kept unchanged; the order is kept. */
  lemma DedupeKeepsFirst(names: seq<string>, i: nat)
    requires i < |names| && names[i] !in names[..i]
    ensures DedupeAt(names, i) == names[i]
  {
  }

  /** Repeats are suffixed with their rank among the earlier copies. */
  lemma DedupeSuffixesRepeat(names: seq<string>, i: nat, j: nat)
    requires i < j < |names| && names[i] == names[j]
    ensures DedupeAt(names, j) == names[j] + "_" + NatToString(Count(names[..j], names[j]))
  {
    assert names[i] in names[..j];
  }

  /** The output need not be unique: a generated suffix can collide with a
      later input name. */
  lemma DedupeNotUnique()
    ensures DedupeAt(["a", "a", "a_1"], 0) == "a"
    ensures DedupeAt(["a", "a", "a_1"], 1) == "a_1" == DedupeAt(["a", "a", "a_1"], 2)
  {
    var names := ["a", "a", "a_1"];
    var r := seq(3, j requires 0 <= j < 3 => DedupeAt(names, j));
    assert NatToString(1) == "1" by {
      assert DigitChar(1) == '1';
    }
    assert names[..0] == [] && names[..1] == ["a"] && names[..2] == ["a", "a"];
    assert Count(names[..1], "a") == 1;
    assert Count(names[..2], "a_1") == 0;
    assert r[0] == "a";
    assert r[1] == "a" + "_" + "1";
    assert r[2] == "a_1";
  }

  /** Every column renamed, before de-duplication. */
  function Renamed(columns: seq<string>): (r: seq<string>)
    ensures |r| == |columns|
  {
    if |columns| == 0 then []
    else Renamed(columns[..|columns| - 1]) + [Rename(columns[|columns| - 1])]
  }

  /** The rewriting of one name outside the mapping: lower-case, then each
      Spanish term replaced in table order, then the regular expressions. */
  method NormaliseName(c: string) returns (name: string)
    ensures name == Normalise(c)
  {
    ReplacementKeysNonEmpty();
    name := Lower(c);
    for r := 0 to |Replacements|
      invariant name == ApplyReplacements(Lower(c), Replacements[..r])
    {
      assert Replacements[..r + 1][..r] == Replacements[..r];
      name := ReplaceAll(name, Replacements[r].0, Replacements[r].1);
    }
    assert Replacements[..|Replacements|] == Replacements;
    name := Tidy(SpacesToUnderscore(UnaccentAll(name)));
  }

  /** `limpiar_nombres_columnas_transformador`: mapped names are renamed
      directly, the others are normalised, and the list is de-duplicated. */
  method CleanColumnNames(columns: seq<string>) returns (names: seq<string>)
    ensures |names| == |columns|
    ensures forall j :: 0 <= j < |columns| ==> names[j] == DedupeAt(Renamed(columns), j)
  {
    var cols: seq<string> := [];
    for i := 0 to |columns|
      invariant cols == Renamed(columns[..i])
    {
      var name: string;
      match Mapped(columns[i]) {
        case Some(target) =>
          name := target;
        case None =>
          name := NormaliseName(columns[i]);
      }
      assert columns[..i + 1][..i] == columns[..i];
      cols := cols + [name];
    }
    assert columns[..|columns|] == columns;
    names := Dedupe(cols);
  }

  // ---------------------------------------------------------- range masking

  /** Technical ranges; the first key contained in the lower-cased column
      name decides. */
  const Ranges: seq<(string, (real, real))> := [
    ("temp", (-50.0, 200.0)), ("oil", (0.0, 150.0)), ("hot", (0.0, 180.0)),
    ("ambient", (-40.0, 60.0)), ("current", (0.0, 5000.0)), ("voltage", (0.0, 50000.0)),
    ("power", (0.0, 100000.0)), ("position", (0.0, 20.0)), ("tap", (0.0, 20.0))
  ]

  /** Index of the first range key contained in `lc`, if any. */
  function FirstRangeKey(lc: string, from: nat): (r: Option<nat>)
    requires from <= |Ranges|
    ensures r.Some? ==> from <= r.value < |Ranges| && Contains(lc, Ranges[r.value].0)
    ensures r.Some? ==> forall k :: from <= k < r.value ==> !Contains(lc, Ranges[k].0)
    ensures r.None? ==> forall k :: from <= k < |Ranges| ==> !Contains(lc, Ranges[k].0)
    decreases |Ranges| - from
  {
    if from == |Ranges| then None
    else if Contains(lc, Ranges[from].0) then Some(from)
    else FirstRangeKey(lc, from + 1)
  }

  /** A cell strictly outside [mn, mx] becomes NaN; NaN stays NaN. */
  function MaskCell(c: Cell, mn: real, mx: real): (r: Cell)
    ensures r.NaN? || (r == c && r.Fin? && mn <= r.v <= mx)
  {
    if Lt(c, Fin(mn)) || Gt(c, Fin(mx)) then NaN else c
  }

  function Masked(cells: seq<Cell>, mn: real, mx: real): (r: seq<Cell>)
    ensures |r| == |cells|
    ensures forall i :: 0 <= i < |cells| ==> r[i] == MaskCell(cells[i], mn, mx)
  {
    seq(|cells|, i requires 0 <= i < |cells| => MaskCell(cells[i], mn, mx))
  }

  /** The cells of a column after conversion: masked with the first matching
      range, unchanged when no key matches. */
  function Converted(c: Column): Column
  {
    match FirstRangeKey(Lower(c.name), 0)
    case None => Column(c.name, true, c.cells)
    case Some(k) => Column(c.name, true, Masked(c.cells, Ranges[k].1.0, Ranges[k].1.1))
  }

  /** `df[col]` on a name that labels more than one column is a table,
      and `pd.to_numeric` refuses it with a TypeError. */
  datatype ConvertError = RepeatedColumn(name: string)

  /** The j-th column's name labels another column too. */
  predicate Repeated(df: seq<Column>, j: nat)
    requires j < |df|
  {
    exists l :: 0 <= l < |df| && l != j && df[l].name == df[j].name
  }

  /** `convertir_tipos_transformador`: every column is coerced to numeric and
      masked with the first range whose key its lower-cased name contains;
      the first column, in table order, whose name is repeated stops it. */
  method ConvertTypes(df: seq<Column>) returns (r: Result<seq<Column>, ConvertError>)
    ensures r.Err? <==> exists i, j :: 0 <= i < j < |df| && df[i].name == df[j].name
    ensures r.Err? ==> exists j :: 0 <= j < |df| && Repeated(df, j) && r.error == RepeatedColumn(df[j].name)
                                   && forall l :: 0 <= l < j ==> !Repeated(df, l)
    ensures r.Ok? ==> |r.value| == |df| && forall j :: 0 <= j < |df| ==> r.value[j] == Converted(df[j])
  {
    var out := [];
    for j := 0 to |df|
      invariant |out| == j
      invariant forall l :: 0 <= l < j ==> out[l] == Converted(df[l])
      invariant forall l :: 0 <= l < j ==> !Repeated(df, l)
    {
      var col := df[j];
      if Repeated(df, j) {
        assert exists i, i' :: 0 <= i < i' < |df| && df[i].name == df[i'].name by {
          var l :| 0 <= l < |df| && l != j && df[l].name == df[j].name;
          if l < j { assert df[l].name == df[j].name; } else { assert df[j].name == df[l].name; }
        }
        return Err(RepeatedColumn(col.name));
      }
      var s := col.cells;
      var lc := Lower(col.name);
      for k := 0 to |Ranges|
        invariant FirstRangeKey(lc, 0) == FirstRangeKey(lc, k)
        invariant s == col.cells
      {
        if Contains(lc, Ranges[k].0) {
          s := Masked(s, Ranges[k].1.0, Ranges[k].1.1);
          break;
        }
      }
      out := out + [Column(col.name, true, s)];
    }
    assert forall i, i' :: 0 <= i < i' < |df| ==> df[i].name != df[i'].name by {
      forall i, i' | 0 <= i < i' < |df| ensures df[i].name != df[i'].name {
        assert !Repeated(df, i);
      }
    }
    return Ok(out);
  }

  /** After conversion a ranged column holds only NaN and values inside its
      range, bounds included; the row count is unchanged. */
  lemma ConvertedWithinRange(c: Column, k: nat)
    requires FirstRangeKey(Lower(c.name), 0) == Some(k)
    ensures |Converted(c).cells| == |c.cells|
    ensures forall i :: 0 <= i < |c.cells| ==>
      Converted(c).cells[i].NaN? ||
      (Converted(c).cells[i] == c.cells[i] && Ranges[k].1.0 <= c.cells[i].v <= Ranges[k].1.1)
  {
  }

  /** Only the first matching key is applied: any name containing "temp",
      such as "temp_oil_value", is checked against the temperature range
      (-50, 200) even when it also contains "oil" (range (0, 150)). */
  lemma TempKeyWinsOverOil(name: string)
    requires Contains(Lower(name), "temp")
    ensures FirstRangeKey(Lower(name), 0) == Some(0)
    ensures Ranges[0].1 == (-50.0, 200.0) && Ranges[1] == ("oil", (0.0, 150.0))
  {
    assert Ranges[0].0 == "temp";
  }

  // ------------------------------------------------------ missing analysis

  /** Variable families and their name terms; "Otras" has no terms. */
  const Categories: seq<(string, seq<string>)> := [
    ("Térmica", ["temp", "oil", "hot", "ambient", "bubbling"]),
    ("Eléctrica", ["current", "voltage", "power", "apparent"]),
    ("Mecánica", ["position", "tap"]),
    ("Otras", [])
  ]

  /** A column is tagged when some category term occurs in its name. */
  predicate Tagged(name: string)
  {
    exists k :: 0 <= k < |Categories| && MatchesAny(name, Categories[k].1)
  }

  /** The columns of one category: those matching one of its terms; for
      "Otras" (no terms), the columns no category tags. */
  function CategoryColumns(df: seq<Column>, terms: seq<string>, isOther: bool): (cols: seq<Column>)
    ensures IsSubsequence(cols, df)
    ensures !isOther ==> forall c :: c in cols <==> c in df && MatchesAny(c.name, terms)
    ensures isOther ==> forall c :: c in cols <==> c in df && !Tagged(c.name)
  {
    if isOther then Filter(df, (c: Column) => !Tagged(c.name))
    else Filter(df, (c: Column) => MatchesAny(c.name, terms))
  }

  datatype CategoryStat = CategoryStat(category: string, columns: nat, missing: nat, percent: real)

  datatype GlobalStat = GlobalStat(
    totalValues: nat, totalMissing: nat, percentTotal: real, affectedColumns: nat, totalColumns: nat)

  datatype MissingReport = MissingReport(categories: seq<CategoryStat>, global: GlobalStat)

  /** The columns of the j-th category. */
  function ColsOf(df: seq<Column>, j: nat): seq<Column>
    requires j < |Categories|
  {
    CategoryColumns(df, Categories[j].1, Categories[j].0 == "Otras")
  }

  /** s is the entry of the j-th category: its name, its column count, the
      NaN cells of its columns and their share of its cells in percent. */
  predicate StatFor(df: seq<Column>, n: nat, j: nat, s: CategoryStat)
    requires j < |Categories|
  {
    && s.category == Categories[j].0
    && s.columns == |ColsOf(df, j)| > 0
    && s.missing == TotalNaN(ColsOf(df, j))
    && s.missing <= s.columns * n
    && s.percent == Percent(s.missing, s.columns * n)
  }

  predicate HasMissing(c: Column) { CountNaN(c.cells) > 0 }

  lemma CategoryNamesDistinct()
    ensures forall a, b :: 0 <= a < b < |Categories| ==> Categories[a].0 != Categories[b].0
  {
    assert Categories[0].0[0] == 'T' && Categories[1].0[0] == 'E';
    assert Categories[2].0[0] == 'M' && Categories[3].0[0] == 'O';
  }

  /** The entries of the categories from the k-th on, in table order: one
      per category with columns. */
  function CategoryStats(df: seq<Column>, n: nat, k: nat): (r: seq<CategoryStat>)
    requires Rectangular(df, n) && k <= |Categories|
    decreases |Categories| - k
  {
    if k == |Categories| then []
    else
      var cols := ColsOf(df, k);
      var rest := CategoryStats(df, n, k + 1);
      if |cols| == 0 then rest
      else
        ColsRectangular(df, n, k);
        TotalNaNBound(cols, n);
        var missing := TotalNaN(cols);
        [CategoryStat(Categories[k].0, |cols|, missing, Percent(missing, |cols| * n))] + rest
  }

  lemma ColsRectangular(df: seq<Column>, n: nat, k: nat)
    requires Rectangular(df, n) && k < |Categories|
    ensures Rectangular(ColsOf(df, k), n)
  {
    var cols := ColsOf(df, k);
    forall j | 0 <= j < |cols| ensures |cols[j].cells| == n {
      assert cols[j] in cols;
    }
  }

  /** The entries from the k-th category on: the first one, when that
      category has columns, is its entry, followed by the later ones. */
  lemma CategoryStatsUnfold(df: seq<Column>, n: nat, k: nat)
    requires Rectangular(df, n) && k < |Categories|
    ensures |ColsOf(df, k)| == 0 ==> CategoryStats(df, n, k) == CategoryStats(df, n, k + 1)
    ensures |ColsOf(df, k)| > 0 ==>
      && |CategoryStats(df, n, k)| > 0
      && StatFor(df, n, k, CategoryStats(df, n, k)[0])
      && CategoryStats(df, n, k) == [CategoryStats(df, n, k)[0]] + CategoryStats(df, n, k + 1)
  {
    var cols := ColsOf(df, k);
    if |cols| > 0 {
      ColsRectangular(df, n, k);
      TotalNaNBound(cols, n);
      var head := CategoryStat(Categories[k].0, |cols|, TotalNaN(cols), Percent(TotalNaN(cols), |cols| * n));
      assert CategoryStats(df, n, k) == [head] + CategoryStats(df, n, k + 1);
      assert StatFor(df, n, k, head);
    }
  }

  /** s is the entry of one of the categories from the k-th on. */
  predicate ListedFrom(df: seq<Column>, n: nat, k: nat, s: CategoryStat)
  {
    exists j :: k <= j < |Categories| && StatFor(df, n, j, s)
  }

  /** Every entry from the k-th category on is the entry of its category. */
  lemma {:induction false} CategoryStatsSound(df: seq<Column>, n: nat, k: nat)
    requires Rectangular(df, n) && k <= |Categories|
    ensures forall s :: s in CategoryStats(df, n, k) ==> ListedFrom(df, n, k, s)
    decreases |Categories| - k
  {
    if k < |Categories| {
      CategoryStatsSound(df, n, k + 1);
      CategoryStatsUnfold(df, n, k);
      var r, rest := CategoryStats(df, n, k), CategoryStats(df, n, k + 1);
      forall s | s in r ensures ListedFrom(df, n, k, s) {
        if s in rest {
          ListedFromEarlier(df, n, k, s);
        } else {
          assert s == r[0] && StatFor(df, n, k, s);
        }
      }
    }
  }

  lemma ListedFromEarlier(df: seq<Column>, n: nat, k: nat, s: CategoryStat)
    requires ListedFrom(df, n, k + 1, s)
    ensures ListedFrom(df, n, k, s)
  {
    var j :| k + 1 <= j < |Categories| && StatFor(df, n, j, s);
    assert k <= j;
  }

  /** A category with columns, from the k-th on, has its entry. */
  lemma {:induction false} CategoryStatsComplete(df: seq<Column>, n: nat, k: nat)
    requires Rectangular(df, n) && k <= |Categories|
    ensures forall j :: k <= j < |Categories| && |ColsOf(df, j)| > 0 ==>
      exists s :: s in CategoryStats(df, n, k) && StatFor(df, n, j, s)
    decreases |Categories| - k
  {
    if k < |Categories| {
      CategoryStatsComplete(df, n, k + 1);
      CategoryStatsUnfold(df, n, k);
      var r, rest := CategoryStats(df, n, k), CategoryStats(df, n, k + 1);
      forall j | k <= j < |Categories| && |ColsOf(df, j)| > 0
        ensures exists s :: s in r && StatFor(df, n, j, s)
      {
        if j == k {
          assert r[0] in r && StatFor(df, n, j, r[0]);
        } else {
          var s :| s in rest && StatFor(df, n, j, s);
          assert s in r;
        }
      }
    }
  }

  /** A category without columns, from the k-th on, has no entry. */
  lemma CategoryStatsOmitEmpty(df: seq<Column>, n: nat, k: nat)
    requires Rectangular(df, n) && k <= |Categories|
    ensures forall j :: k <= j < |Categories| && |ColsOf(df, j)| == 0 ==>
      forall s :: s in CategoryStats(df, n, k) ==> s.category != Categories[j].0
  {
    CategoryStatsSound(df, n, k);
    forall j, s | k <= j < |Categories| && |ColsOf(df, j)| == 0 && s in CategoryStats(df, n, k)
      ensures s.category != Categories[j].0
    {
      assert ListedFrom(df, n, k, s);
      var i :| k <= i < |Categories| && StatFor(df, n, i, s);
      CategoryNamesDistinct();
      assert i != j;
    }
  }

  /** `analizar_valores_faltantes_transformador` over a table of n rows. */
  function AnalyzeMissing(df: seq<Column>, n: nat): (r: MissingReport)
    requires Rectangular(df, n)
    ensures r.global.totalValues == |df| * n && r.global.totalColumns == |df|
    ensures r.global.totalMissing == TotalNaN(df) <= |df| * n
    ensures r.global.percentTotal == Percent(TotalNaN(df), |df| * n)
    ensures r.global.affectedColumns == CountWhere(df, HasMissing) <= |df|
    ensures forall s :: s in r.categories ==> exists j :: 0 <= j < |Categories| && StatFor(df, n, j, s)
    ensures forall j :: 0 <= j < |Categories| ==>
      (|ColsOf(df, j)| > 0 <==> exists s :: s in r.categories && s.category == Categories[j].0)
    ensures forall s :: s in r.categories ==> s.columns > 0 && 0.0 <= s.percent <= 100.0
  {
    TotalNaNBound(df, n);
    CategoryStatsSound(df, n, 0);
    CategoryStatsComplete(df, n, 0);
    CategoryStatsOmitEmpty(df, n, 0);
    var missing := TotalNaN(df);
    var stats := CategoryStats(df, n, 0);
    MissingReport(
      stats,
      GlobalStat(|df| * n, missing, Percent(missing, |df| * n), CountWhere(df, HasMissing), |df|))
  }

  /** Nothing is missing iff no column is affected. */
  lemma {:induction false} NoMissingIffNoAffected(df: seq<Column>)
    ensures TotalNaN(df) == 0 <==> CountWhere(df, HasMissing) == 0
  {
    if |df| > 0 {
      NoMissingIffNoAffected(df[..|df| - 1]);
    }
  }

  /** A category is reported iff it has at least one column, in table order;
      "Otras" gathers exactly the columns no category term matches. */
  lemma {:induction false} CategoryReported(df: seq<Column>, n: nat, k: nat, c: Column)
    requires Rectangular(df, n) && k < |Categories| && c in df
    ensures (Categories[k].0 == "Otras") == (k == 3)
    ensures k < 3 && MatchesAny(c.name, Categories[k].1) ==>
      exists s :: s in CategoryStats(df, n, k) && s.category == Categories[k].0
    ensures k == 3 && !Tagged(c.name) ==>
      exists s :: s in CategoryStats(df, n, k) && s.category == "Otras"
  {
    var cat := Categories[k];
    var cols := CategoryColumns(df, cat.1, cat.0 == "Otras");
    if (k < 3 && MatchesAny(c.name, cat.1)) || (k == 3 && !Tagged(c.name)) {
      assert c in cols;
      assert CategoryStats(df, n, k)[0].category == cat.0;
    }
  }
}
