/**
 * The orchestration of `generate_dashboard` that decides what is shown: the
 * contrast, entity-type and TE-level filters with their errors, the
 * metadata counts and database list, the output path, and the labels of the
 * contrast index page.
 */
module Dashboard {
  import opened Wrappers
  import opened Strings
  import opened Table
  import HtmlGenerator

  /** The ValueErrors `generate_dashboard` raises before any output is written. */
  datatype DashboardError =
    | NoData
    | NoDataForContrast(contrast: string, available: seq<Cell>)
    | NothingAfterFiltering

  /** Python truthiness of an optional string argument: None and "" are false. */
  predicate Truthy(s: Option<string>) {
    s.Some? && s.value != ""
  }

  // ---------------------------------------------------------------------------
  // The filters
  // ---------------------------------------------------------------------------

  /** `df['contrast'] == contrast`: a NaN cell matches nothing. */
  predicate InContrast(row: Row, contrast: string) {
    "contrast" in row && CellEquals(row["contrast"], Text(contrast))
  }

  /** `df['entity_type'].isin(entity_types)` */
  predicate OfEntityType(row: Row, types: seq<string>) {
    "entity_type" in row && row["entity_type"].Text? && row["entity_type"].text in types
  }

  /** The TE database kept for a TE level: `"TE_" + te_level.capitalize()`. */
  function TeFilter(teLevel: string): (db: string)
    ensures StartsWith(db, "TE_") && |db| == 3 + |teLevel|
    ensures db[3..] == Capitalize(teLevel)
  {
    "TE_" + Capitalize(teLevel)
  }

  /** The two levels the driver knows select 'TE_Family' and 'TE_Class'. */
  lemma TeFilterLevels()
    ensures TeFilter("family") == "TE_Family" && TeFilter("class") == "TE_Class"
  {
    assert Capitalize("family") == "Family";
    assert Capitalize("class") == "Class";
  }

  /** Non-TE rows, and TE rows of the selected level. */
  predicate AtTeLevel(row: Row, teLevel: string) {
    "database" in row && (!StartsWith(Str(row["database"]), "TE_") || row["database"] == Text(TeFilter(teLevel)))
  }

  /** The rows after the contrast filter (applied only with a contrast and a 'contrast' column). */
  function ContrastStage(columns: set<string>, rows: seq<Row>, contrast: Option<string>): seq<Row> {
    if Truthy(contrast) && "contrast" in columns then Where(rows, row => InContrast(row, contrast.value)) else rows
  }

  /** The rows after the entity-type filter (applied only with a non-empty list and an 'entity_type' column). */
  function TypeStage(columns: set<string>, rows: seq<Row>, types: Option<seq<string>>): seq<Row> {
    if types.Some? && |types.value| > 0 && "entity_type" in columns then Where(rows, row => OfEntityType(row, types.value)) else rows
  }

  /** The rows after the TE-level filter (applied only with a non-empty level and a 'database' column). */
  function TeStage(columns: set<string>, rows: seq<Row>, teLevel: string): seq<Row> {
    if teLevel != "" && "database" in columns then Where(rows, row => AtTeLevel(row, teLevel)) else rows
  }

  /** The rows the three filters leave, in their original order. */
  function Selected(columns: set<string>, rows: seq<Row>, contrast: Option<string>,
                    types: Option<seq<string>>, teLevel: string): seq<Row> {
    TeStage(columns, TypeStage(columns, ContrastStage(columns, rows, contrast), types), teLevel)
  }

  /**
   * A row survives the filters exactly when it has the requested contrast,
   * one of the requested entity types and, if it is a TE row, the requested
   * TE level, each test applying only when its argument and column are present.
   */
  lemma SelectedMembership(columns: set<string>, rows: seq<Row>, contrast: Option<string>,
                           types: Option<seq<string>>, teLevel: string, x: Row)
    ensures x in Selected(columns, rows, contrast, types, teLevel) <==>
      && x in rows
      && (Truthy(contrast) && "contrast" in columns ==> InContrast(x, contrast.value))
      && (types.Some? && |types.value| > 0 && "entity_type" in columns ==> OfEntityType(x, types.value))
      && (teLevel != "" && "database" in columns ==> AtTeLevel(x, teLevel))
  {
    var r1 := ContrastStage(columns, rows, contrast);
    var r2 := TypeStage(columns, r1, types);
    assert x in r1 <==> x in rows && (Truthy(contrast) && "contrast" in columns ==> InContrast(x, contrast.value));
    assert x in r2 <==> x in r1 && (types.Some? && |types.value| > 0 && "entity_type" in columns ==> OfEntityType(x, types.value));
  }

  /** A row of another TE level is never kept, whatever else it has. */
  lemma OtherTeLevelDropped(columns: set<string>, rows: seq<Row>, contrast: Option<string>,
                            types: Option<seq<string>>, teLevel: string, x: Row)
    requires teLevel != "" && "database" in columns && "database" in x
    requires StartsWith(Str(x["database"]), "TE_") && x["database"] != Text(TeFilter(teLevel))
    ensures x !in Selected(columns, rows, contrast, types, teLevel)
  {
    SelectedMembership(columns, rows, contrast, types, teLevel, x);
  }

  /**
   * pandas `unique()`: the distinct cells in order of first appearance (NaN
   * listed once).
   */
  function UniqueCells(col: seq<Cell>): (u: seq<Cell>)
    ensures forall c :: c in u <==> c in col
    ensures forall s, t :: 0 <= s < t < |u| ==> u[s] != u[t]
  {
    if |col| == 0 then []
    else
      var u := UniqueCells(col[..|col| - 1]);
      var x := col[|col| - 1];
      assert forall c :: c in col <==> c in col[..|col| - 1] || c == x by {
        assert col == col[..|col| - 1] + [x];
      }
      if x in u then u else u + [x]
  }

  /** The available-contrast list of the error, computed from an empty table, has nothing in it. */
  lemma AvailableIsEmpty(rows: seq<Row>)
    requires |rows| == 0
    ensures UniqueCells(Column(rows, "contrast")) == []
  {
  }

  /**
   * The filtering part of `generate_dashboard`: each filter that applies
   * replaces the frame with a filtered copy, and the three emptiness checks
   * raise in the order the source makes them. The contrast error lists the
   * contrasts of the already-filtered (empty) table.
   */
  method SelectEntities(df: Frame, contrast: Option<string>, entityTypes: Option<seq<string>>, teLevel: string)
    returns (r: Result<Frame, DashboardError>)
    requires df.Valid()
    ensures r.Failure? && r.error == NoData <==> |df.rows| == 0
    ensures r.Failure? && r.error.NoDataForContrast? <==>
      |df.rows| > 0 && Truthy(contrast) && "contrast" in df.columns && |ContrastStage(df.columns, df.rows, contrast)| == 0
    ensures r.Failure? && r.error.NoDataForContrast? ==> r.error == NoDataForContrast(contrast.value, [])
    ensures r.Failure? && r.error == NothingAfterFiltering <==>
      |df.rows| > 0 && !(Truthy(contrast) && "contrast" in df.columns && |ContrastStage(df.columns, df.rows, contrast)| == 0) &&
      |Selected(df.columns, df.rows, contrast, entityTypes, teLevel)| == 0
    ensures r.Success? ==> r.value.Valid() && r.value.columns == df.columns
    ensures r.Success? ==> r.value.rows == Selected(df.columns, df.rows, contrast, entityTypes, teLevel) && |r.value.rows| > 0
  {
    if |df.rows| == 0 {
      return Failure(NoData);
    }
    var cur := df;
    if Truthy(contrast) && "contrast" in cur.columns {
      var c := contrast.value;
      cur := cur.Select(row => InContrast(row, c));
      if |cur.rows| == 0 {
        AvailableIsEmpty(cur.rows);
        return Failure(NoDataForContrast(c, UniqueCells(Column(cur.rows, "contrast"))));
      }
    }
    assert cur.Valid() && cur.columns == df.columns && cur.rows == ContrastStage(df.columns, df.rows, contrast);
    if entityTypes.Some? && |entityTypes.value| > 0 && "entity_type" in cur.columns {
      var types := entityTypes.value;
      cur := cur.Select(row => OfEntityType(row, types));
    }
    if teLevel != "" && "database" in cur.columns {
      cur := cur.Select(row => AtTeLevel(row, teLevel));
    }
    if |cur.rows| == 0 {
      return Failure(NothingAfterFiltering);
    }
    return Success(cur);
  }

  // ---------------------------------------------------------------------------
  // Metadata: entity-type counts, databases, contrast label
  // ---------------------------------------------------------------------------

  /** `(col == c).sum()`: how many cells equal c (a NaN cell equals nothing). */
  function Count(col: seq<Cell>, c: Cell): nat {
    if |col| == 0 then 0
    else Count(col[..|col| - 1], c) + (if CellEquals(col[|col| - 1], c) then 1 else 0)
  }

  /** How many cells are NaN. */
  function MissingCount(col: seq<Cell>): nat {
    if |col| == 0 then 0
    else MissingCount(col[..|col| - 1]) + (if col[|col| - 1].Missing? then 1 else 0)
  }

  /** The total of the counts of the given cells. */
  function SumCounts(keys: seq<Cell>, col: seq<Cell>): nat {
    if |keys| == 0 then 0
    else SumCounts(keys[..|keys| - 1], col) + Count(col, keys[|keys| - 1])
  }

  /**
   * `entity_type_counts`: each distinct entity type mapped to its number of
   * rows; an empty dict when there is no 'entity_type' column.
   */
  method CountEntityTypes(df: Frame) returns (counts: map<Cell, nat>)
    requires df.Valid()
    ensures "entity_type" !in df.columns ==> counts == map[]
    ensures "entity_type" in df.columns ==>
      var col := Column(df.rows, "entity_type");
      && (forall c :: c in counts <==> c in col)
      && (forall c :: c in counts ==> counts[c] == Count(col, c))
  {
    counts := map[];
    if "entity_type" in df.columns {
      var col := Column(df.rows, "entity_type");
      var types := UniqueCells(col);
      for t := 0 to |types|
        invariant forall c :: c in counts <==> c in types[..t]
        invariant forall c :: c in counts ==> counts[c] == Count(col, c)
      {
        counts := counts[types[t] := Count(col, types[t])];
        assert types[..t + 1] == types[..t] + [types[t]];
      }
      assert types[..|types|] == types;
    }
  }

  /** A cell that does not occur is counted zero times. */
  lemma {:induction false} CountAbsent(col: seq<Cell>, c: Cell)
    requires c !in col
    ensures Count(col, c) == 0
  {
    if |col| > 0 {
      assert c !in col[..|col| - 1] by {
        assert forall x :: x in col[..|col| - 1] ==> x in col;
      }
      CountAbsent(col[..|col| - 1], c);
    }
  }

  /** Appending a cell x adds one to the total exactly when x is a non-NaN member of the keys. */
  lemma {:induction false} SumCountsAppend(keys: seq<Cell>, col: seq<Cell>, x: Cell)
    requires forall s, t :: 0 <= s < t < |keys| ==> keys[s] != keys[t]
    ensures SumCounts(keys, col + [x]) == SumCounts(keys, col) + (if x in keys && !x.Missing? then 1 else 0)
  {
    if |keys| > 0 {
      var init := keys[..|keys| - 1];
      var last := keys[|keys| - 1];
      SumCountsAppend(init, col, x);
      assert (col + [x])[..|col + [x]| - 1] == col;
      assert x in keys <==> x in init || x == last by {
        assert keys == init + [last];
      }
      if x == last {
        assert x !in init by {
          forall s | 0 <= s < |init| ensures init[s] != x {
            assert init[s] == keys[s];
          }
        }
      }
    }
  }

  /**
   * The entity-type counts add up to the number of rows, less the rows with
   * a NaN type (NaN is listed by unique() but matches no row).
   */
  lemma {:induction false} CountsSumToRows(col: seq<Cell>)
    ensures SumCounts(UniqueCells(col), col) + MissingCount(col) == |col|
    decreases |col|
  {
    if |col| > 0 {
      var init := col[..|col| - 1];
      var x := col[|col| - 1];
      var u := UniqueCells(init);
      CountsSumToRows(init);
      assert col == init + [x];
      SumCountsAppend(u, init, x);
      if x !in u {
        CountAbsent(init, x);
        assert UniqueCells(col) == u + [x];
        assert (u + [x])[..|u + [x]| - 1] == u;
      }
    }
  }

  /** `sorted(df['database'].unique().tolist())`: every database once, in ascending order. */
  method DatabaseList(df: Frame) returns (databases: seq<string>)
    requires df.Valid() && "database" in df.columns
    requires forall i :: 0 <= i < |df.rows| ==> df.rows[i]["database"].Text?
    ensures StrictlyIncreasing(databases)
    ensures forall d :: d in databases <==> exists i :: 0 <= i < |df.rows| && df.rows[i]["database"] == Text(d)
  {
    var names := set i | 0 <= i < |df.rows| :: df.rows[i]["database"].text;
    databases := SortedList(names);
  }

  /** `contrast or 'All'`, the contrast recorded in the page metadata. */
  function MetadataContrast(contrast: Option<string>): (c: string)
    ensures Truthy(contrast) ==> c == contrast.value
    ensures !Truthy(contrast) ==> c == "All"
  {
    if Truthy(contrast) then contrast.value else "All"
  }

  /** The page names the contrast unless none was given or it is 'All'. */
  lemma DashboardTitle(contrast: Option<string>)
    ensures var t := HtmlGenerator.PageTitle(Some(MetadataContrast(contrast)));
      && (t == HtmlGenerator.TitleBase <==> !Truthy(contrast) || contrast.value == "All")
      && (t != HtmlGenerator.TitleBase ==> t == HtmlGenerator.TitleBase + " - " + contrast.value)
  {
  }

  // ---------------------------------------------------------------------------
  // Output path and the contrast index
  // ---------------------------------------------------------------------------

  /** A filesystem path as its list of components. */
  type Path = seq<string>

  const DashboardPrefix: string := "pathway_explorer_"

  /** The file name of a per-contrast dashboard. */
  function DashboardName(contrast: string): string {
    DashboardPrefix + contrast + ".html"
  }

  /** Where the dashboard is written: the explicit path, else a per-contrast name, else the default name. */
  function OutputFile(outputPath: Option<Path>, contrast: Option<string>, outputDir: Path): (p: Path)
    ensures outputPath.Some? ==> p == outputPath.value
    ensures outputPath.None? ==> |p| == |outputDir| + 1 && p[..|outputDir|] == outputDir
    ensures outputPath.None? ==> p[|outputDir|] == if Truthy(contrast) then DashboardName(contrast.value) else "pathway_explorer.html"
  {
    if outputPath.Some? then outputPath.value
    else if Truthy(contrast) then outputDir + [DashboardName(contrast.value)]
    else outputDir + ["pathway_explorer.html"]
  }

  /** `Path.name`: the last component ('' for the empty path). */
  function Name(p: Path): string {
    if |p| == 0 then "" else p[|p| - 1]
  }

  /** `str.rfind('.')`: the position of the last dot, if any. */
  function LastDot(s: string): (i: Option<nat>)
    ensures i.Some? ==> i.value < |s| && s[i.value] == '.' && forall j :: i.value < j < |s| ==> s[j] != '.'
    ensures i.None? ==> forall j :: 0 <= j < |s| ==> s[j] != '.'
  {
    if |s| == 0 then None
    else if s[|s| - 1] == '.' then Some(|s| - 1)
    else LastDot(s[..|s| - 1])
  }

  /** `Path.stem`: the name without its last suffix; a leading or trailing dot is no suffix. */
  function Stem(name: string): (st: string)
    ensures |st| <= |name| && st == name[..|st|]
  {
    match LastDot(name)
    case Some(i) => if 0 < i < |name| - 1 then name[..i] else name
    case None => name
  }

  /** One entry of the index page: the file to link and its label. */
  datatype Link = Link(href: string, caption: string)

  /** The link of a dashboard file: its name, labelled by its stem with the prefix removed. */
  function LinkOf(f: Path): Link {
    Link(Name(f), ReplaceAll(Stem(Name(f)), DashboardPrefix, ""))
  }

  /** Replacing a pattern at the very start removes it and goes on with the rest. */
  lemma ReplaceAtStart(pat: string, s: string, rep: string)
    requires |pat| > 0
    ensures ReplaceAll(pat + s, pat, rep) == rep + ReplaceAll(s, pat, rep)
  {
    assert (pat + s)[..|pat|] == pat;
    assert (pat + s)[|pat|..] == s;
  }

  /**
   * The index labels a per-contrast dashboard with its contrast, whenever
   * the contrast does not itself contain "pathway_explorer_".
   */
  lemma IndexLabelRoundTrip(contrast: string, outputDir: Path)
    requires contrast != "" && !Occurs(contrast, DashboardPrefix)
    ensures LinkOf(OutputFile(None, Some(contrast), outputDir)) == Link(DashboardName(contrast), contrast)
  {
    assert Name(OutputFile(None, Some(contrast), outputDir)) == DashboardName(contrast);
    DashboardStem(contrast);
    ReplaceAtStart(DashboardPrefix, contrast, "");
    ReplaceAbsent(contrast, DashboardPrefix, "");
  }

  /** The stem of a dashboard name is the name without ".html". */
  lemma DashboardStem(contrast: string)
    ensures Stem(DashboardName(contrast)) == DashboardPrefix + contrast
  {
    var stemmed := DashboardPrefix + contrast;
    var name := DashboardName(contrast);
    assert name == (stemmed + ".") + "html";
    LastDotSuffix(stemmed + ".", "html");
    assert LastDot(name) == Some(|stemmed|);
    assert name[..|stemmed|] == stemmed;
  }

  /** Appending dot-free text leaves the last dot where it was. */
  lemma {:induction false} LastDotSuffix(s: string, t: string)
    requires forall j :: 0 <= j < |t| ==> t[j] != '.'
    ensures LastDot(s + t) == LastDot(s)
    decreases |t|
  {
    if |t| == 0 {
      assert s + t == s;
    } else {
      var init := t[..|t| - 1];
      LastDotSuffix(s, init);
      assert (s + t)[..|s + t| - 1] == s + init;
    }
  }

  /** Python's order on paths: their component lists compared element by element. */
  predicate PathLeq(a: Path, b: Path)
    decreases |a|
  {
    |a| == 0 || (|b| > 0 && (LexLess(a[0], b[0]) || (a[0] == b[0] && PathLeq(a[1..], b[1..]))))
  }

  lemma {:induction false} PathLeqTotal(a: Path, b: Path)
    ensures PathLeq(a, b) || PathLeq(b, a)
    decreases |a|
  {
    if |a| > 0 && |b| > 0 {
      LexLeqTotal(a[0], b[0]);
      if a[0] == b[0] {
        PathLeqTotal(a[1..], b[1..]);
      }
    }
  }

  lemma {:induction false} PathLeqTransitive(a: Path, b: Path, c: Path)
    requires PathLeq(a, b) && PathLeq(b, c)
    ensures PathLeq(a, c)
    decreases |a|
  {
    if |a| > 0 {
      if a[0] == b[0] && b[0] == c[0] {
        PathLeqTransitive(a[1..], b[1..], c[1..]);
      } else {
        LexLeqReflexive(a[0]);
        LexLeqReflexive(b[0]);
        assert LexLeq(a[0], b[0]) && LexLeq(b[0], c[0]);
        LexLeqTransitive(a[0], b[0], c[0]);
        if a[0] == c[0] {
          LexLeqAntisymmetric(a[0], b[0]);
        }
      }
    }
  }

  ghost predicate PathsSorted(s: seq<Path>) {
    forall i, j :: 0 <= i < j < |s| ==> PathLeq(s[i], s[j])
  }

  /** Inserting f after the paths not above it and before the rest keeps the list sorted. */
  lemma InsertKeepsSorted(s: seq<Path>, f: Path, p: int)
    requires PathsSorted(s) && 0 <= p <= |s|
    requires forall t :: 0 <= t < p ==> PathLeq(s[t], f)
    requires p < |s| ==> PathLeq(f, s[p])
    ensures PathsSorted(s[..p] + [f] + s[p..])
  {
    var next := s[..p] + [f] + s[p..];
    assert forall t :: 0 <= t < p ==> next[t] == s[t];
    assert forall t :: p < t < |next| ==> next[t] == s[t - 1];
    forall i, j | 0 <= i < j < |next| ensures PathLeq(next[i], next[j]) {
      if j < p {
      } else if j == p {
        assert next[j] == f;
      } else if i > p {
      } else {
        if j - 1 > p {
          PathLeqTransitive(f, s[p], s[j - 1]);
        }
        assert PathLeq(f, next[j]);
        if i < p {
          PathLeqTransitive(next[i], f, next[j]);
        }
      }
    }
  }

  /** Inserting f anywhere adds f to the multiset. */
  lemma InsertMultiset(s: seq<Path>, f: Path, p: int)
    requires 0 <= p <= |s|
    ensures multiset(s[..p] + [f] + s[p..]) == multiset(s) + multiset{f}
  {
    assert s == s[..p] + s[p..];
  }

  /** `sorted(dashboard_files)` */
  method SortPaths(files: seq<Path>) returns (sorted: seq<Path>)
    ensures PathsSorted(sorted) && multiset(sorted) == multiset(files)
  {
    sorted := [];
    for k := 0 to |files|
      invariant PathsSorted(sorted) && multiset(sorted) == multiset(files[..k])
    {
      var f := files[k];
      var p := 0;
      while p < |sorted| && PathLeq(sorted[p], f)
        invariant 0 <= p <= |sorted|
        invariant forall t :: 0 <= t < p ==> PathLeq(sorted[t], f)
      {
        p := p + 1;
      }
      if p < |sorted| {
        PathLeqTotal(sorted[p], f);
      }
      InsertKeepsSorted(sorted, f, p);
      InsertMultiset(sorted, f, p);
      sorted := sorted[..p] + [f] + sorted[p..];
      assert files[..k + 1] == files[..k] + [f];
    }
    assert files[..|files|] == files;
  }

  /**
   * The links of `generate_index_page`: one per dashboard file, in sorted
   * path order. The ghost `order` is that sorted list.
   */
  method IndexLinks(files: seq<Path>) returns (links: seq<Link>, ghost order: seq<Path>)
    ensures PathsSorted(order) && multiset(order) == multiset(files) && |order| == |files|
    ensures |links| == |files| && forall i :: 0 <= i < |links| ==> links[i] == LinkOf(order[i])
    ensures |links| == |files|
    ensures forall l :: l in links <==> exists f :: f in files && l == LinkOf(f)
  {
    var sorted := SortPaths(files);
    order := sorted;
    assert |sorted| == |multiset(sorted)| == |multiset(files)| == |files|;
    links := [];
    for i := 0 to |sorted|
      invariant |links| == i && forall t :: 0 <= t < i ==> links[t] == LinkOf(sorted[t])
    {
      links := links + [LinkOf(sorted[i])];
    }
    forall l | l in links ensures exists f :: f in files && l == LinkOf(f) {
      var i :| 0 <= i < |links| && links[i] == l;
      assert sorted[i] in multiset(files);
    }
    forall f | f in files ensures LinkOf(f) in links {
      assert f in multiset(sorted);
      var i :| 0 <= i < |sorted| && sorted[i] == f;
      assert links[i] == LinkOf(f);
    }
  }
}
