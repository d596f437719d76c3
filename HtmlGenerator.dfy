/**
 * The data side of the dashboard page: one JSON record per table row, and
 * the page title. The HTML, CSS and JavaScript template text is not modelled.
 */
module HtmlGenerator {
  import opened Wrappers
  import opened Strings
  import opened Table
  import DataLoader
  import Config
  import Similarity
  import Embedding

  /** The neighbour entries stored for an entity: (neighbour id, similarity). */
  type Neighbor = (Cell, real)

  /** One element of the `pathways` list handed to the page. */
  datatype Record = Record(
    id: Cell, name: Cell, fullName: Cell, description: Cell, database: Cell, entityType: Cell,
    nes: real, signedSig: real, padj: real, pvalue: real, setSize: int, leadingEdgeSize: int,
    direction: Cell, x: real, y: real, genes: string, geneCount: nat, neighbors: seq<Neighbor>)

  type Point = Embedding.Point

  /** At most this many genes are written into a record's gene string. */
  const MaxShownGenes: nat := 20

  /** How many genes a record shows: all of them, up to 20. */
  function ShownCount(n: nat): nat {
    if n <= MaxShownGenes then n else MaxShownGenes
  }

  /** The columns every row must have: they are read with `row[...]`. */
  const RequiredColumns: set<string> :=
    {"pathway_id", "display_name", "pathway_name", "database", "nes", "padj", "pvalue", "set_size", "genes"}

  /** `float(c) if pd.notna(c) else default`, for a cell that is numeric or missing. */
  function FloatOr(c: Cell, default: real): (v: real)
    ensures c.Num? ==> v == c.value
    ensures !c.Num? ==> v == default
  {
    if c.Num? then c.value else default
  }

  /** `int(v)`: truncation toward zero. */
  function Trunc(v: real): (n: int)
    ensures n as real <= v < n as real + 1.0 || n as real - 1.0 < v <= n as real
    ensures v >= 0.0 ==> n >= 0 && n as real <= v
    ensures v <= 0.0 ==> n <= 0 && v <= n as real
  {
    if v >= 0.0 then v.Floor else -((-v).Floor)
  }

  /** `int(c) if pd.notna(c) else 0` */
  function IntOrZero(c: Cell): (n: int)
    ensures !c.Num? ==> n == 0
    ensures c.Num? ==> n == Trunc(c.value)
  {
    if c.Num? then Trunc(c.value) else 0
  }

  /** The gene set of a row. */
  function GenesOf(row: Row): set<string>
    requires "genes" in row && row["genes"].Genes?
  {
    row["genes"].genes
  }

  /**
   * `sorted(list(genes)[:20])`: some `min(|genes|, 20)` distinct members of
   * the set (which ones depends on set iteration order), in sorted order.
   */
  ghost predicate IsShownSelection(genes: set<string>, shown: seq<string>) {
    && StrictlyIncreasing(shown)
    && (forall g :: g in shown ==> g in genes)
    && |shown| == ShownCount(|genes|)
  }

  /**
   * The record of one row, given its embedding point, the neighbour map and
   * the gene string chosen for it.
   */
  function RecordOf(columns: set<string>, row: Row, point: Point,
                    neighbors: map<Cell, seq<Neighbor>>, genesText: string): (r: Record)
    requires row.Keys == columns && RequiredColumns <= columns && row["genes"].Genes?
    ensures r.id == row["pathway_id"] && r.geneCount == |GenesOf(row)| && r.genes == genesText
    ensures r.x == point.x && r.y == point.y
    ensures r.description == r.fullName == row["pathway_name"]
    ensures r.entityType == if "entity_type" in columns then row["entity_type"] else Text(Config.DefaultEntityType)
    ensures r.name == row["display_name"] && r.database == row["database"]
    ensures r.nes == FloatOr(row["nes"], 0.0) && (!row["nes"].Num? ==> r.nes == 0.0)
    ensures r.padj == FloatOr(row["padj"], 1.0) && (!row["padj"].Num? ==> r.padj == 1.0)
    ensures r.pvalue == FloatOr(row["pvalue"], 1.0) && (!row["pvalue"].Num? ==> r.pvalue == 1.0)
    ensures r.setSize == IntOrZero(row["set_size"]) && (!row["set_size"].Num? ==> r.setSize == 0)
    ensures "signed_sig" in columns ==> r.signedSig == FloatOr(row["signed_sig"], 0.0)
    ensures "signed_sig" !in columns ==> r.signedSig == 0.0
    ensures "leading_edge_size" !in columns ==> r.leadingEdgeSize == |GenesOf(row)|
    ensures "leading_edge_size" in columns ==> r.leadingEdgeSize == IntOrZero(row["leading_edge_size"])
    ensures "direction" in columns ==> r.direction == row["direction"]
    ensures "direction" !in columns ==>
      (r.direction == Text("Up") <==> row["nes"].Num? && row["nes"].value > 0.0) &&
      (r.direction == Text("Up") || r.direction == Text("Down"))
    ensures r.neighbors == if row["pathway_id"] in neighbors then neighbors[row["pathway_id"]] else []
  {
    var genes := GenesOf(row);
    var leadingEdge := if "leading_edge_size" in columns then IntOrZero(row["leading_edge_size"]) else |genes|;
    var nesUp := row["nes"].Num? && row["nes"].value > 0.0;
    Record(
      id := row["pathway_id"],
      name := row["display_name"],
      fullName := row["pathway_name"],
      description := row["pathway_name"],
      database := row["database"],
      entityType := if "entity_type" in columns then row["entity_type"] else Text(Config.DefaultEntityType),
      nes := FloatOr(row["nes"], 0.0),
      signedSig := if "signed_sig" in columns then FloatOr(row["signed_sig"], 0.0) else 0.0,
      padj := FloatOr(row["padj"], 1.0),
      pvalue := FloatOr(row["pvalue"], 1.0),
      setSize := IntOrZero(row["set_size"]),
      leadingEdgeSize := leadingEdge,
      direction := if "direction" in columns then row["direction"] else Text(if nesUp then "Up" else "Down"),
      x := point.x,
      y := point.y,
      genes := genesText,
      geneCount := |genes|,
      neighbors := if row["pathway_id"] in neighbors then neighbors[row["pathway_id"]] else [])
  }

  /** `list(genes)[:n]` as a set: any n members (all of them when there are fewer). */
  method TakeAny(genes: set<string>, n: nat) returns (taken: set<string>)
    ensures taken <= genes
    ensures |taken| == if |genes| <= n then |genes| else n
  {
    taken := {};
    var rest := genes;
    while rest != {} && |taken| < n
      invariant taken <= genes && rest == genes - taken
      invariant |taken| <= n
      decreases |rest|
    {
      var g :| g in rest;
      taken := taken + {g};
      rest := rest - {g};
    }
    if |taken| < n {
      assert taken == genes;
    }
  }

  /**
   * `prepare_pathway_data(df, embedding, neighbors)`: one record per row,
   * in row order, with x and y from row i of the embedding. The ghost
   * `shown` are the gene lists set iteration order happened to pick.
   */
  method PreparePathwayData(df: Frame, embedding: seq<Point>, neighbors: map<Cell, seq<Neighbor>>)
    returns (pathways: seq<Record>, ghost shown: seq<seq<string>>)
    requires df.Valid() && RequiredColumns <= df.columns
    requires forall i :: 0 <= i < |df.rows| ==> df.rows[i]["genes"].Genes?
    requires |embedding| >= |df.rows|
    ensures |pathways| == |df.rows| && |shown| == |df.rows|
    ensures forall i :: 0 <= i < |df.rows| ==>
      IsShownSelection(GenesOf(df.rows[i]), shown[i]) &&
      pathways[i] == RecordOf(df.columns, df.rows[i], embedding[i], neighbors, Join(shown[i], "/"))
  {
    pathways := [];
    shown := [];
    for i := 0 to |df.rows|
      invariant |pathways| == i && |shown| == i
      invariant forall p :: 0 <= p < i ==>
        IsShownSelection(GenesOf(df.rows[p]), shown[p]) &&
        pathways[p] == RecordOf(df.columns, df.rows[p], embedding[p], neighbors, Join(shown[p], "/"))
    {
      var row := df.rows[i];
      var taken := TakeAny(GenesOf(row), MaxShownGenes);
      var sorted := SortedList(taken);
      var p := RecordOf(df.columns, row, embedding[i], neighbors, Join(sorted, "/"));
      pathways := pathways + [p];
      shown := shown + [sorted];
    }
  }

  // ---------------------------------------------------------------------------
  // Properties of the records
  // ---------------------------------------------------------------------------

  /** A strictly increasing list has no repeats, so its set has as many members as it has elements. */
  lemma {:induction false} IncreasingListCard(s: seq<string>)
    requires StrictlyIncreasing(s)
    ensures |set x | x in s| == |s|
  {
    if |s| > 0 {
      var rest := s[1..];
      assert StrictlyIncreasing(rest) by {
        forall i, j | 0 <= i < j < |rest| ensures LexLess(rest[i], rest[j]) {
          assert rest[i] == s[i + 1] && rest[j] == s[j + 1];
        }
      }
      IncreasingListCard(rest);
      assert s[0] !in rest by {
        forall j | 0 <= j < |rest| ensures rest[j] != s[0] {
          assert rest[j] == s[j + 1];
        }
      }
      assert (set x | x in s) == {s[0]} + (set x | x in rest) by {
        assert s == [s[0]] + rest;
      }
    }
  }

  /** A subset has no more members than its superset. */
  lemma {:induction false} SubsetCard(a: set<string>, b: set<string>)
    requires a <= b
    ensures |a| <= |b|
    decreases |a|
  {
    if a != {} {
      var x :| x in a;
      SubsetCard(a - {x}, b - {x});
    }
  }

  /** An entity with at most 20 genes has every gene written out. */
  lemma AllGenesShownWhenFew(genes: set<string>, shown: seq<string>)
    requires IsShownSelection(genes, shown) && |genes| <= MaxShownGenes
    ensures (set g | g in shown) == genes
  {
    var s := set g | g in shown;
    IncreasingListCard(shown);
    assert s <= genes;
    if s != genes {
      var g :| g in genes && g !in s;
      SubsetCard(s, genes - {g});
    }
  }

  /**
   * The record's gene string parses back, by the loader's gene-parsing rule,
   * to the genes it shows: a subset of the row's genes of size min(|genes|, 20).
   */
  lemma ShownGenesRoundTrip(genes: set<string>, shown: seq<string>)
    requires IsShownSelection(genes, shown) && |genes| > 0
    requires forall g :: g in genes ==> '/' !in g
    requires var s := Join(shown, "/"); s != "nan" && s != "NA" && s != ""
    ensures var parsed := DataLoader.ParseGenes(Text(Join(shown, "/")));
      && parsed <= genes
      && |parsed| == ShownCount(|genes|)
      && (|genes| <= MaxShownGenes ==> parsed == genes)
  {
    DataLoader.GenesRoundTrip(shown);
    IncreasingListCard(shown);
    if |genes| <= MaxShownGenes {
      AllGenesShownWhenFew(genes, shown);
    }
  }

  /**
   * With the neighbour map of extract_top_neighbors and distinct ids, the
   * record of entity p carries exactly p's neighbour list (empty when p has
   * none): at most k entries, none below `minSim`, in non-increasing similarity.
   */
  lemma RecordNeighborsAreTopNeighbors(columns: set<string>, row: Row, point: Point, genesText: string,
                                       sims: seq<seq<real>>, ids: seq<Cell>, orders: seq<seq<int>>,
                                       k: int, minSim: real, p: int)
    requires row.Keys == columns && RequiredColumns <= columns && row["genes"].Genes?
    requires |orders| == |sims| == |ids| && 0 <= p < |ids| && ids[p] == row["pathway_id"]
    requires forall q :: 0 <= q < |orders| ==> Similarity.IsDescendingOrder(sims[q], orders[q]) && |sims[q]| <= |ids|
    requires forall q, t :: 0 <= q < t < |ids| ==> ids[q] != ids[t]
    ensures var r := RecordOf(columns, row, point, Similarity.NeighborMap(sims, ids, orders, k, minSim), genesText);
      && r.neighbors == Similarity.NeighborList(sims[p], ids, orders[p], k, minSim)
      && (k >= 0 ==> |r.neighbors| <= k)
      && (forall t :: 0 <= t < |r.neighbors| ==> r.neighbors[t].1 >= minSim)
      && Similarity.NonIncreasing(r.neighbors)
  {
    Similarity.NeighborMapEntries(sims, ids, orders, k, minSim);
    Similarity.NeighborListProperties(sims[p], ids, orders[p], k, minSim);
  }

  // ---------------------------------------------------------------------------
  // The page title
  // ---------------------------------------------------------------------------

  const TitleBase: string := "Pathway Explorer"

  /**
   * The title of `generate_html`: the contrast is appended unless it is
   * 'All'; a metadata dict without 'contrast' (None here) counts as 'All'.
   */
  function PageTitle(contrast: Option<string>): (title: string)
    ensures title == TitleBase <==> contrast.None? || contrast.value == "All"
    ensures title != TitleBase ==> title == TitleBase + " - " + contrast.value
  {
    var c := contrast.GetOr("All");
    if c != "All" then TitleBase + " - " + c else TitleBase
  }

  /** The contrast is recovered from any title that carries one. */
  lemma TitleNamesContrast(c: string)
    requires c != "All"
    ensures var t := PageTitle(Some(c));
      StartsWith(t, TitleBase + " - ") && t[|TitleBase + " - "|..] == c
  {
  }
}
