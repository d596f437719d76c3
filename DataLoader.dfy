/**
 * The in-memory steps of loading an enrichment table: name cleaning, the
 * database → entity-type rule, the Mitochondria reclassification, score
 * standardisation (signed significance), the FDR filter and gene-set parsing.
 * -log10 is left uninterpreted: it is the parameter `negLog10`.
 */
module DataLoader {
  import opened Wrappers
  import opened Strings
  import opened Table
  import Config

  // ---------------------------------------------------------------------------
  // clean_pathway_name
  // ---------------------------------------------------------------------------

  const DefaultMaxLength: int := 60

  /** `str(name).replace('_', ' ').title()` */
  function Cleaned(s: string): (c: string)
    ensures |c| == |s|
    ensures forall i :: 0 <= i < |s| ==> c[i] != '_'
    ensures forall i :: 0 <= i < |s| && s[i] == '_' ==> c[i] == ' '
    ensures forall i :: 0 <= i < |s| && s[i] != '_' ==>
      c[i] == TitleChar(s[i], i > 0 && IsCased(s[i - 1]))
  {
    var spaced := ReplaceAll(s, "_", " ");
    ReplaceCharAt(s, '_', ' ');
    TitleAt(spaced, false);
    var c := Title(spaced);
    assert forall i :: 0 <= i < |s| ==> spaced[i] == if s[i] == '_' then ' ' else s[i];
    assert forall j :: 0 <= j < |s| ==> IsCased(spaced[j]) == IsCased(s[j]);
    assert forall i :: 0 <= i < |s| ==> c[i] != '_' && (s[i] == '_' ==> c[i] == ' ') by {
      forall i | 0 <= i < |s| ensures c[i] != '_' && (s[i] == '_' ==> c[i] == ' ') {
        var p := if i == 0 then false else IsCased(spaced[i - 1]);
        assert c[i] == TitleChar(spaced[i], p);
        assert spaced[i] != '_';
      }
    }
    c
  }

  /**
   * `clean_pathway_name(name, max_length)`: "Unknown" for a missing name, else
   * the cleaned name, cut to `max_length - 3` characters plus "..." when it is
   * longer than `max_length`.
   */
  function CleanPathwayName(name: Option<string>, maxLength: int): (r: string)
    ensures name.None? ==> r == "Unknown"
    ensures name.Some? && |name.value| <= maxLength ==> r == Cleaned(name.value)
    ensures name.Some? && 3 <= maxLength < |name.value| ==>
      |r| == maxLength && r[maxLength - 3..] == "..." &&
      r[..maxLength - 3] == Cleaned(name.value)[..maxLength - 3]
    ensures name.Some? && maxLength >= 3 ==> |r| <= maxLength
    ensures name.Some? && !StartsWith(r, "...") ==> forall i :: 0 <= i < |r| ==> r[i] != '_'
  {
    match name
    case None => "Unknown"
    case Some(s) =>
      var cleaned := Cleaned(s);
      if |cleaned| > maxLength then PyPrefix(cleaned, maxLength - 3) + "..." else cleaned
  }

  /** Cleaning a name that fits is idempotent. */
  lemma CleanIdempotent(s: string, maxLength: int)
    requires |s| <= maxLength
    ensures CleanPathwayName(Some(CleanPathwayName(Some(s), maxLength)), maxLength)
         == CleanPathwayName(Some(s), maxLength)
  {
    var c := Cleaned(s);
    OccursChar(c, '_');
    ReplaceAbsent(c, "_", " ");
    TitleIdempotent(ReplaceAll(s, "_", " "), false);
  }

  // ---------------------------------------------------------------------------
  // get_entity_type and reclassify_mito
  // ---------------------------------------------------------------------------

  /** `get_entity_type(db)` */
  function EntityTypeOf(db: Cell): (t: string)
    ensures t == "TF" <==> db == Text("CollecTRI")
    ensures t == "PROGENy" <==> db == Text("PROGENy")
    ensures t == "TE" <==> StartsWith(Str(db), "TE_") && db != Text("CollecTRI") && db != Text("PROGENy")
    ensures t == "Pathway" <==> !StartsWith(Str(db), "TE_") && db != Text("CollecTRI") && db != Text("PROGENy")
  {
    if CellEquals(db, Text("CollecTRI")) then "TF"
    else if CellEquals(db, Text("PROGENy")) then "PROGENy"
    else if StartsWith(Str(db), "TE_") then "TE"
    else "Pathway"
  }

  /** `reclassify_mito(row)`: the new database of a row. */
  function ReclassifyMito(database: Cell, pathwayId: Cell): (d: Cell)
    ensures database != Text("Mitochondria") ==> d == database
    ensures database == Text("Mitochondria") ==>
      d == (if StartsWith(Str(pathwayId), "MITOPATHWAYS_") then Text("MitoPathways")
            else if StartsWith(Str(pathwayId), "MITOXPLORER_") then Text("MitoXplorer")
            else Text("Mitochondria"))
  {
    if CellEquals(database, Text("Mitochondria")) then
      var pid := Str(pathwayId);
      if StartsWith(pid, "MITOPATHWAYS_") then Text("MitoPathways")
      else if StartsWith(pid, "MITOXPLORER_") then Text("MitoXplorer")
      else database
    else database
  }

  /** The two id prefixes cannot both match, so the order of the tests does not matter. */
  lemma MitoPrefixesExclusive(pid: string)
    ensures !(StartsWith(pid, "MITOPATHWAYS_") && StartsWith(pid, "MITOXPLORER_"))
  {
    if StartsWith(pid, "MITOPATHWAYS_") {
      assert pid[4] == "MITOPATHWAYS_"[4] == 'P';
    }
  }

  /** Reclassifying twice changes nothing more. */
  lemma ReclassifyIdempotent(database: Cell, pathwayId: Cell)
    ensures ReclassifyMito(ReclassifyMito(database, pathwayId), pathwayId) == ReclassifyMito(database, pathwayId)
  {
  }

  /** `df['database'] = df.apply(reclassify_mito, axis=1)`, done only when some row is 'Mitochondria'. */
  method ReclassifyMitoDatabases(df: Frame)
    requires df.Valid() && "database" in df.columns
    requires (exists i :: 0 <= i < |df.rows| && df.rows[i]["database"] == Text("Mitochondria")) ==>
      "pathway_id" in df.columns
    modifies df
    ensures df.Valid() && df.columns == old(df.columns) && |df.rows| == |old(df.rows)|
    ensures forall i :: 0 <= i < |df.rows| ==>
      df.rows[i] == old(df.rows[i])["database" := ReclassifyMito(old(df.rows[i])["database"], PathwayIdOf(old(df.rows[i])))]
  {
    var rows := df.rows;
    if exists i :: 0 <= i < |rows| && CellEquals(rows[i]["database"], Text("Mitochondria")) {
      var reclassified := seq(|rows|, i requires 0 <= i < |rows| && "database" in rows[i] =>
        ReclassifyMito(rows[i]["database"], PathwayIdOf(rows[i])));
      df.Assign("database", reclassified);
    } else {
      forall i | 0 <= i < |rows|
        ensures rows[i]["database" := ReclassifyMito(rows[i]["database"], PathwayIdOf(rows[i]))] == rows[i]
      {
        assert !CellEquals(rows[i]["database"], Text("Mitochondria"));
      }
    }
  }

  /** The pathway id of a row; only read for 'Mitochondria' rows. */
  function PathwayIdOf(row: Row): Cell {
    if "pathway_id" in row then row["pathway_id"] else Missing
  }

  /** `df['entity_type'] = df['database'].apply(get_entity_type)` */
  method AddEntityTypes(df: Frame)
    requires df.Valid() && "database" in df.columns
    modifies df
    ensures df.Valid() && df.columns == old(df.columns) + {"entity_type"}
    ensures |df.rows| == |old(df.rows)|
    ensures forall i :: 0 <= i < |df.rows| ==>
      df.rows[i] == old(df.rows[i])["entity_type" := Text(EntityTypeOf(old(df.rows[i])["database"]))]
  {
    var rows := df.rows;
    df.Assign("entity_type", seq(|rows|, i requires 0 <= i < |rows| && "database" in rows[i] =>
      Text(EntityTypeOf(rows[i]["database"]))));
  }

  // ---------------------------------------------------------------------------
  // standardize_scores
  // ---------------------------------------------------------------------------

  /** The lower clip of padj, 1e-50. */
  const PadjFloor: real := 1.0 / 100000000000000000000000000000000000000000000000000.0

  /** `np.sign`: 0 for 0. */
  function Sign(x: real): (s: real)
    ensures s == 1.0 || s == -1.0 || s == 0.0
    ensures s * x >= 0.0 && (s == 0.0 <==> x == 0.0)
  {
    if x > 0.0 then 1.0 else if x < 0.0 then -1.0 else 0.0
  }

  function Clip(x: real, lo: real, hi: real): (c: real)
    requires lo <= hi
    ensures lo <= c <= hi
    ensures lo <= x <= hi ==> c == x
  {
    if x < lo then lo else if x > hi then hi else x
  }

  function MaxReal(a: real, b: real): real {
    if a >= b then a else b
  }

  /** The signed significance of one row: clip(-log10(max(padj, 1e-50)) * sign(nes), -50, 50). */
  function SignedSig(nes: real, padj: real, negLog10: real -> real): (s: real)
    ensures -50.0 <= s <= 50.0
    ensures nes == 0.0 ==> s == 0.0
  {
    Clip(negLog10(MaxReal(padj, PadjFloor)) * Sign(nes), -50.0, 50.0)
  }

  /** Flipping the direction of the effect flips the sign of the score. */
  lemma SignedSigAntisymmetric(nes: real, padj: real, negLog10: real -> real)
    ensures SignedSig(-nes, padj, negLog10) == -SignedSig(nes, padj, negLog10)
  {
  }

  /** Only the sign of nes matters, not its size. */
  lemma SignedSigSignOnly(nes1: real, nes2: real, padj: real, negLog10: real -> real)
    requires Sign(nes1) == Sign(nes2)
    ensures SignedSig(nes1, padj, negLog10) == SignedSig(nes2, padj, negLog10)
  {
  }

  /** Every padj at or below 1e-50, 0 included, scores like 1e-50. */
  lemma SignedSigFloor(nes: real, padj: real, negLog10: real -> real)
    requires padj <= PadjFloor
    ensures SignedSig(nes, padj, negLog10) == SignedSig(nes, PadjFloor, negLog10)
  {
  }

  /** The score of a row from its nes and padj cells; NaN in either gives NaN. */
  function SignedSigCell(nes: Cell, padj: Cell, negLog10: real -> real): Cell {
    if nes.Num? && padj.Num? then Num(SignedSig(nes.value, padj.value, negLog10)) else Missing
  }

  // The column operations of the method, cell by cell (NaN propagates).
  function ClipLowerCell(c: Cell, lo: real): Cell {
    if c.Num? then Num(MaxReal(c.value, lo)) else Missing
  }
  function NegLogCell(c: Cell, negLog10: real -> real): Cell {
    if c.Num? then Num(negLog10(c.value)) else Missing
  }
  function TimesSignCell(c: Cell, nes: Cell): Cell {
    if c.Num? && nes.Num? then Num(c.value * Sign(nes.value)) else Missing
  }
  function ClipCell(c: Cell, lo: real, hi: real): Cell
    requires lo <= hi
  {
    if c.Num? then Num(Clip(c.value, lo, hi)) else Missing
  }

  datatype ScoreError = NesColumnNotFound(available: set<string>) | PadjColumnNotFound(available: set<string>)

  predicate HasScoreColumns(columns: set<string>) {
    ("NES" in columns || "nes" in columns) && ("padj" in columns || "adj.P.Val" in columns)
  }

  function StandardizedColumns(columns: set<string>): set<string> {
    columns + {"nes", "padj", "signed_sig"}
  }

  /**
   * One row after standardisation: 'nes' taken from 'NES' only when 'nes' is
   * absent, 'padj' from 'adj.P.Val' only when 'padj' is absent, and
   * 'signed_sig' computed from the resulting 'nes' and 'padj'.
   */
  function StandardizedRow(columns: set<string>, row: Row, negLog10: real -> real): (r: Row)
    requires HasScoreColumns(columns) && row.Keys == columns
    ensures r.Keys == StandardizedColumns(columns)
    ensures r["nes"] == (if "nes" in columns then row["nes"] else row["NES"])
    ensures r["padj"] == (if "padj" in columns then row["padj"] else row["adj.P.Val"])
    ensures r["signed_sig"] == SignedSigCell(r["nes"], r["padj"], negLog10)
    ensures forall c :: c in columns && c != "nes" && c != "padj" && c != "signed_sig" ==> r[c] == row[c]
  {
    var nes := if "nes" in columns then row["nes"] else row["NES"];
    var padj := if "padj" in columns then row["padj"] else row["adj.P.Val"];
    row["nes" := nes]["padj" := padj]["signed_sig" := SignedSigCell(nes, padj, negLog10)]
  }

  function StandardizedRows(columns: set<string>, rows: seq<Row>, negLog10: real -> real): (r: seq<Row>)
    requires HasScoreColumns(columns) && WellShaped(columns, rows)
    ensures |r| == |rows| && WellShaped(StandardizedColumns(columns), r)
    ensures forall i :: 0 <= i < |rows| ==> r[i] == StandardizedRow(columns, rows[i], negLog10)
  {
    seq(|rows|, i requires 0 <= i < |rows| => StandardizedRow(columns, rows[i], negLog10))
  }

  /** The row after the column-name aliasing of standardize_scores. */
  function Aliased(columns: set<string>, row: Row): (r: Row)
    requires HasScoreColumns(columns) && row.Keys == columns
    ensures r.Keys == columns + {"nes", "padj"}
  {
    var r1 := if "NES" in columns && "nes" !in columns then row["nes" := row["NES"]] else row;
    if "adj.P.Val" in columns && "padj" !in columns then r1["padj" := r1["adj.P.Val"]] else r1
  }

  /** Aliasing followed by the score column is the standardised row. */
  lemma AliasedThenScored(columns: set<string>, row: Row, negLog10: real -> real)
    requires HasScoreColumns(columns) && row.Keys == columns
    ensures var a := Aliased(columns, row);
      a["signed_sig" := SignedSigCell(a["nes"], a["padj"], negLog10)] == StandardizedRow(columns, row, negLog10)
  {
    var a := Aliased(columns, row);
    var got := a["signed_sig" := SignedSigCell(a["nes"], a["padj"], negLog10)];
    var want := StandardizedRow(columns, row, negLog10);
    assert got.Keys == want.Keys;
    forall c | c in want.Keys ensures got[c] == want[c] {
    }
  }

  /** `df['nes'] = df['NES']` when 'nes' is absent, and likewise for 'padj', in place. */
  method AliasScoreColumns(df: Frame)
    requires df.Valid() && HasScoreColumns(df.columns)
    modifies df
    ensures df.Valid() && df.columns == old(df.columns) + {"nes", "padj"}
    ensures |df.rows| == |old(df.rows)|
    ensures forall i :: 0 <= i < |df.rows| ==> df.rows[i] == Aliased(old(df.columns), old(df.rows[i]))
  {
    if "NES" in df.columns && "nes" !in df.columns {
      df.Assign("nes", Column(df.rows, "NES"));
    }
    if "adj.P.Val" in df.columns && "padj" !in df.columns {
      df.Assign("padj", Column(df.rows, "adj.P.Val"));
    }
  }

  /** The 'signed_sig' column, written unclipped and then clipped to [-50, 50], in place. */
  method AddSignedSig(df: Frame, negLog10: real -> real)
    requires df.Valid() && "nes" in df.columns && "padj" in df.columns
    modifies df
    ensures df.Valid() && df.columns == old(df.columns) + {"signed_sig"}
    ensures |df.rows| == |old(df.rows)|
    ensures forall i :: 0 <= i < |df.rows| ==>
      df.rows[i] == old(df.rows[i])["signed_sig" := SignedSigCell(old(df.rows[i])["nes"], old(df.rows[i])["padj"], negLog10)]
  {
    var rows := df.rows;
    var n := |rows|;
    var padjClipped := seq(n, i requires 0 <= i < n => ClipLowerCell(rows[i]["padj"], PadjFloor));
    var negLogPadj := seq(n, i requires 0 <= i < n => NegLogCell(padjClipped[i], negLog10));
    df.Assign("signed_sig", seq(n, i requires 0 <= i < n => TimesSignCell(negLogPadj[i], rows[i]["nes"])));
    var signed := df.rows;
    df.Assign("signed_sig", seq(n, i requires 0 <= i < n => ClipCell(signed[i]["signed_sig"], -50.0, 50.0)));
  }

  /**
   * `standardize_scores(df)`: a new frame, or the ValueError for a missing
   * NES (checked first) or padj column. The input frame is not modified.
   */
  method StandardizeScores(df: Frame, negLog10: real -> real) returns (r: Result<Frame, ScoreError>)
    requires df.Valid()
    ensures r.Failure? <==> !HasScoreColumns(df.columns)
    ensures r.Failure? && "NES" !in df.columns && "nes" !in df.columns ==> r.error == NesColumnNotFound(df.columns)
    ensures r.Failure? && ("NES" in df.columns || "nes" in df.columns) ==> r.error == PadjColumnNotFound(df.columns)
    ensures r.Success? ==> fresh(r.value) && r.value.Valid()
    ensures r.Success? ==> r.value.columns == StandardizedColumns(df.columns)
    ensures r.Success? ==> r.value.rows == StandardizedRows(df.columns, df.rows, negLog10)
  {
    var out := df.Copy();
    var nesCol := if "NES" in out.columns then "NES" else "nes";
    var padjCol := if "padj" in out.columns then "padj" else "adj.P.Val";
    if nesCol !in out.columns {
      return Failure(NesColumnNotFound(out.columns));
    }
    if padjCol !in out.columns {
      return Failure(PadjColumnNotFound(out.columns));
    }
    AliasScoreColumns(out);
    AddSignedSig(out, negLog10);
    forall i | 0 <= i < |df.rows|
      ensures out.rows[i] == StandardizedRow(df.columns, df.rows[i], negLog10)
    {
      AliasedThenScored(df.columns, df.rows[i], negLog10);
    }
    r := Success(out);
  }

  /** Standardising an already standardised table gives it back unchanged. */
  lemma StandardizeIdempotent(columns: set<string>, rows: seq<Row>, negLog10: real -> real)
    requires HasScoreColumns(columns) && WellShaped(columns, rows)
    ensures HasScoreColumns(StandardizedColumns(columns))
    ensures var once := StandardizedRows(columns, rows, negLog10);
      StandardizedRows(StandardizedColumns(columns), once, negLog10) == once
  {
    var cols := StandardizedColumns(columns);
    var once := StandardizedRows(columns, rows, negLog10);
    var twice := StandardizedRows(cols, once, negLog10);
    forall i | 0 <= i < |rows| ensures twice[i] == once[i] {
      assert twice[i] == StandardizedRow(cols, once[i], negLog10);
      assert twice[i].Keys == once[i].Keys;
      forall c | c in once[i].Keys ensures twice[i][c] == once[i][c] {
      }
    }
  }

  // ---------------------------------------------------------------------------
  // The FDR filter, gene parsing and display names of load_gsea_data
  // ---------------------------------------------------------------------------

  /** The gene-parsing lambda: missing, 'nan', 'NA' and '' give no genes, else the '/'-separated pieces. */
  function ParseGenes(c: Cell): (genes: set<string>)
    ensures genes == {} <==> Str(c) == "nan" || Str(c) == "NA" || Str(c) == ""
    ensures forall g :: g in genes ==> '/' !in g
    ensures c.Text? && c.text != "nan" && c.text != "NA" && c.text != "" ==>
      forall g :: g in genes <==> g in Split(c.text, '/')
  {
    var s := Str(c);
    if s == "nan" || s == "NA" || s == "" then {}
    else
      var genes := set g | g in Split(s, '/');
      assert Split(s, '/')[0] in genes;
      genes
  }

  /** A '/'-joined list of genes parses back to the set of its genes. */
  lemma GenesRoundTrip(genes: seq<string>)
    requires |genes| >= 1
    requires forall i :: 0 <= i < |genes| ==> '/' !in genes[i]
    requires var s := Join(genes, "/"); s != "nan" && s != "NA" && s != ""
    ensures ParseGenes(Text(Join(genes, "/"))) == set g | g in genes
  {
    SplitJoin(genes, '/');
  }

  /** The name to clean: None for a NaN (or non-text) cell. */
  function NameOf(c: Cell): Option<string> {
    if c.Text? then Some(c.text) else None
  }

  /** `df['padj'] <= fdr_threshold`: NaN compares false. */
  predicate PassesFdr(row: Row, threshold: real) {
    "padj" in row && row["padj"].Num? && row["padj"].value <= threshold
  }

  /** The rows kept by the FDR step: a filter below 1.0, every row from 1.0 up. */
  function FdrFiltered(columns: set<string>, rows: seq<Row>, threshold: real): (kept: seq<Row>)
    requires WellShaped(columns, rows)
    ensures WellShaped(columns, kept)
    ensures threshold >= 1.0 ==> kept == rows
    ensures threshold < 1.0 ==> forall x :: x in kept <==> x in rows && PassesFdr(x, threshold)
  {
    if threshold < 1.0 then
      var kept := Where(rows, row => PassesFdr(row, threshold));
      assert forall i :: 0 <= i < |kept| ==> kept[i] in rows;
      kept
    else rows
  }

  /** A row with its parsed genes, display name and, when the table had none, the default entity type. */
  function Annotated(columns: set<string>, row: Row): (r: Row)
    requires row.Keys == columns && "core_enrichment" in columns && "pathway_name" in columns
    ensures r.Keys == columns + {"genes", "display_name", "entity_type"}
    ensures r["genes"] == Genes(ParseGenes(row["core_enrichment"]))
    ensures r["display_name"] == Text(CleanPathwayName(NameOf(row["pathway_name"]), DefaultMaxLength))
    ensures r["entity_type"] == if "entity_type" in columns then row["entity_type"] else Text(Config.DefaultEntityType)
    ensures forall c :: c in columns && c != "genes" && c != "display_name" ==> r[c] == row[c]
  {
    var r := row["genes" := Genes(ParseGenes(row["core_enrichment"]))]
                ["display_name" := Text(CleanPathwayName(NameOf(row["pathway_name"]), DefaultMaxLength))];
    if "entity_type" in columns then r else r["entity_type" := Text(Config.DefaultEntityType)]
  }

  /**
   * The tail of `load_gsea_data` after the table is loaded and standardised:
   * FDR filter into a copy, then the 'genes', 'display_name' and default
   * 'entity_type' columns.
   */
  method FilterAndAnnotate(df: Frame, fdrThreshold: real) returns (out: Frame)
    requires df.Valid()
    requires fdrThreshold < 1.0 ==> "padj" in df.columns
    requires "core_enrichment" in df.columns && "pathway_name" in df.columns
    ensures fresh(out) && out.Valid()
    ensures out.columns == df.columns + {"genes", "display_name", "entity_type"}
    ensures var kept := FdrFiltered(df.columns, df.rows, fdrThreshold);
      |out.rows| == |kept| && forall i :: 0 <= i < |kept| ==> out.rows[i] == Annotated(df.columns, kept[i])
  {
    if fdrThreshold < 1.0 {
      out := df.Select(row => PassesFdr(row, fdrThreshold));
    } else {
      out := df.Copy();
    }
    ghost var kept := out.rows;
    var rows := out.rows;
    var n := |rows|;
    out.Assign("genes", seq(n, i requires 0 <= i < n => Genes(ParseGenes(rows[i]["core_enrichment"]))));
    out.Assign("display_name", seq(n, i requires 0 <= i < n =>
      Text(CleanPathwayName(NameOf(rows[i]["pathway_name"]), DefaultMaxLength))));
    if "entity_type" !in out.columns {
      out.Assign("entity_type", seq(n, i requires 0 <= i < n => Text(Config.DefaultEntityType)));
    }
    forall i | 0 <= i < n
      ensures out.rows[i] == Annotated(df.columns, kept[i])
    {
      var want := Annotated(df.columns, kept[i]);
      assert out.rows[i].Keys == want.Keys;
      forall c | c in want.Keys ensures out.rows[i][c] == want[c] {
      }
    }
  }
}
