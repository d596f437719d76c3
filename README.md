# Pathway Explorer — a verified model of the in-memory pipeline

Pathway Explorer turns an enrichment table into an interactive map. Each table row is an
entity: a GSEA pathway, a transcription factor (TF), a PROGENy signalling pathway or a
transposable-element (TE) family or class. The dashboard places similar entities near each
other.

This project models the in-memory steps between loading the table and rendering the HTML:

- **Loading:** cleaning the table rows, standardising the scores, the FDR filter and
  gene-set parsing.
- **Similarity:** the hybrid gene-set similarity matrix and the top-k neighbour map.
- **Embedding:** the choice of backend, the similarity → distance conversion and the
  per-axis normalisation.
- **Records and page:** the per-entity records and the page title.
- **Dashboard driver:** its filters, errors, counts, database list, output path and index
  labels.
- **Configuration:** schema validation.

One module per source file:

| module | file | form |
|---|---|---|
| `Table` | (pandas) | `Cell` values (NaN is `Missing`) and `class Frame`, whose column assignment changes the frame in place |
| `Config` | `config.py` | pure functions |
| `DataLoader` | `data_loader.py` | pure row functions; `Frame` methods for the column updates |
| `Similarity` | `similarity.py` | reference definitions by set cardinalities; imperative matrix builders on `array2<real>` |
| `Embedding` | `embedding.py` | pure functions; the backends are a function parameter |
| `HtmlGenerator` | `html_generator.py` | the record loop as a method; the title as a function |
| `Dashboard` | `main.py` | filter chain, counting loop, sorting and link loop |
| `Strings` | (Python `str`) | lexicographic order, `sorted(set)`, `split`/`join`, `startswith`, `replace`, ASCII `title()` |
| `Wrappers` | — | `Option`, `Result` |

Modelling conventions:

- **Errors:** every `ValueError` the core raises is a `Failure` of a `Result`.
- **Numbers:** `real`. The logarithm −log10 is an uninterpreted function parameter.
- **Nondeterminism:** NumPy's unstable `argsort` and Python's set iteration order are ghost
  out-parameters. Each is constrained only by what every admissible choice satisfies: some
  descending order, or some 20 members of the set.

## Model

| member | source | states |
|---|---|---|
| `Config.EffectiveSchemas` | pathway_explorer/config.py:107 | a non-empty schemas argument is used as given; None or an empty dict falls back to the global schemas |
| `Config.ValidateSchema` | pathway_explorer/config.py:95-124 | fails exactly when the schema is defined and some required column is absent; the error carries exactly the missing columns; success is always True |
| `Config.ValidationMonotone` | pathway_explorer/config.py:114-117 | a frame that passes still passes with more columns |
| `Config.NoRequiredColumnsPasses` | pathway_explorer/config.py:114-124 | a schema without required columns, or an undefined schema, passes every frame |
| `DataLoader.Cleaned` | pathway_explorer/data_loader.py:218 | same length; every underscore becomes a space and none remains; every other character is title-cased by whether the preceding character is cased |
| `DataLoader.CleanPathwayName` | pathway_explorer/data_loader.py:203-224 | a missing name gives "Unknown"; a fitting name is the cleaned name; a longer one is exactly max_length characters: the cleaned prefix followed by "..."; never longer than max_length (for max_length ≥ 3) |
| `DataLoader.CleanIdempotent` | pathway_explorer/data_loader.py:218-224 | cleaning a cleaned name that fits changes nothing |
| `DataLoader.EntityTypeOf` | pathway_explorer/data_loader.py:185-193 | TF iff 'CollecTRI', PROGENy iff 'PROGENy', TE iff another 'TE_'-prefixed database, Pathway otherwise (all four directions) |
| `DataLoader.ReclassifyMito` | pathway_explorer/data_loader.py:166-173 | non-Mitochondria databases are unchanged; Mitochondria becomes MitoPathways or MitoXplorer by the id prefix, else stays Mitochondria |
| `DataLoader.MitoPrefixesExclusive` | pathway_explorer/data_loader.py:169-172 | no id carries both prefixes, so the order of the two tests is irrelevant |
| `DataLoader.ReclassifyIdempotent` | pathway_explorer/data_loader.py:166-173 | reclassifying a reclassified database changes nothing |
| `DataLoader.ReclassifyMitoDatabases` | pathway_explorer/data_loader.py:163-179 | in place, every row's database becomes its reclassified value; no other column and no row count changes |
| `DataLoader.AddEntityTypes` | pathway_explorer/data_loader.py:195 | in place, adds the entity_type column holding each row's classified database |
| `DataLoader.Sign` | pathway_explorer/data_loader.py:267 | the result is one of 1, −1 and 0; it has the sign of its argument and is 0 exactly for 0 |
| `DataLoader.SignedSig` | pathway_explorer/data_loader.py:263-270 | always in [−50, 50]; 0 when nes is 0 |
| `DataLoader.SignedSigAntisymmetric` | pathway_explorer/data_loader.py:263-270 | negating nes negates the score |
| `DataLoader.SignedSigSignOnly` | pathway_explorer/data_loader.py:267 | two nes values with the same sign give the same score |
| `DataLoader.SignedSigFloor` | pathway_explorer/data_loader.py:263 | every padj at or below 1e-50, including 0, scores as 1e-50 |
| `DataLoader.StandardizedRow` | pathway_explorer/data_loader.py:247-270 | 'nes' is taken from 'NES' only when 'nes' is absent, and 'padj' from 'adj.P.Val' only when 'padj' is absent; signed_sig is computed from the resulting nes and padj; every other column is unchanged |
| `DataLoader.StandardizedRows` | pathway_explorer/data_loader.py:244-270 | one standardised row per input row, in order, all with the standardised columns |
| `DataLoader.AliasedThenScored` | pathway_explorer/data_loader.py:256-267 | aliasing followed by the score assignment gives exactly the standardised row |
| `DataLoader.AliasScoreColumns` | pathway_explorer/data_loader.py:256-259 | in place, each row becomes its aliased row |
| `DataLoader.AddSignedSig` | pathway_explorer/data_loader.py:263-270 | in place, the two-step write (unclipped, then clipped) leaves each row's signed_sig equal to the clipped score of its nes and padj |
| `DataLoader.StandardizeScores` | pathway_explorer/data_loader.py:227-276 | fails exactly when an nes or a padj column is missing; the NES error takes precedence; on success, a fresh frame of standardised rows; the input frame is not modified |
| `DataLoader.StandardizeIdempotent` | pathway_explorer/data_loader.py:244-270 | standardising a standardised table returns it unchanged |
| `DataLoader.ParseGenes` | pathway_explorer/data_loader.py:105-107 | empty exactly for missing, 'nan', 'NA' or ''; otherwise exactly the '/'-separated pieces, none containing '/' |
| `DataLoader.GenesRoundTrip` | pathway_explorer/data_loader.py:105-107 | a '/'-join of gene names parses back to the set of those names |
| `DataLoader.FdrFiltered` | pathway_explorer/data_loader.py:93-97 | below 1.0, a row is kept iff its padj is a number ≤ threshold; from 1.0 up, every row is kept |
| `DataLoader.Annotated` | pathway_explorer/data_loader.py:104-114 | adds the parsed genes, the cleaned display name and, only when the table lacks one, the default entity type; the other columns are unchanged |
| `DataLoader.FilterAndAnnotate` | pathway_explorer/data_loader.py:92-114 | a fresh frame holding the annotated FDR-kept rows, in order |
| `Strings.SortedList` | pathway_explorer/similarity.py:59 | `sorted(set)`: strictly increasing, with exactly the set's members |
| `Strings.SortedListUnique` | pathway_explorer/similarity.py:59 | only one strictly increasing list has a given set of members |
| `Strings.SplitJoin` | pathway_explorer/data_loader.py:106 | splitting a join of separator-free parts gives the parts back |
| `Strings.JoinSplit` | pathway_explorer/data_loader.py:106 | joining the pieces of a split gives the string back |
| `Strings.TitleIdempotent` | pathway_explorer/data_loader.py:218 | title-casing twice is title-casing once |
| `Similarity.JaccardIsUnionRatio` | pathway_explorer/similarity.py:76-78 | \|A\|+\|B\|−\|A∩B\| is \|A∪B\|, so the floored formula is the Jaccard index whenever the union is non-empty |
| `Similarity.JaccardInUnitInterval` | pathway_explorer/similarity.py:75-77 | the Jaccard entry, intersection over the floored union, lies in [0, 1] |
| `Similarity.OverlapInUnitInterval` | pathway_explorer/similarity.py:79-81 | the overlap coefficient, intersection over the floored smaller size, lies in [0, 1] |
| `Similarity.PairSimilarityInUnitInterval` | pathway_explorer/similarity.py:87-99 | every type-dispatched entry lies in [0, 1] |
| `Similarity.PairSimilaritySymmetric` | pathway_explorer/similarity.py:87-102 | the metric gives the same value with the pair swapped |
| `Similarity.EmptySetScoresZero` | pathway_explorer/similarity.py:77-99 | a pair involving an empty gene set scores 0 |
| `Similarity.IdenticalSameTypeScoresOne` | pathway_explorer/similarity.py:91-93 | identical non-empty sets of the same type score 1 |
| `Similarity.ContainedTfScoresOne` | pathway_explorer/similarity.py:94-96 | a non-empty TF set contained in a set of another type scores 1 (overlap coefficient) |
| `Similarity.SameTypeHybridIsJaccard` | pathway_explorer/similarity.py:145-156 | when every type is equal, the hybrid matrix is the Jaccard matrix entry by entry |
| `Similarity.HybridMatrixProperties` | pathway_explorer/similarity.py:87-104 | the hybrid matrix is symmetric, lies in [0, 1], is exactly 1 on the diagonal and 0 off it where a set is empty |
| `Similarity.CollectGenes` | pathway_explorer/similarity.py:55-57 | the collected genes are exactly those of some entity |
| `Similarity.IndexOf` | pathway_explorer/similarity.py:59 | maps each vocabulary gene to its position and nothing else |
| `Similarity.BuildIncidence` | pathway_explorer/similarity.py:64-69 | each (row, col) pair is (index of a gene, an entity containing it), and every such pair is present |
| `Similarity.ColumnIsGeneSet` | pathway_explorer/similarity.py:64-71 | column e of the incidence matrix holds exactly the indices of entity e's genes |
| `Similarity.IndexedCount` | pathway_explorer/similarity.py:59-71 | the vocabulary positions of a set's genes are as many as its genes |
| `Similarity.SharedIsIntersection` | pathway_explorer/similarity.py:71-74 | the rows shared by columns i and j are as many as \|S_i ∩ S_j\| |
| `Similarity.ColumnSumIsSize` | pathway_explorer/similarity.py:149 | column e sums to \|S_e\| |
| `Similarity.Incidence` | pathway_explorer/similarity.py:55-71 | the vocabulary is sorted, holds exactly the genes of some entity, and the lists form its incidence structure |
| `Similarity.Intersections` | pathway_explorer/similarity.py:71-74 | entry (i, j) of the product is \|S_i ∩ S_j\| |
| `Similarity.PairCounts` | pathway_explorer/similarity.py:74-82 | intersection, union floored at 1 and min-size floored at 1, entry by entry |
| `Similarity.FillDiagonal` | pathway_explorer/similarity.py:104 | the diagonal becomes v; every other entry is unchanged |
| `Similarity.SetSymmetric` | pathway_explorer/similarity.py:101-102 | writes (i, j) and (j, i); every other entry is unchanged |
| `Similarity.ComputeHybridSimilarity` | pathway_explorer/similarity.py:18-107 | a fresh N×N matrix whose every entry is 1 on the diagonal and the type-dispatched metric elsewhere |
| `Similarity.ColumnSums` | pathway_explorer/similarity.py:149 | the column sums are the set sizes |
| `Similarity.JaccardCounts` | pathway_explorer/similarity.py:145-153 | intersection and floored union, entry by entry |
| `Similarity.ComputeJaccardMatrix` | pathway_explorer/similarity.py:110-159 | a fresh N×N matrix equal to 1 on the diagonal and the Jaccard formula elsewhere |
| `Similarity.RowOf` | pathway_explorer/similarity.py:183 | the row's entries in order |
| `Similarity.ArgsortDescending` | pathway_explorer/similarity.py:185 | `argsort(sims)[::-1]`: some permutation of the indices along which the values never increase |
| `Similarity.InsertKeepsDescending` | pathway_explorer/similarity.py:185 | inserting the next index where its value fits keeps a descending permutation of the prefix |
| `Similarity.PySlice` | pathway_explorer/similarity.py:185 | a Python slice: the exact subsequence when in range, never longer, only original elements |
| `Similarity.CollectNeighbors` | pathway_explorer/similarity.py:187-190 | the loop builds exactly the filtered candidate list |
| `Similarity.RowNeighbors` | pathway_explorer/similarity.py:183-190 | for some descending order of the row, the list is that order's neighbour list: at most k entries, each an entity id at or above min_sim, best first |
| `Similarity.ExtractTopNeighbors` | pathway_explorer/similarity.py:162-195 | for some descending order of every row, the map is the neighbour map those orders determine; every key is an entity id whose value is a non-empty list of at most k entity ids at or above min_sim, best first |
| `Similarity.NeighborsOfRows` | pathway_explorer/similarity.py:180-195 | the row loop builds the neighbour map of the orders it chose |
| `Similarity.NeighborMapStep` | pathway_explorer/similarity.py:192-193 | one more row adds its id exactly when its list is non-empty |
| `Similarity.CandidatesBounded` | pathway_explorer/similarity.py:185 | at most k candidates |
| `Similarity.CandidatesDescending` | pathway_explorer/similarity.py:185 | the candidates' similarities never increase |
| `Similarity.NeighborListProperties` | pathway_explorer/similarity.py:185-190 | each list has at most k entries, every one ≥ min_sim, in non-increasing similarity |
| `Similarity.ListedNonIncreasing` | pathway_explorer/similarity.py:188-190 | filtering keeps a non-increasing list non-increasing |
| `Similarity.SelfExcludedWhenDiagonalIsMaximum` | pathway_explorer/similarity.py:185 | when the diagonal is strictly the row maximum, self comes first and is never listed |
| `Similarity.CandidatesSkipFirst` | pathway_explorer/similarity.py:185 | the first index of the order is never a candidate, whatever entity it is |
| `Similarity.SelfListedOnTie` | pathway_explorer/similarity.py:185 | with a tie at 1.0, an admissible order lists the entity as its own neighbour |
| `Similarity.NeighborMapKeys` | pathway_explorer/similarity.py:192-193 | every key of the map is some entity's id |
| `Similarity.NeighborMapValuesAreLists` | pathway_explorer/similarity.py:185-193 | every key is an entity id and every value a non-empty list of at most k entities at or above min_sim, best first |
| `Similarity.NeighborMapValues` | pathway_explorer/similarity.py:192-193 | with distinct ids, an id is a key iff its list is non-empty, and then maps to that list |
| `Similarity.NeighborMapEntries` | pathway_explorer/similarity.py:180-195 | the two facts above together: no other keys, absent exactly when the list is empty |
| `Embedding.GetBestMethod` | pathway_explorer/embedding.py:47-59 | umap iff UMAP is available; pca iff only sklearn is; random iff neither; never tsne |
| `Embedding.DistanceComplementsSimilarity` | pathway_explorer/embedding.py:83-84 | distance is 1 − similarity off the diagonal and exactly 0 on it |
| `Embedding.DistanceSymmetric` | pathway_explorer/embedding.py:83-84 | a symmetric similarity matrix gives a symmetric distance matrix |
| `Embedding.DistanceInUnitInterval` | pathway_explorer/embedding.py:83-84 | similarities in [0, 1] give distances in [0, 1] |
| `Embedding.TsnePerplexity` | pathway_explorer/embedding.py:132-133 | the perplexity is the smaller of 30 and n − 1 |
| `Embedding.PerplexityInRange` | pathway_explorer/embedding.py:132-133 | for n ≥ 2 the perplexity lies in [1, n) |
| `Embedding.PlanEmbedding` | pathway_explorer/embedding.py:83-95 | each backend runs iff it was requested and its library is present; anything else falls straight to random; UMAP and t-SNE get the distance matrix, PCA gets the similarity matrix, random gets N |
| `Embedding.BestMethodRunsItsBackend` | pathway_explorer/embedding.py:88-95 | with the best method, random runs only when neither library is available |
| `Embedding.PlanKeepsSize` | pathway_explorer/embedding.py:88-95 | every backend is asked for N points |
| `Embedding.MinOf` | pathway_explorer/embedding.py:161 | an element of the axis no larger than any other |
| `Embedding.MaxOf` | pathway_explorer/embedding.py:162 | an element of the axis no smaller than any other |
| `Embedding.RescaleProperties` | pathway_explorer/embedding.py:163-164 | values in [min, max] land in [0, 1); min lands on 0; strict order and equality are preserved both ways |
| `Embedding.NormalizeAxis` | pathway_explorer/embedding.py:159-164 | same length; every value in [0, 1); the minimum maps to 0; `<` and `==` between positions are preserved and reflected |
| `Embedding.NormalizeEmbedding` | pathway_explorer/embedding.py:159-164 | fails exactly for no points; otherwise n points whose x and y axes are each normalised independently |
| `Embedding.NormalizedInUnitSquare` | pathway_explorer/embedding.py:159-164 | every normalised point lies in [0, 1)², and some point has x = 0 |
| `Embedding.ComputeEmbedding` | pathway_explorer/embedding.py:62-101 | the normalised output of the planned backend; an error exactly when the backend returns no points |
| `Embedding.EmbeddingShape` | pathway_explorer/embedding.py:62-101 | a backend returning the N points it was asked for gives an N-point embedding |
| `HtmlGenerator.FloatOr` | pathway_explorer/html_generator.py:55-58 | the number of a numeric cell, else the default |
| `HtmlGenerator.Trunc` | pathway_explorer/html_generator.py:59 | `int()` truncates toward zero |
| `HtmlGenerator.IntOrZero` | pathway_explorer/html_generator.py:44 | a missing value gives 0, otherwise the truncated number |
| `HtmlGenerator.RecordOf` | pathway_explorer/html_generator.py:39-67 | name and database are the row's display_name and database cells; nes, padj, pvalue and set_size are the row's number when present (set_size truncated) and signed_sig is too when the column exists; the defaults are nes → 0, padj → 1, pvalue → 1, set_size → 0, signed_sig → 0 and entity_type → 'Pathway'; direction is the column's value when present, else 'Up' iff nes > 0 and 'Down' otherwise; leading_edge_size is the column's value (missing → 0) when present, else \|genes\|; x and y come from the point; gene_count is \|genes\|; neighbours are the map entry or [] |
| `HtmlGenerator.TakeAny` | pathway_explorer/html_generator.py:64 | `list(genes)[:20]`: some subset of min(\|genes\|, 20) members |
| `HtmlGenerator.PreparePathwayData` | pathway_explorer/html_generator.py:20-70 | one record per row in row order, taking point i of the embedding; each genes string is the '/'-join of a sorted, duplicate-free selection of min(\|genes\|, 20) of the row's genes |
| `HtmlGenerator.AllGenesShownWhenFew` | pathway_explorer/html_generator.py:64 | with at most 20 genes, the shown genes are all of them |
| `HtmlGenerator.ShownGenesRoundTrip` | pathway_explorer/html_generator.py:64-65 | parsing the genes string gives min(\|genes\|, 20) of the genes, and all of them when there are at most 20 |
| `HtmlGenerator.RecordNeighborsAreTopNeighbors` | pathway_explorer/html_generator.py:66 | a record's neighbours are its row's neighbour list: at most k, all ≥ min_sim, non-increasing |
| `HtmlGenerator.PageTitle` | pathway_explorer/html_generator.py:90-91 | the bare title iff the contrast is absent or 'All'; otherwise the title, " - " and the contrast |
| `HtmlGenerator.TitleNamesContrast` | pathway_explorer/html_generator.py:91 | the contrast can be read back from the title |
| `Strings.Capitalize` | pathway_explorer/main.py:80 | `str.capitalize()`: same length, the first character upper-cased and every later one lower-cased |
| `Dashboard.TeFilter` | pathway_explorer/main.py:80 | the kept TE database is 'TE_' followed by the capitalised level, character for character |
| `Dashboard.TeFilterLevels` | pathway_explorer/main.py:79-81 | the levels 'family' and 'class' select 'TE_Family' and 'TE_Class' |
| `Dashboard.SelectedMembership` | pathway_explorer/main.py:59-84 | a row survives iff it has the contrast, one of the entity types and, if it is a TE row, the TE level; each test applies only when its argument and column are present |
| `Dashboard.OtherTeLevelDropped` | pathway_explorer/main.py:79-83 | a TE row of another level never survives |
| `Dashboard.UniqueCells` | pathway_explorer/main.py:65 | `unique()`: duplicate-free, with exactly the column's values |
| `Dashboard.AvailableIsEmpty` | pathway_explorer/main.py:63-66 | the 'available' list, computed on the already empty frame, is always empty |
| `Dashboard.SelectEntities` | pathway_explorer/main.py:56-87 | NoData iff the table is empty; NoDataForContrast iff the contrast filter empties it, always with an empty 'available'; NothingAfterFiltering iff the later filters empty it; otherwise exactly the selected rows, in order |
| `Dashboard.CountEntityTypes` | pathway_explorer/main.py:113-116 | keys are exactly the entity types present; each maps to its number of rows; an empty dict without the column |
| `Dashboard.CountsSumToRows` | pathway_explorer/main.py:113-116 | the counts of the distinct types plus the NaN rows add up to the number of rows |
| `Dashboard.DatabaseList` | pathway_explorer/main.py:120 | sorted, duplicate-free, with exactly the databases of the rows |
| `Dashboard.MetadataContrast` | pathway_explorer/main.py:124 | the contrast when given, else 'All' |
| `Dashboard.DashboardTitle` | pathway_explorer/main.py:124 | a dashboard without a contrast, or for the 'All' contrast, gets the bare title; any other contrast is named in it |
| `Dashboard.OutputFile` | pathway_explorer/main.py:133-138 | the explicit path if given; else the output directory plus 'pathway_explorer_<contrast>.html' for a contrast, or 'pathway_explorer.html' |
| `Dashboard.LastDot` | pathway_explorer/main.py:220 | the position of the last dot, if any |
| `Dashboard.DashboardStem` | pathway_explorer/main.py:220 | the stem of a dashboard file is the prefix plus the contrast |
| `Dashboard.IndexLabelRoundTrip` | pathway_explorer/main.py:220-221 | the index link of a per-contrast dashboard points at its file name and is labelled with its contrast (for a contrast that does not contain the prefix) |
| `Dashboard.PathLeqTotal` | pathway_explorer/main.py:219 | any two paths are comparable |
| `Dashboard.PathLeqTransitive` | pathway_explorer/main.py:219 | path order is transitive |
| `Dashboard.SortPaths` | pathway_explorer/main.py:219 | `sorted(files)`: a sorted permutation of the files |
| `Dashboard.IndexLinks` | pathway_explorer/main.py:207-221 | one link per file, following a sorted permutation of the files; the links are exactly the links of the files |
| `Table.Frame.Copy` | pathway_explorer/data_loader.py:244 | a fresh frame with the same columns and rows |
| `Table.Frame.Assign` | pathway_explorer/data_loader.py:257 | in place, adds or overwrites one column; every other cell is unchanged |
| `Table.Frame.Select` | pathway_explorer/data_loader.py:94 | a fresh frame of the rows the mask keeps, in order |

## Left out

- File and console I/O are not modelled. This covers CSV reading, file probing, YAML loading, directory creation, writing the HTML and every `print`.
- The unified-versus-legacy branch of `load_gsea_data` (data_loader.py:63-90) and the TF/PROGENy concatenation are not modelled; they only choose which modelled steps run, after CSV reads.
- The CLI, the batch loop of `generate_all_dashboards` and the HTML, CSS and JavaScript template text are presentation or driver code, and are not modelled.
- `generate_dashboard` as one composed function is not modelled: each of its steps is, and the similarity, neighbour and embedding calls between them take the values shown.
- The UMAP, t-SNE, PCA and random-projection backends are foreign, stochastic numerics. They are the parameter `run: Job -> seq<Point>` of `Embedding.ComputeEmbedding`.
- The value of −log10 is the parameter `negLog10`.
- Floating-point rounding (`round(…, 2/3/4)`) is not modelled; all arithmetic is exact over `real`.
- The scipy sparse-matrix mechanics are not modelled. The product of the incidence matrix with its transpose is stated as the count of shared rows per column pair, which is what the sparse product computes; duplicate summing cannot arise, because each (gene, entity) pair is appended once.
- `MAX_PATHWAYS` is `None` in the configuration, so the `nsmallest` cut (data_loader.py:100-101) never runs and is not modelled.
- Python's set iteration order and NumPy's tie order among equal similarities are not modelled as fixed orders. They are arbitrary admissible choices (ghost out-parameters).
- Case conversion is ASCII only. Unicode case mapping in `str.title()` and `str.capitalize()` is not modelled.
- `Table.Str`: `str()` of a number is not modelled; it renders as "nan". The prefix tests of the core ('TE_', the mitochondrial prefixes) fail on both, but the equality test against 'nan', 'NA' and '' (data_loader.py:106) does not: Python keeps a number's digits where the model sees "nan".
- `DataLoader.ParseGenes`: a numeric core_enrichment cell gives no genes, where Python gives the one-gene set {str(x)} (data_loader.py:105-107).
- `DataLoader.Annotated`: a numeric pathway_name becomes "Unknown" (through `NameOf`), where Python title-cases `str(name)` (data_loader.py:215-218).
- `HtmlGenerator.FloatOr`: a text value in a numeric column is treated as missing (Python's `float()` would raise or parse it).
- `HtmlGenerator.IntOrZero`: a text value in a numeric column is treated as missing.
- `Dashboard.DatabaseList` requires text database cells: sorting a column that mixes NaN with strings raises in Python.
- `Dashboard.AtTeLevel`: a NaN database is treated as a non-TE row. pandas raises a TypeError when negating the NaN that `str.startswith` returns.
- `Dashboard.OfEntityType`: a NaN entity type never matches a requested type.
- `Similarity.ExtractTopNeighbors` requires a square matrix with one id per row; a NumPy matrix of another shape is not modelled.
- `Similarity.ComputeHybridSimilarity` requires at least as many types as gene sets; the caller always passes equal lengths.
- `Dashboard.OutputFile`: a path is a list of components, and a contrast containing '/' is taken as a single component.
- `DataLoader.CleanPathwayName`: the length bound is stated only for max_length ≥ 3. Below that, Python's negative slice makes the result longer than max_length; the function models that slice but no bound is claimed.
- `Embedding.TsnePerplexity`: for n = 1 it gives 0, which scikit-learn would reject; that exception is not modelled.
- padj is clipped only from below, at 1e-50 (data_loader.py:263); there is no upper clip to 1, and the model keeps none.
- The rescaled coordinates stay below 1 on each axis, because the range carries an added 1e-10 (embedding.py:163-164); the maximum never reaches 1 exactly.
- `np.sign(0)` is 0 (data_loader.py:267), so a zero nes gives a signed significance of 0.
- The order `argsort` gives to equal similarities (similarity.py:185) is not fixed; the model takes any admissible order.
- Self is dropped positionally, as the first element of the descending order (similarity.py:185), not by excluding the entity's own index. `Similarity.SelfListedOnTie` shows the consequence.
