/**
 * The 2-D embedding step: the choice of backend, the similarity-to-distance
 * conversion, the t-SNE perplexity rule and the per-axis rescaling into
 * [0, 1). The backends themselves (UMAP, t-SNE, PCA, a seeded random
 * projection) are foreign numerics; they appear here as the parameter `run`,
 * which maps a backend job to the points it returns.
 */
module Embedding {
  import opened Wrappers

  /** The embedding methods a caller may request. */
  datatype Method = Umap | Tsne | Pca | Random

  /** Which optional libraries imported successfully. */
  datatype Libraries = Libraries(umap: bool, sklearn: bool)

  /** A point of the embedding (one row of the n × 2 array). */
  datatype Point = Point(x: real, y: real)

  type Matrix = seq<seq<real>>

  /** An n × n matrix. */
  predicate IsSquare(m: Matrix, n: nat) {
    |m| == n && forall i :: 0 <= i < n ==> |m[i]| == n
  }

  predicate Symmetric(m: Matrix)
    requires IsSquare(m, |m|)
  {
    forall i, j :: 0 <= i < |m| && 0 <= j < |m| ==> m[i][j] == m[j][i]
  }

  /** `get_best_method()`: UMAP when it is available, else PCA with sklearn, else random; never t-SNE. */
  function GetBestMethod(libs: Libraries): (m: Method)
    ensures m == Umap <==> libs.umap
    ensures m == Pca <==> !libs.umap && libs.sklearn
    ensures m == Random <==> !libs.umap && !libs.sklearn
    ensures m != Tsne
  {
    if libs.umap then Umap
    else if libs.sklearn then Pca
    else Random
  }

  /** `1 - similarity_matrix` followed by `np.fill_diagonal(distance_matrix, 0)`. */
  function DistanceMatrix(sim: Matrix): (d: Matrix)
    requires IsSquare(sim, |sim|)
    ensures IsSquare(d, |sim|)
  {
    seq(|sim|, i requires 0 <= i < |sim| =>
      seq(|sim|, j requires 0 <= j < |sim| => if i == j then 0.0 else 1.0 - sim[i][j]))
  }

  /** The distance matrix is zero on the diagonal and the complement of the similarity off it. */
  lemma DistanceComplementsSimilarity(sim: Matrix)
    requires IsSquare(sim, |sim|)
    ensures var d := DistanceMatrix(sim);
      forall i, j :: 0 <= i < |sim| && 0 <= j < |sim| ==>
        (i == j ==> d[i][j] == 0.0) && (i != j ==> d[i][j] + sim[i][j] == 1.0)
  {
  }

  /** A symmetric similarity gives a symmetric distance. */
  lemma DistanceSymmetric(sim: Matrix)
    requires IsSquare(sim, |sim|) && Symmetric(sim)
    ensures Symmetric(DistanceMatrix(sim))
  {
  }

  /** Similarities in [0, 1] give distances in [0, 1]. */
  lemma DistanceInUnitInterval(sim: Matrix)
    requires IsSquare(sim, |sim|)
    requires forall i, j :: 0 <= i < |sim| && 0 <= j < |sim| ==> 0.0 <= sim[i][j] <= 1.0
    ensures var d := DistanceMatrix(sim);
      forall i, j :: 0 <= i < |sim| && 0 <= j < |sim| ==> 0.0 <= d[i][j] <= 1.0
  {
  }

  /** The t-SNE perplexity for n samples: `min(30, n_samples - 1)`. */
  function TsnePerplexity(n: int): (p: int)
    ensures p <= 30 && p <= n - 1
    ensures p == 30 || p == n - 1
  {
    if 30 <= n - 1 then 30 else n - 1
  }

  /** With two or more samples the perplexity is at least 1 and below the sample count. */
  lemma PerplexityInRange(n: int)
    requires n >= 2
    ensures 1 <= TsnePerplexity(n) < n
  {
  }

  /** The tuning parameters of `compute_embedding`. */
  datatype Params = Params(nNeighbors: int, minDist: real, randomState: int)

  /** The backend call the dispatch makes, with the matrix it is given. */
  datatype Job =
    | UmapJob(distance: Matrix, nNeighbors: int, minDist: real, seed: int)
    | TsneJob(distance: Matrix, perplexity: int, seed: int)
    | PcaJob(similarity: Matrix, seed: int)
    | RandomJob(nSamples: nat, seed: int)

  /**
   * The dispatch of `compute_embedding`: the requested backend when its
   * library is present, and otherwise straight to the random projection.
   */
  function PlanEmbedding(sim: Matrix, requested: Method, libs: Libraries, params: Params): (job: Job)
    requires IsSquare(sim, |sim|)
    ensures job.UmapJob? <==> requested == Umap && libs.umap
    ensures job.TsneJob? <==> requested == Tsne && libs.sklearn
    ensures job.PcaJob? <==> requested == Pca && libs.sklearn
    ensures job.RandomJob? <==> !(requested == Umap && libs.umap) && !((requested == Tsne || requested == Pca) && libs.sklearn)
    ensures job.UmapJob? ==> job == UmapJob(DistanceMatrix(sim), params.nNeighbors, params.minDist, params.randomState)
    ensures job.TsneJob? ==> job == TsneJob(DistanceMatrix(sim), TsnePerplexity(|sim|), params.randomState)
    ensures job.PcaJob? ==> job == PcaJob(sim, params.randomState)
    ensures job.RandomJob? ==> job == RandomJob(|sim|, params.randomState)
  {
    var distance := DistanceMatrix(sim);
    if requested == Umap && libs.umap then UmapJob(distance, params.nNeighbors, params.minDist, params.randomState)
    else if requested == Tsne && libs.sklearn then TsneJob(distance, TsnePerplexity(|sim|), params.randomState)
    else if requested == Pca && libs.sklearn then PcaJob(sim, params.randomState)
    else RandomJob(|sim|, params.randomState)
  }

  /** Requesting the best available method never ends in the random projection while a library is present. */
  lemma BestMethodRunsItsBackend(sim: Matrix, libs: Libraries, params: Params)
    requires IsSquare(sim, |sim|)
    ensures var job := PlanEmbedding(sim, GetBestMethod(libs), libs, params);
      job.RandomJob? <==> !libs.umap && !libs.sklearn
  {
  }

  /** Every backend sees the same number of samples. */
  function JobSize(job: Job): nat {
    match job
    case UmapJob(d, _, _, _) => |d|
    case TsneJob(d, _, _) => |d|
    case PcaJob(s, _) => |s|
    case RandomJob(n, _) => n
  }

  lemma PlanKeepsSize(sim: Matrix, requested: Method, libs: Libraries, params: Params)
    requires IsSquare(sim, |sim|)
    ensures JobSize(PlanEmbedding(sim, requested, libs, params)) == |sim|
  {
  }

  // ---------------------------------------------------------------------------
  // _normalize_embedding
  // ---------------------------------------------------------------------------

  /** The 1e-10 added to each axis range to avoid a division by zero. */
  const Epsilon: real := 0.0000000001

  /** `min` over a non-empty axis. */
  function MinOf(xs: seq<real>): (m: real)
    requires |xs| > 0
    ensures m in xs && forall i :: 0 <= i < |xs| ==> m <= xs[i]
  {
    if |xs| == 1 then xs[0]
    else
      var rest := MinOf(xs[1..]);
      if xs[0] <= rest then xs[0] else rest
  }

  /** `max` over a non-empty axis. */
  function MaxOf(xs: seq<real>): (m: real)
    requires |xs| > 0
    ensures m in xs && forall i :: 0 <= i < |xs| ==> xs[i] <= m
  {
    if |xs| == 1 then xs[0]
    else
      var rest := MaxOf(xs[1..]);
      if xs[0] >= rest then xs[0] else rest
  }

  /** a / d < b / d and a / d <= b / d follow a < b and a <= b for a positive d. */
  lemma DivMonotone(a: real, b: real, d: real)
    requires d > 0.0
    ensures a < b <==> a / d < b / d
    ensures a <= b <==> a / d <= b / d
  {
    assert a / d * d == a && b / d * d == b;
    if a < b {
      assert (b / d - a / d) * d == b - a;
    }
    if a / d < b / d {
      assert (b / d - a / d) * d == b - a;
    }
  }

  /** One value of an axis whose minimum is `lo` and maximum `hi`, rescaled. */
  function Rescale(x: real, lo: real, hi: real): real
    requires lo <= hi
  {
    (x - lo) / (hi - lo + Epsilon)
  }

  /** Rescaling maps [lo, hi] into [0, 1), lo to 0, and keeps order and equality. */
  lemma RescaleProperties(x: real, y: real, lo: real, hi: real)
    requires lo <= x <= hi && lo <= y <= hi
    ensures 0.0 <= Rescale(x, lo, hi) < 1.0
    ensures x == lo ==> Rescale(x, lo, hi) == 0.0
    ensures x < y <==> Rescale(x, lo, hi) < Rescale(y, lo, hi)
    ensures x == y <==> Rescale(x, lo, hi) == Rescale(y, lo, hi)
  {
    var range := hi - lo + Epsilon;
    DivMonotone(0.0, x - lo, range);
    DivMonotone(x - lo, range, range);
    DivMonotone(x - lo, y - lo, range);
    DivMonotone(y - lo, x - lo, range);
  }

  /** One axis of `(embedding - min_vals) / (max_vals - min_vals + 1e-10)`. */
  function NormalizeAxis(xs: seq<real>): (r: seq<real>)
    requires |xs| > 0
    ensures |r| == |xs|
    ensures forall i :: 0 <= i < |xs| ==> 0.0 <= r[i] < 1.0
    ensures forall i :: 0 <= i < |xs| && xs[i] == MinOf(xs) ==> r[i] == 0.0
    ensures forall i, j :: 0 <= i < |xs| && 0 <= j < |xs| ==> (xs[i] < xs[j] <==> r[i] < r[j])
    ensures forall i, j :: 0 <= i < |xs| && 0 <= j < |xs| ==> (xs[i] == xs[j] <==> r[i] == r[j])
  {
    var lo, hi := MinOf(xs), MaxOf(xs);
    var r := seq(|xs|, i requires 0 <= i < |xs| => Rescale(xs[i], lo, hi));
    forall i, j | 0 <= i < |xs| && 0 <= j < |xs|
      ensures 0.0 <= r[i] < 1.0 && (xs[i] == lo ==> r[i] == 0.0)
      ensures (xs[i] < xs[j] <==> r[i] < r[j]) && (xs[i] == xs[j] <==> r[i] == r[j])
    {
      RescaleProperties(xs[i], xs[j], lo, hi);
    }
    r
  }

  function Xs(points: seq<Point>): (xs: seq<real>)
    ensures |xs| == |points| && forall i :: 0 <= i < |points| ==> xs[i] == points[i].x
  {
    seq(|points|, i requires 0 <= i < |points| => points[i].x)
  }

  function Ys(points: seq<Point>): (ys: seq<real>)
    ensures |ys| == |points| && forall i :: 0 <= i < |points| ==> ys[i] == points[i].y
  {
    seq(|points|, i requires 0 <= i < |points| => points[i].y)
  }

  /** numpy's min/max over an empty axis raise ValueError. */
  datatype EmbeddingError = EmptyEmbedding

  /**
   * `_normalize_embedding`: each axis rescaled on its own. An empty
   * embedding has no minimum and fails.
   */
  function NormalizeEmbedding(points: seq<Point>): (r: Result<seq<Point>, EmbeddingError>)
    ensures r.Failure? <==> |points| == 0
    ensures r.Success? ==> |r.value| == |points|
    ensures r.Success? ==> Xs(r.value) == NormalizeAxis(Xs(points)) && Ys(r.value) == NormalizeAxis(Ys(points))
  {
    if |points| == 0 then Failure(EmptyEmbedding)
    else
      var xs, ys := NormalizeAxis(Xs(points)), NormalizeAxis(Ys(points));
      var r := seq(|points|, i requires 0 <= i < |points| => Point(xs[i], ys[i]));
      assert Xs(r) == xs && Ys(r) == ys;
      Success(r)
  }

  /** Every normalised coordinate lies in [0, 1), and each axis minimum sits at 0. */
  lemma NormalizedInUnitSquare(points: seq<Point>)
    requires |points| > 0
    ensures var r := NormalizeEmbedding(points).value;
      forall i :: 0 <= i < |r| ==> 0.0 <= r[i].x < 1.0 && 0.0 <= r[i].y < 1.0
    ensures var r := NormalizeEmbedding(points).value;
      exists i :: 0 <= i < |r| && r[i].x == 0.0
  {
    var r := NormalizeEmbedding(points).value;
    var xs := Xs(points);
    assert Xs(r) == NormalizeAxis(xs) && Ys(r) == NormalizeAxis(Ys(points));
    forall i | 0 <= i < |r| ensures 0.0 <= r[i].x < 1.0 && 0.0 <= r[i].y < 1.0 {
      assert r[i].x == Xs(r)[i] && r[i].y == Ys(r)[i];
    }
    var m := MinOf(xs);
    var i :| 0 <= i < |xs| && xs[i] == m;
    assert r[i].x == Xs(r)[i];
  }

  /**
   * `compute_embedding(similarity_matrix, method, ...)`: dispatch, run the
   * backend, then normalise what it returns.
   */
  function ComputeEmbedding(sim: Matrix, requested: Method, libs: Libraries, params: Params,
                            run: Job -> seq<Point>): (r: Result<seq<Point>, EmbeddingError>)
    requires IsSquare(sim, |sim|)
    ensures var raw := run(PlanEmbedding(sim, requested, libs, params));
      r == NormalizeEmbedding(raw) && (r.Failure? <==> |raw| == 0)
  {
    NormalizeEmbedding(run(PlanEmbedding(sim, requested, libs, params)))
  }

  /** A backend that returns one point per sample gives one normalised point per entity. */
  lemma EmbeddingShape(sim: Matrix, requested: Method, libs: Libraries, params: Params, run: Job -> seq<Point>)
    requires IsSquare(sim, |sim|) && |sim| > 0
    requires |run(PlanEmbedding(sim, requested, libs, params))| == JobSize(PlanEmbedding(sim, requested, libs, params))
    ensures ComputeEmbedding(sim, requested, libs, params, run).Success?
    ensures |ComputeEmbedding(sim, requested, libs, params, run).value| == |sim|
  {
    PlanKeepsSize(sim, requested, libs, params);
  }
}
