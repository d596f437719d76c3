/**
 * Gene-set similarity between entities (pathways, transcription factors,
 * PROGENy pathways, TE families) and the neighbour lists drawn from it.
 *
 * The reference definitions are ratios of set cardinalities: Jaccard for two
 * entities of the same type or for two non-TF types, the overlap coefficient
 * when exactly one side is a TF, denominators floored at 1. The matrices are
 * computed as the source does: through a sorted gene vocabulary, the binary
 * gene × entity incidence it indexes, and its column products.
 */
module Similarity {
  import opened Strings

  type GeneSet = set<string>

  function Max(a: int, b: int): int { if a >= b then a else b }
  function Min(a: int, b: int): int { if a <= b then a else b }

  // ---------------------------------------------------------------------------
  // Reference definitions
  // ---------------------------------------------------------------------------

  /** |A ∩ B| / max(|A| + |B| - |A ∩ B|, 1) */
  function Jaccard(a: GeneSet, b: GeneSet): real {
    |a * b| as real / Max(|a| + |b| - |a * b|, 1) as real
  }

  /** |A ∩ B| / max(min(|A|, |B|), 1) */
  function Overlap(a: GeneSet, b: GeneSet): real {
    |a * b| as real / Max(Min(|a|, |b|), 1) as real
  }

  /** The metric for a pair of entities, chosen by their types. */
  function PairSimilarity(a: GeneSet, ta: string, b: GeneSet, tb: string): real {
    if ta == tb then Jaccard(a, b)
    else if ta == "TF" || tb == "TF" then Overlap(a, b)
    else Jaccard(a, b)
  }

  /** Entry (i, j) of the hybrid similarity matrix. */
  function HybridEntry(sets: seq<GeneSet>, types: seq<string>, i: int, j: int): real
    requires 0 <= i < |sets| && 0 <= j < |sets| && |types| >= |sets|
  {
    if i == j then 1.0 else PairSimilarity(sets[i], types[i], sets[j], types[j])
  }

  /** Entry (i, j) of the plain Jaccard matrix. */
  function JaccardEntry(sets: seq<GeneSet>, i: int, j: int): real
    requires 0 <= i < |sets| && 0 <= j < |sets|
  {
    if i == j then 1.0 else Jaccard(sets[i], sets[j])
  }

  /** The union formula is the size of the union; Jaccard is |A ∩ B| / |A ∪ B| when the union is non-empty. */
  lemma JaccardIsUnionRatio(a: GeneSet, b: GeneSet)
    ensures |a| + |b| - |a * b| == |a + b|
    ensures a + b != {} ==> Jaccard(a, b) == |a * b| as real / |a + b| as real
  {
  }

  /** An intersection is no larger than either set. */
  lemma IntersectionSmaller(a: GeneSet, b: GeneSet)
    ensures |a * b| <= |a| && |a * b| <= |b|
  {
    assert |a - b| == |a| - |a * b|;
    assert |b - a| == |b| - |b * a|;
    assert a * b == b * a;
  }

  /** A count no larger than a positive count gives a ratio in [0, 1]. */
  lemma RatioAtMostOne(x: int, y: int)
    requires 0 <= x <= y && y >= 1
    ensures 0.0 <= x as real / y as real <= 1.0
  {
    assert x as real <= y as real;
  }

  /** Jaccard lies in [0, 1]: the intersection is no larger than the union. */
  lemma JaccardInUnitInterval(a: GeneSet, b: GeneSet)
    ensures 0.0 <= Jaccard(a, b) <= 1.0
  {
    IntersectionSmaller(a, b);
    RatioAtMostOne(|a * b|, Max(|a| + |b| - |a * b|, 1));
  }

  /** The overlap coefficient lies in [0, 1]: the intersection is no larger than the smaller set. */
  lemma OverlapInUnitInterval(a: GeneSet, b: GeneSet)
    ensures 0.0 <= Overlap(a, b) <= 1.0
  {
    IntersectionSmaller(a, b);
    RatioAtMostOne(|a * b|, Max(Min(|a|, |b|), 1));
  }

  /** Every similarity lies in [0, 1]. */
  lemma PairSimilarityInUnitInterval(a: GeneSet, ta: string, b: GeneSet, tb: string)
    ensures 0.0 <= PairSimilarity(a, ta, b, tb) <= 1.0
  {
    JaccardInUnitInterval(a, b);
    OverlapInUnitInterval(a, b);
  }

  lemma PairSimilaritySymmetric(a: GeneSet, ta: string, b: GeneSet, tb: string)
    ensures PairSimilarity(a, ta, b, tb) == PairSimilarity(b, tb, a, ta)
  {
    assert a * b == b * a;
  }

  /** An entity without genes is similar to nothing. */
  lemma EmptySetScoresZero(a: GeneSet, ta: string, b: GeneSet, tb: string)
    requires a == {} || b == {}
    ensures PairSimilarity(a, ta, b, tb) == 0.0
  {
    assert a * b == {};
  }

  /** Two entities of the same type with the same non-empty genes score 1. */
  lemma IdenticalSameTypeScoresOne(a: GeneSet, t: string)
    requires a != {}
    ensures PairSimilarity(a, t, a, t) == 1.0
  {
    assert a * a == a;
    var n := |a|;
    assert n >= 1 && Max(n + n - n, 1) == n;
    assert PairSimilarity(a, t, a, t) == n as real / n as real == 1.0;
  }

  /** A TF whose non-empty genes all lie in an entity of another type scores 1 against it. */
  lemma ContainedTfScoresOne(tf: GeneSet, other: GeneSet, otherType: string)
    requires tf != {} && tf <= other && otherType != "TF"
    ensures PairSimilarity(tf, "TF", other, otherType) == 1.0
  {
    var n := |tf|;
    assert tf * other == tf;
    IntersectionSmaller(tf, other);
    assert n >= 1 && n <= |other|;
    assert Max(Min(n, |other|), 1) == n;
    assert Overlap(tf, other) == n as real / n as real == 1.0;
  }

  /** When every entity has the same type, the hybrid matrix is the Jaccard matrix. */
  lemma SameTypeHybridIsJaccard(sets: seq<GeneSet>, types: seq<string>)
    requires |types| >= |sets|
    requires forall i :: 0 <= i < |sets| ==> types[i] == types[0]
    ensures forall i, j :: 0 <= i < |sets| && 0 <= j < |sets| ==> HybridEntry(sets, types, i, j) == JaccardEntry(sets, i, j)
  {
  }

  /**
   * The hybrid matrix is symmetric, lies in [0, 1], is 1 on the diagonal and 0
   * off the diagonal wherever an empty gene set is involved.
   */
  lemma HybridMatrixProperties(sets: seq<GeneSet>, types: seq<string>, i: int, j: int)
    requires 0 <= i < |sets| && 0 <= j < |sets| && |types| >= |sets|
    ensures HybridEntry(sets, types, i, j) == HybridEntry(sets, types, j, i)
    ensures 0.0 <= HybridEntry(sets, types, i, j) <= 1.0
    ensures i == j ==> HybridEntry(sets, types, i, j) == 1.0
    ensures i != j && (sets[i] == {} || sets[j] == {}) ==> HybridEntry(sets, types, i, j) == 0.0
  {
    if i != j {
      PairSimilaritySymmetric(sets[i], types[i], sets[j], types[j]);
      PairSimilarityInUnitInterval(sets[i], types[i], sets[j], types[j]);
      if sets[i] == {} || sets[j] == {} {
        EmptySetScoresZero(sets[i], types[i], sets[j], types[j]);
      }
    }
  }

  // ---------------------------------------------------------------------------
  // Vocabulary and incidence
  // ---------------------------------------------------------------------------

  /** `all_genes.update(gs)` for every set. */
  method CollectGenes(sets: seq<GeneSet>) returns (all: GeneSet)
    ensures forall g :: g in all <==> exists e :: 0 <= e < |sets| && g in sets[e]
  {
    all := {};
    for e := 0 to |sets|
      invariant forall g :: g in all <==> exists d :: 0 <= d < e && g in sets[d]
    {
      all := all + sets[e];
    }
  }

  ghost predicate Distinct(vocab: seq<string>) {
    forall p, q :: 0 <= p < q < |vocab| ==> vocab[p] != vocab[q]
  }

  /** `{g: i for i, g in enumerate(vocab)}` */
  function IndexOf(vocab: seq<string>): (index: map<string, int>)
    requires Distinct(vocab)
    ensures forall g :: g in index <==> g in vocab
    ensures forall r :: 0 <= r < |vocab| ==> index[vocab[r]] == r
    ensures forall g :: g in index ==> 0 <= index[g] < |vocab| && vocab[index[g]] == g
  {
    map r | 0 <= r < |vocab| :: vocab[r] := r
  }

  /** Gene `r` belongs to entity `e` in the list-of-coordinates incidence. */
  predicate Incident(rows: seq<int>, cols: seq<int>, r: int, e: int)
    requires |rows| == |cols|
  {
    exists t :: 0 <= t < |rows| && rows[t] == r && cols[t] == e
  }

  /** Appending a coordinate keeps every earlier one. */
  lemma IncidentGrows(rows: seq<int>, cols: seq<int>, r0: int, e0: int, r: int, e: int)
    requires |rows| == |cols| && Incident(rows, cols, r, e)
    ensures Incident(rows + [r0], cols + [e0], r, e)
  {
    var t :| 0 <= t < |rows| && rows[t] == r && cols[t] == e;
    assert (rows + [r0])[t] == r && (cols + [e0])[t] == e;
  }

  /**
   * The coordinate lists of the binary gene × entity matrix: an entry
   * (index of g, e) for every gene g of every set e, and no other. The ghost
   * `genes` names the gene behind each entry.
   */
  method BuildIncidence(sets: seq<GeneSet>, index: map<string, int>)
    returns (rows: seq<int>, cols: seq<int>, ghost genes: seq<string>)
    requires forall e, g :: 0 <= e < |sets| && g in sets[e] ==> g in index
    ensures |rows| == |cols| == |genes|
    ensures forall t :: 0 <= t < |rows| ==>
      0 <= cols[t] < |sets| && genes[t] in sets[cols[t]] && rows[t] == index[genes[t]]
    ensures forall e, g :: 0 <= e < |sets| && g in sets[e] ==> Incident(rows, cols, index[g], e)
  {
    rows, cols, genes := [], [], [];
    for e := 0 to |sets|
      invariant |rows| == |cols| == |genes|
      invariant forall t :: 0 <= t < |rows| ==>
        0 <= cols[t] < e && genes[t] in sets[cols[t]] && genes[t] in index && rows[t] == index[genes[t]]
      invariant forall d, g :: 0 <= d < e && g in sets[d] ==> Incident(rows, cols, index[g], d)
    {
      var remaining := sets[e];
      while remaining != {}
        invariant remaining <= sets[e]
        invariant |rows| == |cols| == |genes|
        invariant forall t :: 0 <= t < |rows| ==>
          0 <= cols[t] <= e && genes[t] in sets[cols[t]] && genes[t] in index && rows[t] == index[genes[t]]
        invariant forall d, g :: 0 <= d < e && g in sets[d] ==> Incident(rows, cols, index[g], d)
        invariant forall g :: g in sets[e] && g !in remaining ==> Incident(rows, cols, index[g], e)
        decreases |remaining|
      {
        var g :| g in remaining;
        ghost var oldRows, oldCols := rows, cols;
        rows := rows + [index[g]];
        cols := cols + [e];
        genes := genes + [g];
        assert Incident(rows, cols, index[g], e) by {
          assert rows[|oldRows|] == index[g] && cols[|oldRows|] == e;
        }
        forall d, h | 0 <= d <= e && h in sets[d] && Incident(oldRows, oldCols, index[h], d)
          ensures Incident(rows, cols, index[h], d)
        {
          IncidentGrows(oldRows, oldCols, index[g], e, index[h], d);
        }
        remaining := remaining - {g};
      }
    }
  }

  /** Column `e` of the binary matrix: the genes of entity `e`, by index. */
  function ColumnGenes(rows: seq<int>, cols: seq<int>, nGenes: int, e: int): set<int>
    requires |rows| == |cols|
  {
    set r | 0 <= r < nGenes && Incident(rows, cols, r, e)
  }

  /** Entry (i, j) of the column product BᵀB of a binary matrix: the genes shared by columns i and j. */
  function SharedGenes(rows: seq<int>, cols: seq<int>, nGenes: int, i: int, j: int): set<int>
    requires |rows| == |cols|
  {
    ColumnGenes(rows, cols, nGenes, i) * ColumnGenes(rows, cols, nGenes, j)
  }

  /** The vocabulary positions whose gene lies in `s`. */
  function Positions(vocab: seq<string>, s: GeneSet): set<int> {
    set r | 0 <= r < |vocab| && vocab[r] in s
  }

  lemma PositionsSplit(vocab: seq<string>, s: GeneSet)
    requires |vocab| > 0 && Distinct(vocab)
    ensures var n := |vocab|;
      Positions(vocab, s) ==
        Positions(vocab[..n - 1], s - {vocab[n - 1]}) + (if vocab[n - 1] in s then {n - 1} else {})
  {
    var n := |vocab|;
    var init := vocab[..n - 1];
    var rhs := Positions(init, s - {vocab[n - 1]}) + (if vocab[n - 1] in s then {n - 1} else {});
    forall r | r in Positions(vocab, s) ensures r in rhs {
      if r < n - 1 {
        assert init[r] == vocab[r] && vocab[r] != vocab[n - 1];
      }
    }
    forall r | r in rhs ensures r in Positions(vocab, s) {
      if r < n - 1 {
        assert init[r] == vocab[r];
      }
    }
  }

  /** Without the last vocabulary entry, the rest of `s` still lies in the shorter vocabulary. */
  lemma RestInInit(vocab: seq<string>, s: GeneSet)
    requires |vocab| > 0
    requires forall g :: g in s ==> g in vocab
    ensures forall g :: g in s && g != vocab[|vocab| - 1] ==> g in vocab[..|vocab| - 1]
  {
    var n := |vocab|;
    forall g | g in s && g != vocab[n - 1] ensures g in vocab[..n - 1] {
      var k :| 0 <= k < n && vocab[k] == g;
      assert vocab[..n - 1][k] == g;
    }
  }

  /** Counting the vocabulary positions whose gene lies in `s` counts `s`. */
  lemma {:induction false} IndexedCount(vocab: seq<string>, s: GeneSet)
    requires Distinct(vocab)
    requires forall g :: g in s ==> g in vocab
    ensures |Positions(vocab, s)| == |s|
    decreases |vocab|
  {
    var n := |vocab|;
    if n == 0 {
      assert s == {} by {
        assert forall g :: g !in s;
      }
    } else {
      RestInInit(vocab, s);
      IndexedCount(vocab[..n - 1], s - {vocab[n - 1]});
      IndexedCountStep(vocab, s);
    }
  }

  /** The step of IndexedCount: the last vocabulary entry adds one position exactly when its gene is in `s`. */
  lemma IndexedCountStep(vocab: seq<string>, s: GeneSet)
    requires |vocab| > 0 && Distinct(vocab)
    requires var n := |vocab|; |Positions(vocab[..n - 1], s - {vocab[n - 1]})| == |s - {vocab[n - 1]}|
    ensures |Positions(vocab, s)| == |s|
  {
    var n := |vocab|;
    var last := vocab[n - 1];
    var a := Positions(vocab[..n - 1], s - {last});
    PositionsSplit(vocab, s);
    assert n - 1 !in a;
    if last in s {
      assert |a + {n - 1}| == |a| + 1;
      assert |s| == |s - {last}| + 1;
    } else {
      assert s == s - {last};
    }
  }

  /** The incidence facts a correct build provides, over a vocabulary and its index. */
  ghost predicate IsIncidence(sets: seq<GeneSet>, vocab: seq<string>, index: map<string, int>, rows: seq<int>, cols: seq<int>) {
    && Distinct(vocab)
    && (forall g :: g in index <==> g in vocab)
    && (forall g :: g in index ==> 0 <= index[g] < |vocab| && vocab[index[g]] == g)
    && (forall e, g :: 0 <= e < |sets| && g in sets[e] ==> g in index)
    && |rows| == |cols|
    && (forall t :: 0 <= t < |rows| ==> 0 <= cols[t] < |sets| && exists g :: g in sets[cols[t]] && index[g] == rows[t])
    && (forall e, g :: 0 <= e < |sets| && g in sets[e] ==> Incident(rows, cols, index[g], e))
  }

  /** Column `e` of the incidence matrix is entity `e`'s gene set, by index. */
  lemma ColumnIsGeneSet(sets: seq<GeneSet>, vocab: seq<string>, index: map<string, int>, rows: seq<int>, cols: seq<int>, e: int)
    requires IsIncidence(sets, vocab, index, rows, cols) && 0 <= e < |sets|
    ensures ColumnGenes(rows, cols, |vocab|, e) == Positions(vocab, sets[e])
  {
    forall r | 0 <= r < |vocab| ensures Incident(rows, cols, r, e) <==> vocab[r] in sets[e] {
      if Incident(rows, cols, r, e) {
        var t :| 0 <= t < |rows| && rows[t] == r && cols[t] == e;
        var g :| g in sets[cols[t]] && index[g] == rows[t];
        assert vocab[r] == g;
      }
      if vocab[r] in sets[e] {
        assert vocab[r] in index;
        var r' := index[vocab[r]];
        assert vocab[r'] == vocab[r];
        assert r' == r;
      }
    }
  }

  /** Entry (i, j) of BᵀB counts |Sᵢ ∩ Sⱼ|. */
  lemma SharedIsIntersection(sets: seq<GeneSet>, vocab: seq<string>, index: map<string, int>, rows: seq<int>, cols: seq<int>, i: int, j: int)
    requires IsIncidence(sets, vocab, index, rows, cols)
    requires 0 <= i < |sets| && 0 <= j < |sets|
    ensures |SharedGenes(rows, cols, |vocab|, i, j)| == |sets[i] * sets[j]|
  {
    ColumnIsGeneSet(sets, vocab, index, rows, cols, i);
    ColumnIsGeneSet(sets, vocab, index, rows, cols, j);
    assert SharedGenes(rows, cols, |vocab|, i, j) == Positions(vocab, sets[i] * sets[j]);
    forall g | g in sets[i] * sets[j] ensures g in vocab {
      assert g in index;
    }
    IndexedCount(vocab, sets[i] * sets[j]);
  }

  /** The column sums of B are the set sizes. */
  lemma ColumnSumIsSize(sets: seq<GeneSet>, vocab: seq<string>, index: map<string, int>, rows: seq<int>, cols: seq<int>, e: int)
    requires IsIncidence(sets, vocab, index, rows, cols)
    requires 0 <= e < |sets|
    ensures |ColumnGenes(rows, cols, |vocab|, e)| == |sets[e]|
  {
    ColumnIsGeneSet(sets, vocab, index, rows, cols, e);
    forall g | g in sets[e] ensures g in vocab {
      assert g in index;
    }
    IndexedCount(vocab, sets[e]);
  }

  /** The sorted vocabulary, its index and the incidence lists, as both matrix builders make them. */
  method Incidence(sets: seq<GeneSet>) returns (vocab: seq<string>, index: map<string, int>, rows: seq<int>, cols: seq<int>)
    ensures IsIncidence(sets, vocab, index, rows, cols)
    ensures StrictlyIncreasing(vocab)
    ensures forall g :: g in vocab <==> exists e :: 0 <= e < |sets| && g in sets[e]
  {
    var allGenes := CollectGenes(sets);
    vocab := SortedList(allGenes);
    assert Distinct(vocab);
    index := IndexOf(vocab);
    ghost var genes;
    rows, cols, genes := BuildIncidence(sets, index);
    forall t | 0 <= t < |rows| ensures exists g :: g in sets[cols[t]] && index[g] == rows[t] {
      assert genes[t] in sets[cols[t]];
    }
  }

  /** The intersection matrix BᵀB. */
  method Intersections(sets: seq<GeneSet>, vocab: seq<string>, index: map<string, int>, rows: seq<int>, cols: seq<int>)
    returns (inter: array2<int>)
    requires IsIncidence(sets, vocab, index, rows, cols)
    ensures fresh(inter) && inter.Length0 == |sets| && inter.Length1 == |sets|
    ensures forall i, j :: 0 <= i < |sets| && 0 <= j < |sets| ==> inter[i, j] == |sets[i] * sets[j]|
  {
    var n := |sets|;
    inter := new int[n, n]((i, j) requires |rows| == |cols| => |SharedGenes(rows, cols, |vocab|, i, j)|);
    forall i, j | 0 <= i < n && 0 <= j < n ensures inter[i, j] == |sets[i] * sets[j]| {
      SharedIsIntersection(sets, vocab, index, rows, cols, i, j);
    }
  }

  /** The intersection, floored union and floored minimum-size matrices of the hybrid metric. */
  method PairCounts(sets: seq<GeneSet>) returns (intersection: array2<int>, union: array2<int>, minSizes: array2<int>)
    ensures fresh(intersection) && fresh(union) && fresh(minSizes)
    ensures intersection.Length0 == intersection.Length1 == |sets|
    ensures union.Length0 == union.Length1 == |sets|
    ensures minSizes.Length0 == minSizes.Length1 == |sets|
    ensures forall i, j :: 0 <= i < |sets| && 0 <= j < |sets| ==>
      && intersection[i, j] == |sets[i] * sets[j]|
      && union[i, j] == Max(|sets[i]| + |sets[j]| - |sets[i] * sets[j]|, 1)
      && minSizes[i, j] == Max(Min(|sets[i]|, |sets[j]|), 1)
  {
    var n := |sets|;
    var setSizes := seq(n, e requires 0 <= e < n => |sets[e]|);
    var vocab, index, rows, cols := Incidence(sets);
    intersection := Intersections(sets, vocab, index, rows, cols);
    union := new int[n, n]((i, j) reads intersection requires 0 <= i < n && 0 <= j < n =>
      Max(setSizes[i] + setSizes[j] - intersection[i, j], 1));
    minSizes := new int[n, n]((i, j) requires 0 <= i < n && 0 <= j < n =>
      Max(Min(setSizes[i], setSizes[j]), 1));
  }

  /** `np.fill_diagonal(m, v)` */
  method FillDiagonal(m: array2<real>, v: real)
    requires m.Length0 == m.Length1
    modifies m
    ensures forall p, q :: 0 <= p < m.Length0 && 0 <= q < m.Length1 ==>
      m[p, q] == if p == q then v else old(m[p, q])
  {
    for d := 0 to m.Length0
      invariant forall p, q :: 0 <= p < m.Length0 && 0 <= q < m.Length1 ==>
        m[p, q] == if p == q && p < d then v else old(m[p, q])
    {
      m[d, d] := v;
    }
  }

  /** `m[i, j] = v; m[j, i] = v` */
  method SetSymmetric(m: array2<real>, i: int, j: int, v: real)
    requires 0 <= i < m.Length0 && 0 <= j < m.Length1 && m.Length0 == m.Length1
    modifies m
    ensures forall p, q :: 0 <= p < m.Length0 && 0 <= q < m.Length1 ==>
      m[p, q] == if (p == i && q == j) || (p == j && q == i) then v else old(m[p, q])
  {
    m[i, j] := v;
    m[j, i] := v;
  }

  /** Entry (p, q) is written once the loop over i, then j >= i, has passed min(p, q), max(p, q). */
  predicate Visited(p: int, q: int, i: int, j: int) {
    Min(p, q) < i || (Min(p, q) == i && Max(p, q) < j)
  }

  // ---------------------------------------------------------------------------
  // compute_hybrid_similarity and compute_jaccard_matrix
  // ---------------------------------------------------------------------------

  /** The hybrid similarity matrix: the type-dispatched metric off the diagonal, 1 on it. */
  method ComputeHybridSimilarity(sets: seq<GeneSet>, types: seq<string>) returns (m: array2<real>)
    requires |types| >= |sets|
    ensures fresh(m) && m.Length0 == |sets| && m.Length1 == |sets|
    ensures forall i, j :: 0 <= i < |sets| && 0 <= j < |sets| ==> m[i, j] == HybridEntry(sets, types, i, j)
  {
    var n := |sets|;
    var intersection, union, minSizes := PairCounts(sets);
    m := new real[n, n]((i, j) => 0.0);
    for i := 0 to n
      modifies m
      invariant forall p, q :: 0 <= p < n && 0 <= q < n ==>
        m[p, q] == if Min(p, q) < i then PairSimilarity(sets[p], types[p], sets[q], types[q]) else 0.0
    {
      for j := i to n
        modifies m
        invariant forall p, q :: 0 <= p < n && 0 <= q < n ==>
          m[p, q] == if Visited(p, q, i, j) then PairSimilarity(sets[p], types[p], sets[q], types[q]) else 0.0
      {
        var ti, tj := types[i], types[j];
        var sim: real;
        if ti == tj {
          sim := intersection[i, j] as real / union[i, j] as real;
        } else if ti == "TF" || tj == "TF" {
          sim := intersection[i, j] as real / minSizes[i, j] as real;
        } else {
          sim := intersection[i, j] as real / union[i, j] as real;
        }
        PairSimilaritySymmetric(sets[i], ti, sets[j], tj);
        SetSymmetric(m, i, j, sim);
      }
    }
    FillDiagonal(m, 1.0);
  }

  /** The column sums of B: the pathway sizes. */
  method ColumnSums(sets: seq<GeneSet>, vocab: seq<string>, index: map<string, int>, rows: seq<int>, cols: seq<int>)
    returns (sizes: seq<int>)
    requires IsIncidence(sets, vocab, index, rows, cols)
    ensures |sizes| == |sets| && forall e :: 0 <= e < |sets| ==> sizes[e] == |sets[e]|
  {
    sizes := seq(|sets|, e requires 0 <= e < |sets| && |rows| == |cols| => |ColumnGenes(rows, cols, |vocab|, e)|);
    forall e | 0 <= e < |sets| ensures sizes[e] == |sets[e]| {
      ColumnSumIsSize(sets, vocab, index, rows, cols, e);
    }
  }

  /** The intersection matrix and the floored union, from the column sums and column products of B. */
  method JaccardCounts(sets: seq<GeneSet>) returns (intersection: array2<int>, union: array2<int>)
    ensures fresh(intersection) && fresh(union)
    ensures intersection.Length0 == intersection.Length1 == |sets|
    ensures union.Length0 == union.Length1 == |sets|
    ensures forall i, j :: 0 <= i < |sets| && 0 <= j < |sets| ==>
      && intersection[i, j] == |sets[i] * sets[j]|
      && union[i, j] == Max(|sets[i]| + |sets[j]| - |sets[i] * sets[j]|, 1)
  {
    var n := |sets|;
    var vocab, index, rows, cols := Incidence(sets);
    intersection := Intersections(sets, vocab, index, rows, cols);
    var pathwaySizes := ColumnSums(sets, vocab, index, rows, cols);
    union := new int[n, n]((i, j) reads intersection requires 0 <= i < n && 0 <= j < n =>
      Max(pathwaySizes[i] + pathwaySizes[j] - intersection[i, j], 1));
  }

  /** The plain Jaccard matrix: |Sᵢ ∩ Sⱼ| / |Sᵢ ∪ Sⱼ| off the diagonal, 1 on it. */
  method ComputeJaccardMatrix(sets: seq<GeneSet>) returns (m: array2<real>)
    ensures fresh(m) && m.Length0 == |sets| && m.Length1 == |sets|
    ensures forall i, j :: 0 <= i < |sets| && 0 <= j < |sets| ==> m[i, j] == JaccardEntry(sets, i, j)
  {
    var n := |sets|;
    var intersection, union := JaccardCounts(sets);
    m := new real[n, n]((i, j) reads intersection, union requires 0 <= i < n && 0 <= j < n && union[i, j] != 0 =>
      intersection[i, j] as real / union[i, j] as real);
    FillDiagonal(m, 1.0);
  }

  // ---------------------------------------------------------------------------
  // extract_top_neighbors
  // ---------------------------------------------------------------------------

  /** Row `i` of a matrix. */
  function RowOf(m: array2<real>, i: int): (row: seq<real>)
    requires 0 <= i < m.Length0
    reads m
    ensures |row| == m.Length1 && forall j :: 0 <= j < m.Length1 ==> row[j] == m[i, j]
  {
    seq(m.Length1, j requires 0 <= j < m.Length1 reads m => m[i, j])
  }

  /**
   * `order` lists every index of `row` once, from the largest value down;
   * equal values in any order (NumPy's default argsort is not stable).
   */
  ghost predicate IsDescendingOrder(row: seq<real>, order: seq<int>) {
    && |order| == |row|
    && (forall t :: 0 <= t < |order| ==> 0 <= order[t] < |row|)
    && (forall j :: 0 <= j < |row| ==> j in order)
    && (forall s, t :: 0 <= s < t < |order| ==> order[s] != order[t])
    && (forall s, t :: 0 <= s < t < |order| ==> row[order[s]] >= row[order[t]])
  }

  /** `order` is a descending order of the first `j` indices of `row`. */
  ghost predicate DescendingPrefix(row: seq<real>, order: seq<int>, j: int) {
    && |order| == j <= |row|
    && (forall t :: 0 <= t < j ==> 0 <= order[t] < j)
    && (forall i :: 0 <= i < j ==> i in order)
    && (forall s, t :: 0 <= s < t < j ==> order[s] != order[t])
    && (forall s, t :: 0 <= s < t < j ==> row[order[s]] >= row[order[t]])
  }

  /** Inserting index j where its value fits keeps a descending order of the first j + 1 indices. */
  lemma InsertKeepsDescending(row: seq<real>, order: seq<int>, j: int, p: int)
    requires 0 <= j < |row| && DescendingPrefix(row, order, j) && 0 <= p <= j
    requires forall t :: 0 <= t < p ==> row[order[t]] >= row[j]
    requires forall t :: p <= t < j ==> row[order[t]] <= row[j]
    ensures DescendingPrefix(row, order[..p] + [j] + order[p..], j + 1)
  {
    var next := order[..p] + [j] + order[p..];
    assert |next| == j + 1;
    assert forall t :: 0 <= t < p ==> next[t] == order[t];
    assert next[p] == j;
    assert forall t :: p < t <= j ==> next[t] == order[t - 1];
    forall i | 0 <= i <= j ensures i in next {
      if i < j {
        assert i in order;
        var u :| 0 <= u < |order| && order[u] == i;
        if u < p {
          assert next[u] == i;
        } else {
          assert next[u + 1] == i;
        }
      } else {
        assert next[p] == i;
      }
    }
  }

  /** `np.argsort(row)[::-1]`: some descending order of the indices. */
  method ArgsortDescending(row: seq<real>) returns (order: seq<int>)
    ensures IsDescendingOrder(row, order)
  {
    order := [];
    for j := 0 to |row|
      invariant DescendingPrefix(row, order, j)
    {
      var p := 0;
      while p < j && row[order[p]] >= row[j]
        invariant 0 <= p <= j
        invariant forall t :: 0 <= t < p ==> row[order[t]] >= row[j]
      {
        p := p + 1;
      }
      assert forall t :: p <= t < j ==> row[order[t]] <= row[j] by {
        if p < j {
          assert forall t :: p <= t < j ==> row[order[t]] <= row[order[p]];
        }
      }
      var next := order[..p] + [j] + order[p..];
      InsertKeepsDescending(row, order, j, p);
      order := next;
    }
  }

  /** `s[start:stop]` under Python's slice rules, for a non-negative start. */
  function PySlice<T>(s: seq<T>, start: nat, stop: int): (r: seq<T>)
    ensures |r| <= |s|
    ensures forall x :: x in r ==> x in s
    ensures start <= |s| && start <= stop <= |s| ==> r == s[start..stop]
  {
    var hi := if stop < 0 then Max(|s| + stop, 0) else Min(stop, |s|);
    var lo := Min(start, |s|);
    if lo <= hi then s[lo..hi] else []
  }

  /** `top_indices`: the descending order without its first element, cut to k. */
  function Candidates(order: seq<int>, k: int): (c: seq<int>)
    ensures forall x :: x in c ==> x in order
  {
    PySlice(order, 1, k + 1)
  }

  /** The (id, similarity) pairs of the candidates that reach `minSim`, in candidate order. */
  function Listed<Id>(row: seq<real>, ids: seq<Id>, cand: seq<int>, minSim: real): (l: seq<(Id, real)>)
    requires forall t :: 0 <= t < |cand| ==> 0 <= cand[t] < |row| && cand[t] < |ids|
    ensures |l| <= |cand|
    ensures forall x :: x in l ==> x.1 >= minSim && exists t :: 0 <= t < |cand| && x == (ids[cand[t]], row[cand[t]])
    decreases |cand|
  {
    if |cand| == 0 then []
    else
      var c := cand[|cand| - 1];
      var front := Listed(row, ids, cand[..|cand| - 1], minSim);
      assert forall x :: x in front ==> exists t :: 0 <= t < |cand| && x == (ids[cand[t]], row[cand[t]]) by {
        forall x | x in front ensures exists t :: 0 <= t < |cand| && x == (ids[cand[t]], row[cand[t]]) {
          var t :| 0 <= t < |cand| - 1 && x == (ids[cand[..|cand| - 1][t]], row[cand[..|cand| - 1][t]]);
          assert cand[..|cand| - 1][t] == cand[t];
        }
      }
      front + (if row[c] >= minSim then [(ids[c], row[c])] else [])
  }

  /** The neighbour list of one entity, for a chosen descending order of its row. */
  function NeighborList<Id>(row: seq<real>, ids: seq<Id>, order: seq<int>, k: int, minSim: real): seq<(Id, real)>
    requires IsDescendingOrder(row, order) && |row| <= |ids|
  {
    Listed(row, ids, Candidates(order, k), minSim)
  }

  /** `neighbors` after the first |orders| entities: a non-empty list is stored under the entity's id. */
  function NeighborMap<Id(==)>(rows: seq<seq<real>>, ids: seq<Id>, orders: seq<seq<int>>, k: int, minSim: real): map<Id, seq<(Id, real)>>
    requires |orders| <= |rows| && |orders| <= |ids|
    requires forall p :: 0 <= p < |orders| ==> IsDescendingOrder(rows[p], orders[p]) && |rows[p]| <= |ids|
    decreases |orders|
  {
    if |orders| == 0 then map[]
    else
      var p := |orders| - 1;
      var before := NeighborMap(rows, ids, orders[..p], k, minSim);
      var list := NeighborList(rows[p], ids, orders[p], k, minSim);
      if list != [] then before[ids[p] := list] else before
  }

  /** The rows of a matrix. */
  function Rows(m: array2<real>): (rows: seq<seq<real>>)
    reads m
    ensures |rows| == m.Length0 && forall i :: 0 <= i < m.Length0 ==> rows[i] == RowOf(m, i)
  {
    seq(m.Length0, i requires 0 <= i < m.Length0 reads m => RowOf(m, i))
  }

  /** The inner loop of extract_top_neighbors: the candidates that reach `minSim`, in order. */
  method CollectNeighbors<Id>(sims: seq<real>, ids: seq<Id>, top: seq<int>, minSim: real) returns (list: seq<(Id, real)>)
    requires forall t :: 0 <= t < |top| ==> 0 <= top[t] < |sims| && top[t] < |ids|
    ensures list == Listed(sims, ids, top, minSim)
  {
    list := [];
    for t := 0 to |top|
      invariant list == Listed(sims, ids, top[..t], minSim)
    {
      var j := top[t];
      assert top[..t + 1][..t] == top[..t];
      if sims[j] >= minSim {
        list := list + [(ids[j], sims[j])];
      }
    }
    assert top[..|top|] == top;
  }

  /**
   * `extract_top_neighbors(m, ids, k, min_sim)`. The ghost `orders` are the
   * descending orders argsort happened to produce, one per row.
   */
  method ExtractTopNeighbors<Id(==)>(m: array2<real>, ids: seq<Id>, k: int, minSim: real)
    returns (neighbors: map<Id, seq<(Id, real)>>, ghost orders: seq<seq<int>>)
    requires m.Length0 == |ids| && m.Length1 == |ids|
    ensures |orders| == |ids|
    ensures forall i :: 0 <= i < |ids| ==> IsDescendingOrder(RowOf(m, i), orders[i])
    ensures neighbors == NeighborMap(Rows(m), ids, orders, k, minSim)
    ensures forall x :: x in neighbors ==> x in ids && IsNeighborList(neighbors[x], ids, k, minSim)
  {
    var rows := Rows(m);
    neighbors, orders := NeighborsOfRows(rows, ids, k, minSim);
    NeighborMapValuesAreLists(rows, ids, orders, k, minSim);
  }

  /** The loop over entities of extract_top_neighbors, over the rows of the matrix. */
  method NeighborsOfRows<Id(==)>(rows: seq<seq<real>>, ids: seq<Id>, k: int, minSim: real)
    returns (neighbors: map<Id, seq<(Id, real)>>, ghost orders: seq<seq<int>>)
    requires |rows| == |ids| && forall i :: 0 <= i < |rows| ==> |rows[i]| == |ids|
    ensures |orders| == |ids|
    ensures forall i :: 0 <= i < |ids| ==> IsDescendingOrder(rows[i], orders[i])
    ensures neighbors == NeighborMap(rows, ids, orders, k, minSim)
  {
    neighbors := map[];
    orders := [];
    for i := 0 to |ids|
      invariant |orders| == i
      invariant forall p :: 0 <= p < i ==> IsDescendingOrder(rows[p], orders[p])
      invariant neighbors == NeighborMap(rows, ids, orders, k, minSim)
    {
      var list, order := RowNeighbors(rows[i], ids, k, minSim);
      NeighborMapStep(rows, ids, orders, order, k, minSim);
      if list != [] {
        neighbors := neighbors[ids[i] := list];
      }
      orders := orders + [order];
    }
  }

  /** The body of the loop over entities: the neighbour list of one row of similarities. */
  method RowNeighbors<Id(==)>(sims: seq<real>, ids: seq<Id>, k: int, minSim: real)
    returns (list: seq<(Id, real)>, ghost order: seq<int>)
    requires |sims| <= |ids|
    ensures IsDescendingOrder(sims, order)
    ensures list == NeighborList(sims, ids, order, k, minSim)
    ensures (k >= 0 ==> |list| <= k) && NonIncreasing(list)
    ensures forall t :: 0 <= t < |list| ==> list[t].0 in ids && list[t].1 >= minSim
  {
    var sorted := ArgsortDescending(sims);
    order := sorted;
    var top := Candidates(sorted, k);
    forall t | 0 <= t < |top| ensures 0 <= top[t] < |sims| {
      assert top[t] in sorted;
    }
    list := CollectNeighbors(sims, ids, top, minSim);
    NeighborListProperties(sims, ids, order, k, minSim);
  }

  /** One more row extends the neighbour map by that row's list, when it is non-empty. */
  lemma NeighborMapStep<Id>(rows: seq<seq<real>>, ids: seq<Id>, orders: seq<seq<int>>, order: seq<int>, k: int, minSim: real)
    requires |orders| < |rows| && |orders| < |ids|
    requires forall p :: 0 <= p < |orders| ==> IsDescendingOrder(rows[p], orders[p]) && |rows[p]| <= |ids|
    requires IsDescendingOrder(rows[|orders|], order) && |rows[|orders|]| <= |ids|
    ensures var list := NeighborList(rows[|orders|], ids, order, k, minSim);
      var before := NeighborMap(rows, ids, orders, k, minSim);
      NeighborMap(rows, ids, orders + [order], k, minSim) == if list != [] then before[ids[|orders|] := list] else before
  {
    assert (orders + [order])[..|orders|] == orders;
  }

  // ---------------------------------------------------------------------------
  // Properties of the neighbour lists
  // ---------------------------------------------------------------------------

  /** At most k candidates for a non-negative k, and never the first of the order. */
  lemma CandidatesBounded(order: seq<int>, k: int)
    requires k >= 0
    ensures |Candidates(order, k)| <= k
  {
  }

  /**
   * Every list has at most k entries, each at least `minSim`, in non-increasing
   * similarity, each naming an entity other than the first of the order.
   */
  lemma NeighborListProperties<Id>(row: seq<real>, ids: seq<Id>, order: seq<int>, k: int, minSim: real)
    requires IsDescendingOrder(row, order) && |row| <= |ids|
    ensures var l := NeighborList(row, ids, order, k, minSim);
      && (k >= 0 ==> |l| <= k)
      && (forall t :: 0 <= t < |l| ==> l[t].1 >= minSim)
      && (forall s, t :: 0 <= s < t < |l| ==> l[s].1 >= l[t].1)
      && (forall t :: 0 <= t < |l| ==> l[t].0 in ids)
  {
    var cand := Candidates(order, k);
    if k >= 0 {
      CandidatesBounded(order, k);
    }
    CandidatesDescending(row, order, k);
    forall t | 0 <= t < |cand| ensures 0 <= cand[t] < |row| {
      assert cand[t] in order;
    }
    ListedNonIncreasing(row, ids, cand, minSim);
    assert NeighborList(row, ids, order, k, minSim) == Listed(row, ids, cand, minSim);
  }

  /** The candidates keep the order's descending similarities. */
  lemma CandidatesDescending(row: seq<real>, order: seq<int>, k: int)
    requires IsDescendingOrder(row, order)
    ensures var c := Candidates(order, k);
      forall s, t :: 0 <= s < t < |c| ==> row[c[s]] >= row[c[t]]
  {
    var c := Candidates(order, k);
    if |c| > 0 {
      var hi := if k + 1 < 0 then Max(|order| + k + 1, 0) else Min(k + 1, |order|);
      assert c == order[1..hi];
      forall s, t | 0 <= s < t < |c| ensures row[c[s]] >= row[c[t]] {
        assert c[s] == order[s + 1] && c[t] == order[t + 1];
      }
    }
  }

  /** The similarities of a neighbour list never increase. */
  predicate NonIncreasing<Id>(l: seq<(Id, real)>) {
    forall s, t :: 0 <= s < t < |l| ==> l[s].1 >= l[t].1
  }

  lemma {:induction false} ListedNonIncreasing<Id>(row: seq<real>, ids: seq<Id>, cand: seq<int>, minSim: real)
    requires forall t :: 0 <= t < |cand| ==> 0 <= cand[t] < |row| && cand[t] < |ids|
    requires forall s, t :: 0 <= s < t < |cand| ==> row[cand[s]] >= row[cand[t]]
    ensures NonIncreasing(Listed(row, ids, cand, minSim))
    decreases |cand|
  {
    if |cand| > 0 {
      var init := cand[..|cand| - 1];
      var c := cand[|cand| - 1];
      ListedNonIncreasing(row, ids, init, minSim);
      var front := Listed(row, ids, init, minSim);
      forall x | x in front ensures x.1 >= row[c] {
        var t :| 0 <= t < |init| && x == (ids[init[t]], row[init[t]]);
        assert init[t] == cand[t];
      }
      var l := Listed(row, ids, cand, minSim);
      assert l == front + (if row[c] >= minSim then [(ids[c], row[c])] else []);
      forall s, t | 0 <= s < t < |l| ensures l[s].1 >= l[t].1 {
        if t < |front| {
          assert l[s] == front[s] && l[t] == front[t];
          assert front[s].1 >= front[t].1;
        } else {
          assert t == |front| && s < |front|;
          assert l[t] == (ids[c], row[c]);
          assert l[s] == front[s] && front[s] in front;
          assert front[s].1 >= row[c];
        }
      }
    }
  }

  /**
   * When the diagonal is strictly the largest value of row i, every
   * descending order starts with i, so i is never a candidate and, with
   * distinct ids, i's own id is never listed.
   */
  lemma SelfExcludedWhenDiagonalIsMaximum<Id>(row: seq<real>, ids: seq<Id>, order: seq<int>, k: int, minSim: real, i: int)
    requires IsDescendingOrder(row, order) && |row| <= |ids|
    requires 0 <= i < |row|
    requires forall j :: 0 <= j < |row| && j != i ==> row[j] < row[i]
    requires forall p, q :: 0 <= p < q < |ids| ==> ids[p] != ids[q]
    ensures order[0] == i
    ensures forall x :: x in NeighborList(row, ids, order, k, minSim) ==> x.0 != ids[i]
  {
    assert i in order;
    var t :| 0 <= t < |order| && order[t] == i;
    DescendingAt(row, order, 0, t);
    var cand := Candidates(order, k);
    forall x | x in NeighborList(row, ids, order, k, minSim) ensures x.0 != ids[i] {
      var s :| 0 <= s < |cand| && x == (ids[cand[s]], row[cand[s]]);
      assert cand[s] in order;
      var u :| 0 <= u < |order| && order[u] == cand[s];
      CandidatesSkipFirst(order, k, s);
    }
  }

  /** An earlier element of a descending order has at least the similarity of a later one. */
  lemma DescendingAt(row: seq<real>, order: seq<int>, s: int, t: int)
    requires IsDescendingOrder(row, order) && 0 <= s <= t < |order|
    ensures row[order[s]] >= row[order[t]]
  {
    if s < t {
      assert row[order[s]] >= row[order[t]];
    }
  }

  /** The s-th candidate is a later element of the order than its first. */
  lemma CandidatesSkipFirst(order: seq<int>, k: int, s: int)
    requires forall p, q :: 0 <= p < q < |order| ==> order[p] != order[q]
    requires 0 <= s < |Candidates(order, k)|
    ensures |order| > 0 && Candidates(order, k)[s] != order[0]
  {
    var hi := if k + 1 < 0 then Max(|order| + k + 1, 0) else Min(k + 1, |order|);
    assert Candidates(order, k) == order[1..hi];
    assert Candidates(order, k)[s] == order[s + 1];
  }

  /**
   * Positional self-exclusion, as written: when the diagonal ties with another
   * entry, argsort may put the other index first, and the entity is listed as
   * its own neighbour while its twin is dropped.
   */
  lemma SelfListedOnTie()
    ensures IsDescendingOrder([1.0, 1.0], [1, 0])
    ensures NeighborList([1.0, 1.0], ["a", "b"], [1, 0], 5, 0.15) == [("a", 1.0)]
  {
    var cand := Candidates([1, 0], 5);
    assert cand == [0];
    assert cand[..0] == [];
  }

  /** Every key of the neighbour map is the id of a listed row. */
  lemma {:induction false} NeighborMapKeys<Id>(rows: seq<seq<real>>, ids: seq<Id>, orders: seq<seq<int>>, k: int, minSim: real)
    requires |orders| <= |rows| && |orders| <= |ids|
    requires forall p :: 0 <= p < |orders| ==> IsDescendingOrder(rows[p], orders[p]) && |rows[p]| <= |ids|
    ensures forall x :: x in NeighborMap(rows, ids, orders, k, minSim) ==> exists p :: 0 <= p < |orders| && ids[p] == x
    decreases |orders|
  {
    if |orders| > 0 {
      var last := |orders| - 1;
      var init := orders[..last];
      NeighborMapKeys(rows, ids, init, k, minSim);
      var before := NeighborMap(rows, ids, init, k, minSim);
      forall x | x in NeighborMap(rows, ids, orders, k, minSim) ensures exists p :: 0 <= p < |orders| && ids[p] == x {
        if x in before {
          var p :| 0 <= p < last && ids[p] == x;
          assert ids[p] == x;
        } else {
          assert ids[last] == x;
        }
      }
    }
  }

  /** A non-empty neighbour list as every value of the map is one. */
  predicate IsNeighborList<Id(==)>(l: seq<(Id, real)>, ids: seq<Id>, k: int, minSim: real) {
    && l != []
    && (k >= 0 ==> |l| <= k)
    && NonIncreasing(l)
    && (forall t :: 0 <= t < |l| ==> l[t].0 in ids && l[t].1 >= minSim)
  }

  /**
   * Every key of the neighbour map is an entity id, and its value is a
   * non-empty list of at most k entities at or above `minSim`, best first.
   */
  lemma {:induction false} NeighborMapValuesAreLists<Id>(rows: seq<seq<real>>, ids: seq<Id>, orders: seq<seq<int>>, k: int, minSim: real)
    requires |orders| <= |rows| && |orders| <= |ids|
    requires forall p :: 0 <= p < |orders| ==> IsDescendingOrder(rows[p], orders[p]) && |rows[p]| <= |ids|
    ensures var nm := NeighborMap(rows, ids, orders, k, minSim);
      forall x :: x in nm ==> x in ids && IsNeighborList(nm[x], ids, k, minSim)
    decreases |orders|
  {
    if |orders| > 0 {
      var last := |orders| - 1;
      var init := orders[..last];
      NeighborMapValuesAreLists(rows, ids, init, k, minSim);
      NeighborListProperties(rows[last], ids, orders[last], k, minSim);
      var before := NeighborMap(rows, ids, init, k, minSim);
      var list := NeighborList(rows[last], ids, orders[last], k, minSim);
      var nm := NeighborMap(rows, ids, orders, k, minSim);
      assert nm == if list != [] then before[ids[last] := list] else before;
      assert ids[last] in ids;
      forall x | x in nm ensures x in ids && IsNeighborList(nm[x], ids, k, minSim) {
        if list != [] && x == ids[last] {
          assert nm[x] == list;
        } else {
          assert x in before && nm[x] == before[x];
        }
      }
    }
  }

  /**
   * With distinct ids, the id of a row is a key of the neighbour map exactly
   * when that row's list is non-empty, and then maps to that list.
   */
  lemma {:induction false} NeighborMapValues<Id>(rows: seq<seq<real>>, ids: seq<Id>, orders: seq<seq<int>>, k: int, minSim: real)
    requires |orders| <= |rows| && |orders| <= |ids|
    requires forall p :: 0 <= p < |orders| ==> IsDescendingOrder(rows[p], orders[p]) && |rows[p]| <= |ids|
    requires forall p, q :: 0 <= p < q < |ids| ==> ids[p] != ids[q]
    ensures var nm := NeighborMap(rows, ids, orders, k, minSim);
      forall p :: 0 <= p < |orders| ==>
        (ids[p] in nm <==> NeighborList(rows[p], ids, orders[p], k, minSim) != []) &&
        (ids[p] in nm ==> nm[ids[p]] == NeighborList(rows[p], ids, orders[p], k, minSim))
    decreases |orders|
  {
    if |orders| > 0 {
      var last := |orders| - 1;
      var init := orders[..last];
      NeighborMapValues(rows, ids, init, k, minSim);
      NeighborMapKeys(rows, ids, init, k, minSim);
      var before := NeighborMap(rows, ids, init, k, minSim);
      var list := NeighborList(rows[last], ids, orders[last], k, minSim);
      var nm := NeighborMap(rows, ids, orders, k, minSim);
      assert nm == if list != [] then before[ids[last] := list] else before;
      assert ids[last] !in before;
      forall p | 0 <= p < |orders|
        ensures (ids[p] in nm <==> NeighborList(rows[p], ids, orders[p], k, minSim) != []) &&
                (ids[p] in nm ==> nm[ids[p]] == NeighborList(rows[p], ids, orders[p], k, minSim))
      {
        if p < last {
          assert init[p] == orders[p] && ids[p] != ids[last];
        }
      }
    }
  }

  /**
   * With distinct ids, an id is a key of the neighbour map exactly when its
   * list is non-empty, and then maps to that list; no other key appears.
   */
  lemma NeighborMapEntries<Id>(rows: seq<seq<real>>, ids: seq<Id>, orders: seq<seq<int>>, k: int, minSim: real)
    requires |orders| <= |rows| && |orders| <= |ids|
    requires forall p :: 0 <= p < |orders| ==> IsDescendingOrder(rows[p], orders[p]) && |rows[p]| <= |ids|
    requires forall p, q :: 0 <= p < q < |ids| ==> ids[p] != ids[q]
    ensures var nm := NeighborMap(rows, ids, orders, k, minSim);
      && (forall x :: x in nm ==> exists p :: 0 <= p < |orders| && ids[p] == x)
      && (forall p :: 0 <= p < |orders| ==>
            (ids[p] in nm <==> NeighborList(rows[p], ids, orders[p], k, minSim) != []) &&
            (ids[p] in nm ==> nm[ids[p]] == NeighborList(rows[p], ids, orders[p], k, minSim)))
  {
    NeighborMapKeys(rows, ids, orders, k, minSim);
    NeighborMapValues(rows, ids, orders, k, minSim);
  }
}
