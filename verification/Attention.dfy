/** What the parts of a layer compute, entry by entry, and what attention therefore does to values: a
    softmax is the one distribution in proportion to the exponentials, so rows that agree in their values
    pass them on unchanged. */
module Attention {
  import opened Basics
  import opened Transformer

  /** The laws of the scalar functions that the statements below need. */
  ghost predicate ScalarLaws(sc: Scalars) {
    (forall a, b :: DividesAt(sc, a, b)) && forall x, y :: ExpAt(sc, x, y)
  }

  predicate DividesAt(sc: Scalars, a: real, b: real) {
    b != 0.0 ==> sc.divide(a, b) * b == a
  }

  predicate ExpAt(sc: Scalars, x: real, y: real) {
    sc.exp(x) > 0.0 && sc.exp(x + y) == sc.exp(x) * sc.exp(y)
  }

  /** There are functions with these laws. */
  lemma LawsCanHold(sc: Scalars)
    ensures ScalarLaws(sc.(exp := (x: real) => 1.0, divide := (a: real, b: real) => if b == 0.0 then 0.0 else a / b))
  {
  }

  // ---------------------------------------------------------------- sums

  lemma {:induction false} SumConcat(x: Vector, y: Vector)
    ensures Sum(x + y) == Sum(x) + Sum(y)
    decreases |y|
  {
    if y == [] {
      assert x + y == x;
    } else {
      assert (x + y)[..|x + y| - 1] == x + y[..|y| - 1];
      SumConcat(x, y[..|y| - 1]);
    }
  }

  lemma SumOne(a: real)
    ensures Sum([a]) == a
  {
    assert [a][..0] == [];
  }

  function Scale(a: real, x: Vector): (out: Vector)
    ensures |out| == |x|
  {
    seq(|x|, i requires 0 <= i < |x| => Times(a, x[i]))
  }

  function Times(a: real, b: real): real {
    a * b
  }

  lemma {:induction false} SumScale(a: real, x: Vector)
    ensures Sum(Scale(a, x)) == Times(a, Sum(x))
  {
    if x != [] {
      var front := x[..|x| - 1];
      ScaleFront(a, x);
      SumScale(a, front);
      TimesSum(a, Sum(front), x[|x| - 1]);
    }
  }

  lemma ScaleFront(a: real, x: Vector)
    requires x != []
    ensures Scale(a, x)[..|x| - 1] == Scale(a, x[..|x| - 1])
  {
    forall i | 0 <= i < |x| - 1 ensures Scale(a, x)[i] == Scale(a, x[..|x| - 1])[i] {
      assert x[..|x| - 1][i] == x[i];
    }
  }

  lemma TimesSum(a: real, x: real, y: real)
    ensures Times(a, x + y) == Times(a, x) + Times(a, y)
  {
  }

  lemma {:induction false} SumPositive(x: Vector)
    requires x != [] && forall i :: 0 <= i < |x| ==> x[i] > 0.0
    ensures Sum(x) > 0.0
  {
    if |x| == 1 {
      assert x == [x[0]];
      SumOne(x[0]);
    } else {
      SumPositive(x[..|x| - 1]);
    }
  }

  /** A row of a linear map is a dot product. */
  lemma LinearIs(x: Vector, w: Matrix, r: nat)
    requires r < |w| && |w[r]| == |x|
    ensures Linear(x, w)[r] == Sum(seq(|x|, c requires 0 <= c < |x| => w[r][c] * x[c]))
  {
    assert seq(Min(|w[r]|, |x|), c requires 0 <= c < Min(|w[r]|, |x|) => w[r][c] * x[c]) ==
           seq(|x|, c requires 0 <= c < |x| => w[r][c] * x[c]);
  }

  // ---------------------------------------------------------------- softmax

  /** The weights are positive, add up to one and stand to each other as the exponentials of the
      differences of the scores. */
  lemma SoftmaxMeans(sc: Scalars, scores: Vector)
    requires ScalarLaws(sc) && scores != []
    ensures var w := Softmax(sc, scores);
            && Sum(w) == 1.0
            && (forall i :: 0 <= i < |w| ==> w[i] > 0.0)
            && forall i, j :: 0 <= i < |w| && 0 <= j < |w| ==> InRatio(sc, scores[i], scores[j], w[i], w[j])
  {
    var m, w := MaxOf(scores), Softmax(sc, scores);
    var exps := Exps(sc, scores, m);
    var total := Sum(exps);
    ExpsPositive(sc, scores, m);
    forall i | 0 <= i < |w| ensures IsShare(w[i], exps[i], total) && w[i] > 0.0 {
      SoftmaxEntry(sc, scores, m, i);
    }
    SharesAddUp(w, exps, total);
    forall i, j | 0 <= i < |w| && 0 <= j < |w| ensures InRatio(sc, scores[i], scores[j], w[i], w[j]) {
      SharesInRatio(sc, scores[i], scores[j], m, w[i], w[j], total);
    }
  }

  predicate IsShare(a: real, part: real, total: real) {
    a * total == part
  }

  lemma SoftmaxEntry(sc: Scalars, scores: Vector, m: real, i: nat)
    requires ScalarLaws(sc) && i < |scores| && m == MaxOf(scores)
    ensures var exps := Exps(sc, scores, m);
            IsShare(Softmax(sc, scores)[i], exps[i], Sum(exps)) && Softmax(sc, scores)[i] > 0.0
  {
    ExpsPositive(sc, scores, m);
    assert ExpAt(sc, scores[i] - m, 0.0);
    SoftmaxShare(sc, sc.exp(scores[i] - m), Sum(Exps(sc, scores, m)));
    SoftmaxIs(sc, scores, m, i);
  }

  lemma SoftmaxIs(sc: Scalars, scores: Vector, m: real, i: nat)
    requires i < |scores| && m == MaxOf(scores)
    ensures Softmax(sc, scores)[i] == sc.divide(sc.exp(scores[i] - m), Sum(Exps(sc, scores, m)))
  {
    assert Exps(sc, scores, m) == seq(|scores|, k requires 0 <= k < |scores| => sc.exp(scores[k] - m));
  }

  lemma SharesInRatio(sc: Scalars, s: real, t: real, m: real, a: real, b: real, total: real)
    requires ScalarLaws(sc) && total > 0.0 && IsShare(a, sc.exp(s - m), total) && IsShare(b, sc.exp(t - m), total)
    ensures InRatio(sc, s, t, a, b)
  {
    ExpsInRatio(sc, s, t, m);
    InProportion(a, b, sc.exp(s - m), sc.exp(t - m), sc.exp(t - s), total);
  }

  predicate InRatio(sc: Scalars, s: real, t: real, a: real, b: real) {
    b == a * sc.exp(t - s)
  }

  function Exps(sc: Scalars, scores: Vector, m: real): (out: Vector)
    ensures |out| == |scores|
  {
    seq(|scores|, i requires 0 <= i < |scores| => sc.exp(scores[i] - m))
  }

  lemma ExpsPositive(sc: Scalars, scores: Vector, m: real)
    requires ScalarLaws(sc) && scores != []
    ensures Sum(Exps(sc, scores, m)) > 0.0
  {
    forall i | 0 <= i < |scores| ensures Exps(sc, scores, m)[i] > 0.0 {
      assert ExpAt(sc, scores[i] - m, 0.0);
    }
    SumPositive(Exps(sc, scores, m));
  }

  lemma ExpsInRatio(sc: Scalars, s: real, t: real, m: real)
    requires ScalarLaws(sc)
    ensures sc.exp(t - m) == sc.exp(t - s) * sc.exp(s - m)
  {
    assert t - m == (t - s) + (s - m);
    assert ExpAt(sc, t - s, s - m);
  }

  lemma SoftmaxShare(sc: Scalars, part: real, total: real)
    requires ScalarLaws(sc) && part > 0.0 && total > 0.0
    ensures IsShare(sc.divide(part, total), part, total) && sc.divide(part, total) > 0.0
  {
    assert DividesAt(sc, part, total);
    PositiveFactor(sc.divide(part, total), total);
  }

  lemma SharesAddUp(w: Vector, exps: Vector, total: real)
    requires |w| == |exps| && total == Sum(exps) && total > 0.0 && forall i :: 0 <= i < |w| ==> IsShare(w[i], exps[i], total)
    ensures Sum(w) == 1.0
  {
    ScaledShares(w, exps, total);
    SumScale(total, w);
    CancelTotal(Sum(w), total);
  }

  lemma ScaledShares(w: Vector, exps: Vector, total: real)
    requires |w| == |exps| && forall i :: 0 <= i < |w| ==> IsShare(w[i], exps[i], total)
    ensures Scale(total, w) == exps
  {
    forall i | 0 <= i < |w| ensures Times(total, w[i]) == exps[i] {
      Turned(total, w[i]);
    }
  }

  lemma Turned(a: real, b: real)
    ensures a * b == b * a
  {
  }

  lemma PositiveFactor(a: real, b: real)
    requires a * b > 0.0 && b > 0.0
    ensures a > 0.0
  {
  }

  lemma CancelTotal(a: real, b: real)
    requires Times(b, a) == b && b != 0.0
    ensures a == 1.0
  {
    assert b * (a - 1.0) == 0.0;
  }

  lemma InProportion(a: real, b: real, ea: real, eb: real, ratio: real, total: real)
    requires a * total == ea && b * total == eb && eb == ratio * ea && total > 0.0
    ensures b == a * ratio
  {
    assert (b - a * ratio) * total == 0.0;
  }

  // ---------------------------------------------------------------- attention

  /** The scores of row `i` in the head whose columns start at `lo`: scaled dot products of its query with
      the keys of the rows up to it. */
  predicate AreScores(m: Model, l: nat, normed: Matrix, i: nat, lo: nat, dim: nat, scores: Vector)
    requires i < |normed| && lo + dim <= |m.weights(l).wq| && lo + dim <= |m.weights(l).wk|
  {
    |scores| == i + 1 && forall j :: 0 <= j <= i ==>
      scores[j] == Sum(seq(dim, u requires 0 <= u < dim =>
                     Linear(normed[i], m.weights(l).wq)[lo + u] * Linear(normed[j], m.weights(l).wk)[lo + u]))
                   * m.sc.invSqrt(dim as real)
  }

  /** The sum of the values of the rows up to `i`, each with its weight. */
  function MixedValues(m: Model, l: nat, normed: Matrix, i: nat, weights: Vector, t: nat): real
    requires i < |normed| && |weights| == i + 1 && t < |m.weights(l).wv|
  {
    Sum(seq(i + 1, j requires 0 <= j < i + 1 => Times(weights[j], Linear(normed[j], m.weights(l).wv)[t])))
  }

  /** Every entry of the context in the columns of a head is the sum of the values, weighted by the softmax
      of the scores. */
  lemma AttentionEntry(m: Model, l: nat, normed: Matrix, i: nat, h: nat, lo: nat, dim: nat, t: nat, scores: Vector)
    requires Runnable(m) && i < |normed| && h < m.heads && dim == m.width / m.heads && lo == h * dim && lo <= t < lo + dim
    requires m.width == |m.weights(l).wq| == |m.weights(l).wk| == |m.weights(l).wv| && lo + dim <= m.width
    requires AreScores(m, l, normed, i, lo, dim, scores)
    ensures Context(m, l, normed, i)[t] == MixedValues(m, l, normed, i, Softmax(m.sc, scores), t)
  {
    InHead(m, h, t);
    EntryFrom(m, l, normed, i, lo, dim, t, scores);
  }

  lemma EntryFrom(m: Model, l: nat, normed: Matrix, i: nat, lo: nat, dim: nat, t: nat, scores: Vector)
    requires i < |normed| && dim == HeadDim(m) && 0 < dim && t < m.heads * dim && t / dim * dim == lo && t < m.width
    requires m.width == |m.weights(l).wq| == |m.weights(l).wk| == |m.weights(l).wv| && lo + dim <= m.width
    requires AreScores(m, l, normed, i, lo, dim, scores)
    ensures Entry(m, l, normed, i, t) == MixedValues(m, l, normed, i, Softmax(m.sc, scores), t)
  {
    HeadScores(m, l, normed, i, lo, dim, scores);
    ValuesMixed(m, l, normed, i, Softmax(m.sc, scores), t);
  }

  lemma HeadScores(m: Model, l: nat, normed: Matrix, i: nat, lo: nat, dim: nat, scores: Vector)
    requires i < |normed| && lo + dim <= |m.weights(l).wq| && lo + dim <= |m.weights(l).wk|
    requires AreScores(m, l, normed, i, lo, dim, scores)
    ensures Attends(m, l, normed, i, lo, dim) == Softmax(m.sc, scores)
  {
    forall j | 0 <= j < i + 1 ensures Score(m, l, normed[i], normed[j], lo, dim) == scores[j] {
      ScoreIs(m, l, normed[i], normed[j], lo, dim);
    }
    assert seq(i + 1, j requires 0 <= j < i + 1 => Score(m, l, normed[i], normed[j], lo, dim)) == scores;
  }

  lemma ValuesMixed(m: Model, l: nat, normed: Matrix, i: nat, weights: Vector, t: nat)
    requires i < |normed| && |weights| == i + 1 && t < |m.weights(l).wv|
    ensures Mixed(m, l, normed, i, weights, t) == MixedValues(m, l, normed, i, weights, t)
  {
    var xs := seq(i + 1, j requires 0 <= j < i + 1 => Share(m, l, normed[j], weights[j], t));
    var ys := seq(i + 1, j requires 0 <= j < i + 1 => Times(weights[j], Linear(normed[j], m.weights(l).wv)[t]));
    forall j | 0 <= j < i + 1 ensures xs[j] == ys[j] {
      ShareIs(m, l, normed[j], weights[j], t);
    }
    assert xs == ys;
  }

  lemma ShareIs(m: Model, l: nat, row: Vector, weight: real, t: nat)
    requires t < |m.weights(l).wv|
    ensures Share(m, l, row, weight, t) == weight * Linear(row, m.weights(l).wv)[t]
  {
  }

  lemma ScoreIs(m: Model, l: nat, row: Vector, other: Vector, lo: nat, dim: nat)
    requires lo + dim <= |m.weights(l).wq| && lo + dim <= |m.weights(l).wk|
    ensures Score(m, l, row, other, lo, dim)
         == Sum(seq(dim, u requires 0 <= u < dim => Linear(row, m.weights(l).wq)[lo + u] * Linear(other, m.weights(l).wk)[lo + u]))
            * m.sc.invSqrt(dim as real)
  {
    var q, k := Linear(row, m.weights(l).wq), Linear(other, m.weights(l).wk);
    assert seq(dim, t requires 0 <= t < dim => if lo + t < |q| && lo + t < |k| then q[lo + t] * k[lo + t] else 0.0) ==
           seq(dim, u requires 0 <= u < dim => Linear(row, m.weights(l).wq)[lo + u] * Linear(other, m.weights(l).wk)[lo + u]);
  }

  // ---------------------------------------------------------------- what attention does to values

  /** What the heads make of one value row: itself in their columns, zero beyond. */
  function InHeads(m: Model, v: Vector): (out: Vector)
    requires m.heads >= 1 && |v| == m.width
    ensures |out| == m.width
  {
    seq(m.width, t requires 0 <= t < m.width => if t < m.width / m.heads * m.heads then v[t] else 0.0)
  }

  /** Rows whose values agree pass that value on, whatever queries and keys say: the weights of a softmax
      add up to one. For the first row this is its own value. */
  lemma SameValuesPassOn(m: Model, l: nat, normed: Matrix, i: nat, v: Vector)
    requires Runnable(m) && ScalarLaws(m.sc) && i < |normed| && m.width == |m.weights(l).wv| == |v|
    requires forall j :: 0 <= j <= i ==> Linear(normed[j], m.weights(l).wv) == v
    ensures Attended(m, l, normed)[i] == Linear(InHeads(m, v), m.weights(l).wo)
  {
    forall t: nat | t < m.width ensures Context(m, l, normed, i)[t] == InHeads(m, v)[t] {
      SameValuesEntry(m, l, normed, i, v, t);
    }
    assert Context(m, l, normed, i) == InHeads(m, v);
  }

  lemma SameValuesEntry(m: Model, l: nat, normed: Matrix, i: nat, v: Vector, t: nat)
    requires Runnable(m) && ScalarLaws(m.sc) && i < |normed| && t < m.width == |m.weights(l).wv| == |v|
    requires forall j :: 0 <= j <= i ==> Linear(normed[j], m.weights(l).wv) == v
    ensures Entry(m, l, normed, i, t) == if t < m.width / m.heads * m.heads then v[t] else 0.0
  {
    var dim := HeadDim(m);
    Commuted(m.heads, dim);
    if dim > 0 && t < m.heads * dim {
      var weights := Attends(m, l, normed, i, t / dim * dim, dim);
      AttendsIsSoftmax(m, l, normed, i, t / dim * dim, dim);
      ValuesMixed(m, l, normed, i, weights, t);
      ConstantMix(m, l, normed, i, weights, t, v[t]);
    }
  }

  lemma ConstantMix(m: Model, l: nat, normed: Matrix, i: nat, weights: Vector, t: nat, a: real)
    requires i < |normed| && |weights| == i + 1 && t < |m.weights(l).wv| && Sum(weights) == 1.0
    requires forall j :: 0 <= j <= i ==> Linear(normed[j], m.weights(l).wv)[t] == a
    ensures MixedValues(m, l, normed, i, weights, t) == a
  {
    var xs := seq(i + 1, j requires 0 <= j < i + 1 => Times(weights[j], Linear(normed[j], m.weights(l).wv)[t]));
    var ys := Scale(a, weights);
    forall j | 0 <= j < i + 1 ensures xs[j] == ys[j] {
      TurnedTo(weights[j], Linear(normed[j], m.weights(l).wv)[t], a);
    }
    assert xs == ys;
    SumScale(a, weights);
  }

  lemma TurnedTo(w: real, x: real, a: real)
    requires x == a
    ensures Times(w, x) == Times(a, w)
  {
  }

  lemma Commuted(a: nat, b: nat)
    ensures a * b == b * a
  {
  }

  lemma AttendsIsSoftmax(m: Model, l: nat, normed: Matrix, i: nat, lo: nat, dim: nat)
    requires ScalarLaws(m.sc) && i < |normed|
    ensures Sum(Attends(m, l, normed, i, lo, dim)) == 1.0
  {
    var scores := seq(i + 1, j requires 0 <= j < i + 1 => Score(m, l, normed[i], normed[j], lo, dim));
    SoftmaxMeans(m.sc, scores);
  }

  // ---------------------------------------------------------------- norms, feed-forward, layers

  /** A row minus its mean over the root of its variance, scaled and shifted. */
  lemma LayerNormIs(sc: Scalars, x: Vector, g: Vector, b: Vector, mean: real, variance: real, i: nat)
    requires ScalarLaws(sc) && i < |x| == |g| == |b|
    requires mean * |x| as real == Sum(x)
    requires variance * |x| as real == Sum(seq(|x|, k requires 0 <= k < |x| => (x[k] - mean) * (x[k] - mean)))
    ensures |LayerNorm(sc, x, g, b)| == |x|
    ensures LayerNorm(sc, x, g, b)[i] == g[i] * ((x[i] - mean) * sc.invSqrt(variance + 0.00001)) + b[i]
  {
    var n := |x| as real;
    assert DividesAt(sc, Sum(x), n);
    SameQuotient(mean, sc.divide(Sum(x), n), n);
    var squares := seq(|x|, k requires 0 <= k < |x| => (x[k] - mean) * (x[k] - mean));
    assert DividesAt(sc, Sum(squares), n);
    SameQuotient(variance, sc.divide(Sum(squares), n), n);
  }

  lemma SameQuotient(a: real, b: real, n: real)
    requires a * n == b * n && n > 0.0
    ensures a == b
  {
    assert (a - b) * n == 0.0;
  }

  /** The two residual steps of a layer: attention over the normalised rows is added to the row, then the
      feed-forward network over the normalised sum. */
  lemma LayerAdds(m: Model, l: nat, hidden: Matrix, i: nat, normed: Matrix, mid: Vector, inner: Vector, active: Vector, t: nat)
    requires i < |hidden| && |normed| == |hidden|
    requires forall j :: 0 <= j < |hidden| ==> normed[j] == LayerNorm(m.sc, hidden[j], m.weights(l).ln1g, m.weights(l).ln1b)
    requires |hidden[i]| == |mid| == |m.weights(l).wo| == |m.weights(l).w2| == |m.weights(l).b2| && t < |mid|
    requires forall u :: 0 <= u < |mid| ==> mid[u] == hidden[i][u] + Attended(m, l, normed)[i][u]
    requires |inner| == |active| == |m.weights(l).w1| == |m.weights(l).b1|
    requires forall u :: 0 <= u < |inner| ==>
               inner[u] == Linear(LayerNorm(m.sc, mid, m.weights(l).ln2g, m.weights(l).ln2b), m.weights(l).w1)[u] + m.weights(l).b1[u]
    requires forall u :: 0 <= u < |inner| ==> active[u] == m.sc.gelu(inner[u])
    ensures |Layer(m, l, hidden)[i]| == |mid|
    ensures Layer(m, l, hidden)[i][t] == mid[t] + (Linear(active, m.weights(l).w2)[t] + m.weights(l).b2[t])
  {
    assert normed == Normed(m, l, hidden);
    assert mid == Plus(hidden[i], Linear(Context(m, l, normed, i), m.weights(l).wo));
    assert inner == Plus(Linear(LayerNorm(m.sc, mid, m.weights(l).ln2g, m.weights(l).ln2b), m.weights(l).w1), m.weights(l).b1);
    assert active == seq(|inner|, u requires 0 <= u < |inner| => m.sc.gelu(inner[u]));
  }

  // ---------------------------------------------------------------- tokens

  /** Token `i` enters as its row of the table, taken modulo the vocabulary, plus position `i`. */
  lemma EmbedIs(m: Model, tokens: seq<nat>, i: nat, t: nat)
    requires |m.table| >= 1 && i < |tokens|
    requires t < |m.table[tokens[i] % |m.table|]| == |m.position(i)|
    ensures |Embed(m, tokens)| == |tokens| && |Embed(m, tokens)[i]| == |m.position(i)|
    ensures Embed(m, tokens)[i][t] == m.table[tokens[i] % |m.table|][t] + m.position(i)[t]
  {
  }

  /** The choice after a prompt is the choice at that place in any longer text: nothing later is seen. */
  lemma PrefixLogits(m: Model, tokens: seq<nat>, n: nat)
    requires |m.table| >= 1 && 0 < n <= |tokens|
    ensures |Layers(m, 0, m.layers, Embed(m, tokens[..n]))| == n && |Layers(m, 0, m.layers, Embed(m, tokens))| == |tokens|
    ensures Logits(m, Layers(m, 0, m.layers, Embed(m, tokens[..n])))
         == Linear(LayerNorm(m.sc, Layers(m, 0, m.layers, Embed(m, tokens))[n - 1], m.normG, m.normB), m.head)
  {
    EmbedPrefix(m, tokens, n);
    LayersLength(m, 0, m.layers, Embed(m, tokens));
    LayersLength(m, 0, m.layers, Embed(m, tokens[..n]));
    PrefixLayers(m, 0, m.layers, Embed(m, tokens), n);
    LastOfPrefix(m, Layers(m, 0, m.layers, Embed(m, tokens)), n);
  }

  lemma EmbedPrefix(m: Model, tokens: seq<nat>, n: nat)
    requires |m.table| >= 1 && n <= |tokens|
    ensures Embed(m, tokens[..n]) == Embed(m, tokens)[..n]
  {
  }

  lemma LastOfPrefix(m: Model, hidden: Matrix, n: nat)
    requires 0 < n <= |hidden|
    ensures Logits(m, hidden[..n]) == Linear(LayerNorm(m.sc, hidden[n - 1], m.normG, m.normB), m.head)
  {
  }
}
