/** The reference transformer over the reals. Weights, positions and scalar functions are whatever the
    model record says; what is proved is how the rows of the hidden state flow. */
module Transformer {
  import opened Basics

  type Vector = seq<real>
  type Matrix = seq<Vector>

  datatype Scalars = Scalars(invSqrt: real -> real, exp: real -> real, gelu: real -> real, divide: (real, real) -> real)

  datatype Weights = Weights(ln1g: Vector, ln1b: Vector, wq: Matrix, wk: Matrix, wv: Matrix, wo: Matrix,
                             ln2g: Vector, ln2b: Vector, w1: Matrix, b1: Vector, w2: Matrix, b2: Vector)

  datatype Model = Model(layers: nat, width: nat, heads: nat, maxSeq: nat, table: Matrix, position: nat -> Vector,
                         weights: nat -> Weights, normG: Vector, normB: Vector, head: Matrix, sc: Scalars)

  // ---------------------------------------------------------------- rows

  function Sum(x: Vector): real {
    if x == [] then 0.0 else Sum(x[..|x| - 1]) + x[|x| - 1]
  }

  /** `sum(a * b for a, b in zip(x, y))` */
  function Dot(x: Vector, y: Vector): real {
    Sum(seq(Min(|x|, |y|), i requires 0 <= i < Min(|x|, |y|) => x[i] * y[i]))
  }

  function Plus(x: Vector, y: Vector): Vector {
    seq(Min(|x|, |y|), i requires 0 <= i < Min(|x|, |y|) => x[i] + y[i])
  }

  function Linear(x: Vector, w: Matrix): (out: Vector)
    ensures |out| == |w|
  {
    seq(|w|, i requires 0 <= i < |w| => Dot(w[i], x))
  }

  function LayerNorm(sc: Scalars, x: Vector, g: Vector, b: Vector): Vector
  {
    var n := |x| as real;
    var mean := sc.divide(Sum(x), n);
    var variance := sc.divide(Sum(seq(|x|, i requires 0 <= i < |x| => (x[i] - mean) * (x[i] - mean))), n);
    var inv := sc.invSqrt(variance + 0.00001);
    var k := Min(|x|, Min(|g|, |b|));
    seq(k, i requires 0 <= i < k => g[i] * ((x[i] - mean) * inv) + b[i])
  }

  function MaxOf(x: Vector): real
    requires x != []
  {
    if |x| == 1 then x[0]
    else if MaxOf(x[..|x| - 1]) >= x[|x| - 1] then MaxOf(x[..|x| - 1]) else x[|x| - 1]
  }

  function Softmax(sc: Scalars, scores: Vector): (out: Vector)
    requires scores != []
    ensures |out| == |scores|
  {
    var m := MaxOf(scores);
    var exps := seq(|scores|, i requires 0 <= i < |scores| => sc.exp(scores[i] - m));
    var total := Sum(exps);
    seq(|scores|, i requires 0 <= i < |scores| => sc.divide(exps[i], total))
  }

  function Mlp(m: Model, l: nat, h: Vector): Vector
  {
    var w := m.weights(l);
    var n := LayerNorm(m.sc, h, w.ln2g, w.ln2b);
    var inner := Plus(Linear(n, w.w1), w.b1);
    var active := seq(|inner|, i requires 0 <= i < |inner| => m.sc.gelu(inner[i]));
    Plus(h, Plus(Linear(active, w.w2), w.b2))
  }

  // ---------------------------------------------------------------- attention, row by row

  function HeadDim(m: Model): nat {
    if m.heads >= 1 then m.width / m.heads else 0
  }

  /** The score of one row for another in the head that starts at column `lo`. */
  function Score(m: Model, l: nat, row: Vector, other: Vector, lo: nat, dim: nat): real
  {
    var q, k := Linear(row, m.weights(l).wq), Linear(other, m.weights(l).wk);
    Sum(seq(dim, t requires 0 <= t < dim => if lo + t < |q| && lo + t < |k| then q[lo + t] * k[lo + t] else 0.0))
      * m.sc.invSqrt(dim as real)
  }

  /** Causal: row `i` attends to rows 0 to i. */
  function Attends(m: Model, l: nat, normed: Matrix, i: nat, lo: nat, dim: nat): (out: Vector)
    requires i < |normed|
    ensures |out| == i + 1
  {
    Softmax(m.sc, seq(i + 1, j requires 0 <= j < i + 1 => Score(m, l, normed[i], normed[j], lo, dim)))
  }

  function Share(m: Model, l: nat, row: Vector, weight: real, t: nat): real {
    var v := Linear(row, m.weights(l).wv);
    if t < |v| then weight * v[t] else 0.0
  }

  function Mixed(m: Model, l: nat, normed: Matrix, i: nat, weights: Vector, t: nat): real
    requires i < |normed| && |weights| == i + 1
  {
    Sum(seq(i + 1, j requires 0 <= j < i + 1 => Share(m, l, normed[j], weights[j], t)))
  }

  /** One entry of `context`. */
  function Entry(m: Model, l: nat, normed: Matrix, i: nat, t: nat): real
    requires i < |normed|
  {
    var dim := HeadDim(m);
    if dim > 0 && t < m.heads * dim then Mixed(m, l, normed, i, Attends(m, l, normed, i, t / dim * dim, dim), t) else 0.0
  }

  /** One row of `context`: each head fills its own columns, columns beyond the last head stay zero. */
  function Context(m: Model, l: nat, normed: Matrix, i: nat): Vector
    requires i < |normed|
  {
    seq(m.width, t requires 0 <= t < m.width => Entry(m, l, normed, i, t))
  }

  function Normed(m: Model, l: nat, hidden: Matrix): (out: Matrix)
    ensures |out| == |hidden|
  {
    seq(|hidden|, i requires 0 <= i < |hidden| => LayerNorm(m.sc, hidden[i], m.weights(l).ln1g, m.weights(l).ln1b))
  }

  function LayerRow(m: Model, l: nat, hidden: Matrix, i: nat): Vector
    requires i < |hidden|
  {
    Mlp(m, l, Plus(hidden[i], Linear(Context(m, l, Normed(m, l, hidden), i), m.weights(l).wo)))
  }

  function Layer(m: Model, l: nat, hidden: Matrix): (out: Matrix)
    ensures |out| == |hidden|
  {
    seq(|hidden|, i requires 0 <= i < |hidden| => LayerRow(m, l, hidden, i))
  }

  function Step(m: Model): (nat, Matrix) -> Matrix {
    (l: nat, hidden: Matrix) => Layer(m, l, hidden)
  }

  /** Layers `start` to `end`, exclusive. */
  function Layers(m: Model, start: nat, end: nat, hidden: Matrix): Matrix
    requires start <= end
  {
    Iterate(Step(m), start, end, hidden)
  }

  function Iterate<T>(f: (nat, T) -> T, start: nat, end: nat, x: T): T
    requires start <= end
  {
    if start == end then x else f(end - 1, Iterate(f, start, end - 1, x))
  }

  lemma {:induction false} IterateCompose<T>(f: (nat, T) -> T, start: nat, mid: nat, end: nat, x: T)
    requires start <= mid <= end
    ensures Iterate(f, mid, end, Iterate(f, start, mid, x)) == Iterate(f, start, end, x)
    decreases end
  {
    if mid < end {
      IterateCompose(f, start, mid, end - 1, x);
    }
  }

  /** Whatever commutes with every step commutes with the iteration. */
  lemma {:induction false} IterateCommute<T(!new)>(f: (nat, T) -> T, g: T -> T, start: nat, end: nat, x: T)
    requires start <= end && forall l, y :: f(l, g(y)) == g(f(l, y))
    ensures Iterate(f, start, end, g(x)) == g(Iterate(f, start, end, x))
    decreases end
  {
    if start < end {
      IterateCommute(f, g, start, end - 1, x);
    }
  }

  // ---------------------------------------------------------------- causality and composition

  lemma PrefixScores(m: Model, l: nat, normed: Matrix, n: nat, i: nat, lo: nat, dim: nat)
    requires i < n <= |normed|
    ensures Attends(m, l, normed[..n], i, lo, dim) == Attends(m, l, normed, i, lo, dim)
  {
    assert seq(i + 1, j requires 0 <= j < i + 1 => Score(m, l, normed[..n][i], normed[..n][j], lo, dim)) ==
           seq(i + 1, j requires 0 <= j < i + 1 => Score(m, l, normed[i], normed[j], lo, dim));
  }

  lemma PrefixMixed(m: Model, l: nat, normed: Matrix, n: nat, i: nat, weights: Vector, t: nat)
    requires i < n <= |normed| && |weights| == i + 1
    ensures Mixed(m, l, normed[..n], i, weights, t) == Mixed(m, l, normed, i, weights, t)
  {
    assert seq(i + 1, j requires 0 <= j < i + 1 => Share(m, l, normed[..n][j], weights[j], t)) ==
           seq(i + 1, j requires 0 <= j < i + 1 => Share(m, l, normed[j], weights[j], t));
  }

  lemma PrefixEntry(m: Model, l: nat, normed: Matrix, n: nat, i: nat, t: nat)
    requires i < n <= |normed|
    ensures Entry(m, l, normed[..n], i, t) == Entry(m, l, normed, i, t)
  {
    var dim := HeadDim(m);
    if dim > 0 && t < m.heads * dim {
      PrefixScores(m, l, normed, n, i, t / dim * dim, dim);
      PrefixMixed(m, l, normed, n, i, Attends(m, l, normed, i, t / dim * dim, dim), t);
    }
  }

  lemma PrefixContext(m: Model, l: nat, normed: Matrix, n: nat, i: nat)
    requires i < n <= |normed|
    ensures Context(m, l, normed[..n], i) == Context(m, l, normed, i)
  {
    forall t | 0 <= t < m.width ensures Context(m, l, normed[..n], i)[t] == Context(m, l, normed, i)[t] {
      PrefixEntry(m, l, normed, n, i, t);
    }
  }

  function First(n: nat): Matrix -> Matrix {
    (h: Matrix) => if n <= |h| then h[..n] else h
  }

  lemma PrefixLayer(m: Model, l: nat, hidden: Matrix, n: nat)
    ensures Layer(m, l, First(n)(hidden)) == First(n)(Layer(m, l, hidden))
  {
    if n <= |hidden| {
      assert Normed(m, l, hidden[..n]) == Normed(m, l, hidden)[..n];
      forall i | 0 <= i < n ensures LayerRow(m, l, hidden[..n], i) == LayerRow(m, l, hidden, i) {
        PrefixContext(m, l, Normed(m, l, hidden), n, i);
      }
    }
  }

  /** Causality: running any layer range on a prefix gives the prefix of running it on everything. */
  lemma PrefixLayers(m: Model, start: nat, end: nat, hidden: Matrix, n: nat)
    requires start <= end && n <= |hidden|
    ensures |Layers(m, start, end, hidden)| == |hidden|
    ensures Layers(m, start, end, hidden[..n]) == Layers(m, start, end, hidden)[..n]
  {
    forall l, y ensures Step(m)(l, First(n)(y)) == First(n)(Step(m)(l, y)) {
      PrefixLayer(m, l, y, n);
    }
    IterateCommute(Step(m), First(n), start, end, hidden);
    LayersLength(m, start, end, hidden);
  }

  lemma {:induction false} LayersLength(m: Model, start: nat, end: nat, hidden: Matrix)
    requires start <= end
    ensures |Layers(m, start, end, hidden)| == |hidden|
    decreases end
  {
    if start < end {
      LayersLength(m, start, end - 1, hidden);
    }
  }

  /** Two adjacent layer ranges one after the other are the joint range. */
  lemma LayersCompose(m: Model, start: nat, mid: nat, end: nat, hidden: Matrix)
    requires start <= mid <= end
    ensures Layers(m, mid, end, Layers(m, start, mid, hidden)) == Layers(m, start, end, hidden)
  {
    IterateCompose(Step(m), start, mid, end, hidden);
  }

  // ---------------------------------------------------------------- the loops

  datatype Outcome<T> = Ok(value: T) | Error

  /** With no head, or more heads than columns, a layer divides by zero. */
  predicate Runnable(m: Model) {
    1 <= m.heads <= m.width
  }

  function Attended(m: Model, l: nat, normed: Matrix): Matrix {
    seq(|normed|, i requires 0 <= i < |normed| => Linear(Context(m, l, normed, i), m.weights(l).wo))
  }

  /** Row by row, the output of the heads goes through the output projection. */
  method Attention(m: Model, l: nat, normed: Matrix) returns (attended: Outcome<Matrix>)
    ensures attended == if Runnable(m) then Ok(Attended(m, l, normed)) else Error
  {
    HeadsHaveColumns(m);
    if m.heads == 0 || HeadDim(m) == 0 {
      return Error;
    }
    var n, d := |normed|, m.width;
    var context := new real[n, d]((_, _) => 0.0);
    FillContext(m, l, normed, context);
    var out := [];
    for i := 0 to n
      invariant |out| == i && forall r :: 0 <= r < i ==> out[r] == Linear(Context(m, l, normed, r), m.weights(l).wo)
    {
      var row := seq(d, t requires 0 <= t < d && i < n reads context => context[i, t]);
      assert row == Context(m, l, normed, i);
      out := out + [Linear(row, m.weights(l).wo)];
    }
    assert out == Attended(m, l, normed);
    return Ok(out);
  }

  lemma HeadsHaveColumns(m: Model)
    ensures Runnable(m) <==> m.heads >= 1 && HeadDim(m) >= 1
  {
  }

  /** `context` is filled in place, head by head. */
  method FillContext(m: Model, l: nat, normed: Matrix, context: array2<real>)
    requires m.heads >= 1 && context.Length0 == |normed| && context.Length1 == m.width
    requires forall i, t :: 0 <= i < |normed| && 0 <= t < m.width ==> context[i, t] == 0.0
    modifies context
    ensures forall i, t :: 0 <= i < |normed| && 0 <= t < m.width ==> context[i, t] == Context(m, l, normed, i)[t]
  {
    var n, d, dim := |normed|, m.width, HeadDim(m);
    HeadsFit(m);
    for h := 0 to m.heads
      invariant forall i, t :: 0 <= i < n && 0 <= t < d ==>
                  context[i, t] == if t < h * dim then Context(m, l, normed, i)[t] else 0.0
    {
      HeadFits(m, h);
      HeadEntries(m, l, normed, h);
      FillColumns(m, l, normed, context, h * dim);
    }
  }

  /** One head of every row. */
  method FillColumns(m: Model, l: nat, normed: Matrix, context: array2<real>, start: nat)
    requires context.Length0 == |normed| && context.Length1 == m.width && start + HeadDim(m) <= m.width
    requires forall i: nat, t: nat :: i < |normed| && start <= t < start + HeadDim(m) ==> FromHead(m, l, normed, start, i, t)
    modifies context
    ensures forall i, t :: 0 <= i < |normed| && 0 <= t < m.width ==>
              context[i, t] == if start <= t < start + HeadDim(m) then Context(m, l, normed, i)[t] else old(context[i, t])
  {
    for i := 0 to |normed|
      invariant forall r, t :: 0 <= r < |normed| && 0 <= t < m.width ==>
                  context[r, t] == if r < i && start <= t < start + HeadDim(m) then Context(m, l, normed, r)[t]
                                   else old(context[r, t])
    {
      FillHead(m, l, normed, context, start, i);
    }
  }

  /** Column `t` belongs to the head that starts at column `start`. */
  predicate FromHead(m: Model, l: nat, normed: Matrix, start: nat, i: nat, t: nat)
    requires i < |normed|
  {
    Mixed(m, l, normed, i, Attends(m, l, normed, i, start, HeadDim(m)), t) == Entry(m, l, normed, i, t)
  }

  /** One head of one row. */
  method FillHead(m: Model, l: nat, normed: Matrix, context: array2<real>, start: nat, i: nat)
    requires context.Length0 == |normed| && context.Length1 == m.width && i < |normed|
    requires start + HeadDim(m) <= m.width
    requires forall t: nat :: start <= t < start + HeadDim(m) ==> FromHead(m, l, normed, start, i, t)
    modifies context
    ensures forall r, t :: 0 <= r < |normed| && 0 <= t < m.width ==>
              context[r, t] == if r == i && start <= t < start + HeadDim(m)
                               then Context(m, l, normed, r)[t] else old(context[r, t])
  {
    var dim := HeadDim(m);
    var weights := Attends(m, l, normed, i, start, dim);
    for t := start to start + dim
      invariant forall r, c :: 0 <= r < |normed| && 0 <= c < m.width ==>
                  context[r, c] == if r == i && start <= c < t then Context(m, l, normed, r)[c] else old(context[r, c])
    {
      assert FromHead(m, l, normed, start, i, t);
      context[i, t] := Mixed(m, l, normed, i, weights, t);
    }
  }

  lemma HeadEntry(m: Model, l: nat, normed: Matrix, h: nat, start: nat, i: nat, t: nat)
    requires m.heads >= 1 && h < m.heads && i < |normed|
    requires start == h * HeadDim(m) && start + HeadDim(m) <= m.width && start <= t < start + HeadDim(m)
    ensures FromHead(m, l, normed, start, i, t)
  {
    InHead(m, h, t);
  }

  lemma HeadEntries(m: Model, l: nat, normed: Matrix, h: nat)
    requires m.heads >= 1 && h < m.heads
    ensures forall i: nat, t: nat :: i < |normed| && h * HeadDim(m) <= t < h * HeadDim(m) + HeadDim(m) ==>
              FromHead(m, l, normed, h * HeadDim(m), i, t)
  {
    HeadFits(m, h);
    var start := h * HeadDim(m);
    forall i: nat, t: nat | i < |normed| && start <= t < start + HeadDim(m) ensures FromHead(m, l, normed, start, i, t) {
      HeadEntry(m, l, normed, h, start, i, t);
    }
  }

  /** Column `t` of head `h` lies within the heads, and rounding it down gives the head's first column. */
  lemma InHead(m: Model, h: nat, t: nat)
    requires m.heads >= 1 && h < m.heads && h * HeadDim(m) <= t < h * HeadDim(m) + HeadDim(m)
    ensures 0 < HeadDim(m) && t < m.heads * HeadDim(m) && t / HeadDim(m) * HeadDim(m) == h * HeadDim(m)
  {
    HeadFits(m, h);
    ColumnOfHead(t, h, HeadDim(m));
  }

  lemma HeadsFit(m: Model)
    requires m.heads >= 1
    ensures m.heads * HeadDim(m) <= m.width
  {
  }

  lemma HeadFits(m: Model, h: nat)
    requires m.heads >= 1 && h < m.heads
    ensures h * HeadDim(m) + HeadDim(m) == (h + 1) * HeadDim(m) <= m.heads * HeadDim(m) <= m.width
  {
    Distribute(h, 1, HeadDim(m));
    Scaled(h + 1, m.heads, HeadDim(m));
    HeadsFit(m);
  }

  lemma ColumnOfHead(t: nat, h: nat, dim: nat)
    requires h * dim <= t < h * dim + dim
    ensures t / dim * dim == h * dim
  {
    if t / dim < h {
      Scaled(t / dim + 1, h, dim);
    } else if t / dim > h {
      Scaled(h + 1, t / dim, dim);
    }
  }

  method ForwardLayer(m: Model, l: nat, hidden: Matrix) returns (out: Outcome<Matrix>)
    ensures out == if Runnable(m) then Ok(Layer(m, l, hidden)) else Error
  {
    var normed := Normed(m, l, hidden);
    var attended := Attention(m, l, normed);
    if attended == Error {
      return Error;
    }
    var rows := [];
    for i := 0 to |hidden|
      invariant |rows| == i && forall r :: 0 <= r < i ==> rows[r] == LayerRow(m, l, hidden, r)
    {
      rows := rows + [Mlp(m, l, Plus(hidden[i], attended.value[i]))];
    }
    assert rows == Layer(m, l, hidden);
    return Ok(rows);
  }

  /** A range outside the model fails, and so does any layer of a model that cannot run. */
  function RunLayers(m: Model, start: int, end: int, hidden: Matrix): Outcome<Matrix> {
    if 0 <= start <= end <= m.layers && (start == end || Runnable(m)) then Ok(Layers(m, start, end, hidden)) else Error
  }

  lemma OneLayerMore(m: Model, start: nat, layer: nat, hidden: Matrix)
    requires start <= layer
    ensures Layers(m, start, layer + 1, hidden) == Layer(m, layer, Layers(m, start, layer, hidden))
  {
  }

  /** Only the layers asked for are run. */
  method ForwardLayers(m: Model, start: int, end: int, hidden: Matrix) returns (out: Outcome<Matrix>)
    ensures out == RunLayers(m, start, end, hidden)
  {
    if !(0 <= start <= end <= m.layers) {
      return Error;
    }
    var current := hidden;
    for layer := start to end
      invariant current == Layers(m, start, layer, hidden) && (layer == start || Runnable(m))
    {
      var next := ForwardLayer(m, layer, current);
      if next == Error {
        return Error;
      }
      OneLayerMore(m, start, layer, hidden);
      current := next.value;
    }
    return Ok(current);
  }

  // ---------------------------------------------------------------- tokens in, token out

  function Embed(m: Model, tokens: seq<nat>): Matrix
    requires |m.table| >= 1
  {
    seq(|tokens|, i requires 0 <= i < |tokens| => Plus(m.table[tokens[i] % |m.table|], m.position(i)))
  }

  function Logits(m: Model, hidden: Matrix): Vector
    requires hidden != []
  {
    Linear(LayerNorm(m.sc, hidden[|hidden| - 1], m.normG, m.normB), m.head)
  }

  /** Greedy choice: the first index with the largest logit. */
  method NextToken(logits: Vector) returns (token: nat)
    requires logits != []
    ensures token == Greedy(logits)
  {
    token := 0;
    for i := 1 to |logits|
      invariant token < i && token == Greedy(logits[..i])
    {
      assert logits[..i + 1][..i] == logits[..i];
      GreedyMeans(logits[..i]);
      if logits[i] > logits[token] {
        token := i;
      }
    }
    assert logits[..|logits|] == logits;
  }

  function Greedy(logits: Vector): (token: nat)
    requires logits != []
    ensures token < |logits|
  {
    if |logits| == 1 then 0
    else
      var best := Greedy(logits[..|logits| - 1]);
      if logits[|logits| - 1] > logits[best] then |logits| - 1 else best
  }

  lemma {:induction false} GreedyMeans(logits: Vector)
    requires logits != []
    ensures var t := Greedy(logits);
            && (forall i :: 0 <= i < |logits| ==> logits[i] <= logits[t])
            && forall i :: 0 <= i < t ==> logits[i] < logits[t]
  {
    if |logits| > 1 {
      GreedyMeans(logits[..|logits| - 1]);
    }
  }
}
