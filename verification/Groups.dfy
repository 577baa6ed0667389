/** Abelian groups and multiples of their elements. */
module Groups {
  import opened Basics

  datatype Group<!G> = Group(zero: G, add: (G, G) -> G)

  predicate LawsAt<G(==)>(gr: Group<G>, a: G, b: G, c: G) {
    && gr.add(gr.add(a, b), c) == gr.add(a, gr.add(b, c))
    && gr.add(a, b) == gr.add(b, a)
    && gr.add(a, gr.zero) == a
  }

  ghost predicate Abelian<G(!new)>(gr: Group<G>) {
    forall a, b, c :: LawsAt(gr, a, b, c)
  }

  /** `n` times `g` */
  function Mul<G>(gr: Group<G>, n: nat, g: G): G {
    if n == 0 then gr.zero else gr.add(Mul(gr, n - 1, g), g)
  }

  lemma {:induction false} MulAdd<G(!new)>(gr: Group<G>, m: nat, n: nat, g: G)
    requires Abelian(gr)
    ensures Mul(gr, m + n, g) == gr.add(Mul(gr, m, g), Mul(gr, n, g))
  {
    if n == 0 {
      assert LawsAt(gr, Mul(gr, m, g), g, g);
    } else {
      MulAdd(gr, m, n - 1, g);
      assert Mul(gr, m + n, g) == gr.add(Mul(gr, m + n - 1, g), g);
      assert LawsAt(gr, Mul(gr, m, g), Mul(gr, n - 1, g), g);
    }
  }

  lemma MulOnce<G(!new)>(gr: Group<G>, g: G)
    requires Abelian(gr)
    ensures Mul(gr, 1, g) == g && gr.add(gr.zero, g) == g == gr.add(g, gr.zero)
  {
    assert LawsAt(gr, g, gr.zero, g);
    assert Mul(gr, 1, g) == gr.add(Mul(gr, 0, g), g);
  }

  lemma {:induction false} MulMul<G(!new)>(gr: Group<G>, m: nat, n: nat, g: G)
    requires Abelian(gr)
    ensures m * n >= 0 && Mul(gr, m, Mul(gr, n, g)) == Mul(gr, m * n, g)
    decreases m
  {
    if m > 0 {
      Distribute(m, 1, n);
      Scaled(0, m - 1, n);
      MulMul(gr, m - 1, n, g);
      MulAdd(gr, (m - 1) * n, n, g);
    }
  }

  lemma MulCommutes<G(!new)>(gr: Group<G>, m: nat, n: nat, g: G)
    requires Abelian(gr)
    ensures Mul(gr, m, Mul(gr, n, g)) == Mul(gr, n, Mul(gr, m, g))
  {
    MulMul(gr, m, n, g);
    MulMul(gr, n, m, g);
    assert m * n == n * m;
  }

  lemma {:induction false} MulZero<G(!new)>(gr: Group<G>, n: nat)
    requires Abelian(gr)
    ensures Mul(gr, n, gr.zero) == gr.zero
  {
    if n > 0 {
      MulZero(gr, n - 1);
      assert LawsAt(gr, gr.zero, gr.zero, gr.zero);
    }
  }

  /** Scalars may be reduced modulo the order of an element. */
  lemma MulReduced<G(!new)>(gr: Group<G>, n: nat, q: nat, g: G)
    requires Abelian(gr) && q > 0 && Mul(gr, q, g) == gr.zero
    ensures Mul(gr, n % q, g) == Mul(gr, n, g)
  {
    MulMul(gr, n / q, q, g);
    MulZero(gr, n / q);
    MulAdd(gr, (n / q) * q, n % q, g);
    MulOnce(gr, Mul(gr, n % q, g));
  }

  /** What doubling and adding relies on. */
  lemma MulHalved<G(!new)>(gr: Group<G>, n: nat, g: G)
    requires Abelian(gr)
    ensures Mul(gr, n / 2, gr.add(g, g)) == Mul(gr, n - n % 2, g)
  {
    MulOnce(gr, g);
    MulAdd(gr, 1, 1, g);
    MulMul(gr, n / 2, 2, g);
  }

  /** Multiples of an element of order at most 2. */
  lemma {:induction false} MulOfOrderTwo<G(!new)>(gr: Group<G>, n: nat, g: G)
    requires Abelian(gr) && gr.add(g, g) == gr.zero
    ensures Mul(gr, n, g) == if n % 2 == 0 then gr.zero else g
  {
    if n > 0 {
      MulOfOrderTwo(gr, n - 1, g);
      MulOnce(gr, g);
      assert Mul(gr, n, g) == gr.add(Mul(gr, n - 1, g), g);
    }
  }

  /** `g` has exactly the order `q`. */
  ghost predicate HasOrder<G(!new)>(gr: Group<G>, g: G, q: nat) {
    q > 0 && Mul(gr, q, g) == gr.zero && forall n: nat :: 0 < n < q ==> Mul(gr, n, g) != gr.zero
  }

  /** Below its order the multiples of an element differ. */
  lemma MulInjective<G(!new)>(gr: Group<G>, m: nat, n: nat, q: nat, g: G)
    requires Abelian(gr) && HasOrder(gr, g, q) && m <= n < q && Mul(gr, m, g) == Mul(gr, n, g)
    ensures m == n
  {
    MulAdd(gr, n, q - n, g);
    MulAdd(gr, m, q - n, g);
    assert m < n ==> 0 < m + (q - n) < q;
  }

  lemma CancelAdded<G(!new)>(gr: Group<G>, r: G, s: G, a: G, b: G)
    requires Abelian(gr) && gr.add(r, s) == gr.zero && gr.add(r, a) == gr.add(r, b)
    ensures a == b
  {
    LeftInverse(gr, r, s, a);
    LeftInverse(gr, r, s, b);
  }

  lemma LeftInverse<G(!new)>(gr: Group<G>, r: G, s: G, a: G)
    requires Abelian(gr) && gr.add(r, s) == gr.zero
    ensures gr.add(s, gr.add(r, a)) == a
  {
    assert LawsAt(gr, s, r, a) && LawsAt(gr, r, s, a) && LawsAt(gr, gr.zero, a, a) && LawsAt(gr, a, gr.zero, a);
  }
}
