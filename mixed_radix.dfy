/** Arithmetic facts about mixed-radix numbers v0 + v1*l0 + v2*l0*l1 (slot 0 varying fastest). */
module MixedRadix {
  /** Bounds of Euclidean remainder and quotient. */
  lemma DivModBounds(n: nat, l: nat)
    requires l > 0
    ensures 0 <= n % l < l && 0 <= n / l <= n
  {
    DivLe(n, l);
  }

  /** Multiplying by a non-negative factor preserves order. */
  lemma MulMono(a: int, b: int, k: nat)
    requires a <= b
    ensures a * k <= b * k
  {
  }

  /** One more factor of `k`. */
  lemma MulSucc(a: int, b: int, k: int)
    requires b == a + 1
    ensures b * k == a * k + k
  {
  }

  /** Doubling a product. */
  lemma MulTwice(a: int, b: int)
    ensures 2 * (a * b) == b * 2 * a
  {
  }

  /** Dividing by a positive number does not increase. */
  lemma DivLe(n: nat, l: nat)
    requires l > 0
    ensures n / l <= n
  {
    assert n == l * (n / l) + n % l;
    MulMono(1, l, n / l);
  }

  /** A mixed-radix number with in-range digits lies below the product of the radices. */
  lemma MixedRadixBound(v0: nat, v1: nat, v2: nat, l0: nat, l1: nat, l2: nat)
    requires v0 < l0 && v1 < l1 && v2 < l2
    ensures 0 <= v0 + v1 * l0 + v2 * l0 * l1 < l0 * l1 * l2
  {
    MulMono(0, v1, l0);
    MulMono(0, v2, l0 * l1);
    MulMono(v1, l1 - 1, l0);
    assert v0 + v1 * l0 < l0 + (l1 - 1) * l0 == l1 * l0;
    MulMono(v2, l2 - 1, l0 * l1);
    assert v2 * l0 * l1 == v2 * (l0 * l1);
    assert (l2 - 1) * (l0 * l1) + l0 * l1 == l2 * (l0 * l1);
    assert l0 * l1 * l2 == l2 * (l0 * l1);
  }

  /** Euclidean division is determined by quotient and remainder. */
  lemma DivModUnique(n: nat, l: nat, q: nat, r: nat)
    requires n == q * l + r && r < l
    ensures n / l == q && n % l == r
  {
    var q', r' := n / l, n % l;
    assert n == q' * l + r';
    assert (q' - q) * l == q' * l - q * l;
    if q' > q {
      MulMono(1, q' - q, l);
    } else if q' < q {
      MulMono(1, q - q', l);
    }
  }

  /** Decoding a mixed-radix number gives back its digits. */
  lemma MixedRadixDecode(v0: nat, v1: nat, v2: nat, l0: nat, l1: nat)
    requires v0 < l0 && v1 < l1
    ensures var n := v0 + v1 * l0 + v2 * l0 * l1;
      n % l0 == v0 && n / l0 % l1 == v1 && n / l0 / l1 == v2
  {
    var n := v0 + v1 * l0 + v2 * l0 * l1;
    assert n == (v1 + v2 * l1) * l0 + v0;
    DivModUnique(n, l0, v1 + v2 * l1, v0);
    DivModUnique(v1 + v2 * l1, l1, v2, v1);
  }

  /** Digits, then recombination, give back the number. */
  lemma MixedRadixRecompose(n: nat, l0: nat, l1: nat)
    requires l0 > 0 && l1 > 0
    ensures n % l0 + (n / l0 % l1) * l0 + (n / l0 / l1) * l0 * l1 == n
  {
    var q := n / l0;
    assert n == q * l0 + n % l0;
    assert q == (q / l1) * l1 + q % l1;
    assert q * l0 == (q / l1) * l1 * l0 + (q % l1) * l0;
    assert (q / l1) * l1 * l0 == (q / l1) * l0 * l1;
  }

  /** An index below l0 * l1 * l2 has its top digit below l2. */
  lemma DivBelow(i: nat, l0: nat, l1: nat, l2: nat)
    requires l0 > 0 && l1 > 0 && i < l0 * l1 * l2
    ensures i / l0 / l1 < l2
  {
    var q := i / l0 / l1;
    MixedRadixRecompose(i, l0, l1);
    assert q * l0 * l1 <= i;
    assert q * l0 * l1 == q * (l0 * l1);
    assert l0 * l1 * l2 == l2 * (l0 * l1);
    if q >= l2 {
      MulMono(l2, q, l0 * l1);
    }
  }
}
