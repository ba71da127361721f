/** Division and remainder by a positive number. */
module Division {
  lemma MulOrder(x: int, y: int, m: nat)
    requires x <= y
    ensures x * m <= y * m
  {
    assert y * m == x * m + (y - x) * m;
  }

  lemma DivIs(n: int, size: nat, q: int)
    requires size >= 1 && q * size <= n < (q + 1) * size
    ensures n / size == q
  {
    var d := n / size;
    assert d * size <= n < (d + 1) * size;
    if d < q {
      MulOrder(d + 1, q, size);
    } else if d > q {
      MulOrder(q + 1, d, size);
    }
  }

  lemma DivNext(n: nat, size: nat)
    requires size >= 1
    ensures (n + size) / size == n / size + 1
  {
    var q := n / size;
    assert q * size <= n < (q + 1) * size;
    assert (q + 1) * size == q * size + size && (q + 2) * size == (q + 1) * size + size;
    DivIs(n + size, size, q + 1);
  }

  lemma DivOrder(m: int, n: int, size: nat)
    requires size >= 1 && m <= n
    ensures m / size <= n / size
  {
    var p, q := m / size, n / size;
    assert p * size <= m && n < (q + 1) * size;
    if p > q {
      MulOrder(q + 1, p, size);
    }
  }

  /** A whole multiple less leaves the remainder. */
  lemma ModNext(n: nat, size: nat)
    requires size >= 1
    ensures (n + size) % size == n % size
  {
    DivNext(n, size);
    var q := n / size;
    assert (q + 1) * size == q * size + size;
    assert n == q * size + n % size && n + size == (q + 1) * size + (n + size) % size;
  }
}
