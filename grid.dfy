/**
 * The stratification arithmetic of the pixel sampler: the grid side
 * `int(math.Sqrt(float64(samples)))`, the jittered coordinate inside a grid
 * cell, and the row-major numbering of the `n * n` cells.
 */
module Grid {

  /** Integer square root: the largest `n` with `n * n <= s`. */
  function ISqrt(s: nat): (n: nat)
    ensures n * n <= s < (n + 1) * (n + 1)
  {
    if s == 0 then 0
    else
      var m := ISqrt(s - 1);
      if (m + 1) * (m + 1) <= s then m + 1 else m
  }

  /** `(float64(cell) + d) / float64(n)`: a point of the `cell`-th of `n` equal slices of [0,1). */
  function Jitter(cell: nat, n: nat, d: real): (f: real)
    requires n > 0 && 0.0 <= d < 1.0
    ensures cell as real / n as real <= f < (cell + 1) as real / n as real
  {
    (cell as real + d) / n as real
  }

  /** Jittered points of distinct cells never coincide: a lower cell gives a strictly lower point. */
  lemma JitterOrdered(a: nat, b: nat, n: nat, da: real, db: real)
    requires n > 0 && 0.0 <= da < 1.0 && 0.0 <= db < 1.0
    requires a < b
    ensures Jitter(a, n, da) < Jitter(b, n, db)
  {
    assert (a + 1) as real <= b as real;
    DivMonotone((a + 1) as real, b as real, n as real);
  }

  lemma DivMonotone(x: real, y: real, n: real)
    requires n > 0.0 && x <= y
    ensures x / n <= y / n
  {
  }

  /** The position of cell `(u, v)` when an `n * n` grid is visited row by row. */
  function Index(n: nat, u: nat, v: nat): nat {
    u * n + v
  }

  /** Cell `(u, v)` of an `n * n` grid is the `Index(n, u, v)`-th one visited, and that index leads back to it. */
  lemma RowMajor(n: nat, u: nat, v: nat)
    requires u < n && v < n
    ensures Index(n, u, v) < n * n
    ensures Index(n, u, v) / n == u && Index(n, u, v) % n == v
  {
    var k := Index(n, u, v);
    MulMonotone(u + 1, n, n);
    assert k < (u + 1) * n;
    DivModUnique(k, n, u, v);
  }

  lemma DivModUnique(k: nat, n: nat, q: nat, r: nat)
    requires r < n && k == q * n + r
    ensures k / n == q && k % n == r
  {
    var q', r' := k / n, k % n;
    assert k == q' * n + r' && r' < n;
    if q' < q {
      MulMonotone(q' + 1, q, n);
      assert false;
    } else if q < q' {
      MulMonotone(q + 1, q', n);
      assert false;
    }
  }

  lemma MulMonotone(a: nat, b: nat, n: nat)
    requires a <= b
    ensures a * n <= b * n
  {
  }

  /** Every index of an `n * n` grid names a cell inside it, and distinct indices name distinct cells. */
  lemma CellsDistinct(n: nat, j: nat, k: nat)
    requires j < n * n && k < n * n && j != k
    ensures j / n < n && j % n < n && k / n < n && k % n < n
    ensures j / n != k / n || j % n != k % n
  {
    InGrid(n, j);
    InGrid(n, k);
  }

  lemma InGrid(n: nat, k: nat)
    requires k < n * n
    ensures n > 0 && k / n < n && k % n < n && k == (k / n) * n + k % n
  {
  }
}
