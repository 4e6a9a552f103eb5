/** Division by a variable divisor: the few facts the plane layouts need. */
module Division {

  lemma MulMonotone(a: int, b: int, c: int)
    requires a <= b && c >= 0
    ensures a * c <= b * c
  {
  }

  /** A quotient and a remainder determine the number. */
  lemma DivMod(q: int, d: int, r: int)
    requires 0 <= r < d
    ensures (q * d + r) / d == q && (q * d + r) % d == r
  {
    var x := q * d + r;
    Divides(x, d);
    var e := x / d - q;
    Distribute(x / d, q, d);
    if e >= 1 {
      MulMonotone(1, e, d);
    } else if e <= -1 {
      MulMonotone(e, -1, d);
    }
  }

  lemma Distribute(a: int, b: int, d: int)
    ensures (a - b) * d == a * d - b * d
  {
  }

  lemma Divides(x: int, d: int)
    requires d > 0
    ensures x == x / d * d + x % d && 0 <= x % d < d
  {
  }

  /** The cell (q, r) of a grid with `m` rows of `n` cells lies below `m * n`. */
  lemma CellBelow(q: nat, r: nat, m: nat, n: nat)
    requires q < m && r < n
    ensures 0 <= q * n + r < m * n
  {
    MulMonotone(0, q, n);
    MulMonotone(q + 1, m, n);
    Distribute(q, -1, n);
  }

  /** Splitting an index below `m * n` into its row and column. */
  lemma SplitCell(k: nat, m: nat, n: nat)
    requires k < m * n
    ensures n > 0 && 0 <= k / n < m && 0 <= k % n < n && k == k / n * n + k % n
  {
    if n > 0 {
      Divides(k, n);
      if k / n >= m {
        MulMonotone(m, k / n, n);
      } else if k / n < 0 {
        MulMonotone(k / n, -1, n);
      }
    }
  }

  lemma Scale(a: int, b: int, c: int, d: int)
    ensures (a * b) * (c * d) == (a * c) * (d * b)
  {
  }
}
