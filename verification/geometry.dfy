/** Row-major coordinates on an n-by-n board: square index = rank * n + file,
    rank 0 being the top row. */
module Geometry {

  function Rank(i: int, n: int): int
    requires n > 0
  {
    i / n
  }

  function File(i: int, n: int): int
    requires n > 0
  {
    i % n
  }

  function Abs(x: int): int
  {
    if x < 0 then -x else x
  }

  predicate OnBoard(i: int, n: int)
  {
    0 <= i < n * n
  }

  lemma MulMonotone(a: int, b: int, n: int)
    requires n > 0 && a < b
    ensures a * n + n <= b * n
  {
    var d := b - a - 1;
    assert b * n == a * n + n + d * n;
    MulNonNegative(d, n);
  }

  lemma MulNonNegative(x: int, y: int)
    requires x >= 0 && y >= 0
    ensures x * y >= 0
  {
  }

  /** Division by a positive n has exactly one quotient-remainder pair. */
  lemma DivModUnique(a: int, n: int, q: int, r: int)
    requires n > 0 && 0 <= r < n && a == q * n + r
    ensures a / n == q && a % n == r
  {
    var q', r' := a / n, a % n;
    assert a == q' * n + r';
    if q < q' {
      MulMonotone(q, q', n);
    } else if q' < q {
      MulMonotone(q', q, n);
    }
  }

  /** The coordinates of a square and their ranges. */
  lemma Coordinates(i: int, n: int)
    requires n > 0
    ensures i == Rank(i, n) * n + File(i, n)
    ensures 0 <= File(i, n) < n
    ensures OnBoard(i, n) <==> 0 <= Rank(i, n) < n
  {
    var q, r := i / n, i % n;
    assert i == q * n + r;
    if q < 0 {
      MulMonotone(q, 0, n);
    }
    if q >= n {
      if q > n { MulMonotone(n, q, n); }
      assert i >= n * n;
    }
    if 0 <= q < n {
      MulMonotone(q, n, n);
    }
  }

  /** The square at a given rank and file, and its coordinates. */
  lemma Compose(rank: int, file: int, n: int)
    requires n > 0 && 0 <= file < n
    ensures Rank(rank * n + file, n) == rank
    ensures File(rank * n + file, n) == file
    ensures OnBoard(rank * n + file, n) <==> 0 <= rank < n
  {
    DivModUnique(rank * n + file, n, rank, file);
    Coordinates(rank * n + file, n);
  }

  /** Moving by dr ranks and df files from a square whose target file stays
      on the board is adding dr * n + df to the index. */
  lemma Shift(i: int, n: int, dr: int, df: int)
    requires n > 0 && 0 <= File(i, n) + df < n
    ensures Rank(i + dr * n + df, n) == Rank(i, n) + dr
    ensures File(i + dr * n + df, n) == File(i, n) + df
  {
    Coordinates(i, n);
    var r, f := Rank(i, n), File(i, n);
    assert i + dr * n + df == (r + dr) * n + (f + df);
    Compose(r + dr, f + df, n);
  }

  /** The top and bottom rows in index terms. */
  lemma RankBounds(c: int, n: int)
    requires n > 0 && OnBoard(c, n)
    ensures c >= n <==> Rank(c, n) >= 1
    ensures c + n < n * n <==> Rank(c, n) < n - 1
  {
    Coordinates(c, n);
    var r, f := Rank(c, n), File(c, n);
    if r >= 1 {
      MulMonotone(0, r, n);
    }
    assert (n - 1) * n + n == n * n;
    if r < n - 1 {
      MulMonotone(r, n - 1, n);
    } else {
      assert c == (n - 1) * n + f;
    }
  }
}
