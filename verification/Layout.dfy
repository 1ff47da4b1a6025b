/** Row-major positions: where cell (i, j) of an m x n table lies in a flat buffer. */
module Layout {

  /** Row i is inside the buffer, and ends where row i + 1 starts. */
  lemma RowInside(i: nat, m: nat, n: nat)
    requires i < m
    ensures 0 <= i * n <= i * n + n <= m * n
  {
    assert (m - i - 1) * n >= 0;
    assert m * n == i * n + n + (m - i - 1) * n;
  }

  lemma CellInside(i: nat, j: nat, m: nat, n: nat)
    requires i < m && j < n
    ensures 0 <= i * n + j < m * n
  {
    RowInside(i, m, n);
  }

  /** Different cells lie at different positions. */
  lemma CellUnique(i: nat, j: nat, k: nat, l: nat, n: nat)
    requires j < n && l < n
    ensures i * n + j == k * n + l <==> i == k && j == l
  {
    if i < k { RowInside(i, k, n); }
    if k < i { RowInside(k, i, n); }
  }
}
