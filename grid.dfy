/// Row-major grids and the flat index that every engine shares with its
/// union-find (`index_of_pos`, src/game_logic/board.rs).
module Grids {

  /// `h` rows of `w` cells each.
  predicate IsGrid<T>(cells: seq<seq<T>>, w: nat, h: nat)
  {
    |cells| == h && forall r :: 0 <= r < h ==> |cells[r]| == w
  }

  /// A grid of `h` rows of `w` copies of `v` (`vec![vec![v; w]; h]`).
  function Filled<T>(w: nat, h: nat, v: T): (g: seq<seq<T>>)
    ensures IsGrid(g, w, h)
    ensures forall r, c :: 0 <= r < h && 0 <= c < w ==> g[r][c] == v
  {
    seq(h, _ => seq(w, _ => v))
  }

  /// The grid with cell `(r, c)` overwritten by `v`.
  function SetCell<T>(cells: seq<seq<T>>, r: nat, c: nat, v: T): (g: seq<seq<T>>)
    requires r < |cells| && c < |cells[r]|
    ensures |g| == |cells| && forall i :: 0 <= i < |g| ==> |g[i]| == |cells[i]|
    ensures g[r][c] == v
    ensures forall i, j :: 0 <= i < |g| && 0 <= j < |g[i]| && (i, j) != (r, c) ==> g[i][j] == cells[i][j]
  {
    cells[r := cells[r][c := v]]
  }

  /// Two grids of the same shape with the same cells are equal.
  lemma GridsEqual<T>(a: seq<seq<T>>, b: seq<seq<T>>, width: nat, height: nat)
    requires IsGrid(a, width, height) && IsGrid(b, width, height)
    requires forall r, c :: 0 <= r < height && 0 <= c < width ==> a[r][c] == b[r][c]
    ensures a == b
  {
    forall r | 0 <= r < height
      ensures a[r] == b[r]
    {
    }
  }

  /// The position lies on a board of `height` rows and `width` columns.
  predicate InBounds(p: (nat, nat), width: nat, height: nat)
  {
    p.0 < height && p.1 < width
  }

  /// The two positions differ by one step along a row or a column.
  predicate Orthogonal(p: (nat, nat), q: (nat, nat))
  {
    || (p.0 == q.0 && (p.1 + 1 == q.1 || q.1 + 1 == p.1))
    || (p.1 == q.1 && (p.0 + 1 == q.0 || q.0 + 1 == p.0))
  }

  /// `index_of_pos((row, col)) = row * width + col`.
  function FlatIndex(row: nat, col: nat, width: nat): nat
  {
    row * width + col
  }

  lemma MulMonotone(a: nat, b: nat, w: nat)
    requires a <= b
    ensures a * w <= b * w
  {
    var d := b - a;
    assert b * w == a * w + d * w;
  }

  /// Division and remainder are determined by any decomposition `q * w + r`
  /// with `r < w`.
  lemma DivModUnique(n: nat, w: nat, q: nat, r: nat)
    requires r < w && n == q * w + r
    ensures n / w == q && n % w == r
  {
    var q', r' := n / w, n % w;
    assert n == q' * w + r';
    if q' + 1 <= q {
      MulMonotone(q' + 1, q, w);
      assert false;
    }
    if q + 1 <= q' {
      MulMonotone(q + 1, q', w);
      assert false;
    }
  }

  /// Inside the grid, the flat index lies below `width * height`, and it
  /// gives back the row and column by division and remainder.
  lemma FlatIndexInverse(row: nat, col: nat, width: nat, height: nat)
    requires row < height && col < width
    ensures FlatIndex(row, col, width) < width * height
    ensures FlatIndex(row, col, width) / width == row
    ensures FlatIndex(row, col, width) % width == col
  {
    MulMonotone(row + 1, height, width);
    DivModUnique(FlatIndex(row, col, width), width, row, col);
  }

  /// Distinct cells of a grid get distinct flat indices.
  lemma FlatIndexInjective(r1: nat, c1: nat, r2: nat, c2: nat, width: nat, height: nat)
    requires r1 < height && c1 < width && r2 < height && c2 < width
    requires FlatIndex(r1, c1, width) == FlatIndex(r2, c2, width)
    ensures r1 == r2 && c1 == c2
  {
    FlatIndexInverse(r1, c1, width, height);
    FlatIndexInverse(r2, c2, width, height);
  }
}
