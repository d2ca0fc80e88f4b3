/** The row-major tile grid of the world map: cell (x, y) of a map `w` cells
    wide and `h` cells high is stored at position y * w + x of a flat
    sequence of tile indices. Products of sizes are written as row counts
    (Rows), which RowsProduct ties to the product. */
module Grid {

  /** The number of cells in the first `n` rows of a map `w` cells wide,
      counted row by row. */
  function Rows(w: nat, n: int): nat
    decreases n
  {
    if n <= 0 then 0 else Rows(w, n - 1) + w
  }

  /** Counting row by row gives the product w * n. */
  lemma {:induction false} RowsProduct(w: nat, n: nat)
    ensures Rows(w, n) == w * n
  {
    if n > 0 {
      RowsProduct(w, n - 1);
    }
  }

  lemma {:induction false} RowsMonotone(w: nat, a: int, b: int)
    requires 0 <= a <= b
    ensures Rows(w, a) <= Rows(w, b)
    decreases b - a
  {
    if a < b {
      RowsMonotone(w, a, b - 1);
    }
  }

  lemma {:induction false} RowsAdd(w: nat, a: nat, b: nat)
    ensures Rows(w, a + b) == Rows(w, a) + Rows(w, b)
  {
    if b > 0 {
      RowsAdd(w, a, b - 1);
    }
  }

  /** Flat position of cell (x, y) in a map `w` cells wide: the cells of the
      rows above it, then x. */
  function Idx(w: nat, x: int, y: int): int {
    Rows(w, y) + x
  }

  /** (x, y) is a cell of a `w` by `h` map. */
  predicate InGrid(w: int, h: int, x: int, y: int) {
    0 <= x < w && 0 <= y < h
  }

  /** (x, y) is an interior cell: not on the outer ring of the map. These are
      the only cells the generator ever draws for or rewrites. */
  predicate Interior(w: int, h: int, x: int, y: int) {
    0 < x < w - 1 && 0 < y < h - 1
  }

  /** (u, t) comes strictly before (x, y) in row-major order (rows top to
      bottom, cells left to right within a row). */
  predicate Precedes(u: int, t: int, x: int, y: int) {
    t < y || (t == y && u < x)
  }

  /** A flat sequence that can hold a `w` by `h` map. */
  predicate Sized(g: seq<int>, w: int, h: int) {
    0 <= w && 0 <= h && |g| == Rows(w, h)
  }

  lemma IdxInRange(w: nat, h: int, x: int, y: int)
    requires InGrid(w, h, x, y)
    ensures 0 <= Idx(w, x, y) < Rows(w, h)
  {
    RowsMonotone(w, y + 1, h);
  }

  lemma IdxInjective(w: nat, h: int, x: int, y: int, u: int, t: int)
    requires InGrid(w, h, x, y) && InGrid(w, h, u, t)
    ensures Idx(w, x, y) == Idx(w, u, t) <==> x == u && y == t
  {
    if y < t {
      RowsMonotone(w, y + 1, t);
    } else if t < y {
      RowsMonotone(w, t + 1, y);
    }
  }

  /** The source's flat index y * w + x is the position of cell (x, y). */
  lemma FlatIndex(w: nat, h: int, x: int, y: int)
    requires InGrid(w, h, x, y)
    ensures y * w + x == Idx(w, x, y) && 0 <= y * w + x < Rows(w, h)
  {
    RowsProduct(w, y);
    IdxInRange(w, h, x, y);
  }

  /** The tile at cell (x, y). */
  function At(g: seq<int>, w: int, h: int, x: int, y: int): int
    requires Sized(g, w, h) && InGrid(w, h, x, y)
  {
    IdxInRange(w, h, x, y);
    g[Idx(w, x, y)]
  }

  /** The map with cell (x, y) overwritten by `v`. */
  function Put(g: seq<int>, w: int, h: int, x: int, y: int, v: int): (r: seq<int>)
    requires Sized(g, w, h) && InGrid(w, h, x, y)
    ensures Sized(r, w, h)
  {
    IdxInRange(w, h, x, y);
    g[Idx(w, x, y) := v]
  }

  /** Writing cell (x, y) changes that cell and no other. */
  lemma AtPut(g: seq<int>, w: int, h: int, x: int, y: int, v: int, u: int, t: int)
    requires Sized(g, w, h) && InGrid(w, h, x, y) && InGrid(w, h, u, t)
    ensures At(Put(g, w, h, x, y, v), w, h, u, t) == if u == x && t == y then v else At(g, w, h, u, t)
  {
    IdxInRange(w, h, x, y);
    IdxInRange(w, h, u, t);
    IdxInjective(w, h, x, y, u, t);
  }

  /** Writing a cell's own value back leaves the map as it was. */
  lemma PutSame(g: seq<int>, w: int, h: int, x: int, y: int)
    requires Sized(g, w, h) && InGrid(w, h, x, y)
    ensures Put(g, w, h, x, y, At(g, w, h, x, y)) == g
  {
  }

  /** Every cell on the outer ring holds the sea tile 0. */
  ghost predicate BorderZero(g: seq<int>, w: int, h: int)
    requires Sized(g, w, h)
  {
    forall x, y :: InGrid(w, h, x, y) && !Interior(w, h, x, y) ==> At(g, w, h, x, y) == 0
  }

  /** Every cell holds an index into a list of `n` tile prefabs. */
  ghost predicate CellsIn(g: seq<int>, n: int) {
    forall i :: 0 <= i < |g| ==> 0 <= g[i] < n
  }

  lemma AtIn(g: seq<int>, w: int, h: int, n: int, x: int, y: int)
    requires Sized(g, w, h) && InGrid(w, h, x, y) && CellsIn(g, n)
    ensures 0 <= At(g, w, h, x, y) < n
  {
    IdxInRange(w, h, x, y);
  }

  /** The four neighbour offsets, in the order the generator tries them:
      right, left, down, up (WorldMapGenerator.cs:21-28). */
  const Directions: seq<(int, int)> := [(1, 0), (-1, 0), (0, 1), (0, -1)]

  /** The value the generator sees in direction `d` of interior cell (x, y):
      0 when that neighbour is not an interior cell, otherwise the
      neighbour's tile. Because both sweeps write in place, a neighbour that
      precedes (x, y) in row-major order has already been rewritten in this
      sweep and is read from `after`; any other neighbour is read from
      `before`. */
  function Look(before: seq<int>, after: seq<int>, w: int, h: int, x: int, y: int, d: int): int
    requires Sized(before, w, h) && Sized(after, w, h) && Interior(w, h, x, y) && 0 <= d < 4
  {
    var nx := x + Directions[d].0;
    var ny := y + Directions[d].1;
    if nx <= 0 || w - 1 <= nx || ny <= 0 || h - 1 <= ny then 0
    else if Precedes(nx, ny, x, y) then At(after, w, h, nx, ny)
    else At(before, w, h, nx, ny)
  }

  /** The neighbour value of `g` in direction `d`, read the way the
      source reads it: a bounds test, then the flat array position. */
  lemma LookFlat(g: seq<int>, w: int, h: int, x: int, y: int, d: int)
    requires Sized(g, w, h) && Interior(w, h, x, y) && 0 <= d < 4
    ensures var dx, dy := Directions[d].0, Directions[d].1;
      if x + dx <= 0 || w - 1 <= x + dx || y + dy <= 0 || h - 1 <= y + dy then Look(g, g, w, h, x, y, d) == 0
      else 0 <= (y + dy) * w + (x + dx) < |g| && Look(g, g, w, h, x, y, d) == g[(y + dy) * w + (x + dx)]
  {
    var dx, dy := Directions[d].0, Directions[d].1;
    if !(x + dx <= 0 || w - 1 <= x + dx || y + dy <= 0 || h - 1 <= y + dy) {
      FlatIndex(w, h, x + dx, y + dy);
    }
  }

  /** A neighbour value is always the sea tile or a tile of the map. */
  lemma LookIn(before: seq<int>, after: seq<int>, w: int, h: int, n: int, x: int, y: int, d: int)
    requires Sized(before, w, h) && Sized(after, w, h) && Interior(w, h, x, y) && 0 <= d < 4
    requires 1 <= n && CellsIn(before, n) && CellsIn(after, n)
    ensures 0 <= Look(before, after, w, h, x, y, d) < n
  {
    var nx := x + Directions[d].0;
    var ny := y + Directions[d].1;
    if Interior(w, h, nx, ny) {
      AtIn(before, w, h, n, nx, ny);
      AtIn(after, w, h, n, nx, ny);
    }
  }
}
