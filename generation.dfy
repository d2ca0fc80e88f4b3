/** The whole map generation as functions of the map size, the update count
    and the draws the random number generator yields: setup, then the given
    number of relaxation passes (WorldMapGenerator.cs:38-81, 99-156). */
module Generation {
  import opened Grid
  import opened Sweeps

  /** The number of interior cells: max(0, w-2) * max(0, h-2), counted
      row by row. */
  function InteriorCount(w: int, h: int): nat {
    if w <= 2 || h <= 2 then 0 else Rows(w - 2, h - 2)
  }

  /** The 0-based row-major position of interior cell (x, y) among the
      interior cells, which is the order in which the passes visit them:
      (y - 1) * (w - 2) + (x - 1). */
  function Rank(w: int, x: int, y: int): int
    requires 2 <= w
  {
    Rows(w - 2, y - 1) + (x - 1)
  }

  /** Counted row by row or multiplied out, the interior has
      max(0, w-2) * max(0, h-2) cells. */
  lemma InteriorCountProduct(w: int, h: int)
    ensures InteriorCount(w, h) == (if w <= 2 then 0 else w - 2) * (if h <= 2 then 0 else h - 2)
  {
    if 2 < w && 2 < h {
      RowsProduct(w - 2, h - 2);
    }
  }

  /** The rank is the source's (y - 1) * (w - 2) + (x - 1). */
  lemma RankProduct(w: int, x: int, y: int)
    requires 2 <= w && 1 <= y
    ensures Rank(w, x, y) == (y - 1) * (w - 2) + (x - 1)
  {
    RowsProduct(w - 2, y - 1);
  }

  lemma {:induction false} RemainingNone(w: int, h: int, x: int, y: int)
    requires w <= 2 || h <= 2
    requires 1 <= x && 1 <= y
    ensures Remaining(w, h, x, y) == 0
    decreases h - y, w - x
  {
    if y >= h - 1 {
    } else if x >= w - 1 {
      RemainingNone(w, h, 1, y + 1);
    } else {
      assert false;
    }
  }

  lemma {:induction false} RemainingCount(w: int, h: int, x: int, y: int)
    requires 3 <= w && 3 <= h && 1 <= x <= w - 1 && 1 <= y <= h - 1
    ensures Remaining(w, h, x, y) == if y == h - 1 then 0 else (w - 1 - x) + Rows(w - 2, h - 2 - y)
    decreases h - y, w - x
  {
    if y == h - 1 {
    } else if x == w - 1 {
      RemainingCount(w, h, 1, y + 1);
    } else {
      RemainingCount(w, h, x + 1, y);
    }
  }

  /** A pass over the whole map takes exactly one draw per interior cell:
      max(0, w-2) * max(0, h-2) draws. */
  lemma InteriorDraws(w: int, h: int)
    ensures Remaining(w, h, 1, 1) == InteriorCount(w, h)
  {
    if w <= 2 || h <= 2 {
      RemainingNone(w, h, 1, 1);
    } else {
      RemainingCount(w, h, 1, 1);
    }
  }

  /** The pass that starts at (1, 1) gives interior cell (x, y) the draw at
      its row-major rank. */
  lemma RankOfCell(w: int, h: int, x: int, y: int)
    requires Interior(w, h, x, y)
    ensures 0 <= Rank(w, x, y) < InteriorCount(w, h)
    ensures Remaining(w, h, 1, 1) - Remaining(w, h, x, y) == Rank(w, x, y)
  {
    InteriorDraws(w, h);
    RemainingCount(w, h, x, y);
    RowsAdd(w - 2, h - 2 - y, y);
    RowsMonotone(w - 2, y, h - 2);
  }

  /** A freshly allocated map: every cell 0. */
  function Zeros(n: nat): (z: seq<int>)
    ensures |z| == n && forall i :: 0 <= i < n ==> z[i] == 0
  {
    seq(n, _ => 0)
  }

  /** The random fill over the whole map, one draw per interior cell
      (WorldMapGenerator.cs:69-77). */
  function Filled(g: seq<int>, w: int, h: int, ds: seq<int>): (r: seq<int>)
    requires Sized(g, w, h) && |ds| == InteriorCount(w, h)
    ensures Sized(r, w, h)
  {
    InteriorDraws(w, h);
    SweepFrom(Fill, g, w, h, 1, 1, ds)
  }

  /** The map after setup: the outer ring 0, each interior cell the next
      fill draw, in row-major order (WorldMapGenerator.cs:54-77). */
  function Initial(w: nat, h: nat, ds: seq<int>): seq<int>
    requires |ds| == InteriorCount(w, h)
  {
    Filled(Zeros(Rows(w, h)), w, h, ds)
  }

  /** Setup leaves the outer ring 0 and puts the i-th fill draw in the
      interior cell of rank i. */
  lemma InitialCells(w: nat, h: nat, ds: seq<int>)
    requires |ds| == InteriorCount(w, h)
    ensures Sized(Initial(w, h, ds), w, h)
    ensures BorderZero(Initial(w, h, ds), w, h)
    ensures forall x, y :: Interior(w, h, x, y) ==>
      0 <= Rank(w, x, y) < |ds| && At(Initial(w, h, ds), w, h, x, y) == ds[Rank(w, x, y)]
  {
    InteriorDraws(w, h);
    var z := Zeros(Rows(w, h));
    var g := Initial(w, h, ds);
    SweepCells(Fill, z, w, h, 1, 1, ds);
    forall x, y | InGrid(w, h, x, y)
      ensures At(z, w, h, x, y) == 0
    {
      IdxInRange(w, h, x, y);
    }
    forall x, y | Interior(w, h, x, y)
      ensures 0 <= Rank(w, x, y) < |ds| && At(g, w, h, x, y) == ds[Rank(w, x, y)]
    {
      RankOfCell(w, h, x, y);
    }
  }

  /** With fill draws in [0, n), setup leaves every cell in [0, n). */
  lemma InitialInRange(w: nat, h: nat, ds: seq<int>, n: int)
    requires |ds| == InteriorCount(w, h) && 1 <= n
    requires forall i :: 0 <= i < |ds| ==> 0 <= ds[i] < n
    ensures CellsIn(Initial(w, h, ds), n)
  {
    InteriorDraws(w, h);
    SweepKeepsRange(Fill, Zeros(Rows(w, h)), w, h, 1, 1, ds, n);
  }

  /** The diffusion sweep over the whole map, one direction draw per
      interior cell (WorldMapGenerator.cs:102-120). */
  function Diffused(g: seq<int>, w: int, h: int, ds: seq<int>): seq<int>
    requires Sized(g, w, h) && |ds| == InteriorCount(w, h) && DirectionDraws(ds)
  {
    InteriorDraws(w, h);
    SweepFrom(Diffuse, g, w, h, 1, 1, ds)
  }

  /** The homogenisation sweep over the whole map; it draws nothing
      (WorldMapGenerator.cs:123-155). */
  function Homogenised(g: seq<int>, w: int, h: int): seq<int>
    requires Sized(g, w, h)
  {
    SweepFrom(Homogenise, g, w, h, 1, 1, [])
  }

  /** One relaxation pass: diffusion, then homogenisation
      (WorldMapGenerator.cs:99-156). */
  function Pass(g: seq<int>, w: int, h: int, ds: seq<int>): seq<int>
    requires Sized(g, w, h) && |ds| == InteriorCount(w, h) && DirectionDraws(ds)
  {
    InteriorDraws(w, h);
    Homogenised(Diffused(g, w, h, ds), w, h)
  }

  /** The diffusion sweep cell by cell: the outer ring is untouched, and
      interior cell (x, y) takes the neighbour value in the direction its
      draw picks (the draw of its row-major rank), where a neighbour visited
      earlier in this sweep is read with its new value. */
  lemma DiffusionCells(g: seq<int>, w: int, h: int, ds: seq<int>)
    requires Sized(g, w, h) && |ds| == InteriorCount(w, h) && DirectionDraws(ds)
    ensures var r := Diffused(g, w, h, ds);
      (forall x, y :: InGrid(w, h, x, y) && !Interior(w, h, x, y) ==> At(r, w, h, x, y) == At(g, w, h, x, y)) &&
      (forall x, y :: Interior(w, h, x, y) ==>
         0 <= Rank(w, x, y) < |ds| && At(r, w, h, x, y) == Look(g, r, w, h, x, y, ds[Rank(w, x, y)]))
  {
    InteriorDraws(w, h);
    var r := Diffused(g, w, h, ds);
    SweepCells(Diffuse, g, w, h, 1, 1, ds);
    assert Unreached(g, r, w, h, 1, 1);
    forall x, y | Interior(w, h, x, y)
      ensures 0 <= Rank(w, x, y) < |ds| && At(r, w, h, x, y) == Look(g, r, w, h, x, y, ds[Rank(w, x, y)])
    {
      assert !Precedes(x, y, 1, 1);
      DiffusedCell(g, r, w, h, ds, x, y);
    }
  }

  /** The draw the diffusion pass from (1, 1) uses for interior cell (x, y)
      is the one at its row-major rank. */
  lemma DiffusedCell(g: seq<int>, r: seq<int>, w: int, h: int, ds: seq<int>, x: int, y: int)
    requires Sized(g, w, h) && Sized(r, w, h) && Interior(w, h, x, y)
    requires |ds| == Remaining(w, h, 1, 1) && DirectionDraws(ds)
    requires 1 <= Remaining(w, h, x, y) <= Remaining(w, h, 1, 1)
    requires At(r, w, h, x, y) == Rule(Diffuse, g, r, w, h, x, y, DrawFor(Diffuse, ds, w, h, 1, 1, x, y))
    ensures 0 <= Rank(w, x, y) < |ds| && At(r, w, h, x, y) == Look(g, r, w, h, x, y, ds[Rank(w, x, y)])
  {
    RankOfCell(w, h, x, y);
    InteriorDraws(w, h);
  }

  /** All values of `ns` are equal. */
  predicate AllSame(ns: seq<int>) {
    forall j :: 0 <= j < |ns| ==> ns[j] == ns[0]
  }

  /** Interior cell (x, y) of `r` is v when its four neighbour values, read
      from `g` for the cells after it and from `r` for the cells before it,
      all equal v, and otherwise holds its value in `g`. */
  ghost predicate Snapped(g: seq<int>, r: seq<int>, w: int, h: int, x: int, y: int)
    requires Sized(g, w, h) && Sized(r, w, h) && Interior(w, h, x, y)
  {
    At(r, w, h, x, y) == if AllSame(Neighbours(g, r, w, h, x, y)) then Neighbours(g, r, w, h, x, y)[0]
                         else At(g, w, h, x, y)
  }

  /** The homogenisation sweep cell by cell: the outer ring is untouched,
      and interior cell (x, y) is set to v exactly when its four neighbour
      values, as the sweep finds them, all equal v; otherwise it keeps its
      value. */
  lemma HomogenisationCells(g: seq<int>, w: int, h: int, n: int)
    requires Sized(g, w, h) && 1 <= n && CellsIn(g, n)
    ensures var r := Homogenised(g, w, h);
      (forall x, y :: InGrid(w, h, x, y) && !Interior(w, h, x, y) ==> At(r, w, h, x, y) == At(g, w, h, x, y)) &&
      (forall x, y :: Interior(w, h, x, y) ==> Snapped(g, r, w, h, x, y))
  {
    var r := Homogenised(g, w, h);
    SweepCells(Homogenise, g, w, h, 1, 1, []);
    SweepKeepsRange(Homogenise, g, w, h, 1, 1, [], n);
    assert Unreached(g, r, w, h, 1, 1);
    forall x, y | Interior(w, h, x, y)
      ensures Snapped(g, r, w, h, x, y)
    {
      assert !Precedes(x, y, 1, 1);
      HomogenisedCell(g, r, w, h, n, x, y);
    }
  }

  /** On tiles in [0, n), the scan's rule is "take the common value of four
      equal neighbours". */
  lemma HomogenisedCell(g: seq<int>, r: seq<int>, w: int, h: int, n: int, x: int, y: int)
    requires Sized(g, w, h) && Sized(r, w, h) && Interior(w, h, x, y)
    requires 1 <= n && CellsIn(g, n) && CellsIn(r, n)
    requires At(r, w, h, x, y) == Rule(Homogenise, g, r, w, h, x, y, 0)
    ensures Snapped(g, r, w, h, x, y)
  {
    var ns := Neighbours(g, r, w, h, x, y);
    forall j | 0 <= j < 4 ensures 0 <= ns[j] {
      LookIn(g, r, w, h, n, x, y, j);
    }
    ScanAgreement(ns);
  }

  /** Because the sweep writes in place, a cell whose four neighbours all
      hold v before the sweep need not end up v: in this 5 by 5 map, cell
      (2, 2) is snapped to 1 before cell (2, 3) is visited, so (2, 3), whose
      neighbours all held 0, keeps its 1. */
  lemma HomogenisationInPlace(g: seq<int>)
    requires Sized(g, 5, 5) && CellsIn(g, 2)
    requires At(g, 5, 5, 1, 1) == 1 && At(g, 5, 5, 2, 1) == 1 && At(g, 5, 5, 3, 1) == 0
    requires At(g, 5, 5, 1, 2) == 1 && At(g, 5, 5, 2, 2) == 0 && At(g, 5, 5, 3, 2) == 1
    requires At(g, 5, 5, 1, 3) == 0 && At(g, 5, 5, 2, 3) == 1 && At(g, 5, 5, 3, 3) == 0
    ensures AllSame(Neighbours(g, g, 5, 5, 2, 3)) && Neighbours(g, g, 5, 5, 2, 3)[0] == 0
    ensures At(Homogenised(g, 5, 5), 5, 5, 2, 3) == 1
  {
    var r := Homogenised(g, 5, 5);
    HomogenisationCells(g, 5, 5, 2);
    InPlaceTrace(g, r);
    assert Neighbours(g, g, 5, 5, 2, 3) == [0, 0, 0, 0];
  }

  /** The homogenisation sweep on the map of HomogenisationInPlace, cell by
      cell up to (2, 3). */
  lemma InPlaceTrace(g: seq<int>, r: seq<int>)
    requires Sized(g, 5, 5) && Sized(r, 5, 5)
    requires At(g, 5, 5, 1, 1) == 1 && At(g, 5, 5, 2, 1) == 1 && At(g, 5, 5, 3, 1) == 0
    requires At(g, 5, 5, 1, 2) == 1 && At(g, 5, 5, 2, 2) == 0 && At(g, 5, 5, 3, 2) == 1
    requires At(g, 5, 5, 1, 3) == 0 && At(g, 5, 5, 2, 3) == 1 && At(g, 5, 5, 3, 3) == 0
    requires forall x, y :: Interior(5, 5, x, y) ==> Snapped(g, r, 5, 5, x, y)
    ensures At(r, 5, 5, 2, 3) == 1
  {
    assert Snapped(g, r, 5, 5, 1, 1) && Snapped(g, r, 5, 5, 2, 1) && Snapped(g, r, 5, 5, 1, 2);
    assert Snapped(g, r, 5, 5, 2, 2) && Snapped(g, r, 5, 5, 1, 3) && Snapped(g, r, 5, 5, 2, 3);
    assert At(r, 5, 5, 1, 1) == 1 by { assert Neighbours(g, r, 5, 5, 1, 1)[0..2] == [1, 0]; }
    assert At(r, 5, 5, 2, 1) == 1 by { assert Neighbours(g, r, 5, 5, 2, 1)[1] == 1 != Neighbours(g, r, 5, 5, 2, 1)[0]; }
    assert At(r, 5, 5, 1, 2) == 1 by { assert Neighbours(g, r, 5, 5, 1, 2)[0] == 0; assert Neighbours(g, r, 5, 5, 1, 2)[3] == 1; }
    assert At(r, 5, 5, 2, 2) == 1 by { assert Neighbours(g, r, 5, 5, 2, 2) == [1, 1, 1, 1]; }
    assert At(r, 5, 5, 1, 3) == 0 by { assert Neighbours(g, r, 5, 5, 1, 3)[0] == 1 != Neighbours(g, r, 5, 5, 1, 3)[1]; }
    assert Neighbours(g, r, 5, 5, 2, 3) == [0, 0, 0, 1];
  }

  /** A pass keeps the outer ring 0 and every cell in [0, n). */
  lemma PassKeeps(g: seq<int>, w: int, h: int, ds: seq<int>, n: int)
    requires Sized(g, w, h) && |ds| == InteriorCount(w, h) && DirectionDraws(ds)
    requires 1 <= n && CellsIn(g, n) && BorderZero(g, w, h)
    ensures Sized(Pass(g, w, h, ds), w, h)
    ensures CellsIn(Pass(g, w, h, ds), n) && BorderZero(Pass(g, w, h, ds), w, h)
  {
    InteriorDraws(w, h);
    var d := SweepFrom(Diffuse, g, w, h, 1, 1, ds);
    SweepKeepsBorder(Diffuse, g, w, h, ds);
    SweepKeepsRange(Diffuse, g, w, h, 1, 1, ds, n);
    SweepKeepsBorder(Homogenise, d, w, h, []);
    SweepKeepsRange(Homogenise, d, w, h, 1, 1, [], n);
  }

  /** The draws `n` relaxation passes over `k` interior cells take, one
      pass after the other. */
  function PassDraws(n: nat, k: nat): nat {
    if n == 0 then 0 else k + PassDraws(n - 1, k)
  }

  /** Each pass takes k draws, so n passes take n * k. */
  lemma {:induction false} PassDrawsProduct(n: nat, k: nat)
    ensures PassDraws(n, k) == n * k
  {
    if n > 0 {
      PassDrawsProduct(n - 1, k);
    }
  }

  /** `n` relaxation passes, each taking the next InteriorCount(w, h)
      direction draws. */
  function Relax(g: seq<int>, w: int, h: int, n: nat, ds: seq<int>): seq<int>
    requires Sized(g, w, h) && |ds| == PassDraws(n, InteriorCount(w, h)) && DirectionDraws(ds)
    decreases n
  {
    if n == 0 then g
    else
      var k := InteriorCount(w, h);
      DirectionDrawsSlice(ds, 0, k);
      DirectionDrawsSlice(ds, k, |ds|);
      Relax(Pass(g, w, h, ds[0 .. k]), w, h, n - 1, ds[k .. |ds|])
  }

  /** The first of `n` >= 1 passes, and the rest. */
  lemma RelaxFirst(g: seq<int>, w: int, h: int, n: nat, ds: seq<int>)
    requires Sized(g, w, h) && |ds| == PassDraws(n, InteriorCount(w, h)) && DirectionDraws(ds) && 1 <= n
    ensures var k := InteriorCount(w, h);
      k <= |ds| && DirectionDraws(ds[..k]) && |ds[k..]| == PassDraws(n - 1, k) && DirectionDraws(ds[k..]) &&
      Relax(g, w, h, n, ds) == Relax(Pass(g, w, h, ds[..k]), w, h, n - 1, ds[k..])
  {
    var k := InteriorCount(w, h);
    DirectionDrawsSlice(ds, 0, k);
    DirectionDrawsSlice(ds, k, |ds|);
    assert ds[0 .. k] == ds[..k];
    assert ds[k .. |ds|] == ds[k..];
  }

  /** The draws of the next pass, within the draws ds[i..end] of `n` >= 1
      passes, pick directions. */
  lemma NextPassDraws(w: int, h: int, n: nat, ds: seq<int>, i: int, end: int)
    requires 1 <= n && 0 <= i && i + PassDraws(n, InteriorCount(w, h)) == end <= |ds|
    requires DirectionDraws(ds[i .. end])
    ensures i + InteriorCount(w, h) <= end && DirectionDraws(ds[i .. i + InteriorCount(w, h)])
  {
    var k := InteriorCount(w, h);
    DirectionDrawsSlice(ds[i .. end], 0, k);
    assert ds[i .. end][0 .. k] == ds[i .. i + k];
  }

  /** After the next pass, `n` - 1 passes with the draws that follow it
      remain: the same result as the `n` passes from before it. */
  lemma RelaxNext(before: seq<int>, after: seq<int>, w: int, h: int, n: nat, ds: seq<int>, i: int, end: int)
    requires Sized(before, w, h) && 1 <= n && 0 <= i && i + PassDraws(n, InteriorCount(w, h)) == end <= |ds|
    requires DirectionDraws(ds[i .. end]) && DirectionDraws(ds[i .. i + InteriorCount(w, h)])
    requires after == Pass(before, w, h, ds[i .. i + InteriorCount(w, h)])
    ensures i + InteriorCount(w, h) + PassDraws(n - 1, InteriorCount(w, h)) == end
    ensures DirectionDraws(ds[i + InteriorCount(w, h) .. end])
    ensures Relax(after, w, h, n - 1, ds[i + InteriorCount(w, h) .. end]) == Relax(before, w, h, n, ds[i .. end])
  {
    var k := InteriorCount(w, h);
    RelaxFirst(before, w, h, n, ds[i .. end]);
    assert ds[i .. end][..k] == ds[i .. i + k];
    assert ds[i .. end][k..] == ds[i + k .. end];
  }

  /** From cursor `pos`, the `left` passes that remain, over the draws up to
      `end`, turn `g` into `target`. */
  ghost predicate RelaxAhead(g: seq<int>, w: int, h: int, left: nat, ds: seq<int>, pos: int, end: int, target: seq<int>) {
    Sized(g, w, h) && 0 <= pos && pos + PassDraws(left, InteriorCount(w, h)) == end <= |ds| &&
    DirectionDraws(ds[pos .. end]) && Relax(g, w, h, left, ds[pos .. end]) == target
  }

  lemma {:induction false} RelaxKeeps(g: seq<int>, w: int, h: int, n: nat, ds: seq<int>, t: int)
    requires Sized(g, w, h) && |ds| == PassDraws(n, InteriorCount(w, h)) && DirectionDraws(ds)
    requires 1 <= t && CellsIn(g, t) && BorderZero(g, w, h)
    ensures Sized(Relax(g, w, h, n, ds), w, h)
    ensures CellsIn(Relax(g, w, h, n, ds), t) && BorderZero(Relax(g, w, h, n, ds), w, h)
    decreases n
  {
    if n > 0 {
      var k := InteriorCount(w, h);
      RelaxFirst(g, w, h, n, ds);
      PassKeeps(g, w, h, ds[..k], t);
      RelaxKeeps(Pass(g, w, h, ds[..k]), w, h, n - 1, ds[k..], t);
    }
  }

  /** The number of times the update loop runs for `updateCount`. */
  function Passes(updateCount: int): nat {
    if updateCount <= 0 then 0 else updateCount
  }

  /** The draw sequence holds enough draws for the setup and `passes`
      relaxation passes, and the draws of the passes (the
      InteriorCount(w, h) blocks after the setup's) pick directions. */
  ghost predicate PassDrawsFit(ds: seq<int>, w: int, h: int, passes: nat) {
    var k := InteriorCount(w, h);
    k + PassDraws(passes, k) <= |ds| && DirectionDraws(ds[k .. k + PassDraws(passes, k)])
  }

  /** Besides, the setup's draws are tile indices in [0, tileCount). */
  ghost predicate DrawsFit(ds: seq<int>, w: int, h: int, tileCount: int, passes: nat) {
    PassDrawsFit(ds, w, h, passes) &&
    forall i :: 0 <= i < InteriorCount(w, h) ==> 0 <= ds[i] < tileCount
  }

  /** The map generated for a `w` by `h` map and `updateCount` updates from
      the draw sequence `ds`: a function of these alone. */
  function Generated(w: nat, h: nat, updateCount: int, ds: seq<int>): seq<int>
    requires PassDrawsFit(ds, w, h, Passes(updateCount))
  {
    var k := InteriorCount(w, h);
    var p := Passes(updateCount);
    InitialCells(w, h, ds[..k]);
    Relax(Initial(w, h, ds[..k]), w, h, p, ds[k .. k + PassDraws(p, k)])
  }

  /** Generated, written out for a caller that holds the map after setup
      and the draws of the passes. */
  lemma GeneratedFrom(w: nat, h: nat, updateCount: int, ds: seq<int>, g: seq<int>, rest: seq<int>)
    requires PassDrawsFit(ds, w, h, Passes(updateCount))
    requires g == Initial(w, h, ds[..InteriorCount(w, h)])
    requires rest == ds[InteriorCount(w, h) .. InteriorCount(w, h) + PassDraws(Passes(updateCount), InteriorCount(w, h))]
    ensures Sized(g, w, h) && |rest| == PassDraws(Passes(updateCount), InteriorCount(w, h)) && DirectionDraws(rest)
    ensures Generated(w, h, updateCount, ds) == Relax(g, w, h, Passes(updateCount), rest)
  {
  }

  /** A generated map has w * h cells, its outer ring is 0, every cell
      indexes one of `tileCount` tiles, and with no updates it is the map
      setup produced. */
  lemma GeneratedShape(w: nat, h: nat, updateCount: int, ds: seq<int>, tileCount: int)
    requires 1 <= tileCount && DrawsFit(ds, w, h, tileCount, Passes(updateCount))
    ensures var g := Generated(w, h, updateCount, ds);
      Sized(g, w, h) && BorderZero(g, w, h) && CellsIn(g, tileCount) &&
      (updateCount <= 0 ==> g == Initial(w, h, ds[..InteriorCount(w, h)]))
  {
    var k := InteriorCount(w, h);
    var p := Passes(updateCount);
    InitialCells(w, h, ds[..k]);
    InitialInRange(w, h, ds[..k], tileCount);
    RelaxKeeps(Initial(w, h, ds[..k]), w, h, p, ds[k .. k + PassDraws(p, k)], tileCount);
  }
}
