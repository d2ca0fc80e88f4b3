/** One row-major, in-place pass over the interior cells of the map. The
    generator makes three kinds of pass (WorldMapGenerator.cs:69-77, 102-120,
    123-155); all three visit rows 1 .. h-2 top to bottom and, within a row,
    cells 1 .. w-2 left to right, and each writes the cell it visits straight
    into the map, so a cell visited later sees the values written earlier in
    the same pass. */
module Sweeps {
  import opened Grid

  datatype Sweep =
    | Fill        // initial random fill: the cell takes the next draw
    | Diffuse     // the cell copies the neighbour a draw in [0, 4) picks
    | Homogenise  // the cell takes the common value of four equal neighbours

  /** The pass takes one draw per interior cell (Homogenise takes none). */
  predicate Draws(op: Sweep) {
    !op.Homogenise?
  }

  /** The homogenisation scan over the neighbour values `ns` as the source
      writes it: `sameTile` starts at the marker -1, the first value seen
      while it is -1 becomes the candidate, and the scan stops with "not
      same" at the first value that differs from the candidate. Returns
      (isSame, sameTile). */
  function Scan(ns: seq<int>, i: int, sameTile: int): (bool, int)
    requires 0 <= i <= |ns|
    decreases |ns| - i
  {
    if i == |ns| then (true, sameTile)
    else if sameTile == -1 then Scan(ns, i + 1, ns[i])
    else if sameTile != ns[i] then (false, sameTile)
    else Scan(ns, i + 1, sameTile)
  }

  lemma {:induction false} ScanFrom(ns: seq<int>, i: int, s: int)
    requires 0 <= i <= |ns| && 0 <= s
    ensures Scan(ns, i, s).0 <==> forall j :: i <= j < |ns| ==> ns[j] == s
    ensures Scan(ns, i, s).1 == s
    decreases |ns| - i
  {
    if i < |ns| && s == ns[i] {
      ScanFrom(ns, i + 1, s);
    }
  }

  /** On non-negative tiles the -1 marker never reappears, so the scan
      reports "same" exactly when every value equals the first, and then
      its tile is that value. */
  lemma ScanAgreement(ns: seq<int>)
    requires |ns| > 0 && forall j :: 0 <= j < |ns| ==> 0 <= ns[j]
    ensures Scan(ns, 0, -1).0 <==> forall j :: 0 <= j < |ns| ==> ns[j] == ns[0]
    ensures Scan(ns, 0, -1).1 == ns[0]
  {
    ScanFrom(ns, 1, ns[0]);
  }

  /** The four neighbour values of interior cell (x, y), in direction order. */
  function Neighbours(before: seq<int>, after: seq<int>, w: int, h: int, x: int, y: int): (ns: seq<int>)
    requires Sized(before, w, h) && Sized(after, w, h) && Interior(w, h, x, y)
    ensures |ns| == 4
  {
    [Look(before, after, w, h, x, y, 0), Look(before, after, w, h, x, y, 1),
     Look(before, after, w, h, x, y, 2), Look(before, after, w, h, x, y, 3)]
  }

  lemma NeighboursAt(before: seq<int>, after: seq<int>, w: int, h: int, x: int, y: int, d: int)
    requires Sized(before, w, h) && Sized(after, w, h) && Interior(w, h, x, y) && 0 <= d < 4
    ensures Neighbours(before, after, w, h, x, y)[d] == Look(before, after, w, h, x, y, d)
  {
  }

  /** The value a pass writes into interior cell (x, y), given draw `d`.
      Cells the pass has already visited are read from `after`, the others
      (including (x, y) itself) from `before`. */
  function Rule(op: Sweep, before: seq<int>, after: seq<int>, w: int, h: int, x: int, y: int, d: int): int
    requires Sized(before, w, h) && Sized(after, w, h) && Interior(w, h, x, y)
    requires op.Diffuse? ==> 0 <= d < 4
  {
    match op
    case Fill => d
    case Diffuse => Look(before, after, w, h, x, y, d)
    case Homogenise =>
      var scan := Scan(Neighbours(before, after, w, h, x, y), 0, -1);
      if scan.0 then scan.1 else At(before, w, h, x, y)
  }

  /** The visit of cell (x, y): at that moment the map `g` is both the state
      before and after. */
  function Step(op: Sweep, g: seq<int>, w: int, h: int, x: int, y: int, d: int): (r: seq<int>)
    requires Sized(g, w, h) && Interior(w, h, x, y)
    requires op.Diffuse? ==> 0 <= d < 4
    ensures Sized(r, w, h)
  {
    Put(g, w, h, x, y, Rule(op, g, g, w, h, x, y, d))
  }

  /** The number of interior cells at or after position (x, y) in row-major
      order; position (w-1, y) stands for the start of row y+1. */
  function Remaining(w: int, h: int, x: int, y: int): nat
    decreases h - y, w - x
  {
    if y >= h - 1 then 0
    else if x >= w - 1 then Remaining(w, h, 1, y + 1)
    else 1 + Remaining(w, h, x + 1, y)
  }

  /** The draws a pass still needs from position (x, y) on. */
  function Needed(op: Sweep, w: int, h: int, x: int, y: int): nat {
    if Draws(op) then Remaining(w, h, x, y) else 0
  }

  /** Draws that can pick a direction. */
  ghost predicate DirectionDraws(ds: seq<int>) {
    forall i :: 0 <= i < |ds| ==> 0 <= ds[i] < 4
  }

  lemma DirectionDrawsSlice(ds: seq<int>, i: int, j: int)
    requires DirectionDraws(ds) && 0 <= i <= j <= |ds|
    ensures DirectionDraws(ds[i..j])
  {
    forall n | 0 <= n < j - i ensures 0 <= ds[i..j][n] < 4 {
      assert ds[i..j][n] == ds[i + n];
    }
  }

  /** The rest of a pass, from position (x, y) to the end of the map,
      applied to map `g` with the draws `ds` still to be consumed. */
  function SweepFrom(op: Sweep, g: seq<int>, w: int, h: int, x: int, y: int, ds: seq<int>): (r: seq<int>)
    requires Sized(g, w, h) && 1 <= x && 1 <= y
    requires |ds| == Needed(op, w, h, x, y)
    requires op.Diffuse? ==> DirectionDraws(ds)
    ensures Sized(r, w, h)
    decreases h - y, w - x
  {
    if y >= h - 1 then g
    else if x >= w - 1 then SweepFrom(op, g, w, h, 1, y + 1, ds)
    else if Draws(op) then SweepFrom(op, Step(op, g, w, h, x, y, ds[0]), w, h, x + 1, y, ds[1..])
    else SweepFrom(op, Step(op, g, w, h, x, y, 0), w, h, x + 1, y, ds)
  }

  /** Unfolding a pass: visiting interior cell (x, y) first. */
  lemma SweepVisit(op: Sweep, g: seq<int>, w: int, h: int, x: int, y: int, ds: seq<int>)
    requires Sized(g, w, h) && Interior(w, h, x, y)
    requires |ds| == Needed(op, w, h, x, y) && (op.Diffuse? ==> DirectionDraws(ds))
    ensures |ds| == Needed(op, w, h, x + 1, y) + (if Draws(op) then 1 else 0)
    ensures op.Diffuse? ==> DirectionDraws(ds[1..])
    ensures SweepFrom(op, g, w, h, x, y, ds) ==
      SweepFrom(op, Step(op, g, w, h, x, y, if Draws(op) then ds[0] else 0), w, h, x + 1, y,
                if Draws(op) then ds[1..] else ds)
  {
    if op.Diffuse? {
      DirectionDrawsSlice(ds, 1, |ds|);
      assert ds[1..|ds|] == ds[1..];
    }
  }

  /** The visit of interior cell (x, y) changes no cell outside row y. */
  lemma StepInRow(op: Sweep, g: seq<int>, w: int, h: int, x: int, y: int, d: int)
    requires Sized(g, w, h) && Interior(w, h, x, y) && (op.Diffuse? ==> 0 <= d < 4)
    ensures forall u, t :: InGrid(w, h, u, t) && t != y ==> At(Step(op, g, w, h, x, y, d), w, h, u, t) == At(g, w, h, u, t)
  {
    forall u, t | InGrid(w, h, u, t) && t != y
      ensures At(Step(op, g, w, h, x, y, d), w, h, u, t) == At(g, w, h, u, t)
    {
      AtPut(g, w, h, x, y, Rule(op, g, g, w, h, x, y, d), u, t);
    }
  }

  /** Unfolding a pass: the end of a row moves to the start of the next. */
  lemma SweepRowEnd(op: Sweep, g: seq<int>, w: int, h: int, x: int, y: int, ds: seq<int>)
    requires Sized(g, w, h) && 1 <= x && w - 1 <= x && 1 <= y < h - 1
    requires |ds| == Needed(op, w, h, x, y) && (op.Diffuse? ==> DirectionDraws(ds))
    ensures Remaining(w, h, x, y) == Remaining(w, h, 1, y + 1)
    ensures SweepFrom(op, g, w, h, x, y, ds) == SweepFrom(op, g, w, h, 1, y + 1, ds)
  {
  }

  /** Unfolding a pass: past the last interior row nothing is left. */
  lemma SweepDone(op: Sweep, g: seq<int>, w: int, h: int, x: int, y: int, ds: seq<int>)
    requires Sized(g, w, h) && 1 <= x && 1 <= y && h - 1 <= y
    requires |ds| == Needed(op, w, h, x, y) && (op.Diffuse? ==> DirectionDraws(ds))
    ensures Remaining(w, h, x, y) == 0
    ensures SweepFrom(op, g, w, h, x, y, ds) == g
  {
  }

  /** The draw the pass started at (x0, y0) uses for interior cell (x, y). */
  function DrawFor(op: Sweep, ds: seq<int>, w: int, h: int, x0: int, y0: int, x: int, y: int): int
    requires Draws(op) ==> |ds| == Remaining(w, h, x0, y0)
    requires 1 <= Remaining(w, h, x, y) <= Remaining(w, h, x0, y0)
  {
    if Draws(op) then ds[Remaining(w, h, x0, y0) - Remaining(w, h, x, y)] else 0
  }

  lemma {:induction false} RemainingMonotone(w: int, h: int, x0: int, y0: int, x: int, y: int)
    requires 1 <= x0 && 1 <= y0 && Interior(w, h, x, y) && !Precedes(x, y, x0, y0)
    ensures 1 <= Remaining(w, h, x, y) <= Remaining(w, h, x0, y0)
    decreases h - y0, w - x0
  {
    if y0 >= h - 1 {
    } else if x0 >= w - 1 {
      RemainingMonotone(w, h, 1, y0 + 1, x, y);
    } else if x0 < x || y0 < y {
      RemainingMonotone(w, h, x0 + 1, y0, x, y);
    }
  }

  /** Rule reads `before` only at the cell itself and the neighbours that
      follow it, and `after` only at the neighbours that precede it. */
  lemma RuleFrame(op: Sweep, b1: seq<int>, a1: seq<int>, b2: seq<int>, a2: seq<int>,
                  w: int, h: int, x: int, y: int, d: int)
    requires Sized(b1, w, h) && Sized(a1, w, h) && Sized(b2, w, h) && Sized(a2, w, h)
    requires Interior(w, h, x, y) && (op.Diffuse? ==> 0 <= d < 4)
    requires forall u, t :: InGrid(w, h, u, t) && !Precedes(u, t, x, y) ==> At(b1, w, h, u, t) == At(b2, w, h, u, t)
    requires forall u, t :: InGrid(w, h, u, t) && Precedes(u, t, x, y) ==> At(a1, w, h, u, t) == At(a2, w, h, u, t)
    ensures Rule(op, b1, a1, w, h, x, y, d) == Rule(op, b2, a2, w, h, x, y, d)
  {
    assert Neighbours(b1, a1, w, h, x, y) == Neighbours(b2, a2, w, h, x, y);
  }

  /** The cells a pass started at (x0, y0) does not reach (the outer ring
      and the interior cells before (x0, y0)) are the same in `r` as in `g`. */
  ghost predicate Unreached(g: seq<int>, r: seq<int>, w: int, h: int, x0: int, y0: int)
    requires Sized(g, w, h) && Sized(r, w, h)
  {
    forall x, y :: InGrid(w, h, x, y) && !(Interior(w, h, x, y) && !Precedes(x, y, x0, y0)) ==>
      At(r, w, h, x, y) == At(g, w, h, x, y)
  }

  /** Every interior cell a pass started at (x0, y0) on `g` reaches holds in
      `r` the value Rule computes from `g` for the cells not yet visited and
      from `r` for the cells already visited, with the draws taken in
      visiting order. */
  ghost predicate Reached(op: Sweep, g: seq<int>, r: seq<int>, w: int, h: int, x0: int, y0: int, ds: seq<int>)
    requires Sized(g, w, h) && Sized(r, w, h)
    requires Draws(op) ==> |ds| == Remaining(w, h, x0, y0)
    requires op.Diffuse? ==> DirectionDraws(ds)
  {
    forall x, y :: Interior(w, h, x, y) && !Precedes(x, y, x0, y0) ==>
      1 <= Remaining(w, h, x, y) <= Remaining(w, h, x0, y0) &&
      At(r, w, h, x, y) == Rule(op, g, r, w, h, x, y, DrawFor(op, ds, w, h, x0, y0, x, y))
  }

  lemma {:induction false} SweepUnreached(op: Sweep, g: seq<int>, w: int, h: int, x0: int, y0: int, ds: seq<int>)
    requires Sized(g, w, h) && 1 <= x0 && 1 <= y0
    requires |ds| == Needed(op, w, h, x0, y0)
    requires op.Diffuse? ==> DirectionDraws(ds)
    ensures Unreached(g, SweepFrom(op, g, w, h, x0, y0, ds), w, h, x0, y0)
    decreases h - y0, w - x0
  {
    var r := SweepFrom(op, g, w, h, x0, y0, ds);
    if y0 >= h - 1 {
    } else if x0 >= w - 1 {
      SweepUnreached(op, g, w, h, 1, y0 + 1, ds);
    } else {
      var d0 := if Draws(op) then ds[0] else 0;
      var ds1 := if Draws(op) then ds[1..] else ds;
      var g1 := Step(op, g, w, h, x0, y0, d0);
      SweepUnreached(op, g1, w, h, x0 + 1, y0, ds1);
      forall x, y | InGrid(w, h, x, y) && !(Interior(w, h, x, y) && !Precedes(x, y, x0, y0))
        ensures At(r, w, h, x, y) == At(g, w, h, x, y)
      {
        AtPut(g, w, h, x0, y0, Rule(op, g, g, w, h, x0, y0, d0), x, y);
      }
    }
  }

  /** The cell visited first gets Rule's value, read from the map as the
      visit found it. */
  lemma FirstCell(op: Sweep, g: seq<int>, r: seq<int>, w: int, h: int, x0: int, y0: int, d0: int)
    requires Sized(g, w, h) && Sized(r, w, h) && Interior(w, h, x0, y0) && (op.Diffuse? ==> 0 <= d0 < 4)
    requires Unreached(Step(op, g, w, h, x0, y0, d0), r, w, h, x0 + 1, y0)
    ensures At(r, w, h, x0, y0) == Rule(op, g, r, w, h, x0, y0, d0)
  {
    var v := Rule(op, g, g, w, h, x0, y0, d0);
    var g1 := Step(op, g, w, h, x0, y0, d0);
    AtPut(g, w, h, x0, y0, v, x0, y0);
    forall u, t | InGrid(w, h, u, t) && Precedes(u, t, x0, y0)
      ensures At(g, w, h, u, t) == At(r, w, h, u, t)
    {
      AtPut(g, w, h, x0, y0, v, u, t);
    }
    RuleFrame(op, g, g, g, r, w, h, x0, y0, d0);
  }

  /** A cell visited later sees the first visit's write only through `r`. */
  lemma LaterCell(op: Sweep, g: seq<int>, r: seq<int>, w: int, h: int, x0: int, y0: int, d0: int,
                  x: int, y: int, d: int)
    requires Sized(g, w, h) && Sized(r, w, h) && Interior(w, h, x0, y0) && (op.Diffuse? ==> 0 <= d0 < 4)
    requires Interior(w, h, x, y) && Precedes(x0, y0, x, y) && (op.Diffuse? ==> 0 <= d < 4)
    requires At(r, w, h, x, y) == Rule(op, Step(op, g, w, h, x0, y0, d0), r, w, h, x, y, d)
    ensures At(r, w, h, x, y) == Rule(op, g, r, w, h, x, y, d)
  {
    var v := Rule(op, g, g, w, h, x0, y0, d0);
    var g1 := Step(op, g, w, h, x0, y0, d0);
    forall u, t | InGrid(w, h, u, t) && !Precedes(u, t, x, y)
      ensures At(g1, w, h, u, t) == At(g, w, h, u, t)
    {
      AtPut(g, w, h, x0, y0, v, u, t);
    }
    RuleFrame(op, g1, r, g, r, w, h, x, y, d);
  }

  /** The visit of (x0, y0) followed by the rest of the pass. */
  lemma StepReached(op: Sweep, g: seq<int>, r: seq<int>, w: int, h: int, x0: int, y0: int, ds: seq<int>,
                    d0: int, ds1: seq<int>, g1: seq<int>)
    requires Sized(g, w, h) && Sized(r, w, h) && Interior(w, h, x0, y0)
    requires |ds| == Needed(op, w, h, x0, y0) && (op.Diffuse? ==> DirectionDraws(ds))
    requires d0 == (if Draws(op) then ds[0] else 0) && ds1 == (if Draws(op) then ds[1..] else ds)
    requires |ds1| == Needed(op, w, h, x0 + 1, y0) && (op.Diffuse? ==> 0 <= d0 < 4 && DirectionDraws(ds1))
    requires g1 == Step(op, g, w, h, x0, y0, d0)
    requires Unreached(g1, r, w, h, x0 + 1, y0)
    requires Reached(op, g1, r, w, h, x0 + 1, y0, ds1)
    ensures Reached(op, g, r, w, h, x0, y0, ds)
  {
    forall x, y | Interior(w, h, x, y) && !Precedes(x, y, x0, y0)
      ensures 1 <= Remaining(w, h, x, y) <= Remaining(w, h, x0, y0)
      ensures At(r, w, h, x, y) == Rule(op, g, r, w, h, x, y, DrawFor(op, ds, w, h, x0, y0, x, y))
    {
      RemainingMonotone(w, h, x0, y0, x, y);
      if x == x0 && y == y0 {
        FirstCell(op, g, r, w, h, x0, y0, d0);
      } else {
        assert DrawFor(op, ds1, w, h, x0 + 1, y0, x, y) == DrawFor(op, ds, w, h, x0, y0, x, y);
        LaterCell(op, g, r, w, h, x0, y0, d0, x, y, DrawFor(op, ds, w, h, x0, y0, x, y));
      }
    }
  }

  /** Moving from the end of a row to the start of the next skips no cell. */
  lemma RowEndReached(op: Sweep, g: seq<int>, r: seq<int>, w: int, h: int, x0: int, y0: int, ds: seq<int>)
    requires Sized(g, w, h) && Sized(r, w, h) && 1 <= x0 && w - 1 <= x0 && 1 <= y0 < h - 1
    requires |ds| == Needed(op, w, h, x0, y0) && (op.Diffuse? ==> DirectionDraws(ds))
    requires Reached(op, g, r, w, h, 1, y0 + 1, ds)
    ensures Reached(op, g, r, w, h, x0, y0, ds)
  {
    forall x, y | Interior(w, h, x, y) && !Precedes(x, y, x0, y0)
      ensures 1 <= Remaining(w, h, x, y) <= Remaining(w, h, x0, y0)
      ensures At(r, w, h, x, y) == Rule(op, g, r, w, h, x, y, DrawFor(op, ds, w, h, x0, y0, x, y))
    {
      assert !Precedes(x, y, 1, y0 + 1);
    }
  }

  lemma {:induction false} SweepReached(op: Sweep, g: seq<int>, r: seq<int>, w: int, h: int, x0: int, y0: int, ds: seq<int>)
    requires Sized(g, w, h) && 1 <= x0 && 1 <= y0
    requires |ds| == Needed(op, w, h, x0, y0)
    requires op.Diffuse? ==> DirectionDraws(ds)
    requires r == SweepFrom(op, g, w, h, x0, y0, ds)
    ensures Reached(op, g, r, w, h, x0, y0, ds)
    decreases h - y0, w - x0
  {
    if y0 >= h - 1 {
    } else if x0 >= w - 1 {
      SweepReached(op, g, r, w, h, 1, y0 + 1, ds);
      RowEndReached(op, g, r, w, h, x0, y0, ds);
    } else {
      var d0 := if Draws(op) then ds[0] else 0;
      var ds1 := if Draws(op) then ds[1..] else ds;
      var g1 := Step(op, g, w, h, x0, y0, d0);
      SweepVisit(op, g, w, h, x0, y0, ds);
      SweepReached(op, g1, r, w, h, x0 + 1, y0, ds1);
      SweepUnreached(op, g1, w, h, x0 + 1, y0, ds1);
      StepReached(op, g, r, w, h, x0, y0, ds, d0, ds1, g1);
    }
  }

  /** What a pass does, cell by cell: see Unreached and Reached. */
  lemma SweepCells(op: Sweep, g: seq<int>, w: int, h: int, x0: int, y0: int, ds: seq<int>)
    requires Sized(g, w, h) && 1 <= x0 && 1 <= y0
    requires |ds| == Needed(op, w, h, x0, y0)
    requires op.Diffuse? ==> DirectionDraws(ds)
    ensures Unreached(g, SweepFrom(op, g, w, h, x0, y0, ds), w, h, x0, y0)
    ensures Reached(op, g, SweepFrom(op, g, w, h, x0, y0, ds), w, h, x0, y0, ds)
  {
    SweepUnreached(op, g, w, h, x0, y0, ds);
    SweepReached(op, g, SweepFrom(op, g, w, h, x0, y0, ds), w, h, x0, y0, ds);
  }

  /** A pass leaves the outer ring as it was. */
  lemma SweepKeepsBorder(op: Sweep, g: seq<int>, w: int, h: int, ds: seq<int>)
    requires Sized(g, w, h) && |ds| == Needed(op, w, h, 1, 1)
    requires op.Diffuse? ==> DirectionDraws(ds)
    requires BorderZero(g, w, h)
    ensures BorderZero(SweepFrom(op, g, w, h, 1, 1, ds), w, h)
  {
    SweepCells(op, g, w, h, 1, 1, ds);
  }

  /** A pass keeps every cell an index into `n` >= 1 tiles, provided the
      fill draws are such indices too. */
  lemma {:induction false} SweepKeepsRange(op: Sweep, g: seq<int>, w: int, h: int, x0: int, y0: int, ds: seq<int>, n: int)
    requires Sized(g, w, h) && 1 <= x0 && 1 <= y0
    requires |ds| == Needed(op, w, h, x0, y0)
    requires op.Diffuse? ==> DirectionDraws(ds)
    requires op.Fill? ==> forall i :: 0 <= i < |ds| ==> 0 <= ds[i] < n
    requires 1 <= n && CellsIn(g, n)
    ensures CellsIn(SweepFrom(op, g, w, h, x0, y0, ds), n)
    decreases h - y0, w - x0
  {
    if y0 >= h - 1 {
    } else if x0 >= w - 1 {
      SweepKeepsRange(op, g, w, h, 1, y0 + 1, ds, n);
    } else {
      var d0 := if Draws(op) then ds[0] else 0;
      var ds1 := if Draws(op) then ds[1..] else ds;
      var v := Rule(op, g, g, w, h, x0, y0, d0);
      if op.Diffuse? {
        LookIn(g, g, w, h, n, x0, y0, d0);
      } else if op.Homogenise? {
        var ns := Neighbours(g, g, w, h, x0, y0);
        forall j | 0 <= j < 4 ensures 0 <= ns[j] < n {
          LookIn(g, g, w, h, n, x0, y0, j);
        }
        ScanAgreement(ns);
        AtIn(g, w, h, n, x0, y0);
      }
      assert 0 <= v < n;
      IdxInRange(w, h, x0, y0);
      SweepKeepsRange(op, Step(op, g, w, h, x0, y0, d0), w, h, x0 + 1, y0, ds1, n);
    }
  }
}
