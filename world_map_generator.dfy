/** The world map generator component (WorldMapGenerator.cs:13-157): it
    keeps the last generated map as a flat, row-major array of tile indices
    and rebuilds it on every Generate call. */
module WorldMap {
  import opened Grid
  import opened Sweeps
  import opened Generation
  import opened Randomness

  class WorldMapGenerator {
    /** The number of tile prefabs (m_tilePrefabs.Length); every cell of a
        rendered map indexes them. */
    const tileCount: nat
    /** m_mapData, m_width and m_height. */
    var mapData: array<int>
    var mapWidth: int
    var mapHeight: int

    /** The array holds a map of the recorded size whose outer ring is 0. */
    ghost predicate Valid()
      reads this, mapData
    {
      Sized(mapData[..], mapWidth, mapHeight) && BorderZero(mapData[..], mapWidth, mapHeight)
    }

    constructor (tileCount: nat)
      ensures Valid() && this.tileCount == tileCount
      ensures mapWidth == 0 && mapHeight == 0 && fresh(mapData)
    {
      this.tileCount := tileCount;
      mapData := new int[0];
      mapWidth := 0;
      mapHeight := 0;
    }

    /** Generate (WorldMapGenerator.cs:38-81): with a zero dimension nothing
        happens; otherwise the random generator is reseeded, a zeroed
        width * height map is allocated, its outer ring set to 0, every
        interior cell filled with a draw in [0, tileCount) in row-major
        order, and the map relaxed updateCount times. The result is the
        function Generated of the size, the update count and the seed's
        draw sequence alone. */
    method Generate(seed: int, width: int, height: int, updateCount: int, random: Random)
      requires Valid() && random.Valid()
      requires width != 0 && height != 0 ==>
        0 < width && 0 < height && 1 <= tileCount && DrawsFit(random.sequenceFor(seed), width, height, tileCount, Passes(updateCount))
      modifies this, random
      ensures Valid() && random.Valid()
      ensures width == 0 || height == 0 ==> unchanged(this) && unchanged(mapData) && unchanged(random)
      ensures width != 0 && height != 0 ==>
        fresh(mapData) && mapData.Length == width * height && mapWidth == width && mapHeight == height &&
        random.draws == random.sequenceFor(seed) &&
        random.pos == InteriorCount(width, height) + PassDraws(Passes(updateCount), InteriorCount(width, height)) &&
        mapData[..] == Generated(width, height, updateCount, random.draws) &&
        CellsIn(mapData[..], tileCount)
    {
      if width == 0 || height == 0 {
        return;
      }

      random.InitState(seed);
      mapWidth := width;
      mapHeight := height;
      mapData := SeaMap(width, height);
      Populate(updateCount, random);
      GeneratedShape(width, height, updateCount, random.draws, tileCount);
      RowsProduct(width, height);
    }

    /** The allocation of m_mapData and the loops that set its outer ring to
        the sea (WorldMapGenerator.cs:54-66): a fresh array of width * height
        cells, every one of them 0. */
    static method SeaMap(width: int, height: int) returns (a: array<int>)
      requires 1 <= width && 1 <= height
      ensures fresh(a) && a[..] == Zeros(Rows(width, height))
    {
      RowsProduct(width, height);
      a := new int[width * height](_ => 0);
      var x := 0;
      while x < width
        invariant 0 <= x <= width
        invariant forall i :: 0 <= i < a.Length ==> a[i] == 0
        modifies a
      {
        FlatIndex(width, height, x, 0);
        FlatIndex(width, height, x, height - 1);
        a[x] := 0;
        a[(height - 1) * width + x] := 0;
        x := x + 1;
      }
      var y := 0;
      while y < height
        invariant 0 <= y <= height
        invariant forall i :: 0 <= i < a.Length ==> a[i] == 0
        modifies a
      {
        FlatIndex(width, height, 0, y);
        FlatIndex(width, height, width - 1, y);
        a[y * width] := 0;
        a[y * width + width - 1] := 0;
        y := y + 1;
      }
    }

    /** The random fill and the update loop of Generate
        (WorldMapGenerator.cs:69-81), on the zeroed map and from the start of
        the seed's draw sequence: the map becomes Generated of its size, the
        update count and the draws. */
    method Populate(updateCount: int, random: Random)
      requires Sized(mapData[..], mapWidth, mapHeight) && mapData[..] == Zeros(Rows(mapWidth, mapHeight))
      requires random.Valid() && random.pos == 0
      requires DrawsFit(random.draws, mapWidth, mapHeight, tileCount, Passes(updateCount))
      modifies mapData, random
      ensures random.Valid() && random.draws == old(random.draws)
      ensures random.pos == InteriorCount(mapWidth, mapHeight) + PassDraws(Passes(updateCount), InteriorCount(mapWidth, mapHeight))
      ensures mapData[..] == Generated(mapWidth, mapHeight, updateCount, random.draws)
    {
      var w, h := mapWidth, mapHeight;
      ghost var ds := random.draws;
      ghost var k := InteriorCount(w, h);
      ghost var end := k + PassDraws(Passes(updateCount), k);
      FillInterior(random);
      assert ds[0 .. k] == ds[..k];
      ghost var g := mapData[..];
      assert g == Initial(w, h, ds[..k]);
      GeneratedFrom(w, h, updateCount, ds, g, ds[k .. end]);
      Relaxation(updateCount, random);
    }

    /** The update loop of Generate (WorldMapGenerator.cs:79-81): updateCount
        relaxation passes (none when updateCount <= 0), each taking the next
        InteriorCount(mapWidth, mapHeight) direction draws. */
    method Relaxation(updateCount: int, random: Random)
      requires Sized(mapData[..], mapWidth, mapHeight) && random.Valid()
      requires random.pos + PassDraws(Passes(updateCount), InteriorCount(mapWidth, mapHeight)) <= |random.draws|
      requires DirectionDraws(random.draws[random.pos .. random.pos + PassDraws(Passes(updateCount), InteriorCount(mapWidth, mapHeight))])
      modifies mapData, random
      ensures Sized(mapData[..], mapWidth, mapHeight) && random.Valid() && random.draws == old(random.draws)
      ensures random.pos == old(random.pos) + PassDraws(Passes(updateCount), InteriorCount(mapWidth, mapHeight))
      ensures mapData[..] == Relax(old(mapData[..]), mapWidth, mapHeight, Passes(updateCount),
        old(random.draws[random.pos .. random.pos + PassDraws(Passes(updateCount), InteriorCount(mapWidth, mapHeight))]))
    {
      var a, w, h := mapData, mapWidth, mapHeight;
      ghost var ds := random.draws;
      ghost var end := random.pos + PassDraws(Passes(updateCount), InteriorCount(w, h));
      ghost var relaxed := Relax(a[..], w, h, Passes(updateCount), ds[random.pos .. end]);
      ghost var left: nat := Passes(updateCount);
      var i := 0;
      while i < updateCount
        invariant 0 <= i && left == Passes(updateCount) - i
        invariant random.Valid() && random.draws == ds
        invariant RelaxAhead(a[..], w, h, left, ds, random.pos, end, relaxed)
        modifies a, random
      {
        UpdateTurn(left, end, relaxed, random);
        i := i + 1;
        left := left - 1;
      }
    }

    /** One turn of the update loop (WorldMapGenerator.cs:80-81): after
        the UpdateWorldMap call, `left` - 1 of the `left` remaining passes
        are still to come, with the draws that follow this pass's, and they
        lead to the same map as the `left` passes from before the call. */
    method UpdateTurn(ghost left: nat, ghost end: int, ghost target: seq<int>, random: Random)
      requires 1 <= left && random.Valid()
      requires RelaxAhead(mapData[..], mapWidth, mapHeight, left, random.draws, random.pos, end, target)
      modifies mapData, random
      ensures random.Valid() && random.draws == old(random.draws)
      ensures random.pos == old(random.pos) + InteriorCount(mapWidth, mapHeight)
      ensures old(DirectionDraws(random.draws[random.pos .. random.pos + InteriorCount(mapWidth, mapHeight)]))
      ensures mapData[..] == Pass(old(mapData[..]), mapWidth, mapHeight,
                                  old(random.draws[random.pos .. random.pos + InteriorCount(mapWidth, mapHeight)]))
      ensures RelaxAhead(mapData[..], mapWidth, mapHeight, left - 1, random.draws, random.pos, end, target)
    {
      ghost var before := mapData[..];
      ghost var p0 := random.pos;
      NextPassDraws(mapWidth, mapHeight, left, random.draws, p0, end);
      UpdateWorldMap(random);
      RelaxNext(before, mapData[..], mapWidth, mapHeight, left, random.draws, p0, end);
    }

    /** The random fill (WorldMapGenerator.cs:69-77): each interior cell, in
        row-major order, takes the next draw, a tile index in [0, tileCount). */
    method FillInterior(random: Random)
      requires Sized(mapData[..], mapWidth, mapHeight)
      requires random.Valid() && random.pos + InteriorCount(mapWidth, mapHeight) <= |random.draws|
      requires forall i :: random.pos <= i < random.pos + InteriorCount(mapWidth, mapHeight) ==>
        0 <= random.draws[i] < tileCount
      modifies mapData, random
      ensures random.Valid() && random.draws == old(random.draws)
      ensures random.pos == old(random.pos) + InteriorCount(mapWidth, mapHeight)
      ensures mapData[..] == Filled(old(mapData[..]), mapWidth, mapHeight,
                                    old(random.draws[random.pos .. random.pos + InteriorCount(mapWidth, mapHeight)]))
    {
      var a, w, h := mapData, mapWidth, mapHeight;
      ghost var ds := random.draws;
      ghost var end := random.pos + InteriorCount(w, h);
      InteriorDraws(w, h);
      ghost var filled := Filled(a[..], w, h, ds[random.pos .. end]);
      var y := 1;
      while y < h - 1
        invariant 1 <= y && (y <= h - 1 || y == 1) && Sized(a[..], w, h)
        invariant random.Valid() && random.draws == ds && random.pos + Remaining(w, h, 1, y) == end
        invariant forall i :: random.pos <= i < end ==> 0 <= ds[i] < tileCount
        invariant SweepFrom(Fill, a[..], w, h, 1, y, ds[random.pos .. end]) == filled
        modifies a, random
      {
        FillRow(y, random, end);
        y := y + 1;
      }
      SweepDone(Fill, a[..], w, h, 1, y, ds[random.pos .. end]);
    }

    /** One row of the random fill (WorldMapGenerator.cs:71-76): each
        interior cell of row y, left to right, takes the next draw in
        [0, tileCount). */
    method FillRow(y: int, random: Random, ghost end: int)
      requires Sized(mapData[..], mapWidth, mapHeight) && 1 <= y < mapHeight - 1
      requires random.Valid() && random.pos + Remaining(mapWidth, mapHeight, 1, y) == end <= |random.draws|
      requires forall i :: random.pos <= i < end ==> 0 <= random.draws[i] < tileCount
      modifies mapData, random
      ensures random.Valid() && random.draws == old(random.draws)
      ensures random.pos + Remaining(mapWidth, mapHeight, 1, y + 1) == end
      ensures forall i :: random.pos <= i < end ==> 0 <= random.draws[i] < tileCount
      ensures forall u, t :: InGrid(mapWidth, mapHeight, u, t) && t != y ==>
        At(mapData[..], mapWidth, mapHeight, u, t) == old(At(mapData[..], mapWidth, mapHeight, u, t))
      ensures SweepFrom(Fill, mapData[..], mapWidth, mapHeight, 1, y + 1, random.draws[random.pos .. end]) ==
        old(SweepFrom(Fill, mapData[..], mapWidth, mapHeight, 1, y, random.draws[random.pos .. end]))
    {
      var a, w, h := mapData, mapWidth, mapHeight;
      ghost var ds := random.draws;
      ghost var target := SweepFrom(Fill, a[..], w, h, 1, y, ds[random.pos .. end]);
      var x := 1;
      while x < w - 1
        invariant 1 <= x && (x <= w - 1 || x == 1) && Sized(a[..], w, h)
        invariant random.Valid() && random.draws == ds && random.pos + Remaining(w, h, x, y) == end
        invariant forall i :: random.pos <= i < end ==> 0 <= ds[i] < tileCount
        invariant forall u, t :: InGrid(w, h, u, t) && t != y ==> At(a[..], w, h, u, t) == old(At(a[..], w, h, u, t))
        invariant SweepFrom(Fill, a[..], w, h, x, y, ds[random.pos .. end]) == target
        modifies a, random
      {
        ghost var before := a[..];
        ghost var rest := ds[random.pos .. end];
        SweepVisit(Fill, before, w, h, x, y, rest);
        StepInRow(Fill, before, w, h, x, y, rest[0]);
        FlatIndex(w, h, x, y);
        var rand := random.Range(0, tileCount);
        a[y * w + x] := rand;
        assert a[..] == Step(Fill, before, w, h, x, y, rest[0]);
        assert rest[1..] == ds[random.pos .. end];
        x := x + 1;
      }
      SweepRowEnd(Fill, a[..], w, h, x, y, ds[random.pos .. end]);
    }

    /** UpdateWorldMap (WorldMapGenerator.cs:99-156): one relaxation pass
        in place, taking one direction draw per interior cell. */
    method UpdateWorldMap(random: Random)
      requires Sized(mapData[..], mapWidth, mapHeight) && random.Valid()
      requires random.pos + InteriorCount(mapWidth, mapHeight) <= |random.draws|
      requires DirectionDraws(random.draws[random.pos .. random.pos + InteriorCount(mapWidth, mapHeight)])
      modifies mapData, random
      ensures Sized(mapData[..], mapWidth, mapHeight) && random.Valid() && random.draws == old(random.draws)
      ensures random.pos == old(random.pos) + InteriorCount(mapWidth, mapHeight)
      ensures mapData[..] == Pass(old(mapData[..]), mapWidth, mapHeight,
                                  old(random.draws[random.pos .. random.pos + InteriorCount(mapWidth, mapHeight)]))
    {
      Diffusion(random);
      Homogenisation();
    }

    /** The diffusion sweep of UpdateWorldMap (WorldMapGenerator.cs:101-120):
        each interior cell, in row-major order, copies the neighbour a draw
        in [0, 4) picks, or 0 when that neighbour is not interior. */
    method Diffusion(random: Random)
      requires Sized(mapData[..], mapWidth, mapHeight) && random.Valid()
      requires random.pos + InteriorCount(mapWidth, mapHeight) <= |random.draws|
      requires DirectionDraws(random.draws[random.pos .. random.pos + InteriorCount(mapWidth, mapHeight)])
      modifies mapData, random
      ensures Sized(mapData[..], mapWidth, mapHeight) && random.Valid() && random.draws == old(random.draws)
      ensures random.pos == old(random.pos) + InteriorCount(mapWidth, mapHeight)
      ensures mapData[..] == Diffused(old(mapData[..]), mapWidth, mapHeight,
                                      old(random.draws[random.pos .. random.pos + InteriorCount(mapWidth, mapHeight)]))
    {
      var a, w, h := mapData, mapWidth, mapHeight;
      ghost var k := InteriorCount(w, h);
      ghost var end := random.pos + k;
      ghost var ds := random.draws;
      InteriorDraws(w, h);
      ghost var diffused := Diffused(a[..], w, h, ds[random.pos .. end]);

      var y := 1;
      while y < h - 1
        invariant 1 <= y && (y <= h - 1 || y == 1) && Sized(a[..], w, h)
        invariant random.Valid() && random.draws == ds && random.pos + Remaining(w, h, 1, y) == end
        invariant DirectionDraws(ds[random.pos .. end])
        invariant SweepFrom(Diffuse, a[..], w, h, 1, y, ds[random.pos .. end]) == diffused
        modifies a, random
      {
        DiffuseRow(y, random, end);
        y := y + 1;
      }
      SweepDone(Diffuse, a[..], w, h, 1, y, ds[random.pos .. end]);
    }

    /** One row of the diffusion sweep (WorldMapGenerator.cs:104-119): it
        carries out the part of the pass that visits row y, consuming one
        draw per interior cell of the row. */
    method DiffuseRow(y: int, random: Random, ghost end: int)
      requires Sized(mapData[..], mapWidth, mapHeight) && 1 <= y < mapHeight - 1
      requires random.Valid() && random.pos + Remaining(mapWidth, mapHeight, 1, y) == end <= |random.draws|
      requires DirectionDraws(random.draws[random.pos .. end])
      modifies mapData, random
      ensures random.Valid() && random.draws == old(random.draws)
      ensures random.pos + Remaining(mapWidth, mapHeight, 1, y + 1) == end
      ensures DirectionDraws(random.draws[random.pos .. end])
      ensures forall u, t :: InGrid(mapWidth, mapHeight, u, t) && t != y ==>
        At(mapData[..], mapWidth, mapHeight, u, t) == old(At(mapData[..], mapWidth, mapHeight, u, t))
      ensures SweepFrom(Diffuse, mapData[..], mapWidth, mapHeight, 1, y + 1, random.draws[random.pos .. end]) ==
        old(SweepFrom(Diffuse, mapData[..], mapWidth, mapHeight, 1, y, random.draws[random.pos .. end]))
    {
      var a, w, h := mapData, mapWidth, mapHeight;
      ghost var ds := random.draws;
      ghost var target := SweepFrom(Diffuse, a[..], w, h, 1, y, ds[random.pos .. end]);
      var x := 1;
      while x < w - 1
        invariant 1 <= x && (x <= w - 1 || x == 1) && Sized(a[..], w, h)
        invariant random.Valid() && random.draws == ds && random.pos + Remaining(w, h, x, y) == end
        invariant DirectionDraws(ds[random.pos .. end])
        invariant forall u, t :: InGrid(w, h, u, t) && t != y ==> At(a[..], w, h, u, t) == old(At(a[..], w, h, u, t))
        invariant SweepFrom(Diffuse, a[..], w, h, x, y, ds[random.pos .. end]) == target
        modifies a, random
      {
        ghost var rest := ds[random.pos .. end];
        SweepVisit(Diffuse, a[..], w, h, x, y, rest);
        StepInRow(Diffuse, a[..], w, h, x, y, rest[0]);
        DiffuseCell(x, y, random);
        assert rest[1..] == ds[random.pos .. end];
        x := x + 1;
      }
      SweepRowEnd(Diffuse, a[..], w, h, x, y, ds[random.pos .. end]);
    }

    /** The body of the diffusion sweep for interior cell (x, y)
        (WorldMapGenerator.cs:106-118). */
    method DiffuseCell(x: int, y: int, random: Random)
      requires Sized(mapData[..], mapWidth, mapHeight) && Interior(mapWidth, mapHeight, x, y)
      requires random.Valid() && random.pos < |random.draws| && 0 <= random.draws[random.pos] < 4
      modifies mapData, random
      ensures random.Valid() && random.draws == old(random.draws) && random.pos == old(random.pos) + 1
      ensures mapData[..] == Step(Diffuse, old(mapData[..]), mapWidth, mapHeight, x, y, old(random.draws[random.pos]))
    {
      var a, w, h := mapData, mapWidth, mapHeight;
      ghost var before := a[..];
      FlatIndex(w, h, x, y);
      var num := y * w + x;
      var rand := random.Range(0, 4);
      var dx := Directions[rand].0;
      var dy := Directions[rand].1;
      LookFlat(before, w, h, x, y, rand);
      var tile := 0;
      if x + dx <= 0 || w - 1 <= x + dx || y + dy <= 0 || h - 1 <= y + dy {
        tile := 0;
      } else {
        tile := a[(y + dy) * w + (x + dx)];
      }
      a[num] := tile;
    }

    /** The homogenisation sweep of UpdateWorldMap
        (WorldMapGenerator.cs:122-155): each interior cell, in row-major
        order, whose four neighbour values (0 for a neighbour that is not
        interior) agree takes that value. */
    method Homogenisation()
      requires Sized(mapData[..], mapWidth, mapHeight)
      modifies mapData
      ensures Sized(mapData[..], mapWidth, mapHeight)
      ensures mapData[..] == Homogenised(old(mapData[..]), mapWidth, mapHeight)
    {
      var a, w, h := mapData, mapWidth, mapHeight;
      ghost var homogenised := Homogenised(a[..], w, h);
      var y := 1;
      while y < h - 1
        invariant 1 <= y && (y <= h - 1 || y == 1) && Sized(a[..], w, h)
        invariant SweepFrom(Homogenise, a[..], w, h, 1, y, []) == homogenised
        modifies a
      {
        HomogeniseRow(y);
        y := y + 1;
      }
      SweepDone(Homogenise, a[..], w, h, 1, y, []);
    }

    /** One row of the homogenisation sweep (WorldMapGenerator.cs:125-154):
        it carries out the part of the pass that visits row y. */
    method HomogeniseRow(y: int)
      requires Sized(mapData[..], mapWidth, mapHeight) && 1 <= y < mapHeight - 1
      modifies mapData
      ensures forall u, t :: InGrid(mapWidth, mapHeight, u, t) && t != y ==>
        At(mapData[..], mapWidth, mapHeight, u, t) == old(At(mapData[..], mapWidth, mapHeight, u, t))
      ensures SweepFrom(Homogenise, mapData[..], mapWidth, mapHeight, 1, y + 1, []) ==
        old(SweepFrom(Homogenise, mapData[..], mapWidth, mapHeight, 1, y, []))
    {
      var a, w, h := mapData, mapWidth, mapHeight;
      ghost var target := SweepFrom(Homogenise, a[..], w, h, 1, y, []);
      var x := 1;
      while x < w - 1
        invariant 1 <= x && (x <= w - 1 || x == 1) && Sized(a[..], w, h)
        invariant forall u, t :: InGrid(w, h, u, t) && t != y ==> At(a[..], w, h, u, t) == old(At(a[..], w, h, u, t))
        invariant SweepFrom(Homogenise, a[..], w, h, x, y, []) == target
        modifies a
      {
        SweepVisit(Homogenise, a[..], w, h, x, y, []);
        StepInRow(Homogenise, a[..], w, h, x, y, 0);
        HomogeniseCell(x, y);
        x := x + 1;
      }
      SweepRowEnd(Homogenise, a[..], w, h, x, y, []);
    }

    /** The body of the homogenisation sweep for interior cell (x, y)
        (WorldMapGenerator.cs:127-153): the scan over the four neighbours
        with the -1 marker, then the write when they all agree. */
    method HomogeniseCell(x: int, y: int)
      requires Sized(mapData[..], mapWidth, mapHeight) && Interior(mapWidth, mapHeight, x, y)
      modifies mapData
      ensures mapData[..] == Step(Homogenise, old(mapData[..]), mapWidth, mapHeight, x, y, 0)
    {
      var a, w, h := mapData, mapWidth, mapHeight;
      ghost var before := a[..];
      ghost var ns := Neighbours(before, before, w, h, x, y);
      var tile := 0;
      var sameTile := -1;
      var isSame := true;
      var i := 0;
      while i < 4
        invariant 0 <= i <= 4 && isSame && a[..] == before
        invariant Scan(ns, i, sameTile) == Scan(ns, 0, -1)
      {
        var dx := Directions[i].0;
        var dy := Directions[i].1;
        LookFlat(before, w, h, x, y, i);
        NeighboursAt(before, before, w, h, x, y, i);
        if x + dx <= 0 || w - 1 <= x + dx || y + dy <= 0 || h - 1 <= y + dy {
          tile := 0;
        } else {
          tile := a[(y + dy) * w + (x + dx)];
        }
        assert tile == ns[i];
        if -1 == sameTile {
          sameTile := tile;
        } else if sameTile != tile {
          isSame := false;
          break;
        }
        i := i + 1;
      }
      assert Scan(ns, 0, -1) == (isSame, sameTile);
      FlatIndex(w, h, x, y);
      if isSame {
        a[y * w + x] := sameTile;
      } else {
        PutSame(before, w, h, x, y);
      }
    }
  }
}
