/** The flow simulation. Each worker walks a slice of the traversal order and,
    for every cell it visits, moves at most one unit of water to the neighbour
    the scan picks (the first strict minimum of N .. SE below 1000000,
    otherwise NW), or drains the cell if it lies on the edge of the grid. Updates are written straight back to the shared grid, so later
    visits see the effect of earlier ones. */
module FlowModel {
  import opened TerrainModel
  import opened WaterModel

  /** The starting value of the running minimum in the neighbour scan. */
  const Ceiling: real := 1000000.0

  /** The water surface of a cell: 0.01 per unit of depth above the ground. */
  function Surface(d: int, h: real): real
  {
    d as real * 0.01 + h
  }

  /** The depth grid `g` covers exactly the terrain `t`. */
  ghost predicate Matches(g: Grid, t: Terrain)
  {
    t.Valid() && IsShape(g, t.dimx, t.dimy)
  }

  predicate Interior(x: int, y: int, dimx: int, dimy: int)
  {
    x > 0 && y > 0 && x < dimx - 1 && y < dimy - 1
  }

  predicate OnEdge(x: int, y: int, dimx: int, dimy: int)
  {
    x == 0 || y == 0 || x == dimx - 1 || y == dimy - 1
  }

  /** (a, b) is one of the eight cells around (x, y). */
  predicate Adjacent(a: int, b: int, x: int, y: int)
  {
    -1 <= a - x <= 1 && -1 <= b - y <= 1 && (a != x || b != y)
  }

  function SurfaceAt(g: Grid, t: Terrain, x: int, y: int): real
    requires Matches(g, t) && 0 <= x < t.dimx && 0 <= y < t.dimy
  {
    Surface(g[x][y], t.height[x][y])
  }

  /** Neighbour number k, in the order NW, N, NE, W, E, SW, S, SE. */
  function Neighbour(x: int, y: int, k: int): (n: (int, int))
    requires 0 <= k < 8
    ensures Adjacent(n.0, n.1, x, y)
  {
    match k
    case 0 => (x - 1, y - 1)
    case 1 => (x, y - 1)
    case 2 => (x + 1, y - 1)
    case 3 => (x - 1, y)
    case 4 => (x + 1, y)
    case 5 => (x - 1, y + 1)
    case 6 => (x, y + 1)
    case _ => (x + 1, y + 1)
  }

  /** Distinct neighbour numbers name distinct cells. */
  lemma NeighbourInjective(x: int, y: int, k: int, l: int)
    requires 0 <= k < 8 && 0 <= l < 8 && k != l
    ensures Neighbour(x, y, k) != Neighbour(x, y, l)
  {
  }

  /** The surfaces around an interior cell, in neighbour order. */
  function SurfAround(g: Grid, t: Terrain, x: int, y: int): (s: seq<real>)
    requires Matches(g, t) && Interior(x, y, t.dimx, t.dimy)
    ensures |s| == 8
  {
    [ SurfaceAt(g, t, x - 1, y - 1),
      SurfaceAt(g, t, x, y - 1),
      SurfaceAt(g, t, x + 1, y - 1),
      SurfaceAt(g, t, x - 1, y),
      SurfaceAt(g, t, x + 1, y),
      SurfaceAt(g, t, x - 1, y + 1),
      SurfaceAt(g, t, x, y + 1),
      SurfaceAt(g, t, x + 1, y + 1) ]
  }

  /** Entry k of the surroundings is the surface of neighbour number k. */
  lemma SurfAroundNeighbours(g: Grid, t: Terrain, x: int, y: int)
    requires Matches(g, t) && Interior(x, y, t.dimx, t.dimy)
    ensures forall k :: 0 <= k < 8 ==>
      SurfAround(g, t, x, y)[k] == SurfaceAt(g, t, Neighbour(x, y, k).0, Neighbour(x, y, k).1)
  {
  }

  /* ---------------- the neighbour scan ---------------- */

  /** What the scan holds after looking at entries 1 .. n-1 of `surf`: the
      index of the first strict minimum among those entries below Ceiling, or
      0 when there is none. Entry 0 (NW) is never looked at. */
  ghost predicate IsLowest(surf: seq<real>, n: nat, k: nat)
    requires 1 <= n <= |surf|
  {
    if k == 0 then
      forall i :: 1 <= i < n ==> surf[i] >= Ceiling
    else
      && k < n
      && surf[k] < Ceiling
      && (forall i :: 1 <= i < k ==> surf[k] < surf[i])
      && (forall i :: k < i < n ==> surf[k] <= surf[i])
  }

  /** The running minimum that goes with scan result k. */
  function ScanMin(surf: seq<real>, k: nat): real
    requires k < |surf|
  {
    if k == 0 then Ceiling else surf[k]
  }

  /** The scan over entries 1 .. n-1. */
  function LowestUpTo(surf: seq<real>, n: nat): (k: nat)
    requires 1 <= n <= |surf|
    ensures k < n
    ensures IsLowest(surf, n, k)
  {
    if n == 1 then 0
    else
      var k := LowestUpTo(surf, n - 1);
      if surf[n - 1] < ScanMin(surf, k) then n - 1 else k
  }

  /** The neighbour the scan picks out of the eight surfaces. */
  function Lowest(surf: seq<real>): (k: nat)
    requires |surf| == 8
    ensures k < 8 && IsLowest(surf, 8, k)
  {
    LowestUpTo(surf, 8)
  }

  /** The scan's outcome is fully determined by its description. */
  lemma IsLowestUnique(surf: seq<real>, n: nat, k1: nat, k2: nat)
    requires 1 <= n <= |surf|
    requires IsLowest(surf, n, k1) && IsLowest(surf, n, k2)
    ensures k1 == k2
  {
  }

  /** NW becomes the candidate exactly when no other neighbour lies below the
      ceiling, whatever NW's own surface is. */
  lemma NorthWestOnlyByDefault(surf: seq<real>)
    requires |surf| == 8
    ensures Lowest(surf) == 0 <==> forall i :: 1 <= i < 8 ==> surf[i] >= Ceiling
  {
  }

  /** A case that shows NW is never compared: it is strictly the lowest and
      still not chosen. */
  lemma NorthWestPassedOver()
    ensures Lowest([0.0, 1.0, 1.0, 1.0, 1.0, 1.0, 1.0, 1.0]) == 1
  {
    var surf := [0.0, 1.0, 1.0, 1.0, 1.0, 1.0, 1.0, 1.0];
    assert IsLowest(surf, 8, 1);
    IsLowestUnique(surf, 8, Lowest(surf), 1);
  }

  /** NW is never compared: changing its surface never changes the scan's
      result. */
  lemma NorthWestIgnored(surf: seq<real>, v: real)
    requires |surf| == 8
    ensures Lowest(surf[0 := v]) == Lowest(surf)
  {
    var s := surf[0 := v];
    assert forall i :: 1 <= i < 8 ==> s[i] == surf[i];
    assert IsLowest(s, 8, Lowest(surf));
    IsLowestUnique(s, 8, Lowest(s), Lowest(surf));
  }

  /** The scan loop: `minValue` and `idxLowArnd` start at Ceiling and 0, and
      an entry replaces them only when strictly below the running minimum. */
  method LowestAround(surfAround: seq<real>) returns (idxLowArnd: nat)
    requires |surfAround| == 8
    ensures idxLowArnd < 8
    ensures IsLowest(surfAround, 8, idxLowArnd)
    ensures idxLowArnd == Lowest(surfAround)
  {
    idxLowArnd := 0;
    var minValue := Ceiling;
    for i := 1 to 8
      invariant idxLowArnd == LowestUpTo(surfAround, i)
      invariant minValue == ScanMin(surfAround, idxLowArnd)
    {
      if surfAround[i] < minValue {
        minValue := surfAround[i];
        idxLowArnd := i;
      }
    }
  }

  /* ---------------- one visit ---------------- */

  /** The water lost over the edge when (x, y) is visited. */
  function Drain(g: Grid, t: Terrain, x: int, y: int): (d: int)
    requires Matches(g, t) && 0 <= x < t.dimx && 0 <= y < t.dimy
    ensures d >= 0
    ensures d > 0 <==> g[x][y] > 0 && OnEdge(x, y, t.dimx, t.dimy)
  {
    if g[x][y] > 0 && OnEdge(x, y, t.dimx, t.dimy) then g[x][y] else 0
  }

  /** The flow rule applied to the cell (x, y). */
  function Visit(g: Grid, t: Terrain, x: int, y: int): (r: Grid)
    requires Matches(g, t) && 0 <= x < t.dimx && 0 <= y < t.dimy
    ensures Matches(r, t)
  {
    if g[x][y] > 0 then
      if Interior(x, y, t.dimx, t.dimy) then
        var surf := SurfAround(g, t, x, y);
        var k := Lowest(surf);
        if surf[k] < SurfaceAt(g, t, x, y) then
          var n := Neighbour(x, y, k);
          var g1 := SetCell(g, x, y, g[x][y] - 1);
          SetCell(g1, n.0, n.1, g1[n.0][n.1] + 1)
        else
          g
      else if OnEdge(x, y, t.dimx, t.dimy) then
        SetCell(g, x, y, 0)
      else
        g
    else
      g
  }

  /** A dry cell is skipped. */
  lemma VisitDry(g: Grid, t: Terrain, x: int, y: int)
    requires Matches(g, t) && 0 <= x < t.dimx && 0 <= y < t.dimy
    requires g[x][y] <= 0
    ensures Visit(g, t, x, y) == g
  {
  }

  /** An edge cell holding water is emptied and nothing else changes. */
  lemma VisitDrainsEdge(g: Grid, t: Terrain, x: int, y: int)
    requires Matches(g, t) && 0 <= x < t.dimx && 0 <= y < t.dimy
    requires g[x][y] > 0 && OnEdge(x, y, t.dimx, t.dimy)
    ensures Visit(g, t, x, y)[x][y] == 0
    ensures forall a, b :: 0 <= a < t.dimx && 0 <= b < t.dimy && (a != x || b != y) ==>
      Visit(g, t, x, y)[a][b] == g[a][b]
  {
  }

  /** An interior cell holding water sends a unit to the neighbour the scan
      picks if, and only if, that neighbour's surface is strictly lower. */
  lemma VisitTransfers(g: Grid, t: Terrain, x: int, y: int)
    requires Matches(g, t) && Interior(x, y, t.dimx, t.dimy) && g[x][y] > 0
    ensures var n := Neighbour(x, y, Lowest(SurfAround(g, t, x, y)));
      var r := Visit(g, t, x, y);
      && (r != g <==> SurfaceAt(g, t, n.0, n.1) < SurfaceAt(g, t, x, y))
      && (r != g ==> r[x][y] == g[x][y] - 1 && r[n.0][n.1] == g[n.0][n.1] + 1)
      && (forall a, b :: 0 <= a < t.dimx && 0 <= b < t.dimy && (a, b) != (x, y) && (a, b) != n ==> r[a][b] == g[a][b])
  {
    SurfAroundNeighbours(g, t, x, y);
    var n := Neighbour(x, y, Lowest(SurfAround(g, t, x, y)));
    var r := Visit(g, t, x, y);
    if SurfaceAt(g, t, n.0, n.1) < SurfaceAt(g, t, x, y) {
      assert r[x][y] == g[x][y] - 1;
    }
  }

  /** Water only goes downhill: a cell other than the visited one that changes
      is one of its eight neighbours, its surface was strictly lower, it gains
      exactly one unit and the visited cell loses exactly one. */
  lemma VisitStrictDescent(g: Grid, t: Terrain, x: int, y: int, a: int, b: int)
    requires Matches(g, t) && 0 <= x < t.dimx && 0 <= y < t.dimy
    requires 0 <= a < t.dimx && 0 <= b < t.dimy && (a != x || b != y)
    requires Visit(g, t, x, y)[a][b] != g[a][b]
    ensures Adjacent(a, b, x, y)
    ensures SurfaceAt(g, t, a, b) < SurfaceAt(g, t, x, y)
    ensures Visit(g, t, x, y)[a][b] == g[a][b] + 1
    ensures Visit(g, t, x, y)[x][y] == g[x][y] - 1
  {
    if Interior(x, y, t.dimx, t.dimy) {
      SurfAroundNeighbours(g, t, x, y);
    }
  }

  /** Every unit that leaves the grid leaves through a drained edge cell. */
  lemma VisitTotal(g: Grid, t: Terrain, x: int, y: int)
    requires Matches(g, t) && 0 <= x < t.dimx && 0 <= y < t.dimy
    ensures Total(Visit(g, t, x, y)) == Total(g) - Drain(g, t, x, y)
  {
    if g[x][y] > 0 {
      if Interior(x, y, t.dimx, t.dimy) {
        var surf := SurfAround(g, t, x, y);
        var k := Lowest(surf);
        if surf[k] < SurfaceAt(g, t, x, y) {
          var n := Neighbour(x, y, k);
          var g1 := SetCell(g, x, y, g[x][y] - 1);
          assert Visit(g, t, x, y) == SetCell(g1, n.0, n.1, g1[n.0][n.1] + 1);
          TotalSetCell(g, x, y, g[x][y] - 1);
          TotalSetCell(g1, n.0, n.1, g1[n.0][n.1] + 1);
          assert g1[n.0][n.1] == g[n.0][n.1];
        }
      } else {
        assert Visit(g, t, x, y) == SetCell(g, x, y, 0);
        TotalSetCell(g, x, y, 0);
      }
    }
  }

  /** A visit never makes a depth negative. */
  lemma VisitNonNegative(g: Grid, t: Terrain, x: int, y: int)
    requires Matches(g, t) && 0 <= x < t.dimx && 0 <= y < t.dimy
    requires NonNegative(g)
    ensures NonNegative(Visit(g, t, x, y))
  {
  }

  /* ---------------- a slice of the traversal order ---------------- */

  /** Every entry of `p` is a linear index of an n-cell grid. */
  ghost predicate InRange(p: seq<int>, n: int)
  {
    forall i :: 0 <= i < |p| ==> 0 <= p[i] < n
  }

  /** The cell at position i of the traversal order. */
  function CellAt(t: Terrain, p: seq<int>, i: int): (c: (int, int))
    requires InRange(p, t.dimx * t.dimy) && 0 <= i < |p|
    ensures 0 <= c.0 < t.dimx && 0 <= c.1 < t.dimy
  {
    Locate(p[i], t.dimx, t.dimy)
  }

  /** The grid after visiting positions start .. end-1 of `p` in increasing
      order, each visit applied to the result of the previous ones. */
  function FlowRange(g: Grid, t: Terrain, p: seq<int>, start: int, end: int): (r: Grid)
    requires Matches(g, t) && InRange(p, t.dimx * t.dimy)
    requires 0 <= start && end <= |p|
    ensures Matches(r, t)
    decreases end
  {
    if end <= start then g
    else
      var c := CellAt(t, p, end - 1);
      Visit(FlowRange(g, t, p, start, end - 1), t, c.0, c.1)
  }

  /** The water drained while visiting positions start .. end-1. */
  function Drained(g: Grid, t: Terrain, p: seq<int>, start: int, end: int): (d: int)
    requires Matches(g, t) && InRange(p, t.dimx * t.dimy)
    requires 0 <= start && end <= |p|
    ensures d >= 0
    decreases end
  {
    if end <= start then 0
    else
      var c := CellAt(t, p, end - 1);
      Drained(g, t, p, start, end - 1) + Drain(FlowRange(g, t, p, start, end - 1), t, c.0, c.1)
  }

  /** Over a slice, the total falls by exactly what was drained at the edge. */
  lemma {:induction false} FlowRangeTotal(g: Grid, t: Terrain, p: seq<int>, start: int, end: int)
    requires Matches(g, t) && InRange(p, t.dimx * t.dimy)
    requires 0 <= start && end <= |p|
    ensures Total(FlowRange(g, t, p, start, end)) == Total(g) - Drained(g, t, p, start, end)
    decreases end
  {
    if start < end {
      var c := CellAt(t, p, end - 1);
      var before := FlowRange(g, t, p, start, end - 1);
      assert FlowRange(g, t, p, start, end) == Visit(before, t, c.0, c.1);
      assert Drained(g, t, p, start, end) == Drained(g, t, p, start, end - 1) + Drain(before, t, c.0, c.1);
      FlowRangeTotal(g, t, p, start, end - 1);
      VisitTotal(before, t, c.0, c.1);
    }
  }

  /** Depths stay non-negative over a slice. */
  lemma {:induction false} FlowRangeNonNegative(g: Grid, t: Terrain, p: seq<int>, start: int, end: int)
    requires Matches(g, t) && InRange(p, t.dimx * t.dimy)
    requires 0 <= start && end <= |p|
    requires NonNegative(g)
    ensures NonNegative(FlowRange(g, t, p, start, end))
    decreases end
  {
    if start < end {
      var c := CellAt(t, p, end - 1);
      FlowRangeNonNegative(g, t, p, start, end - 1);
      VisitNonNegative(FlowRange(g, t, p, start, end - 1), t, c.0, c.1);
    }
  }

  /** A dry grid stays dry. */
  lemma {:induction false} FlowRangeStill(g: Grid, t: Terrain, p: seq<int>, start: int, end: int)
    requires Matches(g, t) && InRange(p, t.dimx * t.dimy)
    requires 0 <= start && end <= |p|
    requires AllZero(g)
    ensures FlowRange(g, t, p, start, end) == g
    decreases end
  {
    if start < end {
      var c := CellAt(t, p, end - 1);
      FlowRangeStill(g, t, p, start, end - 1);
      VisitDry(g, t, c.0, c.1);
    }
  }

  /** Running two adjacent slices one after the other is running their union. */
  lemma {:induction false} FlowRangeSplit(g: Grid, t: Terrain, p: seq<int>, a: int, b: int, c: int)
    requires Matches(g, t) && InRange(p, t.dimx * t.dimy)
    requires 0 <= a <= b <= c <= |p|
    ensures FlowRange(FlowRange(g, t, p, a, b), t, p, b, c) == FlowRange(g, t, p, a, c)
    decreases c
  {
    if b < c {
      FlowRangeSplit(g, t, p, a, b, c - 1);
    }
  }

  /** Over a slice, no more water can drain than the grid held at its start. */
  lemma FlowRangeDrainBounded(g: Grid, t: Terrain, p: seq<int>, start: int, end: int)
    requires Matches(g, t) && InRange(p, t.dimx * t.dimy)
    requires 0 <= start && end <= |p|
    requires NonNegative(g)
    ensures 0 <= Drained(g, t, p, start, end) <= Total(g)
  {
    FlowRangeTotal(g, t, p, start, end);
    FlowRangeNonNegative(g, t, p, start, end);
    TotalNonNegative(FlowRange(g, t, p, start, end));
  }

  /* ---------------- the four shards ---------------- */

  /** The slice of the traversal order that worker `q` visits. */
  function Shard(dim: int, q: int): (s: (int, int))
    ensures s.1 - s.0 == dim / 4
  {
    var limit := dim / 4;
    (limit * q, limit * (q + 1))
  }

  predicate InShard(dim: int, q: int, idx: int)
  {
    Shard(dim, q).0 <= idx < Shard(dim, q).1
  }

  /** The four shards follow on from each other, from 0 to 4 * (dim / 4). */
  lemma ShardsTile(dim: nat, q: int)
    requires 0 <= q < 4
    ensures Shard(dim, 0).0 == 0 && Shard(dim, 3).1 == 4 * (dim / 4)
    ensures 0 <= Shard(dim, q).0 <= Shard(dim, q).1 <= dim
    ensures Shard(dim, q).1 == Shard(dim, q + 1).0
  {
    var limit := dim / 4;
    assert limit * q <= limit * (q + 1) <= limit * 4;
  }

  /** No position is visited by two workers. */
  lemma ShardsDisjoint(dim: nat, q1: int, q2: int, idx: int)
    requires 0 <= q1 < q2 < 4
    ensures !(InShard(dim, q1, idx) && InShard(dim, q2, idx))
  {
    var limit := dim / 4;
    assert limit * (q1 + 1) <= limit * q2;
  }

  /** A position is visited by some worker exactly when it is below
      4 * (dim / 4); the last dim % 4 positions (at most three) are never visited. */
  lemma ShardsCover(dim: nat, idx: int)
    ensures (exists q :: 0 <= q < 4 && InShard(dim, q, idx)) <==> 0 <= idx < 4 * (dim / 4)
    ensures dim - 4 * (dim / 4) == dim % 4 <= 3
  {
    var limit := dim / 4;
    assert Shard(dim, 0) == (0, limit);
    assert Shard(dim, 1) == (limit, 2 * limit);
    assert Shard(dim, 2) == (2 * limit, 3 * limit);
    assert Shard(dim, 3) == (3 * limit, 4 * limit);
    if 0 <= idx < 4 * limit {
      if idx < limit {
        assert InShard(dim, 0, idx);
      } else if idx < 2 * limit {
        assert InShard(dim, 1, idx);
      } else if idx < 3 * limit {
        assert InShard(dim, 2, idx);
      } else {
        assert InShard(dim, 3, idx);
      }
    }
    forall q | 0 <= q < 4 && InShard(dim, q, idx)
      ensures 0 <= idx < 4 * limit
    {
      assert q == 0 || q == 1 || q == 2 || q == 3;
    }
  }

  /* ---------------- the workers ---------------- */

  class FlowThread {
    /** Which quarter of the traversal order this worker visits. */
    const quarter: int
    const land: Terrain
    const rivers: Water

    constructor (qrt: int, terrain: Terrain, water: Water)
      ensures quarter == qrt && land == terrain && rivers == water
    {
      quarter := qrt;
      land := terrain;
      rivers := water;
    }

    /** The terrain and the water grid are well formed and the same size. */
    ghost predicate Ready()
      reads rivers
    {
      && rivers.Valid()
      && land.Valid()
      && land.dimx == rivers.dimx
      && land.dimy == rivers.dimy
    }

    /** Visits this worker's quarter of the traversal order. */
    method Run()
      requires Ready() && 0 <= quarter < 4
      modifies rivers.depth
      ensures rivers.Depths() ==
        FlowRange(old(rivers.Depths()), land, rivers.permute, Shard(rivers.Dim(), quarter).0, Shard(rivers.Dim(), quarter).1)
    {
      var limit := rivers.Dim() / 4;
      var sectionStart := limit * quarter;
      var sectionEnd := limit * (quarter + 1);
      ShardsTile(rivers.Dim(), quarter);
      WaterFlow(sectionStart, sectionEnd);
    }

    /** Visits positions start .. end-1 of the traversal order in increasing
        order, writing every change back to the grid at once. */
    method WaterFlow(start: int, end: int)
      requires Ready()
      requires 0 <= start && end <= rivers.Dim()
      modifies rivers.depth
      ensures rivers.Depths() == FlowRange(old(rivers.Depths()), land, rivers.permute, start, end)
    {
      ghost var g0 := rivers.Depths();
      var idx := start;
      while idx < end
        invariant start <= idx <= Max(start, end)
        invariant Matches(rivers.Depths(), land)
        invariant rivers.Depths() == FlowRange(g0, land, rivers.permute, start, Min(idx, end))
      {
        var loc := rivers.GetPermute(idx);
        FlowAt(loc.0, loc.1);
        assert loc == CellAt(land, rivers.permute, idx);
        assert rivers.Depths() == FlowRange(g0, land, rivers.permute, start, idx + 1);
        idx := idx + 1;
      }
    }

    /** The body of the traversal loop: the flow rule at cell (x, y). */
    method FlowAt(x: int, y: int)
      requires Ready()
      requires 0 <= x < rivers.dimx && 0 <= y < rivers.dimy
      modifies rivers.depth
      ensures rivers.Depths() == Visit(old(rivers.Depths()), land, x, y)
    {
      if rivers.GetDepth(x, y) > 0 {
        if x > 0 && y > 0 && x < rivers.dimx - 1 && y < rivers.dimy - 1 {
          FlowDownhill(x, y);
        } else if x == 0 || y == 0 || x == rivers.dimx - 1 || y == rivers.dimy - 1 {
          rivers.SetDepth(x, y, 0);
        }
      }
    }

    /** The flow rule at an interior cell holding water: one unit moves to the
        neighbour the scan picks, if that neighbour's surface is strictly lower. */
    method FlowDownhill(x: int, y: int)
      requires Ready()
      requires Interior(x, y, rivers.dimx, rivers.dimy) && rivers.depth[x, y] > 0
      modifies rivers.depth
      ensures rivers.Depths() == Visit(old(rivers.Depths()), land, x, y)
    {
      var surfCurr, surfAround := Surroundings(x, y);
      var idxLowArnd := LowestAround(surfAround);
      if surfAround[idxLowArnd] < surfCurr {
        var lowest := Neighbour(x, y, idxLowArnd);
        MoveUnit(x, y, lowest.0, lowest.1);
      }
    }

    /** The water surface at interior cell (x, y) and at its eight neighbours. */
    method Surroundings(x: int, y: int) returns (surfCurr: real, surfAround: seq<real>)
      requires Ready()
      requires Interior(x, y, rivers.dimx, rivers.dimy)
      ensures surfCurr == SurfaceAt(rivers.Depths(), land, x, y)
      ensures surfAround == SurfAround(rivers.Depths(), land, x, y)
    {
      surfCurr := Surface(rivers.GetDepth(x, y), land.GetHeight(x, y));
      surfAround := [
        Surface(rivers.GetDepth(x - 1, y - 1), land.GetHeight(x - 1, y - 1)),
        Surface(rivers.GetDepth(x, y - 1), land.GetHeight(x, y - 1)),
        Surface(rivers.GetDepth(x + 1, y - 1), land.GetHeight(x + 1, y - 1)),
        Surface(rivers.GetDepth(x - 1, y), land.GetHeight(x - 1, y)),
        Surface(rivers.GetDepth(x + 1, y), land.GetHeight(x + 1, y)),
        Surface(rivers.GetDepth(x - 1, y + 1), land.GetHeight(x - 1, y + 1)),
        Surface(rivers.GetDepth(x, y + 1), land.GetHeight(x, y + 1)),
        Surface(rivers.GetDepth(x + 1, y + 1), land.GetHeight(x + 1, y + 1))];
    }

    /** Takes one unit from (x, y) and adds one unit at (a, b). */
    method MoveUnit(x: int, y: int, a: int, b: int)
      requires Ready()
      requires 0 <= x < rivers.dimx && 0 <= y < rivers.dimy
      requires 0 <= a < rivers.dimx && 0 <= b < rivers.dimy
      modifies rivers.depth
      ensures var g1 := SetCell(old(rivers.Depths()), x, y, old(rivers.Depths())[x][y] - 1);
        rivers.Depths() == SetCell(g1, a, b, g1[a][b] + 1)
    {
      rivers.SetDepth(x, y, rivers.GetDepth(x, y) - 1);
      rivers.SetDepth(a, b, rivers.GetDepth(a, b) + 1);
    }
  }

  /** One generation as the four workers running one after another, which is
      one of the interleavings the concurrent threads can produce. Positions
      from 4 * (Dim() / 4) on are not visited. */
  method Generation(land: Terrain, rivers: Water)
    requires rivers.Valid() && land.Valid()
    requires land.dimx == rivers.dimx && land.dimy == rivers.dimy
    modifies rivers.depth
    ensures rivers.Depths() == FlowRange(old(rivers.Depths()), land, rivers.permute, 0, 4 * (rivers.Dim() / 4))
  {
    ghost var g0 := rivers.Depths();
    ghost var p := rivers.permute;
    ghost var dim := rivers.Dim();
    assert InRange(p, land.dimx * land.dimy);
    ShardsTile(dim, 0);
    for q := 0 to 4
      invariant 0 <= Shard(dim, q).0 <= dim
      invariant rivers.Depths() == FlowRange(g0, land, p, 0, Shard(dim, q).0)
    {
      ghost var s := Shard(dim, q);
      ShardsTile(dim, q);
      var worker := new FlowThread(q, land, rivers);
      worker.Run();
      assert rivers.Depths() == FlowRange(FlowRange(g0, land, p, 0, s.0), land, p, s.0, s.1);
      FlowRangeSplit(g0, land, p, 0, s.0, s.1);
      assert s.1 == Shard(dim, q + 1).0;
    }
    assert Shard(dim, 4).0 == 4 * (dim / 4);
  }
}
