/** The water on the terrain: a mutable `dimx` x `dimy` grid of integer depth
    units, plus the random traversal order (a permutation of the linear cell
    indices) that the flow simulation walks through. */
module WaterModel {
  import opened TerrainModel

  /** A value snapshot of a depth grid, indexed `g[x][y]`. */
  type Grid = seq<seq<int>>

  /** The grid `g` with the single cell (x, y) replaced by `d`. */
  function SetCell(g: Grid, x: int, y: int, d: int): (r: Grid)
    requires 0 <= x < |g| && 0 <= y < |g[x]|
    ensures |r| == |g| && forall a :: 0 <= a < |g| ==> |r[a]| == |g[a]|
    ensures r[x][y] == d
    ensures forall a, b :: 0 <= a < |g| && 0 <= b < |g[a]| && (a != x || b != y) ==> r[a][b] == g[a][b]
  {
    g[x := g[x][y := d]]
  }

  /** Two grids of the same shape that agree on every cell are equal. */
  lemma GridExt(a: Grid, b: Grid)
    requires |a| == |b| && forall x :: 0 <= x < |a| ==> |a[x]| == |b[x]|
    requires forall x, y :: 0 <= x < |a| && 0 <= y < |a[x]| ==> a[x][y] == b[x][y]
    ensures a == b
  {
    forall x | 0 <= x < |a|
      ensures a[x] == b[x]
    {
      assert forall y :: 0 <= y < |a[x]| ==> a[x][y] == b[x][y];
    }
  }

  ghost predicate NonNegative(g: Grid)
  {
    forall x, y :: 0 <= x < |g| && 0 <= y < |g[x]| ==> g[x][y] >= 0
  }

  ghost predicate AllZero(g: Grid)
  {
    forall x, y :: 0 <= x < |g| && 0 <= y < |g[x]| ==> g[x][y] == 0
  }

  /** Sum of one column of depths. */
  function Sum(r: seq<int>): int
  {
    if r == [] then 0 else r[0] + Sum(r[1..])
  }

  /** Total amount of water on the grid. */
  function Total(g: Grid): int
  {
    if g == [] then 0 else Sum(g[0]) + Total(g[1..])
  }

  /** Overwriting one entry changes the sum by the difference. */
  lemma {:induction false} SumUpdate(r: seq<int>, y: int, d: int)
    requires 0 <= y < |r|
    ensures Sum(r[y := d]) == Sum(r) - r[y] + d
  {
    if y > 0 {
      assert r[y := d][1..] == r[1..][y - 1 := d];
      SumUpdate(r[1..], y - 1, d);
    } else {
      assert r[y := d][1..] == r[1..];
    }
  }

  /** Overwriting one cell changes the total by the difference: the basis of
      every conservation argument about the flow rule. */
  lemma {:induction false} TotalSetCell(g: Grid, x: int, y: int, d: int)
    requires 0 <= x < |g| && 0 <= y < |g[x]|
    ensures Total(SetCell(g, x, y, d)) == Total(g) - g[x][y] + d
  {
    var r := SetCell(g, x, y, d);
    if x > 0 {
      assert r[1..] == SetCell(g[1..], x - 1, y, d);
      TotalSetCell(g[1..], x - 1, y, d);
    } else {
      assert r[1..] == g[1..];
      SumUpdate(g[0], y, d);
    }
  }

  lemma {:induction false} TotalNonNegative(g: Grid)
    requires NonNegative(g)
    ensures Total(g) >= 0
  {
    if g != [] {
      SumNonNegative(g[0]);
      assert NonNegative(g[1..]) by {
        forall x, y | 0 <= x < |g[1..]| && 0 <= y < |g[1..][x]| ensures g[1..][x][y] >= 0 {
          assert g[1..][x] == g[x + 1];
        }
      }
      TotalNonNegative(g[1..]);
    }
  }

  lemma {:induction false} SumNonNegative(r: seq<int>)
    requires forall y :: 0 <= y < |r| ==> r[y] >= 0
    ensures Sum(r) >= 0
  {
    if r != [] {
      SumNonNegative(r[1..]);
    }
  }

  /* ---------------- linear positions ---------------- */

  /** Converts a linear position into the cell (x, y), x = pos / dimy and
      y = pos % dimy; both operands are non-negative here, so Java's
      truncating division agrees with Dafny's. */
  function Locate(pos: int, dimx: nat, dimy: nat): (loc: (int, int))
    requires 0 <= pos < dimx * dimy
    ensures 0 <= loc.0 < dimx && 0 <= loc.1 < dimy
    ensures loc.0 * dimy + loc.1 == pos
  {
    assert dimy > 0;
    var x := pos / dimy;
    assert x < dimx by {
      assert x * dimy <= pos;
      if x >= dimx {
        MulAtLeast(x - dimx + 1, dimy);
        assert false;
      }
    }
    (x, pos % dimy)
  }

  /** Every in-bounds cell is the location of exactly one linear position. */
  lemma LocateRoundTrip(x: int, y: int, dimx: nat, dimy: nat)
    requires 0 <= x < dimx && 0 <= y < dimy
    ensures 0 <= x * dimy + y < dimx * dimy
    ensures Locate(x * dimy + y, dimx, dimy) == (x, y)
  {
    MulLe(0, x, dimy);
    MulLe(x + 1, dimx, dimy);
    assert (x + 1) * dimy == x * dimy + dimy;
    var loc := Locate(x * dimy + y, dimx, dimy);
    LinearUnique(loc.0, loc.1, x, y, dimy);
  }

  lemma {:induction false} MulLe(a: int, b: int, n: nat)
    requires a <= b
    ensures a * n <= b * n
    decreases b - a
  {
    if a < b {
      MulLe(a, b - 1, n);
      assert b * n == (b - 1) * n + n;
    }
  }

  /** The decomposition x * dimy + y with 0 <= y < dimy is unique. */
  lemma LinearUnique(x1: int, y1: int, x2: int, y2: int, dimy: nat)
    requires 0 <= x1 && 0 <= x2
    requires 0 <= y1 < dimy && 0 <= y2 < dimy
    requires x1 * dimy + y1 == x2 * dimy + y2
    ensures x1 == x2 && y1 == y2
  {
    var k := x1 - x2;
    assert k * dimy == y2 - y1 by {
      assert x1 * dimy - x2 * dimy == k * dimy;
    }
    if k >= 1 {
      MulAtLeast(k, dimy);
    } else if k <= -1 {
      MulAtLeast(-k, dimy);
    }
  }

  lemma {:induction false} MulAtLeast(k: int, n: nat)
    requires k >= 1
    ensures k * n >= n
  {
    if k > 1 {
      MulAtLeast(k - 1, n);
      assert k * n == (k - 1) * n + n;
    }
  }

  lemma LocateInjective(p: int, q: int, dimx: nat, dimy: nat)
    requires 0 <= p < dimx * dimy && 0 <= q < dimx * dimy
    requires p != q
    ensures Locate(p, dimx, dimy) != Locate(q, dimx, dimy)
  {
  }

  /* ---------------- the traversal order ---------------- */

  /** The list 0, 1, ..., n-1. */
  function Range(n: nat): (r: seq<int>)
  {
    seq(n, i => i)
  }

  /** `p` lists every linear index of an n-cell grid exactly once. */
  ghost predicate IsPermutation(p: seq<int>, n: nat)
  {
    && |p| == n
    && (forall i :: 0 <= i < n ==> 0 <= p[i] < n)
    && (forall i, j :: 0 <= i < j < n ==> p[i] != p[j])
    && (forall v :: 0 <= v < n ==> v in p)
  }

  /** A random rearrangement of `s`. Each swap partner is chosen
      nondeterministically, so what is proved holds for every outcome of the
      random number generator: the result is a reordering of `s`. */
  method Shuffle(s: seq<int>) returns (r: seq<int>)
    ensures |r| == |s|
    ensures multiset(r) == multiset(s)
  {
    r := s;
    var i := |r|;
    while i > 1
      invariant 0 <= i <= |r| == |s|
      invariant multiset(r) == multiset(s)
    {
      var j :| 0 <= j < i;
      r := r[i - 1 := r[j]][j := r[i - 1]];
      i := i - 1;
    }
  }

  lemma {:induction false} RangeCount(n: nat, v: int)
    ensures multiset(Range(n))[v] <= 1
    ensures multiset(Range(n))[v] == 1 <==> 0 <= v < n
  {
    if n > 0 {
      assert Range(n) == Range(n - 1) + [n - 1];
      RangeCount(n - 1, v);
    }
  }

  /** Any reordering of 0 .. n-1 is a bijection onto 0 .. n-1. */
  lemma RangeShuffled(p: seq<int>, n: nat)
    requires multiset(p) == multiset(Range(n))
    ensures IsPermutation(p, n)
  {
    assert |p| == n by {
      calc {
        |p|;
        |multiset(p)|;
        |multiset(Range(n))|;
        |Range(n)|;
      }
    }
    forall i | 0 <= i < n
      ensures 0 <= p[i] < n
    {
      assert p[i] in multiset(p);
      RangeCount(n, p[i]);
    }
    forall i, j | 0 <= i < j < n
      ensures p[i] != p[j]
    {
      if p[i] == p[j] {
        assert p == p[..j] + p[j..];
        assert multiset(p) == multiset(p[..j]) + multiset(p[j..]);
        assert p[i] in multiset(p[..j]);
        assert p[j] in multiset(p[j..]);
        RangeCount(n, p[i]);
        assert false;
      }
    }
    forall v | 0 <= v < n
      ensures v in p
    {
      RangeCount(n, v);
      assert v in multiset(p);
    }
  }

  /* ---------------- water sources ---------------- */

  /** `k` lies in the seven-wide window [c-3, c+3] around `c`. */
  predicate InWindow(c: int, k: int)
  {
    c - 3 <= k < c + 4
  }

  /** The grid after a source at (x, y): three units more on every cell of the
      7 x 7 window around (x, y) that lies on the grid. */
  function Sourced(g: Grid, x: int, y: int): (r: Grid)
    ensures |r| == |g| && forall i :: 0 <= i < |g| ==> |r[i]| == |g[i]|
  {
    seq(|g|, i requires 0 <= i < |g| =>
      seq(|g[i]|, j requires 0 <= j < |g[i]| =>
        g[i][j] + (if InWindow(x, i) && InWindow(y, j) then 3 else 0)))
  }

  function Min(a: int, b: int): int { if a <= b then a else b }
  function Max(a: int, b: int): int { if a <= b then b else a }

  /** Number of k with lo <= k < hi and 0 <= k < n. */
  function Count(lo: int, hi: int, n: int): (c: nat)
  {
    Max(0, Min(hi, n) - Max(lo, 0))
  }

  /** Number of cells of the 7 x 7 window around (x, y) that lie on the grid. */
  function WindowCells(x: int, y: int, dimx: nat, dimy: nat): nat
  {
    Count(x - 3, x + 4, dimx) * Count(y - 3, y + 4, dimy)
  }

  /** Counting over 0 .. n-1 is counting position 0, then the rest shifted by one. */
  lemma CountStep(lo: int, hi: int, n: int)
    requires n >= 1
    ensures Count(lo, hi, n) == (if lo <= 0 < hi then 1 else 0) + Count(lo - 1, hi - 1, n - 1)
  {
  }

  /** Adding 3 on the entries lo <= j < hi adds 3 per such entry. */
  lemma {:induction false} SumAddBand(r: seq<int>, s: seq<int>, lo: int, hi: int)
    requires |s| == |r|
    requires forall j :: 0 <= j < |r| ==> s[j] == r[j] + (if lo <= j < hi then 3 else 0)
    ensures Sum(s) == Sum(r) + 3 * Count(lo, hi, |r|)
  {
    if r != [] {
      SumAddBand(r[1..], s[1..], lo - 1, hi - 1);
      CountStep(lo, hi, |r|);
    }
  }

  /** `h` is `g` with 3 added on the cells of [lox, hix) x [loy, hiy). */
  ghost predicate AddedRect(g: Grid, h: Grid, cols: nat, lox: int, hix: int, loy: int, hiy: int)
  {
    && |h| == |g|
    && (forall i :: 0 <= i < |g| ==> |g[i]| == cols && |h[i]| == cols)
    && (forall i, j :: 0 <= i < |g| && 0 <= j < cols ==>
          h[i][j] == g[i][j] + (if lox <= i < hix && loy <= j < hiy then 3 else 0))
  }

  lemma AddedRectHead(g: Grid, h: Grid, cols: nat, lox: int, hix: int, loy: int, hiy: int)
    requires AddedRect(g, h, cols, lox, hix, loy, hiy) && g != []
    ensures Sum(h[0]) == Sum(g[0]) + (if lox <= 0 < hix then 3 * Count(loy, hiy, cols) else 0)
  {
    assert |g[0]| == cols && |h[0]| == cols;
    if lox <= 0 < hix {
      forall j | 0 <= j < cols
        ensures h[0][j] == g[0][j] + (if loy <= j < hiy then 3 else 0)
      {
      }
      SumAddBand(g[0], h[0], loy, hiy);
    } else {
      forall j | 0 <= j < cols
        ensures h[0][j] == g[0][j] + (if 0 <= j < 0 then 3 else 0)
      {
      }
      SumAddBand(g[0], h[0], 0, 0);
    }
  }

  lemma AddedRectTail(g: Grid, h: Grid, cols: nat, lox: int, hix: int, loy: int, hiy: int)
    requires AddedRect(g, h, cols, lox, hix, loy, hiy) && g != []
    ensures AddedRect(g[1..], h[1..], cols, lox - 1, hix - 1, loy, hiy)
  {
    forall i, j | 0 <= i < |g| - 1 && 0 <= j < cols
      ensures h[1..][i][j] == g[1..][i][j] + (if lox - 1 <= i < hix - 1 && loy <= j < hiy then 3 else 0)
    {
      assert h[1..][i] == h[i + 1] && g[1..][i] == g[i + 1];
    }
  }

  lemma Distribute(one: int, cx: int, cy: int)
    ensures 3 * ((one + cx) * cy) == 3 * (one * cy) + 3 * (cx * cy)
  {
  }

  /** Adding 3 on the rectangle [lox, hix) x [loy, hiy) adds 3 per cell of it
      that lies on a grid with `cols` columns. */
  lemma {:induction false} TotalAddRect(g: Grid, h: Grid, cols: nat, lox: int, hix: int, loy: int, hiy: int)
    requires AddedRect(g, h, cols, lox, hix, loy, hiy)
    ensures Total(h) == Total(g) + 3 * (Count(lox, hix, |g|) * Count(loy, hiy, cols))
  {
    if g != [] {
      var one := if lox <= 0 < hix then 1 else 0;
      var cx := Count(lox - 1, hix - 1, |g| - 1);
      var cy := Count(loy, hiy, cols);
      AddedRectHead(g, h, cols, lox, hix, loy, hiy);
      AddedRectTail(g, h, cols, lox, hix, loy, hiy);
      TotalAddRect(g[1..], h[1..], cols, lox - 1, hix - 1, loy, hiy);
      CountStep(lox, hix, |g|);
      Distribute(one, cx, cy);
      assert Sum(h[0]) == Sum(g[0]) + 3 * (one * cy);
    }
  }

  /** A source raises the total by exactly 3 per window cell on the grid. */
  lemma SourcedTotal(g: Grid, x: int, y: int, dimx: nat, dimy: nat)
    requires IsShape(g, dimx, dimy)
    ensures Total(Sourced(g, x, y)) == Total(g) + 3 * WindowCells(x, y, dimx, dimy)
  {
    SourcedIsAddedRect(g, x, y, dimx, dimy);
    TotalAddRect(g, Sourced(g, x, y), dimy, x - 3, x + 4, y - 3, y + 4);
  }

  lemma SourcedIsAddedRect(g: Grid, x: int, y: int, dimx: nat, dimy: nat)
    requires IsShape(g, dimx, dimy)
    ensures AddedRect(g, Sourced(g, x, y), dimy, x - 3, x + 4, y - 3, y + 4)
  {
    var h := Sourced(g, x, y);
    forall i, j | 0 <= i < |g| && 0 <= j < dimy
      ensures h[i][j] == g[i][j] + (if x - 3 <= i < x + 4 && y - 3 <= j < y + 4 then 3 else 0)
    {
      assert h[i][j] == g[i][j] + (if InWindow(x, i) && InWindow(y, j) then 3 else 0);
    }
  }

  /** A source never removes water: a grid without negative depths stays so. */
  lemma SourcedNonNegative(g: Grid, x: int, y: int)
    requires NonNegative(g)
    ensures NonNegative(Sourced(g, x, y))
  {
  }

  /* ---------------- the mutable water grid ---------------- */

  class Water {
    const dimx: nat
    const dimy: nat
    /** depth[x, y] is the number of water units on cell (x, y). */
    const depth: array2<int>
    /** The traversal order: a permutation of the linear indices. */
    var permute: seq<int>

    ghost predicate Shaped()
    {
      depth.Length0 == dimx && depth.Length1 == dimy
    }

    ghost predicate Valid()
      reads this
    {
      Shaped() && IsPermutation(permute, dimx * dimy)
    }

    /** Number of cells; it is also the length of the traversal order. */
    function Dim(): (n: nat)
      reads this
      ensures Valid() ==> n == |permute| && n == depth.Length0 * depth.Length1
    {
      dimx * dimy
    }

    /** The depths as a value, indexed [x][y]. */
    ghost function Depths(): (g: Grid)
      reads depth
      ensures IsShape(g, depth.Length0, depth.Length1)
      ensures forall x, y :: 0 <= x < depth.Length0 && 0 <= y < depth.Length1 ==> g[x][y] == depth[x, y]
    {
      seq(depth.Length0, x requires 0 <= x < depth.Length0 reads depth =>
        seq(depth.Length1, y requires 0 <= y < depth.Length1 reads depth => depth[x, y]))
    }

    function GetDepth(x: int, y: int): (d: int)
      reads depth
      requires 0 <= x < depth.Length0 && 0 <= y < depth.Length1
      ensures d == Depths()[x][y]
    {
      depth[x, y]
    }

    method SetDepth(x: int, y: int, d: int)
      requires 0 <= x < depth.Length0 && 0 <= y < depth.Length1
      modifies depth
      ensures Depths() == SetCell(old(Depths()), x, y, d)
    {
      ghost var before := Depths();
      depth[x, y] := d;
      GridExt(Depths(), SetCell(before, x, y, d));
    }

    constructor (dX: nat, dY: nat)
      ensures dimx == dX && dimy == dY
      ensures fresh(depth)
      ensures Valid()
      ensures AllZero(Depths())
    {
      dimx := dX;
      dimy := dY;
      depth := new int[dX, dY];
      new;
      Reset();
    }

    /** Empties the grid and draws a fresh traversal order. */
    method Reset()
      requires Shaped()
      modifies this, depth
      ensures Valid()
      ensures AllZero(Depths())
    {
      for x := 0 to dimx
        invariant forall a, b :: 0 <= a < x && 0 <= b < dimy ==> depth[a, b] == 0
      {
        for y := 0 to dimy
          invariant forall a, b :: 0 <= a < x && 0 <= b < dimy ==> depth[a, b] == 0
          invariant forall b :: 0 <= b < y ==> depth[x, b] == 0
        {
          depth[x, y] := 0;
        }
      }
      GenPermute();
    }

    /** Lists 0 .. Dim()-1 and shuffles the list. */
    method GenPermute()
      requires Shaped()
      modifies this`permute
      ensures Valid()
    {
      var p: seq<int> := [];
      var idx := 0;
      while idx < Dim()
        invariant 0 <= idx <= Dim()
        invariant p == Range(idx)
      {
        p := p + [idx];
        idx := idx + 1;
      }
      permute := Shuffle(p);
      RangeShuffled(permute, Dim());
    }

    /** The cell at position i of the traversal order. */
    function GetPermute(i: int): (loc: (int, int))
      reads this
      requires Valid() && 0 <= i < Dim()
      ensures 0 <= loc.0 < dimx && 0 <= loc.1 < dimy
      ensures loc.0 * dimy + loc.1 == permute[i]
    {
      Locate(permute[i], dimx, dimy)
    }

    /** Distinct positions of the traversal order name distinct cells. */
    lemma GetPermuteInjective(i: int, j: int)
      requires Valid() && 0 <= i < Dim() && 0 <= j < Dim() && i != j
      ensures GetPermute(i) != GetPermute(j)
    {
      LocateInjective(permute[i], permute[j], dimx, dimy);
    }

    /** Every cell occurs somewhere in the traversal order. */
    lemma GetPermuteOnto(x: int, y: int)
      requires Valid() && 0 <= x < dimx && 0 <= y < dimy
      ensures exists i :: 0 <= i < Dim() && GetPermute(i) == (x, y)
    {
      LocateRoundTrip(x, y, dimx, dimy);
      var v := x * dimy + y;
      assert v in permute;
      var i :| 0 <= i < |permute| && permute[i] == v;
      assert GetPermute(i) == (x, y);
    }

    /** Adds 3 units to every on-grid cell of the 7 x 7 window around (x, y);
        the centre may lie off the grid. */
    method MakeSource(x: int, y: int)
      requires Shaped()
      modifies depth
      ensures Depths() == Sourced(old(Depths()), x, y)
    {
      ghost var before := Depths();
      for i := x - 3 to x + 4
        invariant forall a, b :: 0 <= a < dimx && 0 <= b < dimy ==>
          depth[a, b] == old(depth[a, b]) + (if x - 3 <= a < i && InWindow(y, b) then 3 else 0)
      {
        for j := y - 3 to y + 4
          invariant forall a, b :: 0 <= a < dimx && 0 <= b < dimy ==>
            depth[a, b] == old(depth[a, b]) +
              (if (x - 3 <= a < i && InWindow(y, b)) || (a == i && y - 3 <= b < j) then 3 else 0)
        {
          if i >= 0 && j >= 0 && i <= dimx - 1 && j <= dimy - 1 {
            depth[i, j] := depth[i, j] + 3;
          }
        }
      }
      GridExt(Depths(), Sourced(before, x, y));
    }
  }
}
