/** The height field the water flows over. It is loaded once and never changed
    afterwards, so it is modelled as a value: a `dimx` x `dimy` grid of
    elevations, indexed `height[x][y]`. */
module TerrainModel {

  /** True when `g` has `dimx` rows (x) of `dimy` entries (y) each. */
  ghost predicate IsShape<T>(g: seq<seq<T>>, dimx: nat, dimy: nat)
  {
    |g| == dimx && forall x :: 0 <= x < dimx ==> |g[x]| == dimy
  }

  datatype Terrain = Terrain(dimx: nat, dimy: nat, height: seq<seq<real>>)
  {
    ghost predicate Valid()
    {
      IsShape(height, dimx, dimy)
    }

    /** The elevation at (x, y); the grid is only read inside its bounds. */
    function GetHeight(x: int, y: int): (h: real)
      requires Valid()
      requires 0 <= x < dimx && 0 <= y < dimy
      ensures h == height[x][y]
    {
      height[x][y]
    }
  }
}
