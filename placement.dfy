/** The end of both `arrange`s: the windows to show are zipped with the
    spiral tiles of the working area, and each pair becomes one
    `set_window_pos(hwnd, tile)` call. The calls are the output here. */
module Placements {
  import opened Registry
  import opened Arrange

  /** One `set_window_pos(hwnd, tile)` call. */
  datatype Placement = Placement(hwnd: Handle, tile: Tile)

  function Min(a: int, b: int): int
  {
    if a <= b then a else b
  }

  /** `hs.iter().zip(tiles.iter())`: pairs up to the shorter of the two. */
  function Zip(hs: seq<Handle>, tiles: seq<Tile>): (ps: seq<Placement>)
    ensures |ps| == Min(|hs|, |tiles|)
    ensures forall i :: 0 <= i < |ps| ==> ps[i] == Placement(hs[i], tiles[i])
  {
    seq(Min(|hs|, |tiles|), i requires 0 <= i < Min(|hs|, |tiles|) => Placement(hs[i], tiles[i]))
  }

  /** The calls `arrange` makes for the windows `hs` (already filtered) and
      the working area `area`. */
  function Layout(hs: seq<Handle>, area: Tile): (ps: seq<Placement>)
    ensures |ps| == |hs|
    ensures forall i :: 0 <= i < |ps| ==> ps[i].hwnd == hs[i]
  {
    Zip(hs, Spiral(area, |hs|))
  }

  /** The tail of `arrange`: `spiral_subdivide(working_area, n)` and the
      loop over the zipped pairs. */
  method PositionWindows(hs: seq<Handle>, area: Tile) returns (calls: seq<Placement>)
    ensures calls == Layout(hs, area)
  {
    var ds := SpiralSubdivide(area, |hs|);
    calls := [];
    var i := 0;
    while i < |hs| && i < |ds|
      invariant 0 <= i <= |hs| && i <= |ds|
      invariant |calls| == i
      invariant forall k :: 0 <= k < i ==> calls[k] == Placement(hs[k], ds[k])
    {
      calls := calls + [Placement(hs[i], ds[i])];
      i := i + 1;
    }
  }

  /** Every window gets exactly one call, in order, window `k` the `k`-th
      tile. The spiral has one tile even for no window, which the zip drops;
      a lone window gets the whole area. For an area of non-negative size
      the tiles lie inside it and do not overlap. */
  lemma LayoutProperties(hs: seq<Handle>, area: Tile)
    ensures |Layout(hs, area)| == |hs|
    ensures forall k :: 0 <= k < |hs| ==>
      Layout(hs, area)[k] == Placement(hs[k], Spiral(area, |hs|)[k])
    ensures |hs| == 0 ==> Layout(hs, area) == []
    ensures |hs| == 1 ==> Layout(hs, area) == [Placement(hs[0], area)]
    ensures area.2 >= 0 && area.3 >= 0 ==>
      && (forall k :: 0 <= k < |hs| ==> Inside(Layout(hs, area)[k].tile, area))
      && (forall j, k :: 0 <= j < k < |hs| ==> Disjoint(Layout(hs, area)[j].tile, Layout(hs, area)[k].tile))
  {
    if area.2 >= 0 && area.3 >= 0 {
      SpiralTiles(area, |hs|);
    }
  }

  /** A window appended to the list leaves the tiles of all windows but
      the previously last one where they were. */
  lemma LayoutStable(hs: seq<Handle>, h: Handle, area: Tile)
    requires |hs| >= 1
    ensures Layout(hs + [h], area)[..|hs| - 1] == Layout(hs, area)[..|hs| - 1]
  {
    SpiralPrefix(area, |hs|, |hs| + 1);
    var a := Layout(hs + [h], area);
    var b := Layout(hs, area);
    forall k | 0 <= k < |hs| - 1 ensures a[k] == b[k] {
      assert Spiral(area, |hs| + 1)[..|hs| - 1][k] == Spiral(area, |hs|)[..|hs| - 1][k];
    }
  }
}
