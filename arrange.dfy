/** src/arrange.rs: the spiral subdivision that both window managers use to
    tile the working area. A tile is the tuple `(x, y, width, height)`. */
module Arrange {
  import opened Int32
  import opened Sums

  /** `(x, y, width, height)`, the `(i32, i32, i32, i32)` of the source. */
  type Tile = (int, int, int, int)

  /** `a` and `c` sit side by side in `b`'s band: `a` starts at `b`'s left
      edge, `c` starts where `a` ends, both are equally wide, and each is
      `b`'s width halved toward zero: together they miss at most one pixel
      of a non-negative width and exceed a negative one by at most one. */
  predicate SideBySide(b: Tile, a: Tile, c: Tile)
  {
    && a.0 == b.0 && c.0 == a.0 + a.2 && a.2 == c.2
    && a.1 == b.1 && c.1 == b.1 && a.3 == b.3 && c.3 == b.3
    && (if b.2 >= 0 then 0 <= b.2 - (a.2 + c.2) <= 1 else -1 <= b.2 - (a.2 + c.2) <= 0)
  }

  /** `a` is on top of `c` in `b`'s column, the transpose of `SideBySide`. */
  predicate Stacked(b: Tile, a: Tile, c: Tile)
  {
    && a.1 == b.1 && c.1 == a.1 + a.3 && a.3 == c.3
    && a.0 == b.0 && c.0 == b.0 && a.2 == b.2 && c.2 == b.2
    && (if b.3 >= 0 then 0 <= b.3 - (a.3 + c.3) <= 1 else -1 <= b.3 - (a.3 + c.3) <= 0)
  }

  /** `subdivide`: halve `b` vertically (two columns) or horizontally (two
      rows). Both halves get the truncated half size, so an odd size loses
      a pixel. */
  function Subdivide(b: Tile, vertical: bool): (r: seq<Tile>)
    ensures |r| == 2
    ensures vertical ==> SideBySide(b, r[0], r[1])
    ensures !vertical ==> Stacked(b, r[0], r[1])
  {
    if vertical then
      [(b.0, b.1, Quot(b.2, 2), b.3), (b.0 + Quot(b.2, 2), b.1, Quot(b.2, 2), b.3)]
    else
      [(b.0, b.1, b.2, Quot(b.3, 2)), (b.0, b.1 + Quot(b.3, 2), b.2, Quot(b.3, 2))]
  }

  /** What `spiral_subdivide(b, n)` returns: iteration `i` (for `i` in
      `1..n`) replaces the most recently added tile by its two halves,
      split vertically when `i` is odd. */
  function Spiral(b: Tile, n: nat): (r: seq<Tile>)
    ensures |r| == if n <= 1 then 1 else n
  {
    if n <= 1 then [b]
    else
      var prev := Spiral(b, n - 1);
      prev[..|prev| - 1] + Subdivide(prev[|prev| - 1], (n - 1) % 2 != 0)
  }

  /** `spiral_subdivide`: the loop over `1..n` that pops the last tile and
      pushes its halves. The vector is never empty, so `pop().unwrap()`
      cannot fail. */
  method SpiralSubdivide(b: Tile, n: nat) returns (divisions: seq<Tile>)
    ensures divisions == Spiral(b, n)
  {
    divisions := [b];
    var i := 1;
    while i < n
      invariant 1 <= i <= if n == 0 then 1 else n
      invariant divisions == Spiral(b, i)
    {
      var d := divisions[|divisions| - 1];
      divisions := divisions[..|divisions| - 1];
      divisions := divisions + Subdivide(d, i % 2 != 0);
      i := i + 1;
    }
  }

  // ---------------------------------------------------------------------
  // Worked cases and stability

  /** Two windows: the two vertical halves of the bounds. */
  lemma SpiralTwo(b: Tile)
    ensures Spiral(b, 2) == [(b.0, b.1, Quot(b.2, 2), b.3), (b.0 + Quot(b.2, 2), b.1, Quot(b.2, 2), b.3)]
  {
    SpiralTwoHalves(b);
    SubdivideTwice(b);
  }

  lemma SpiralTwoHalves(b: Tile)
    ensures Spiral(b, 2) == Subdivide(b, true)
  {
    var prev := Spiral(b, 1);
    assert prev == [b];
    assert prev[..|prev| - 1] == [];
  }

  /** Three windows: the left half, then the top and bottom of the right half. */
  lemma SpiralThree(b: Tile)
    ensures var w := Quot(b.2, 2); var h := Quot(b.3, 2);
      Spiral(b, 3) == [(b.0, b.1, w, b.3), (b.0 + w, b.1, w, h), (b.0 + w, b.1 + h, w, h)]
  {
    SpiralThreeSplits(b);
    SubdivideTwice(b);
  }

  lemma SubdivideTwice(b: Tile)
    ensures var w := Quot(b.2, 2); var h := Quot(b.3, 2);
      && Subdivide(b, true) == [(b.0, b.1, w, b.3), (b.0 + w, b.1, w, b.3)]
      && Subdivide(Subdivide(b, true)[1], false) == [(b.0 + w, b.1, w, h), (b.0 + w, b.1 + h, w, h)]
  {
  }

  lemma SpiralThreeSplits(b: Tile)
    ensures Spiral(b, 3) == [Subdivide(b, true)[0]] + Subdivide(Subdivide(b, true)[1], false)
  {
    SpiralTwoHalves(b);
    var prev := Spiral(b, 2);
    assert prev[..|prev| - 1] == [prev[0]];
  }

  /** Adding windows never moves the tiles of the earlier ones: all but the
      last tile of `Spiral(b, m)` are kept by every `Spiral(b, n)`, `n >= m`. */
  lemma {:induction false} SpiralPrefix(b: Tile, m: nat, n: nat)
    requires 1 <= m <= n
    ensures Spiral(b, n)[..m - 1] == Spiral(b, m)[..m - 1]
  {
    if n > m {
      SpiralPrefix(b, m, n - 1);
      var prev := Spiral(b, n - 1);
      assert Spiral(b, n)[..m - 1] == prev[..|prev| - 1][..m - 1];
    }
  }

  // ---------------------------------------------------------------------
  // Geometry: every tile lies inside the bounds and no two tiles overlap

  /** `t` has a non-negative size and lies within `b`. */
  predicate Inside(t: Tile, b: Tile)
  {
    && t.2 >= 0 && t.3 >= 0
    && b.0 <= t.0 && t.0 + t.2 <= b.0 + b.2
    && b.1 <= t.1 && t.1 + t.3 <= b.1 + b.3
  }

  /** `s` and `t` are separated by a vertical or a horizontal line. */
  predicate Disjoint(s: Tile, t: Tile)
  {
    s.0 + s.2 <= t.0 || t.0 + t.2 <= s.0 || s.1 + s.3 <= t.1 || t.1 + t.3 <= s.1
  }

  /** `ts` tiles (part of) `b`: all inside, pairwise disjoint. */
  ghost predicate Tiling(ts: seq<Tile>, b: Tile)
  {
    && (forall i :: 0 <= i < |ts| ==> Inside(ts[i], b))
    && (forall i, j :: 0 <= i < j < |ts| ==> Disjoint(ts[i], ts[j]))
  }

  lemma SubdivideTiles(b: Tile, vertical: bool)
    requires b.2 >= 0 && b.3 >= 0
    ensures Tiling(Subdivide(b, vertical), b)
  {
    HalfBounds(b.2);
    HalfBounds(b.3);
  }

  lemma InsideDisjoint(a: Tile, p: Tile, q: Tile)
    requires Inside(a, p) && Disjoint(p, q)
    ensures Disjoint(a, q) && Disjoint(q, a)
  {
  }

  /** For a bounds tile of non-negative size, `spiral_subdivide` tiles it. */
  lemma {:induction false} SpiralTiles(b: Tile, n: nat)
    requires b.2 >= 0 && b.3 >= 0
    ensures Tiling(Spiral(b, n), b)
  {
    if n > 1 {
      SpiralTiles(b, n - 1);
      var prev := Spiral(b, n - 1);
      var k := |prev| - 1;
      var last := prev[k];
      var halves := Subdivide(last, (n - 1) % 2 != 0);
      SubdivideTiles(last, (n - 1) % 2 != 0);
      var r := prev[..k] + halves;
      assert r == Spiral(b, n);
      forall i | 0 <= i < |r| ensures Inside(r[i], b) {
        if i >= k {
          assert r[i] == halves[i - k];
        } else {
          assert r[i] == prev[i];
        }
      }
      forall i, j | 0 <= i < j < |r| ensures Disjoint(r[i], r[j]) {
        if j < k {
          assert r[i] == prev[i] && r[j] == prev[j];
        } else if i < k {
          assert r[i] == prev[i] && r[j] == halves[j - k];
          InsideDisjoint(r[j], last, prev[i]);
        } else {
          assert r[i] == halves[0] && r[j] == halves[1];
        }
      }
    }
  }

  /** No coordinate leaves the `i32` range when the bounds' edges and size
      are in range, so the source's `i32` arithmetic cannot overflow. */
  lemma SpiralInRange(b: Tile, n: nat)
    requires b.2 >= 0 && b.3 >= 0
    requires InRange(b.0) && InRange(b.1) && InRange(b.2) && InRange(b.3)
    requires InRange(b.0 + b.2) && InRange(b.1 + b.3)
    ensures forall t :: t in Spiral(b, n) ==>
      && InRange(t.0) && InRange(t.1) && InRange(t.2) && InRange(t.3)
      && InRange(t.0 + t.2) && InRange(t.1 + t.3)
  {
    SpiralTiles(b, n);
    forall t | t in Spiral(b, n)
      ensures InRange(t.0) && InRange(t.1) && InRange(t.2) && InRange(t.3)
    {
      var i :| 0 <= i < |Spiral(b, n)| && Spiral(b, n)[i] == t;
      assert Inside(t, b);
    }
  }

  // ---------------------------------------------------------------------
  // Area: the tiles never cover more than the bounds

  function Area(t: Tile): int
  {
    t.2 * t.3
  }

  function SumArea(ts: seq<Tile>): int
  {
    Sum(ts, Area)
  }

  lemma HalvesArea(t: Tile, vertical: bool)
    requires t.2 >= 0 && t.3 >= 0
    ensures var h := Subdivide(t, vertical); Area(h[0]) + Area(h[1]) <= Area(t)
  {
    var h := Subdivide(t, vertical);
    HalfBounds(t.2);
    HalfBounds(t.3);
    if vertical {
      var q := Quot(t.2, 2);
      assert Area(h[0]) + Area(h[1]) == (2 * q) * t.3;
      MulMono(2 * q, t.2, t.3);
    } else {
      var q := Quot(t.3, 2);
      assert Area(h[0]) + Area(h[1]) == t.2 * (2 * q);
      MulMono(2 * q, t.3, t.2);
    }
  }

  lemma MulMono(a: int, b: int, c: int)
    requires a <= b && c >= 0
    ensures a * c <= b * c && c * a <= c * b
  {
    assert (b - a) * c >= 0;
  }

  /** Replacing the last tile by its halves never adds area. */
  lemma SplitLastArea(prev: seq<Tile>, vertical: bool)
    requires |prev| > 0 && prev[|prev| - 1].2 >= 0 && prev[|prev| - 1].3 >= 0
    ensures SumArea(prev[..|prev| - 1] + Subdivide(prev[|prev| - 1], vertical)) <= SumArea(prev)
  {
    var k := |prev| - 1;
    var halves := Subdivide(prev[k], vertical);
    HalvesArea(prev[k], vertical);
    SumAppend(prev[..k], halves, Area);
    SumPair(halves[0], halves[1], Area);
    assert halves == [halves[0], halves[1]];
    assert SumArea(prev) == SumArea(prev[..k]) + Area(prev[k]);
  }

  /** The total area of the tiles is at most the area of the bounds. */
  lemma {:induction false} SpiralArea(b: Tile, n: nat)
    requires b.2 >= 0 && b.3 >= 0
    ensures SumArea(Spiral(b, n)) <= Area(b)
  {
    if n <= 1 {
      assert SumArea([b]) == SumArea([]) + Area(b);
    } else {
      SpiralArea(b, n - 1);
      SpiralTiles(b, n - 1);
      var prev := Spiral(b, n - 1);
      assert Inside(prev[|prev| - 1], b);
      SplitLastArea(prev, (n - 1) % 2 != 0);
    }
  }
}
