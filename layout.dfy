/** src/layout.rs: the three layouts of the newer manager, over Win32 `RECT`s.
    `Dwindle` splits the most recent tile in two at its midpoint, alternating
    between a vertical and a horizontal cut; `Monocle` stacks every window on
    the bounds; `Columns` cuts the bounds into equal columns. */
module Layout {
  import opened Int32
  import opened Sums
  import opened Rects

  /** `r` lies within `b` (edges compared; `r` may be empty). */
  predicate Within(r: RECT, b: RECT)
  {
    && b.left <= r.left <= r.right <= b.right
    && b.top <= r.top <= r.bottom <= b.bottom
  }

  /** `r` and `s` are separated by a vertical or a horizontal line. */
  predicate Apart(r: RECT, s: RECT)
  {
    r.right <= s.left || s.right <= r.left || r.bottom <= s.top || s.bottom <= r.top
  }

  /** Pairwise apart and all within `b`. */
  ghost predicate Partition(rs: seq<RECT>, b: RECT)
  {
    && (forall i :: 0 <= i < |rs| ==> Within(rs[i], b))
    && (forall i, j :: 0 <= i < j < |rs| ==> Apart(rs[i], rs[j]))
  }

  function Area(r: RECT): int
  {
    (r.right - r.left) * (r.bottom - r.top)
  }

  function SumArea(rs: seq<RECT>): int
  {
    Sum(rs, Area)
  }

  // ---------------------------------------------------------------------
  // dwindle

  /** The two `RECT`s one fold step of `dwindle` makes of `r`: cut at the
      midpoint `left + (right - left) / 2` (vertical) or
      `top + (bottom - top) / 2` (horizontal). The cut is shared, so the
      halves meet exactly and the second one gets the odd pixel. */
  function Bisect(r: RECT, vertical: bool): (halves: seq<RECT>)
    ensures |halves| == 2
    ensures vertical ==>
      && halves[0] == r.(right := halves[0].right)
      && halves[1] == r.(left := halves[0].right)
      && (r.left <= r.right ==> r.left <= halves[0].right <= r.right)
      && (r.left <= r.right ==> 0 <= (r.right - halves[0].right) - (halves[0].right - r.left) <= 1)
    ensures !vertical ==>
      && halves[0] == r.(bottom := halves[0].bottom)
      && halves[1] == r.(top := halves[0].bottom)
      && (r.top <= r.bottom ==> r.top <= halves[0].bottom <= r.bottom)
      && (r.top <= r.bottom ==> 0 <= (r.bottom - halves[0].bottom) - (halves[0].bottom - r.top) <= 1)
  {
    if vertical then
      var mid := r.left + Quot(r.right - r.left, 2);
      [r.(right := mid), r.(left := mid)]
    else
      var mid := r.top + Quot(r.bottom - r.top, 2);
      [r.(bottom := mid), r.(top := mid)]
  }

  /** The closure passed to `fold`: pop the last `RECT` and push its halves,
      cut vertically when `v` is odd. */
  function DwindleStep(acc: seq<RECT>, v: int): (r: seq<RECT>)
    requires |acc| > 0
    ensures |r| == |acc| + 1
    ensures r[..|acc| - 1] == acc[..|acc| - 1]
  {
    acc[..|acc| - 1] + Bisect(acc[|acc| - 1], v % 2 != 0)
  }

  /** `(v..n).fold(acc, DwindleStep)`. */
  function Fold(acc: seq<RECT>, v: nat, n: nat): (r: seq<RECT>)
    requires |acc| > 0
    ensures |r| == if v < n then |acc| + (n - v) else |acc|
    decreases n - v
  {
    if v >= n then acc else Fold(DwindleStep(acc, v), v + 1, n)
  }

  /** `dwindle(bounds, n)`: the fold over `1..n` starting from `[bounds]`.
      For `n == 0` the range is empty and the result is `[bounds]`. */
  function DwindleTiles(b: RECT, n: nat): (r: seq<RECT>)
    ensures |r| == if n <= 1 then 1 else n
  {
    Fold([b], 1, n)
  }

  /** The fold unrolled from the right: one more window is one more step. */
  lemma {:induction false} FoldLast(acc: seq<RECT>, v: nat, n: nat)
    requires |acc| > 0 && v <= n
    ensures Fold(acc, v, n + 1) == DwindleStep(Fold(acc, v, n), n)
    decreases n - v
  {
    if v < n {
      FoldLast(DwindleStep(acc, v), v + 1, n);
    }
  }

  lemma DwindleSucc(b: RECT, n: nat)
    requires n >= 1
    ensures DwindleTiles(b, n + 1) == DwindleStep(DwindleTiles(b, n), n)
  {
    FoldLast([b], 1, n);
  }

  /** Two windows: the bounds cut in half at the vertical midpoint. */
  lemma DwindleTwo(b: RECT)
    ensures var mid := b.left + Quot(b.right - b.left, 2);
      DwindleTiles(b, 2) == [b.(right := mid), b.(left := mid)]
  {
    DwindleSucc(b, 1);
  }

  /** Three windows: the left half, then the right half cut at its horizontal midpoint. */
  lemma DwindleThree(b: RECT)
    ensures var mid := b.left + Quot(b.right - b.left, 2);
      var right := b.(left := mid);
      var hmid := b.top + Quot(b.bottom - b.top, 2);
      DwindleTiles(b, 3) == [b.(right := mid), right.(bottom := hmid), right.(top := hmid)]
  {
    DwindleSucc(b, 1);
    DwindleSucc(b, 2);
  }

  /** Adding windows never moves the earlier windows' tiles: all but the last
      `RECT` of `DwindleTiles(b, m)` are kept by every `DwindleTiles(b, n)`, `n >= m`. */
  lemma {:induction false} DwindlePrefix(b: RECT, m: nat, n: nat)
    requires 1 <= m <= n
    ensures DwindleTiles(b, n)[..m - 1] == DwindleTiles(b, m)[..m - 1]
    decreases n
  {
    if n > m {
      DwindlePrefix(b, m, n - 1);
      DwindleKeepsPrefix(b, n);
      SamePrefix(DwindleTiles(b, n), DwindleTiles(b, n - 1), n - 2, m - 1);
    }
  }

  /** One more window keeps all tiles but the previously last one. */
  lemma DwindleKeepsPrefix(b: RECT, n: nat)
    requires n >= 2
    ensures |DwindleTiles(b, n - 1)| == n - 1
    ensures DwindleTiles(b, n)[..n - 2] == DwindleTiles(b, n - 1)[..n - 2]
  {
    DwindleSucc(b, n - 1);
  }

  lemma SamePrefix<T>(s: seq<T>, t: seq<T>, k: nat, j: nat)
    requires j <= k <= |s| && k <= |t| && s[..k] == t[..k]
    ensures s[..j] == t[..j]
  {
    assert s[..j] == s[..k][..j];
    assert t[..j] == t[..k][..j];
  }

  lemma BisectPartition(r: RECT, vertical: bool)
    requires r.left <= r.right && r.top <= r.bottom
    ensures Partition(Bisect(r, vertical), r)
  {
  }

  /** The two halves of a cut add up to the area of the whole, whatever its orientation. */
  lemma BisectArea(r: RECT, vertical: bool)
    ensures Area(Bisect(r, vertical)[0]) + Area(Bisect(r, vertical)[1]) == Area(r)
  {
    var h := Bisect(r, vertical);
    if vertical {
      var mid := h[0].right;
      assert Area(h[0]) + Area(h[1]) == (mid - r.left + (r.right - mid)) * (r.bottom - r.top);
    } else {
      var mid := h[0].bottom;
      assert Area(h[0]) + Area(h[1]) == (r.right - r.left) * (mid - r.top + (r.bottom - mid));
    }
  }

  lemma WithinApart(a: RECT, p: RECT, q: RECT)
    requires Within(a, p) && Apart(p, q)
    ensures Apart(a, q) && Apart(q, a)
  {
  }

  /** Replacing the last `RECT` of a partition of `b` by its halves keeps a partition of `b`. */
  lemma StepPartition(acc: seq<RECT>, v: int, b: RECT)
    requires |acc| > 0 && Partition(acc, b)
    ensures Partition(DwindleStep(acc, v), b)
  {
    var k := |acc| - 1;
    var last := acc[k];
    assert Within(last, b);
    var halves := Bisect(last, v % 2 != 0);
    BisectPartition(last, v % 2 != 0);
    var r := DwindleStep(acc, v);
    assert r == acc[..k] + halves;
    forall i | 0 <= i < |r| ensures Within(r[i], b) {
      if i >= k {
        assert r[i] == halves[i - k];
      } else {
        assert r[i] == acc[i];
      }
    }
    forall i, j | 0 <= i < j < |r| ensures Apart(r[i], r[j]) {
      if j < k {
        assert r[i] == acc[i] && r[j] == acc[j];
      } else if i < k {
        assert r[i] == acc[i] && r[j] == halves[j - k];
        WithinApart(r[j], last, acc[i]);
      } else {
        assert r[i] == halves[0] && r[j] == halves[1];
      }
    }
  }

  /** For well-formed bounds, `dwindle` cuts them into pairwise disjoint
      `RECT`s within the bounds. */
  lemma {:induction false} DwindlePartition(b: RECT, n: nat)
    requires b.left <= b.right && b.top <= b.bottom
    ensures Partition(DwindleTiles(b, n), b)
  {
    if n <= 1 {
      assert DwindleTiles(b, n) == [b];
    } else {
      DwindlePartition(b, n - 1);
      DwindleSucc(b, n - 1);
      StepPartition(DwindleTiles(b, n - 1), n - 1, b);
    }
  }

  /** The step keeps the total area. */
  lemma StepArea(acc: seq<RECT>, v: int)
    requires |acc| > 0
    ensures SumArea(DwindleStep(acc, v)) == SumArea(acc)
  {
    var k := |acc| - 1;
    var halves := Bisect(acc[k], v % 2 != 0);
    BisectArea(acc[k], v % 2 != 0);
    SumAppend(acc[..k], halves, Area);
    SumPair(halves[0], halves[1], Area);
    assert halves == [halves[0], halves[1]];
    assert SumArea(acc) == SumArea(acc[..k]) + Area(acc[k]);
  }

  /** Nothing is lost: the tiles' (signed) areas add up to the area of the
      bounds, so for well-formed bounds, together with `DwindlePartition`,
      the tiles cover the bounds exactly. */
  lemma {:induction false} DwindleArea(b: RECT, n: nat)
    ensures SumArea(DwindleTiles(b, n)) == Area(b)
  {
    if n <= 1 {
      assert DwindleTiles(b, n) == [b];
      assert SumArea([b]) == SumArea([]) + Area(b);
    } else {
      DwindleArea(b, n - 1);
      DwindleSucc(b, n - 1);
      StepArea(DwindleTiles(b, n - 1), n - 1);
    }
  }

  // ---------------------------------------------------------------------
  // monocle and columns

  /** `monocle(bounds, n)`: `n` copies of the bounds. */
  function MonocleTiles(b: RECT, n: nat): (r: seq<RECT>)
    ensures |r| == n
    ensures forall i :: 0 <= i < n ==> r[i] == b
  {
    seq(n, _ => b)
  }

  /** `columns(bounds, n)`: `n` columns of width `(right - left) / n`, the
      `i`-th spanning `[i * w, i * w + w)`. The columns start at x = 0, not
      at `bounds.left`. A zero `n` divides by zero and panics. */
  function ColumnTiles(b: RECT, n: nat): (r: seq<RECT>)
    requires n > 0
    ensures |r| == n
  {
    var w := Quot(b.right - b.left, n);
    seq(n, i => RECT(i * w, b.top, i * w + w, b.bottom))
  }

  /** The columns are equally wide, each starts where the previous one ends,
      the first starts at 0, they keep the bounds' top and bottom, and for
      bounds of non-negative width they span at most that width and miss
      less than `n` pixels of it. */
  lemma ColumnsShape(b: RECT, n: nat)
    requires n > 0
    ensures var r := ColumnTiles(b, n); var w := r[0].right - r[0].left;
      && r[0].left == 0
      && (forall i :: 0 <= i < n ==> r[i].right - r[i].left == w && r[i].top == b.top && r[i].bottom == b.bottom)
      && (forall i :: 0 <= i < n - 1 ==> r[i].right == r[i + 1].left)
      && r[n - 1].right == n * w
      && (b.left <= b.right ==> 0 <= n * w <= b.right - b.left < n * w + n)
  {
    var r := ColumnTiles(b, n);
    var w := Quot(b.right - b.left, n);
    assert r[0].right - r[0].left == w;
    forall i | 0 <= i < n - 1 ensures r[i].right == r[i + 1].left {
      assert (i + 1) * w == i * w + w;
    }
    assert r[n - 1].right == (n - 1) * w + w == n * w;
  }

  /** Because they start at 0, the columns lie within the bounds when the
      bounds start at x = 0, and the first one does not when they start
      further right (a working area beside a left-hand taskbar, or a
      secondary monitor). */
  lemma ColumnsWithin(b: RECT, n: nat)
    requires n > 0 && b.left <= b.right && b.top <= b.bottom
    ensures b.left == 0 ==> Partition(ColumnTiles(b, n), b)
    ensures b.left > 0 ==> !Within(ColumnTiles(b, n)[0], b)
  {
    ColumnsShape(b, n);
    var r := ColumnTiles(b, n);
    var w := Quot(b.right - b.left, n);
    assert 0 <= n * w <= b.right - b.left;
    if b.left == 0 {
      forall i | 0 <= i < n ensures Within(r[i], b) {
        assert r[i] == RECT(i * w, b.top, i * w + w, b.bottom);
        ColumnFits(i, n, w, b.right);
      }
      forall i, j | 0 <= i < j < n ensures Apart(r[i], r[j]) {
        assert r[i].right == i * w + w && r[j].left == j * w;
        ColumnsOrdered(i, j, w);
      }
    }
  }

  lemma ColumnFits(i: int, n: int, w: int, width: int)
    requires 0 <= i < n && 0 <= w && n * w <= width
    ensures 0 <= i * w <= i * w + w <= width
  {
    ColumnsOrdered(i, n, w);
  }

  lemma ColumnsOrdered(i: int, j: int, w: int)
    requires 0 <= i < j && w >= 0
    ensures 0 <= i * w && i * w + w <= j * w
  {
    MulNonneg(i, w);
    MulNonneg(j - i - 1, w);
    assert (j - i - 1) * w == j * w - i * w - w;
  }

  lemma MulNonneg(a: int, b: int)
    requires a >= 0 && b >= 0
    ensures a * b >= 0
  {
  }

  // ---------------------------------------------------------------------
  // Layouts::arrange

  datatype Layouts = Dwindle | Monocle | Columns

  /** `Layouts::arrange`: dispatch on the layout. `Columns` with no windows
      panics in the source, hence the precondition. */
  function Arrange(layout: Layouts, b: RECT, n: nat): (r: seq<RECT>)
    requires layout.Columns? ==> n > 0
    ensures layout.Dwindle? ==> r == DwindleTiles(b, n)
    ensures layout.Monocle? ==> r == MonocleTiles(b, n)
    ensures layout.Columns? ==> r == ColumnTiles(b, n)
  {
    match layout
    case Dwindle => DwindleTiles(b, n)
    case Monocle => MonocleTiles(b, n)
    case Columns => ColumnTiles(b, n)
  }

  /** The layouts disagree only from two windows on: with one window,
      dwindle and monocle both give the bounds, and columns gives them too
      exactly when the bounds start at x = 0. With none, dwindle still
      returns the bounds while monocle returns nothing. */
  lemma LayoutsOnFewWindows(b: RECT)
    ensures Arrange(Layouts.Dwindle, b, 1) == [b] && Arrange(Layouts.Monocle, b, 1) == [b]
    ensures Arrange(Layouts.Columns, b, 1) == [b] <==> b.left == 0
    ensures Arrange(Layouts.Dwindle, b, 0) == [b] && Arrange(Layouts.Monocle, b, 0) == []
  {
    var c := ColumnTiles(b, 1);
    assert c[0] == RECT(0, b.top, b.right - b.left, b.bottom);
    if c == [b] {
      assert c[0] == b;
    }
  }
}
