/** Rectangles: the Win32 `RECT` (four edges) and the crate's own `Rect`
    (src/rect.rs: an origin with a width and a height). Coordinates are `i32`
    in the source; here they are unbounded integers. */
module Rects {

  /** Win32 `RECT`: left, top, right and bottom edges. */
  datatype RECT = RECT(left: int, top: int, right: int, bottom: int)

  /** `Rect { left, top, width, height }`; the datatype constructor is `Rect::new`,
      which stores its four arguments verbatim. */
  datatype Rect = Rect(left: int, top: int, width: int, height: int)

  /** A zero-initialised `RECT` (`zeroed()`). */
  const ZERO: RECT := RECT(0, 0, 0, 0)

  /** `From<RECT> for Rect`: keep the origin, turn the far edges into a
      width and a height. No clamping: an inverted `RECT` gives a negative size. */
  function FromRECT(r: RECT): (x: Rect)
    ensures x.left == r.left && x.top == r.top
    ensures x.left + x.width == r.right && x.top + x.height == r.bottom
    ensures r.left > r.right ==> x.width < 0
  {
    Rect(r.left, r.top, r.right - r.left, r.bottom - r.top)
  }

  /** `Sub<RECT> for Rect`: subtract `b`'s origin from the origin and `b`'s
      size from the size. */
  function Sub(a: Rect, b: RECT): (r: Rect)
    ensures r.left + b.left == a.left && r.top + b.top == a.top
    ensures r.width + FromRECT(b).width == a.width && r.height + FromRECT(b).height == a.height
  {
    Rect(a.left - b.left, a.top - b.top, a.width - (b.right - b.left), a.height - (b.bottom - b.top))
  }

  /** Subtracting a zeroed `RECT` changes nothing, and a `RECT` minus itself
      (converted) is all zero. */
  lemma SubIdentities(a: Rect, r: RECT)
    ensures Sub(a, ZERO) == a
    ensures Sub(FromRECT(r), r) == Rect(0, 0, 0, 0)
  {
  }

  /** Converting is injective: two `RECT`s with the same `Rect` are equal. */
  lemma FromRECTInjective(r: RECT, s: RECT)
    requires FromRECT(r) == FromRECT(s)
    ensures r == s
  {
  }
}
