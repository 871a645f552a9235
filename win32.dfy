/** The arithmetic and the value tests inside the Win32 wrappers
    (src/win32.rs, src/win32/mod.rs, src/win32/dwm.rs). Each OS call is
    replaced by its answer, passed in as a parameter: `None`/`Err` stands
    for a failed call. */
module Win32 {
  import opened Wrappers
  import opened Rects
  import opened Macros

  // Window style bits (WinUser.h).
  const WS_CHILD: bv32 := 0x4000_0000
  const WS_DISABLED: bv32 := 0x0800_0000
  const WS_EX_NOACTIVATE: bv32 := 0x0800_0000
  const WS_EX_TOOLWINDOW: bv32 := 0x0000_0080
  const WS_EX_APPWINDOW: bv32 := 0x0004_0000

  // Values of the `DWMWA_CLOAKED` attribute (dwmapi.h).
  const DWM_CLOAKED_APP: bv32 := 0x1
  const DWM_CLOAKED_SHELL: bv32 := 0x2
  const DWM_CLOAKED_INHERITED: bv32 := 0x4

  // ---------------------------------------------------------------------
  // get_window_style / get_window_exstyle

  /** `u32::try_from(GetWindowLongPtrW(..)).unwrap_or(0)`: the `isize` the
      OS returns, kept when it fits in a `u32` and replaced by 0 otherwise. */
  function StyleFromLong(long: int): (style: bv32)
    ensures 0 <= long < 0x1_0000_0000 ==> style == long as bv32
    ensures !(0 <= long < 0x1_0000_0000) ==> style == 0
  {
    if 0 <= long < 0x1_0000_0000 then long as bv32 else 0
  }

  /** A style value the conversion rejects (a negative `isize`, or one
      wider than 32 bits) reads as "no flag set": the window looks neither
      disabled nor a child, and has no extended flags. */
  lemma RejectedStyleHasNoFlags(long: int, flag: bv32)
    requires !(0 <= long < 0x1_0000_0000)
    ensures !HasFlag(StyleFromLong(long), flag)
  {
  }

  // ---------------------------------------------------------------------
  // is_cloaked

  /** The value test of `is_cloaked`: the `DwmGetWindowAttribute` query
      succeeded and its value equals one of the three cloak reasons. */
  predicate IsCloaked(query: Result<bv32>)
    ensures IsCloaked(query) ==> query.Ok? && query.value != 0 && query.value < 8
  {
    query.Ok? &&
    (query.value == DWM_CLOAKED_APP || query.value == DWM_CLOAKED_SHELL
     || query.value == DWM_CLOAKED_INHERITED)
  }

  /** The test is an equality test, not a mask test: it holds exactly for
      values with a single bit set among the three low bits. A combination
      such as `APP | SHELL` and any failed query count as not cloaked. */
  lemma IsCloakedSingleBit(query: Result<bv32>)
    ensures IsCloaked(query) <==>
      query.Ok? && query.value != 0 && query.value & (query.value - 1) == 0 && query.value & 0x7 == query.value
    ensures !IsCloaked(Ok(DWM_CLOAKED_APP | DWM_CLOAKED_SHELL)) && HasFlag(DWM_CLOAKED_APP | DWM_CLOAKED_SHELL, DWM_CLOAKED_APP)
    ensures !IsCloaked(Err)
  {
  }

  // ---------------------------------------------------------------------
  // get_working_area (src/win32.rs)

  /** `get_working_area`: when the taskbar window (`Shell_TrayWnd`) exists
      and is visible, the `SPI_GETWORKAREA` rectangle as `(x, y, width,
      height)`, or an error when that query fails (`spi == None`);
      otherwise the virtual-screen metrics as they are. */
  function WorkingArea(taskbar: int, taskbarVisible: bool, spi: Option<RECT>,
                       virtualScreen: (int, int, int, int)): (r: Result<(int, int, int, int)>)
    ensures taskbar == 0 || !taskbarVisible ==> r == Ok(virtualScreen)
    ensures taskbar != 0 && taskbarVisible && spi.None? ==> r.Err?
    ensures taskbar != 0 && taskbarVisible && spi.Some? ==>
      r.Ok? && Rect(r.value.0, r.value.1, r.value.2, r.value.3) == FromRECT(spi.value)
  {
    if taskbar != 0 && taskbarVisible then
      match spi
      case None => Err
      case Some(wa) => Ok((wa.left, wa.top, wa.right - wa.left, wa.bottom - wa.top))
    else
      Ok(virtualScreen)
  }

  // ---------------------------------------------------------------------
  // get_window_extended_frame_bounds (src/win32/dwm.rs)

  /** What an ignored query leaves in its zero-initialised out-parameter. */
  function Queried(answer: Option<RECT>): RECT
  {
    if answer.Some? then answer.value else ZERO
  }

  /** `r` moved out by the per-side amounts of `m`. */
  function Offset(r: RECT, m: RECT): RECT
  {
    RECT(r.left + m.left, r.top + m.top, r.right + m.right, r.bottom + m.bottom)
  }

  /** `get_window_extended_frame_bounds`: the per-side difference between
      the DWM's visible frame (`DWMWA_EXTENDED_FRAME_BOUNDS`) and the window
      rectangle (`GetWindowRect`). Both results are ignored, so a failed
      query contributes a zeroed `RECT`. */
  function FrameMargin(windowRect: Option<RECT>, frame: Option<RECT>): (m: RECT)
    ensures Offset(Queried(windowRect), m) == Queried(frame)
  {
    var rect := Queried(windowRect);
    var f := Queried(frame);
    var m := RECT(f.left - rect.left, f.top - rect.top, f.right - rect.right, f.bottom - rect.bottom);
    assert Offset(rect, m) == f;
    m
  }

  /** A frame equal to the window rectangle means no margin; a failed frame
      query gives the negated window rectangle. */
  lemma FrameMarginCases(r: RECT)
    ensures FrameMargin(Some(r), Some(r)) == ZERO
    ensures FrameMargin(Some(r), None) == RECT(-r.left, -r.top, -r.right, -r.bottom)
    ensures FrameMargin(None, None) == ZERO
  {
  }

  // ---------------------------------------------------------------------
  // defer_window_pos (src/win32/mod.rs)

  /** The position and size `defer_window_pos` passes to `DeferWindowPos`
      for target `rect` and frame margin `m`: shifted by the left and top
      margins, widened by twice the left margin, and shortened by the
      bottom margin. */
  function DeferArgs(rect: RECT, m: RECT): (args: (int, int, int, int))
    ensures args.0 + m.left == rect.left && args.1 + m.top == rect.top
    ensures args.2 == FromRECT(rect).width + 2 * m.left
    ensures args.3 == FromRECT(rect).height - m.bottom
  {
    (rect.left - m.left, rect.top - m.top, (rect.right - rect.left) + m.left * 2, (rect.bottom - rect.top) - m.bottom)
  }

  /** The visible frame of a window placed at `args` whose frame margin is `m`. */
  function PlacedFrame(args: (int, int, int, int), m: RECT): RECT
  {
    Offset(RECT(args.0, args.1, args.0 + args.2, args.1 + args.3), m)
  }

  /** The visible frame lands exactly on the target rectangle iff the left
      and right margins cancel and there is no top margin: the width uses
      the left margin twice in place of `left - right`, and the height
      ignores the top margin. The margin the source expects, `(7, 0, -7,
      -7)`, satisfies this; with no margin the window is placed exactly at
      the rectangle. */
  lemma FrameLandsOnTarget(rect: RECT, m: RECT)
    ensures PlacedFrame(DeferArgs(rect, m), m) == rect <==> m.left + m.right == 0 && m.top == 0
    ensures PlacedFrame(DeferArgs(rect, RECT(7, 0, -7, -7)), RECT(7, 0, -7, -7)) == rect
    ensures DeferArgs(rect, ZERO) == (rect.left, rect.top, rect.right - rect.left, rect.bottom - rect.top)
  {
    var f := PlacedFrame(DeferArgs(rect, m), m);
    assert f.right == rect.right + m.left + m.right;
    assert f.bottom == rect.bottom - m.top;
  }
}
