# grout-wm in Dafny

grout-wm is a tiling window manager for Windows, written in Rust. It keeps a
list of the top-level windows it manages and decides, from each window's
styles, visibility, cloak state, title, class and process name and from the
user's configuration, whether a new window should be managed. It maps the
messages posted by its WinEvent and shell hooks to "manage", "unmanage" and
"re-tile" actions. It tiles the working area by spiral subdivision, so each
new window halves the most recently added tile.

This project models that decision and geometry logic and proves properties
of it. The repository holds two revisions of the manager, and both are
modelled:

- `WindowManager` (src/windowmanager.rs, module `WindowManagers`) removes a
  window only when the virtual-desktop service confirms the window is on the
  current desktop.
- `WM` (src/wm.rs, module `Wm`) is the older revision. Its classifier
  recurses into the parent window and may register the parent as a side
  effect. Its records carry a `minimized` flag.

Every OS query is an input:

- `Attributes.Env` gives the attributes of every handle.
- It gives the answer of the desktop query, which may fail.
- It gives a rank that strictly decreases along the parent chain. This rank
  makes the older classifier's recursion well founded. It rules out a cycle
  in the parent chain; on such a cycle `is_manageable` in src/wm.rs would
  recurse until the stack overflows.
- The other OS calls (`GetWindowRect`, `DwmGetWindowAttribute`,
  `SystemParametersInfoW`, …) become parameters of type `Option`/`Result`.
- `set_window_pos` calls are returned as a list of `Placement`s.

Modules:

- `Int32`: Rust's truncating `/` on `i32`.
- `Rects`: src/rect.rs. `Rect::new` is the datatype constructor `Rect`.
- `Macros`: the macros of src/lib.rs.
- `Win32`: the arithmetic of the Win32 wrappers.
- `Registry`: the ordered list of managed windows, generic over the record
  type, with `any!`, `find`, `position`, `retain`, `filter` and `manage`.
- `Text`: `str::contains`.
- `Configs`: src/config.rs.
- `Attributes`: the window attributes and the configuration exclusions.
- `Arrange`: src/arrange.rs.
- `Layout`: src/layout.rs.
- `Placements`: the tail of both `arrange`s.
- `Messages`: how a message is read.
- `WindowManagers` and `Wm`: the two managers.

The two stateful managers are classes. `managedWindows` is a `seq` field
that the methods reassign. Each method is proved against a specification
function (`ScanAll`, `Classify`, `Arrangement`, `Insert`, `Retain`), and
the properties of those functions are proved as lemmas. The loops of
`spiral_subdivide`, `arrange`, `scan` and `to_wide_arr!` are `while` loops
with invariants. `to_wide_arr!` fills an `array`.

Facts about the code that the model keeps as written:

- `dwindle(b, 0)` is `[b]`, not empty, because the fold starts from
  `vec![bounds]` over the empty range `1..0` (src/layout.rs:3-4,
  `Layout.LayoutsOnFewWindows`).
- The newer classifier skips only the process exclusion when the process
  name cannot be resolved (src/windowmanager.rs:96-103,
  `Attributes.UnresolvedProcessNeverExcludes`).
- The newer classifier requires a window that is not a tool window and not
  owned (src/windowmanager.rs:104-106, `WindowManagers.Admit`).
- The halves of a dwindle cut share their edge (src/layout.rs:19-23 and
  35-39), so the tiles' areas add up to the bounds' area exactly
  (`Layout.DwindleArea`).
- `Layouts` has three variants: `Dwindle`, `Monocle` and `Columns`
  (src/layout.rs:66-70).

src/wm.rs reads and writes `w.hwnd` and `w.minimized` on its `Window`.
src/window.rs in this revision defines `Window` as a one-field tuple struct,
so the record the older revision uses is not among the source files. The
model gives the older revision its own record `Wm.WmWindow(hwnd,
minimized)` and assumes that `Window::new` creates it with
`minimized = false`.

## Model

| member | source | states |
|---|---|---|
| Int32.Quot | src/arrange.rs:4 | `a / d` rounds toward zero: for `a >= 0`, `q*d <= a < q*d + d`; for `a < 0`, `a <= q*d < a + d` |
| Int32.HalfBounds | src/arrange.rs:4-6 | halving keeps the sign and does not grow the magnitude; twice the half of a non-negative value misses it by at most one |
| Rects.FromRECT | src/rect.rs:15-24 | keeps the origin; origin plus width/height gives right/bottom; an inverted `RECT` gives a negative width (no clamping) |
| Rects.Sub | src/rect.rs:26-36 | subtracts `b`'s origin from the origin and `b`'s width/height from the width/height |
| Rects.SubIdentities | src/rect.rs:26-36 | subtracting a zeroed `RECT` is the identity; a `RECT` minus itself is all zero |
| Rects.FromRECTInjective | src/rect.rs:15-24 | two `RECT`s that convert to the same `Rect` are equal |
| Macros.HasFlag | src/lib.rs:9-13 | false for a zero flag and whenever value and flag share no bit; true implies a non-zero value; a value containing a non-zero flag has it, so a single-bit flag is read exactly |
| Macros.LoWord | src/lib.rs:16-20 | the result is below 0x8000 and equals the word modulo 0x8000 (bit 15 is dropped) |
| Macros.HiWord | src/lib.rs:23-27 | the result is the high half-word modulo 0x8000 |
| Macros.MasksDropBit15 | src/lib.rs:16-27 | `LOWORD!(0x8000) == 0`, `HIWORD!(0x8000_0000) == 0`, and `0xFFFF` halves read as 0x7FFF |
| Macros.Wide | src/lib.rs:30-39 | the wide buffer always has 260 entries |
| Macros.ToWideArr | src/lib.rs:30-39 | the filled array has 260 entries and equals `Wide(s)` |
| Macros.WideTruncates | src/lib.rs:30-39 | characters past the 260th are ignored; entries past the string are 0; entry `i` is the `i`-th char truncated to 16 bits |
| Win32.StyleFromLong | src/win32/mod.rs:88-94 | a value in the `u32` range is kept, anything else becomes 0 |
| Win32.RejectedStyleHasNoFlags | src/win32.rs:48-54 | a style value outside the `u32` range reads as "no flag set" |
| Win32.IsCloaked | src/win32/dwm.rs:33-50 | cloaked only when the query succeeded and the value is one of the three low bits' values (non-zero, below 8); the exact set is `Win32.IsCloakedSingleBit` |
| Win32.IsCloakedSingleBit | src/win32/dwm.rs:33-50 | cloaked iff the query succeeded and the value is exactly one of APP/SHELL/INHERITED; the combination of APP and SHELL is not cloaked although it has the APP bit; a failed query is not cloaked |
| Win32.WorkingArea | src/win32.rs:64-89 | no visible taskbar gives the virtual-screen metrics; a failed `SPI_GETWORKAREA` gives an error; otherwise the work-area `RECT` converted to `(x, y, w, h)` |
| Win32.FrameMargin | src/win32/dwm.rs:13-31 | the window rectangle (zeroed when its query fails) moved out by the margin is the frame (zeroed when its query fails) |
| Win32.FrameMarginCases | src/win32/dwm.rs:13-31 | equal frame and window rectangle give a zero margin; a failed frame query gives the negated window rectangle |
| Win32.DeferArgs | src/win32/mod.rs:56-71 | the origin is shifted by the left/top margin; the width grows by twice the left margin; the height shrinks by the bottom margin |
| Win32.FrameLandsOnTarget | src/win32/mod.rs:56-71 | the visible frame lands on the target iff left+right margins cancel and the top margin is 0; the margin (7, 0, -7, -7) lands; a zero margin passes the rectangle unchanged |
| Registry.Any | src/lib.rs:2-6 | true iff some record's handle equals `h` |
| Registry.Find | src/windowmanager.rs:45-47 | none iff the handle is untracked; otherwise the record at `Position`, the first with that handle |
| Registry.Position | src/wm.rs:187 | none iff the handle is untracked; otherwise the index of the first record with that handle |
| Registry.Keys | src/windowmanager.rs:143-145 | the handles of the records, position by position |
| Registry.Retain | src/windowmanager.rs:125 | never longer than the list; which records survive and in what order is stated by `Registry.RetainMembers` and `Registry.RetainSubsequence` |
| Registry.Filter | src/windowmanager.rs:130-140 | never longer than the list, and every survivor is a member that the predicate accepts; the converse and the order are `Registry.FilterMembers` and `Registry.FilterSubsequence` |
| Registry.RetainMembers | src/windowmanager.rs:124 | exactly the records whose handle is not `h` survive `retain` |
| Registry.FilterMembers | src/windowmanager.rs:130-140 | exactly the records the predicate accepts survive `filter` |
| Registry.Insert | src/windowmanager.rs:49-59 | the old list is a prefix of the new one, which is at most one longer and tracks the record's handle |
| Registry.InsertProperties | src/windowmanager.rs:49-59 | `manage` keeps handles unique; afterwards the handle is tracked; the old list is a prefix; it grows by one iff the handle was untracked; a second `manage` changes nothing |
| Registry.RetainAbsent | src/windowmanager.rs:115-118 | removing an untracked handle leaves the list unchanged |
| Registry.RetainAt | src/windowmanager.rs:124 | with unique handles, removing the handle at index `i` deletes exactly position `i` |
| Registry.RetainUnique | src/windowmanager.rs:124 | removal keeps handles unique |
| Registry.RetainSubsequence | src/windowmanager.rs:124 | removal keeps the others in their relative order |
| Registry.FilterSubsequence | src/windowmanager.rs:130-140 | filtering keeps the registry order |
| Registry.FilterUnique | src/windowmanager.rs:130-140 | filtering keeps handles unique |
| Registry.RemovalProperties | src/windowmanager.rs:115-127 | after removing `h`: `h` is untracked, handles are unique, the order is kept, every other handle is tracked iff it was before, and the list shrank by one iff `h` was tracked |
| Text.Contains | src/windowmanager.rs:83 | `s.contains(p)` iff `p` occurs in `s` at some index |
| Text.ContainsAny | src/windowmanager.rs:84 | `needles.iter().any(contains)` iff some needle occurs |
| Text.ContainsAnyAppend | src/config.rs:27-28 | testing a concatenated list is testing either list |
| Text.EmptyNeedleMatches | src/windowmanager.rs:91 | an empty needle matches every string |
| Configs.MergeOptionVecs | src/config.rs:66-76 | absent iff both are absent; the entries are `a`'s followed by `b`'s |
| Configs.MergeOptionString | src/config.rs:78-85 | right-biased: `rhs` when present, else `lhs` |
| Configs.Add | src/config.rs:22-33 | keeps the left `CoreWindow` list, concatenates the class, process and title lists, and takes the right layout when present |
| Configs.Layered | src/config.rs:62 | the user's configuration over the default one keeps the default's `CoreWindow` list and the user's layout |
| Configs.MergeOptionVecsAssociative | src/config.rs:66-76 | merging lists is associative |
| Configs.AddAssociative | src/config.rs:22-33 | layering configurations is associative |
| Configs.AddEmpty | src/config.rs:22-33 | an empty configuration is a right identity; on the left only the `CoreWindow` list is lost |
| Configs.AddNotCommutative | src/config.rs:26 | layering is not commutative |
| Attributes.IsChild | src/windowmanager.rs:65-67 | `WS_CHILD` can be set only in a style value that fits in a `u32`, and then its bit is set |
| Attributes.IsDisabled | src/windowmanager.rs:65-69 | `WS_DISABLED` can be set only in a style value that fits in a `u32`, and then its bit is set |
| Attributes.IsTool | src/windowmanager.rs:66-70 | `WS_EX_TOOLWINDOW` can be set only in an extended style value that fits in a `u32`, and then its bit is set |
| Attributes.NoActivate | src/windowmanager.rs:66-72 | `WS_EX_NOACTIVATE` can be set only in an extended style value that fits in a `u32`, and then its bit is set |
| Attributes.IsAppWindow | src/wm.rs:82-85 | `WS_EX_APPWINDOW` can be set only in an extended style value that fits in a `u32`, and then its bit is set |
| Attributes.WindowCloaked | src/windowmanager.rs:68 | a window is cloaked only when the DWM query succeeded |
| Attributes.ExcludedByConfig | src/windowmanager.rs:82-103 | excluded iff (a `CoreWindow` class and a listed title occurs in the title) or a listed class occurs in the class or a listed process occurs in a resolved process name |
| Attributes.ExcludedByLayered | src/config.rs:22-33 | a layered configuration excludes what the base excludes plus what the other excludes by class or process |
| Attributes.UnresolvedProcessNeverExcludes | src/windowmanager.rs:96-103 | an unresolved process name makes the process list irrelevant |
| Attributes.EmptyClassEntryExcludesAll | src/windowmanager.rs:90-95 | an empty class entry excludes every window |
| Arrange.Subdivide | src/arrange.rs:1-8 | two tiles side by side (vertical) or stacked (horizontal), of equal size, the second starting where the first ends; each is the size halved toward zero, so a non-negative size loses at most one pixel and a negative one gains at most one |
| Arrange.Spiral | src/arrange.rs:10-18 | the spiral of `n` windows has `max(n, 1)` tiles |
| Arrange.SpiralSubdivide | src/arrange.rs:10-18 | the loop (whose list is never empty, so `pop` cannot fail) computes `Spiral(b, n)` |
| Arrange.SpiralTwo | src/arrange.rs:10-18 | two windows get the two vertical halves |
| Arrange.SpiralThree | src/arrange.rs:10-18 | three windows get the left half, then the top and bottom of the right half |
| Arrange.SpiralThreeSplits | src/arrange.rs:10-18 | three windows: the first vertical half, then the right half split horizontally |
| Arrange.SpiralPrefix | src/arrange.rs:12-16 | more windows never move the tiles of the earlier ones, except the previously last one |
| Arrange.SubdivideTiles | src/arrange.rs:1-8 | for a non-negative size, the halves lie inside the tile and do not overlap |
| Arrange.SpiralTiles | src/arrange.rs:10-18 | for a non-negative size, every tile lies inside the bounds and no two overlap |
| Arrange.SpiralInRange | src/arrange.rs:10-18 | with bounds in the `i32` range, every tile coordinate is in range, so the `i32` arithmetic cannot overflow |
| Arrange.HalvesArea | src/arrange.rs:1-8 | the halves never cover more area than the tile |
| Arrange.SpiralArea | src/arrange.rs:10-18 | the tiles cover at most the area of the bounds |
| Layout.Bisect | src/layout.rs:7-44 | a vertical cut changes only the first half's right edge and the second half's left edge, which coincide at the midpoint: for a well-formed `RECT` the right part is as wide as the left one or one pixel wider; a horizontal cut does the same with bottom/top |
| Layout.DwindleStep | src/layout.rs:4-47 | one step adds one tile and keeps all but the last earlier tile |
| Layout.Fold | src/layout.rs:4 | folding over `v..n` adds `n - v` tiles |
| Layout.DwindleTiles | src/layout.rs:3-48 | `dwindle(b, n)` has `n` tiles for `n >= 1` and one for `n == 0` |
| Layout.FoldLast | src/layout.rs:4-47 | the fold to `n + 1` is one more step after the fold to `n` |
| Layout.DwindleSucc | src/layout.rs:4-47 | `dwindle(b, n + 1)` is step `n` applied to `dwindle(b, n)` |
| Layout.DwindleTwo | src/layout.rs:3-48 | two windows: the bounds cut at the vertical midpoint |
| Layout.DwindleThree | src/layout.rs:3-48 | three windows: the left half, then the right half cut at its horizontal midpoint |
| Layout.DwindlePrefix | src/layout.rs:5-6 | more windows never move the tiles of the earlier ones, except the previously last one |
| Layout.DwindleKeepsPrefix | src/layout.rs:4-6 | `dwindle(n - 1)` has `n - 1` tiles and `dwindle(n)` keeps its first `n - 2` |
| Layout.BisectPartition | src/layout.rs:14-43 | for a well-formed `RECT` the halves lie within it and are apart |
| Layout.BisectArea | src/layout.rs:14-43 | the halves' areas add up to the whole's |
| Layout.StepPartition | src/layout.rs:5-45 | a step keeps a partition of the bounds |
| Layout.DwindlePartition | src/layout.rs:3-48 | for well-formed bounds every tile lies within them and no two overlap |
| Layout.StepArea | src/layout.rs:5-45 | a step keeps the total area |
| Layout.DwindleArea | src/layout.rs:3-48 | the tiles' areas add up to the bounds' area exactly |
| Layout.MonocleTiles | src/layout.rs:50-52 | exactly `n` copies of the bounds |
| Layout.ColumnTiles | src/layout.rs:54-64 | `n` columns (the source panics for `n == 0`) |
| Layout.ColumnsShape | src/layout.rs:54-64 | equal widths; each column starts where the previous ends, the first at x = 0; the bounds' top and bottom are kept; for non-negative width the columns miss fewer than `n` pixels |
| Layout.ColumnsWithin | src/layout.rs:58 | columns partition bounds that start at x = 0; when the bounds start further right, the first column lies outside them |
| Layout.Arrange | src/layout.rs:72-80 | dispatches to the matching layout with unchanged arguments |
| Layout.LayoutsOnFewWindows | src/layout.rs:66-80 | with one window dwindle and monocle give the bounds, and columns does iff the bounds start at 0; with none dwindle still gives the bounds and monocle nothing |
| Placements.Zip | src/windowmanager.rs:143-145 | pairs up to the shorter list, element by element |
| Placements.Layout | src/windowmanager.rs:141-145 | one call per window, the `i`-th call for the `i`-th window; the tiles are stated by `Placements.LayoutProperties` |
| Placements.PositionWindows | src/windowmanager.rs:141-145 | the loop issues exactly the calls of `Layout(hs, area)` |
| Placements.LayoutProperties | src/windowmanager.rs:141-145 | one call per window, window `k` getting tile `k`; none for no window; a lone window gets the whole area; tiles inside the area and apart |
| Placements.LayoutStable | src/arrange.rs:12-16 | a new window leaves all earlier windows but the previously last one where they were |
| Messages.ShellCode | src/windowmanager.rs:157 | the shell code is the low 15 bits of `wparam` (`wparam & 0x7FFF`), hence below 0x8000 |
| Messages.Decode | src/windowmanager.rs:157-205 | a shell event needs `msg == shell_hook_id`; a message that is neither custom nor the shell hook id is unhandled; the exact reading of each arm is `Messages.DecodeProperties` |
| Messages.DecodeProperties | src/windowmanager.rs:158-205 | each custom id is read as its own event; a shell event needs `msg == shell_hook_id`, a non-custom id and the code; everything else is unhandled |
| Messages.IdsDistinct | src/windowmanager.rs:18-21 | both revisions' ids are distinct; 0x402 is custom only in the older one |
| Messages.ShellCodeMasks | src/windowmanager.rs:157 | only the low 15 bits of `wparam` matter; 0x8001 reads as "created" |
| WindowManagers.Admit | src/windowmanager.rs:65-109 | admitted iff titled, not disabled, not excluded, not cloaked, visible, activatable, not a child, not a tool window and not owned |
| WindowManagers.AdmitLayered | src/windowmanager.rs:82-103 | what a layered configuration admits, the base admits |
| WindowManagers.Shown | src/windowmanager.rs:134-139 | a window is shown only when the desktop query succeeded (and, by definition, answered true and the window is not iconic) |
| WindowManagers.OnScreen | src/windowmanager.rs:130-140 | every window kept is a managed one that is shown; the converse and the order are `WindowManagers.OnScreenProperties` |
| WindowManagers.OnScreenProperties | src/windowmanager.rs:130-140 | the windows `arrange` positions are exactly the managed ones that are not minimised and whose desktop query answers `Ok(true)`, in registry order, each once |
| WindowManagers.ScanStep | src/windowmanager.rs:220-226 | one scan step leaves the list unchanged or appends exactly the scanned window |
| WindowManagers.ScanAll | src/windowmanager.rs:220-226 | enumeration only appends: the old list is a prefix of the result |
| WindowManagers.ScanStepProperties | src/windowmanager.rs:220-226 | one scan step appends at most the scanned window, and only an admitted one |
| WindowManagers.ScanAllGrows | src/windowmanager.rs:220-226 | enumeration keeps handles unique, only appends, and appends only admitted handles it saw |
| WindowManagers.ScanAllTracks | src/windowmanager.rs:220-226 | after enumeration every admitted handle seen is tracked |
| WindowManagers.ScanAllStable | src/windowmanager.rs:220-226 | enumeration changes nothing when every admitted handle is tracked already |
| WindowManagers.ScanAllIdempotent | src/windowmanager.rs:220-226 | enumerating the same handles twice is enumerating them once |
| WindowManagers.WindowManager.constructor | src/windowmanager.rs:32-43 | starts with no window and shell hook id 0 |
| WindowManagers.WindowManager.GetWindow | src/windowmanager.rs:45-47 | the window with that handle iff it is tracked |
| WindowManagers.WindowManager.Manage | src/windowmanager.rs:49-59 | returns the window; a tracked handle leaves the list unchanged, an untracked one is appended; handles stay unique |
| WindowManagers.WindowManager.IsManageable | src/windowmanager.rs:61-109 | a tracked handle is manageable without looking at it; otherwise `Admit` decides |
| WindowManagers.WindowManager.SetShellHookId | src/windowmanager.rs:111-113 | stores the id |
| WindowManagers.WindowManager.Unmanage | src/windowmanager.rs:115-127 | removes the handle iff it is tracked and the desktop query answers `Ok(true)`; otherwise nothing changes |
| WindowManagers.WindowManager.Arrange | src/windowmanager.rs:129-146 | the calls are the spiral layout of the shown windows |
| WindowManagers.WindowManager.Arrangement | src/windowmanager.rs:129-146 | every call is for a tracked window that is shown |
| WindowManagers.WindowManager.MessageLoop | src/windowmanager.rs:148-208 | cloaked/destroyed on a tracked window: unmanage then arrange; uncloaked/created on an untracked admitted window: append then arrange; minimise start/end on a tracked window: arrange only; unmatched: default procedure; otherwise nothing |
| WindowManagers.WindowManager.Scan | src/windowmanager.rs:220-226 | the registry becomes `ScanAll` of the old one over the handles |
| Wm.Decide | src/wm.rs:96-129 | acceptance needs a title and no configured exclusion; a window with a parent that was not accepted is rejected, and so is an invisible window whose parent was not accepted; the exact formula is `Wm.DecideFormula` |
| Wm.Classify | src/wm.rs:69-130 | the registry only grows (the old one is a prefix) and the null handle is never accepted; the verdict is `Wm.ClassifyVerdict`, the registry change `Wm.ClassifyGrows` |
| Wm.DecideFormula | src/wm.rs:96-129 | the decision is the two-conjunct formula, and the tool/app conjunct is implied by the first, so the tool and app flags never matter |
| Wm.RevisionsOnTopLevel | src/wm.rs:96-129 | for a window without a parent, the newer revision admits exactly what the older accepts that is not a child, not a tool window and not owned |
| Wm.ClassifyVerdict | src/wm.rs:69-130 | the null handle is rejected, a tracked one accepted as is; otherwise accepted iff titled, enabled, activatable, uncloaked, not excluded, and visible top-level or with an accepted parent |
| Wm.ClassifyGrows | src/wm.rs:79-94 | classifying keeps handles unique, only appends, and appends only not-minimised ancestors; an accepted parent is tracked afterwards |
| Wm.ClassifyNeverAddsSelf | src/wm.rs:79-94 | the classified handle itself is never appended |
| Wm.ClassifyIdempotent | src/wm.rs:69-130 | classifying again gives the same verdict and registry |
| Wm.SetMinimized | src/wm.rs:190 | only record `i`'s flag changes |
| Wm.SetMinimizedKeepsHandles | src/wm.rs:143-159 | setting the flag keeps the handles and uniqueness and does not change which windows `arrange` positions |
| Wm.OnScreenKeys | src/wm.rs:143-153 | two registries with the same handles position by position give the same handles to `arrange` |
| Wm.NotIconic | src/wm.rs:148-152 | the filter of `arrange`: keeps a window that `IsIconic` does not report as minimised; no contract of its own, its effect is stated by `Wm.OnScreen` |
| Wm.OnScreen | src/wm.rs:143-153 | every window kept is a managed one that `IsIconic` does not report as minimised |
| Wm.ScanStep | src/wm.rs:243-249 | one scan step only appends (ancestors registered by `Classify`, then the window if accepted) |
| Wm.ScanAll | src/wm.rs:243-249 | enumeration only appends: the old list is a prefix of the result |
| Wm.ScanAllGrows | src/wm.rs:243-249 | enumeration keeps handles unique, only appends, and afterwards tracks every handle that `Classify` accepted at its turn, on the registry the handles before it left |
| Wm.ScanAllCons | src/wm.rs:243-249 | enumerating a non-empty list is one scan step followed by the rest |
| Wm.WM.constructor | src/wm.rs:37-46 | starts with no window and shell hook id 0 |
| Wm.WM.GetWindow | src/wm.rs:50-55 | the record with that handle iff it is tracked |
| Wm.WM.Manage | src/wm.rs:57-67 | a tracked handle returns its stored record, `minimized` flag included, and leaves the list unchanged; an untracked one is appended not minimised and that new record is returned |
| Wm.WM.IsManageable | src/wm.rs:69-130 | the verdict and the new registry (with an accepted parent appended) are those of `Classify` |
| Wm.WM.SetShellHookId | src/wm.rs:132-134 | stores the id |
| Wm.WM.Unmanage | src/wm.rs:136-141 | removes a tracked handle without any desktop check; an untracked handle changes nothing |
| Wm.WM.Arrange | src/wm.rs:143-159 | the calls are the spiral layout of the windows that are not minimised |
| Wm.WM.Arrangement | src/wm.rs:143-159 | every call is for a tracked window that is not iconic |
| Wm.WM.MessageLoop | src/wm.rs:161-231 | as the newer loop, but an uncloaked/created window goes through `Classify`, which may register ancestors even when the window is rejected; minimise end sets the flag to false and arranges; minimise start sets it to `IsIconic` and arranges only when that is true |
| Wm.WM.Scan | src/wm.rs:243-249 | the registry becomes `ScanAll` of the old one over the handles |

## Left out

- The `i32` width of coordinates: they are unbounded integers. `Arrange.SpiralInRange` shows the spiral stays in range for bounds in range; `dwindle`, `columns`, `defer_window_pos` and the `Rect` conversions may overflow in the source for extreme inputs, which is not modelled.
- `usize`/`isize`/`u32` casts other than the style conversion and the `wparam` mask: `n as i32` in `columns` is taken to be exact.
- All OS and COM plumbing: window-class registration, the message pump, the WinEvent and shell hooks, `EnumWindows` and its `LPARAM` self-pointer cast, the virtual-desktop COM service, the taskbar, the theme registry read, the singleton mutex, `get_exe_filename`, `post_message` and the other thin Win32 wrappers. Their answers are inputs. `scan` is modelled as a loop over a given handle sequence.
- The failure paths of `WindowManager::new` and `WM::new`: the constructors take the working area that `get_working_area` (modelled by `Win32.WorkingArea`) produced, and the newer one's virtual-desktop service is part of `Env`.
- `Config::load_default` and `load_or_create_user_config`: reading, writing and parsing YAML files; only the final layering `default + user` is modelled (`Configs.Layered`).
- The `Error` type of src/lib.rs and its conversions, src/main.rs, src/appwindow.rs and build.rs: startup wiring with no logic of its own.
- The accessors of src/window.rs: each is one OS query; a window is its handle.
- `get_working_area` in src/win32/mod.rs (as opposed to src/win32.rs) is not part of this model.
- The OS state is a snapshot: `Env` does not change while one message is handled, so a window that changes between two queries of the same message is not modelled.
- Logging (`info!`, `debug!`) is left out.
- Win32.StyleFromLong: its contract restates the conversion; what it means for the classifiers is stated by `Win32.RejectedStyleHasNoFlags`.
- Layout.ColumnTiles: requires at least one window, because the source divides by zero (a panic) with none.
- Wm.WM.MessageLoop: the stored `minimized` flag is read only right after minimise start sets it (src/wm.rs:200-201); `arrange` asks `IsIconic` again, so the model states the flag updates and the arrange decision but proves no property that depends on the stored flag elsewhere (`Wm.SetMinimizedKeepsHandles`).
- `Wm.WmWindow` and `Wm.NewWindow`: the older revision's `Window` record and `Window::new` are not among the source files; the model assumes the two fields `hwnd` and `minimized` and a new record that is not minimised.
